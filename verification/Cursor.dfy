/** The opaque list cursor: a timestamp and an id, in URL-safe base64. An instant is given by its UTC
    calendar fields; a character stands for one byte. */
module Cursor {
  import opened Wrappers
  import opened Base64

  // ---------- Decimal fields ----------

  predicate IsDigit(c: char) {
    '0' <= c <= '9'
  }

  function Digit(n: nat): char
    requires n < 10
  {
    '0' + n as char
  }

  /** The last `w` decimal digits of `n`. */
  function Digits(n: nat, w: nat): (s: string)
    ensures |s| == w && forall c <- s :: IsDigit(c)
  {
    if w == 0 then "" else Digits(n / 10, w - 1) + [Digit(n % 10)]
  }

  function Value(s: string): nat
    requires forall c <- s :: IsDigit(c)
  {
    if s == "" then 0
    else
      assert IsDigit(s[|s| - 1]);
      Value(s[..|s| - 1]) * 10 + (s[|s| - 1] as int - '0' as int)
  }

  function Power10(w: nat): nat {
    if w == 0 then 1 else 10 * Power10(w - 1)
  }

  lemma {:induction false} DigitsValue(n: nat, w: nat)
    requires n < Power10(w)
    ensures Value(Digits(n, w)) == n
  {
    if w > 0 {
      DigitsValue(n / 10, w - 1);
      var front := Digits(n / 10, w - 1);
      assert (front + [Digit(n % 10)])[..w - 1] == front;
    }
  }

  // ---------- Timestamps ----------

  datatype Stamp = Stamp(year: int, month: nat, day: nat, hour: nat, minute: nat, second: nat, nano: nat)

  predicate Leap(year: int) {
    year % 4 == 0 && (year % 100 != 0 || year % 400 == 0)
  }

  function DaysIn(year: int, month: nat): nat {
    if month == 2 then if Leap(year) then 29 else 28
    else if month in {4, 6, 9, 11} then 30
    else 31
  }

  predicate ValidStamp(t: Stamp) {
    && 1 <= t.month <= 12 && 1 <= t.day <= DaysIn(t.year, t.month)
    && t.hour < 24 && t.minute < 60 && t.second < 60 && t.nano < 1_000_000_000
  }

  /** At least four digits, more when the year needs them, and a sign before the year 0. */
  function YearText(year: int): string {
    if year < 0 then "-" + YearDigits(-year) else YearDigits(year)
  }

  function YearDigits(n: nat): (s: string)
    ensures |s| >= 4 && forall c <- s :: IsDigit(c)
    ensures n >= 10000 <==> |s| >= 5
    decreases n
  {
    if n < 10000 then Digits(n, 4) else YearDigits(n / 10) + [Digit(n % 10)]
  }

  function TrimZeros(s: string): string {
    if s != "" && s[|s| - 1] == '0' then TrimZeros(s[..|s| - 1]) else s
  }

  function PadZeros(s: string, w: nat): string
    decreases w - |s|
  {
    if |s| >= w then s else PadZeros(s + "0", w)
  }

  /** Nanoseconds without trailing zeros, and nothing at all for none. */
  function FractionText(nano: nat): string {
    if nano == 0 then "" else "." + TrimZeros(Digits(nano, 9))
  }

  function FormatStamp(t: Stamp): string {
    YearText(t.year) + "-" + Digits(t.month, 2) + "-" + Digits(t.day, 2) + "T"
      + Digits(t.hour, 2) + ":" + Digits(t.minute, 2) + ":" + Digits(t.second, 2) + FractionText(t.nano) + "Z"
  }

  predicate AllDigits(s: string) {
    forall c <- s :: IsDigit(c)
  }

  function ParseFraction(s: string): Option<nat> {
    if s == "" then Some(0)
    else if |s| >= 2 && (s[0] == '.' || s[0] == ',') && AllDigits(s[1..]) then
      (PadKeepsDigits(s[1..], 9);
       Some(Value(PadZeros(s[1..], 9)[..9])))
    else None
  }

  /** The date and time at their fixed places, then a fraction, then the zone. */
  function ParseStamp(s: string): Option<Stamp> {
    if |s| < 20 then None
    else if !(AllDigits(s[0..4]) && s[4] == '-' && AllDigits(s[5..7]) && s[7] == '-' && AllDigits(s[8..10]) && s[10] == 'T'
              && AllDigits(s[11..13]) && s[13] == ':' && AllDigits(s[14..16]) && s[16] == ':' && AllDigits(s[17..19])) then None
    else if s[|s| - 1] != 'Z' then None
    else
      match ParseFraction(s[19..|s| - 1])
      case None => None
      case Some(nano) =>
        var t := Stamp(Value(s[0..4]), Value(s[5..7]), Value(s[8..10]), Value(s[11..13]), Value(s[14..16]), Value(s[17..19]), nano);
        if ValidStamp(t) then Some(t) else None
  }

  lemma {:induction false} PadKeepsDigits(s: string, w: nat)
    requires AllDigits(s)
    ensures |PadZeros(s, w)| >= w && AllDigits(PadZeros(s, w)) && s <= PadZeros(s, w)
    ensures |s| <= w ==> |PadZeros(s, w)| == w
    decreases w - |s|
  {
    if |s| < w {
      PadKeepsDigits(s + "0", w);
    }
  }

  lemma {:induction false} PadUndoesTrim(s: string)
    ensures PadZeros(TrimZeros(s), |s|) == s
    ensures TrimZeros(s) <= s
  {
    PadTrimTo(s, |s|);
  }

  /** Padding what is left after trimming restores it, one zero at a time. */
  lemma {:induction false} PadTrimTo(s: string, w: nat)
    requires |s| <= w
    ensures TrimZeros(s) <= s && PadZeros(TrimZeros(s), w) == PadZeros(s, w)
  {
    if s != "" && s[|s| - 1] == '0' {
      var front := s[..|s| - 1];
      PadTrimTo(front, w);
      assert front + "0" == s;
    }
  }

  lemma TrimSnoc(front: string, c: char)
    ensures TrimZeros(front + [c]) == if c == '0' then TrimZeros(front) else front + [c]
  {
    assert (front + [c])[..|front|] == front;
  }

  lemma {:induction false} TrimKeepsSome(n: nat, w: nat)
    requires 0 < n < Power10(w)
    ensures TrimZeros(Digits(n, w)) != ""
  {
    TrimSnoc(Digits(n / 10, w - 1), Digit(n % 10));
    if n % 10 == 0 {
      TrimKeepsSome(n / 10, w - 1);
    }
  }

  lemma FractionRoundTrip(nano: nat)
    requires nano < 1_000_000_000
    ensures ParseFraction(FractionText(nano)) == Some(nano)
  {
    if nano > 0 {
      var digits := Digits(nano, 9);
      assert Power10(9) == 1_000_000_000;
      DigitsValue(nano, 9);
      PadUndoesTrim(digits);
      TrimKeepsSome(nano, 9);
      var text := FractionText(nano);
      assert text[1..] == TrimZeros(digits);
      assert forall c <- TrimZeros(digits) :: c in digits;
      assert digits[..9] == digits;
    }
  }

  lemma FieldValue(n: nat)
    requires n < 100
    ensures Value(Digits(n, 2)) == n
  {
    assert Power10(2) == 100;
    DigitsValue(n, 2);
  }

  /** Where the fields stand when the year takes four characters. */
  lemma Layout(y: string, mo: string, d: string, h: string, mi: string, se: string, f: string)
    requires |y| == 4 && |mo| == |d| == |h| == |mi| == |se| == 2
    ensures var s := y + "-" + mo + "-" + d + "T" + h + ":" + mi + ":" + se + f + "Z";
            && |s| == 20 + |f| && s[0..4] == y && s[4] == '-' && s[5..7] == mo && s[7] == '-' && s[8..10] == d && s[10] == 'T'
            && s[11..13] == h && s[13] == ':' && s[14..16] == mi && s[16] == ':' && s[17..19] == se
            && s[19..|s| - 1] == f && s[|s| - 1] == 'Z'
  {
  }

  /** A year outside 0 to 9999 pushes the first dash off its place. */
  lemma LongYearHasNoDash(y: string, rest: string)
    requires |y| >= 5 && AllDigits(y)
    ensures |y + rest| >= 5 && (y + rest)[4] != '-'
  {
    assert (y + rest)[4] == y[4] && y[4] in y;
  }

  function AfterYear(t: Stamp): string {
    "-" + Digits(t.month, 2) + "-" + Digits(t.day, 2) + "T"
      + Digits(t.hour, 2) + ":" + Digits(t.minute, 2) + ":" + Digits(t.second, 2) + FractionText(t.nano) + "Z"
  }

  lemma FormatIsYearFirst(t: Stamp)
    ensures FormatStamp(t) == YearText(t.year) + AfterYear(t)
  {
    var y := YearText(t.year);
    assert FormatStamp(t)[..|y|] == y && FormatStamp(t)[|y|..] == AfterYear(t);
  }

  /** Formatting and parsing are inverse on exactly the years that take four digits. */
  lemma StampRoundTripIff(t: Stamp)
    requires ValidStamp(t)
    ensures ParseStamp(FormatStamp(t)) == Some(t) <==> 0 <= t.year <= 9999
  {
    if 0 <= t.year <= 9999 {
      FourDigitYear(t);
    } else {
      FormatIsYearFirst(t);
      var s := FormatStamp(t);
      if t.year < 0 {
        assert s[0] == '-' && (|s| >= 4 ==> s[0] in s[0..4]);
      } else {
        LongYearHasNoDash(YearText(t.year), AfterYear(t));
      }
    }
  }

  /** The text is year, month and day, "T", hour, minute and second, a fraction unless it is zero, and "Z",
      each field in decimal at its full width. */
  lemma FieldsStand(t: Stamp)
    requires ValidStamp(t) && 0 <= t.year <= 9999
    ensures var s := FormatStamp(t);
            && |s| >= 20 && s[4] == s[7] == '-' && s[10] == 'T' && s[13] == s[16] == ':' && s[|s| - 1] == 'Z'
            && AllDigits(s[0..4]) && AllDigits(s[5..7]) && AllDigits(s[8..10])
            && AllDigits(s[11..13]) && AllDigits(s[14..16]) && AllDigits(s[17..19])
            && Value(s[0..4]) == t.year && Value(s[5..7]) == t.month && Value(s[8..10]) == t.day
            && Value(s[11..13]) == t.hour && Value(s[14..16]) == t.minute && Value(s[17..19]) == t.second
            && (t.nano == 0 <==> |s| == 20) && (t.nano > 0 ==> s[19] == '.')
  {
    var y, mo, d := Digits(t.year, 4), Digits(t.month, 2), Digits(t.day, 2);
    var h, mi, se, f := Digits(t.hour, 2), Digits(t.minute, 2), Digits(t.second, 2), FractionText(t.nano);
    Layout(y, mo, d, h, mi, se, f);
    FieldsValue(t);
    var s := FormatStamp(t);
    assert s[19..|s| - 1] == f;
    assert t.nano > 0 ==> f[0] == '.' && s[19] == f[0];
  }

  lemma FourDigitYear(t: Stamp)
    requires ValidStamp(t) && 0 <= t.year <= 9999
    ensures ParseStamp(FormatStamp(t)) == Some(t)
  {
    var y, mo, d := Digits(t.year, 4), Digits(t.month, 2), Digits(t.day, 2);
    var h, mi, se, f := Digits(t.hour, 2), Digits(t.minute, 2), Digits(t.second, 2), FractionText(t.nano);
    Layout(y, mo, d, h, mi, se, f);
    FieldsValue(t);
    var s := FormatStamp(t);
    assert AllDigits(s[0..4]) && AllDigits(s[5..7]) && AllDigits(s[8..10]);
    assert AllDigits(s[11..13]) && AllDigits(s[14..16]) && AllDigits(s[17..19]);
    assert ParseFraction(s[19..|s| - 1]) == Some(t.nano);
  }

  lemma FieldsValue(t: Stamp)
    requires ValidStamp(t) && 0 <= t.year <= 9999
    ensures Value(Digits(t.year, 4)) == t.year && Value(Digits(t.month, 2)) == t.month && Value(Digits(t.day, 2)) == t.day
    ensures Value(Digits(t.hour, 2)) == t.hour && Value(Digits(t.minute, 2)) == t.minute && Value(Digits(t.second, 2)) == t.second
    ensures ParseFraction(FractionText(t.nano)) == Some(t.nano)
  {
    assert Power10(4) == 10000;
    DigitsValue(t.year, 4);
    FieldValue(t.month);
    FieldValue(t.day);
    FieldValue(t.hour);
    FieldValue(t.minute);
    FieldValue(t.second);
    FractionRoundTrip(t.nano);
  }

  // ---------- Ids and cursors ----------

  predicate IsHex(c: char) {
    IsDigit(c) || 'a' <= c <= 'f' || 'A' <= c <= 'F'
  }

  /** The canonical 8-4-4-4-12 form. */
  predicate IsUuid(s: string) {
    |s| == 36 && forall i | 0 <= i < 36 :: if i in {8, 13, 18, 23} then s[i] == '-' else IsHex(s[i])
  }

  method CheckUuid(s: string) returns (ok: bool)
    ensures ok == IsUuid(s)
    ensures ok <==> |s| == 36 && s[8] == s[13] == s[18] == s[23] == '-'
                    && forall i | 0 <= i < 36 && i !in {8, 13, 18, 23} ::
                         '0' <= s[i] <= '9' || 'a' <= s[i] <= 'f' || 'A' <= s[i] <= 'F'
  {
    if |s| != 36 {
      return false;
    }
    for i := 0 to 36
      invariant forall j | 0 <= j < i :: if j in {8, 13, 18, 23} then s[j] == '-' else IsHex(s[j])
    {
      if i == 8 || i == 13 || i == 18 || i == 23 {
        if s[i] != '-' {
          return false;
        }
      } else if !IsHex(s[i]) {
        return false;
      }
    }
    ok := true;
  }

  datatype ListCursor = ListCursor(createdAt: Stamp, id: string)

  function ToBytes(s: string): seq<Byte> {
    seq(|s|, i requires 0 <= i < |s| => s[i] as int % 256)
  }

  function FromBytes(b: seq<Byte>): string {
    seq(|b|, i requires 0 <= i < |b| => b[i] as char)
  }

  function CursorText(c: ListCursor): string {
    FormatStamp(c.createdAt) + "|" + c.id
  }

  function EncodeCursor(c: ListCursor): string {
    EncodeRaw(ToBytes(CursorText(c)), Url)
  }

  /** The text before the first bar and the text after it, if there is one. */
  function CutBar(s: string): Option<(string, string)> {
    if s == "" then None
    else if s[0] == '|' then Some(("", s[1..]))
    else match CutBar(s[1..]) case None => None case Some(p) => Some(([s[0]] + p.0, p.1))
  }

  lemma {:induction false} CutBarAt(a: string, b: string)
    requires '|' !in a
    ensures CutBar(a + "|" + b) == Some((a, b))
  {
    var s := a + "|" + b;
    if a == "" {
      assert s[1..] == b;
    } else {
      CutBarAt(a[1..], b);
      assert s[0] == a[0] && s[1..] == a[1..] + "|" + b;
      assert [a[0]] + a[1..] == a;
    }
  }

  /** An absent cursor asks for the first page; anything else must be one of ours. */
  function ParseListCursor(raw: string): (r: Result<Option<ListCursor>, ()>)
    ensures r.Ok? && r.value.Some? ==> IsUuid(r.value.value.id) && ValidStamp(r.value.value.createdAt)
    ensures r == Ok(None) <==> raw == ""
  {
    if raw == "" then Ok(None)
    else
      match DecodeRaw(raw, Url)
      case None => Err(())
      case Some(decoded) =>
        match CutBar(FromBytes(decoded))
        case None => Err(())
        case Some(parts) =>
          if parts.1 == "" then Err(())
          else match ParseStamp(parts.0)
            case None => Err(())
            case Some(at) => if IsUuid(parts.1) then Ok(Some(ListCursor(at, parts.1))) else Err(())
  }

  predicate OneByte(s: string) {
    forall c <- s :: c as int < 256
  }

  lemma BytesRoundTrip(s: string)
    requires OneByte(s)
    ensures FromBytes(ToBytes(s)) == s
  {
    forall i | 0 <= i < |s| ensures FromBytes(ToBytes(s))[i] == s[i] {
      assert s[i] in s;
    }
  }

  lemma StampIsPlain(t: Stamp)
    ensures '|' !in FormatStamp(t) && OneByte(FormatStamp(t)) && FormatStamp(t) != ""
  {
    FractionIsPlain(t.nano);
  }

  lemma FractionIsPlain(nano: nat)
    ensures '|' !in FractionText(nano) && OneByte(FractionText(nano))
  {
    PadUndoesTrim(Digits(nano, 9));
    assert forall c <- TrimZeros(Digits(nano, 9)) :: c in Digits(nano, 9);
  }

  /** A cursor handed out comes back as itself exactly when its year takes four digits and its id is a
      UUID, as every stored row's is. */
  lemma CursorRoundTripIff(c: ListCursor)
    requires ValidStamp(c.createdAt)
    ensures ParseListCursor(EncodeCursor(c)) == Ok(Some(c)) <==> 0 <= c.createdAt.year <= 9999 && IsUuid(c.id)
  {
    if IsUuid(c.id) {
      assert OneByte(c.id);
      StampIsPlain(c.createdAt);
      var text := CursorText(c);
      BytesRoundTrip(text);
      RawRoundTrip(ToBytes(text), Url);
      CutBarAt(FormatStamp(c.createdAt), c.id);
      StampRoundTripIff(c.createdAt);
      EncodedIsNotEmpty(ToBytes(text));
    }
  }

  lemma EncodedIsNotEmpty(b: seq<Byte>)
    requires b != []
    ensures EncodeRaw(b, Url) != ""
  {
    PackLength(b);
  }
}
