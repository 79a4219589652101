/** Base64 after RFC 4648: section 4 with padding for signatures, section 5 without padding for cursors. */
module Base64 {
  import opened Wrappers
  import opened Seqs

  type Byte = x: int | 0 <= x < 256
  type Sextet = x: int | 0 <= x < 64

  datatype Alphabet = Standard | Url

  function EncodeChar(v: Sextet, alphabet: Alphabet): char {
    if v < 26 then (v + 'A' as int) as char
    else if v < 52 then (v - 26 + 'a' as int) as char
    else if v < 62 then (v - 52 + '0' as int) as char
    else if v == 62 then (if alphabet == Standard then '+' else '-')
    else (if alphabet == Standard then '/' else '_')
  }

  function DecodeChar(c: char, alphabet: Alphabet): Option<Sextet> {
    if 'A' <= c <= 'Z' then Some(c as int - 'A' as int)
    else if 'a' <= c <= 'z' then Some(c as int - 'a' as int + 26)
    else if '0' <= c <= '9' then Some(c as int - '0' as int + 52)
    else if c == (if alphabet == Standard then '+' else '-') then Some(62)
    else if c == (if alphabet == Standard then '/' else '_') then Some(63)
    else None
  }

  lemma CharRoundTrip(v: Sextet, alphabet: Alphabet)
    ensures DecodeChar(EncodeChar(v, alphabet), alphabet) == Some(v)
    ensures var c := EncodeChar(v, alphabet); c != '=' && c != '\n' && c != '\r' && c != '|'
  {
  }

  // ---------- Bytes and sextets ----------

  function Pack(b: seq<Byte>): seq<Sextet> {
    if |b| == 0 then []
    else if |b| == 1 then [b[0] / 4, b[0] % 4 * 16]
    else if |b| == 2 then [b[0] / 4, b[0] % 4 * 16 + b[1] / 16, b[1] % 16 * 4]
    else Quantum(b[0], b[1], b[2]) + Pack(b[3..])
  }

  /** Three bytes as four sextets. */
  function Quantum(b0: Byte, b1: Byte, b2: Byte): (q: seq<Sextet>)
    ensures |q| == 4
  {
    [b0 / 4, b0 % 4 * 16 + b1 / 16, b1 % 16 * 4 + b2 / 64, b2 % 64]
  }

  lemma {:induction false} PackLength(b: seq<Byte>)
    ensures |Pack(b)| % 4 == if |b| % 3 == 0 then 0 else |b| % 3 + 1
    ensures |Pack(b)| == 0 <==> |b| == 0
  {
    if |b| > 2 {
      PackLength(b[3..]);
      assert |Pack(b)| == 4 + |Pack(b[3..])| && |b[3..]| == |b| - 3;
    }
  }

  function First(x: int, y: int): Byte
    requires 0 <= x < 64 && 0 <= y < 64
  {
    x * 4 + y / 16
  }

  function Second(x: int, y: int): Byte
    requires 0 <= x < 64 && 0 <= y < 64
  {
    x % 16 * 16 + y / 4
  }

  function Third(x: int, y: int): Byte
    requires 0 <= x < 64 && 0 <= y < 64
  {
    x % 4 * 64 + y
  }

  /** A lone sextet cannot carry a byte; leftover low bits are ignored. */
  function Unpack(s: seq<Sextet>): Option<seq<Byte>> {
    if |s| == 0 then Some([])
    else if |s| == 1 then None
    else if |s| == 2 then Some([First(s[0], s[1])])
    else if |s| == 3 then Some([First(s[0], s[1]), Second(s[1], s[2])])
    else
      var rest := Unpack(s[4..]);
      if rest.None? then None
      else Some([First(s[0], s[1]), Second(s[1], s[2]), Third(s[2], s[3])] + rest.value)
  }

  lemma Quad(b0: Byte, b1: Byte, b2: Byte)
    ensures First(b0 / 4, b0 % 4 * 16 + b1 / 16) == b0
    ensures Second(b0 % 4 * 16 + b1 / 16, b1 % 16 * 4 + b2 / 64) == b1
    ensures Third(b1 % 16 * 4 + b2 / 64, b2 % 64) == b2
  {
  }

  lemma {:induction false} PackRoundTrip(b: seq<Byte>)
    ensures Unpack(Pack(b)) == Some(b)
  {
    if |b| == 1 {
      PackTail1(b);
    } else if |b| == 2 {
      PackTail2(b);
    } else if |b| > 2 {
      PackRoundTrip(b[3..]);
      PackStep(b[0], b[1], b[2], b[3..]);
      ThreeThenRest(b);
    }
  }

  lemma ThreeThenRest<T>(b: seq<T>)
    requires |b| > 2
    ensures b == [b[0], b[1], b[2]] + b[3..]
  {
  }

  lemma PackTail1(b: seq<Byte>)
    requires |b| == 1
    ensures Unpack(Pack(b)) == Some(b)
  {
    Quad(b[0], 0, 0);
    UnpackTail(b, Pack(b));
  }

  lemma PackTail2(b: seq<Byte>)
    requires |b| == 2
    ensures Unpack(Pack(b)) == Some(b)
  {
    Quad(b[0], b[1], 0);
    UnpackTail(b, Pack(b));
  }

  lemma UnpackTail(b: seq<Byte>, p: seq<Sextet>)
    requires 0 < |b| < 3 && |p| == |b| + 1
    requires First(p[0], p[1]) == b[0]
    requires |b| == 2 ==> Second(p[1], p[2]) == b[1]
    ensures Unpack(p) == Some(b)
  {
    assert b == if |b| == 1 then [b[0]] else [b[0], b[1]];
  }

  lemma PackStep(b0: Byte, b1: Byte, b2: Byte, rest: seq<Byte>)
    requires Unpack(Pack(rest)) == Some(rest)
    ensures Unpack(Quantum(b0, b1, b2) + Pack(rest)) == Some([b0, b1, b2] + rest)
  {
    var head := Quantum(b0, b1, b2);
    Quad(b0, b1, b2);
    assert (head + Pack(rest))[4..] == Pack(rest);
  }

  // ---------- Characters ----------

  function EncodeChars(s: seq<Sextet>, alphabet: Alphabet): (r: string)
    ensures |r| == |s|
  {
    seq(|s|, i requires 0 <= i < |s| => EncodeChar(s[i], alphabet))
  }

  function DecodeChars(s: string, alphabet: Alphabet): Option<seq<Sextet>> {
    if s == "" then Some([])
    else
      var first, rest := DecodeChar(s[0], alphabet), DecodeChars(s[1..], alphabet);
      if first.None? || rest.None? then None else Some([first.value] + rest.value)
  }

  lemma {:induction false} CharsRoundTrip(s: seq<Sextet>, alphabet: Alphabet)
    ensures DecodeChars(EncodeChars(s, alphabet), alphabet) == Some(s)
    ensures forall c <- EncodeChars(s, alphabet) :: c != '=' && c != '\n' && c != '\r' && c != '|'
  {
    if s != [] {
      CharRoundTrip(s[0], alphabet);
      CharsRoundTrip(s[1..], alphabet);
      assert EncodeChars(s, alphabet) == [EncodeChar(s[0], alphabet)] + EncodeChars(s[1..], alphabet);
      assert [s[0]] + s[1..] == s;
    }
  }

  predicate NotNewline(c: char) {
    c != '\n' && c != '\r'
  }

  function EncodeRaw(b: seq<Byte>, alphabet: Alphabet): string {
    EncodeChars(Pack(b), alphabet)
  }

  /** The decoder skips line breaks, then wants only alphabet characters. */
  function DecodeRaw(s: string, alphabet: Alphabet): Option<seq<Byte>> {
    var sextets := DecodeChars(Filter(s, NotNewline), alphabet);
    if sextets.None? then None else Unpack(sextets.value)
  }

  lemma {:induction false} FilterKeepsAll(s: string)
    requires forall c <- s :: NotNewline(c)
    ensures Filter(s, NotNewline) == s
  {
    if s != "" {
      assert s[0] in s;
      FilterKeepsAll(s[1..]);
    }
  }

  lemma RawRoundTrip(b: seq<Byte>, alphabet: Alphabet)
    ensures DecodeRaw(EncodeRaw(b, alphabet), alphabet) == Some(b)
  {
    CharsRoundTrip(Pack(b), alphabet);
    FilterKeepsAll(EncodeRaw(b, alphabet));
    PackRoundTrip(b);
  }

  // ---------- Padding ----------

  function Padding(n: nat): string {
    if n % 3 == 0 then "" else if n % 3 == 1 then "==" else "="
  }

  function EncodePadded(b: seq<Byte>): string {
    EncodeRaw(b, Standard) + Padding(|b|)
  }

  /** Whole quanta of four characters; only the last may end in one or two pad characters. */
  function DecodePadded(s: string): Option<seq<Byte>> {
    var t := Filter(s, NotNewline);
    var n := |t|;
    if n % 4 != 0 then None
    else
      var pads := if n > 0 && t[n - 1] == '=' then (if t[n - 2] == '=' then 2 else 1) else 0;
      var sextets := DecodeChars(t[..n - pads], Standard);
      if sextets.None? then None else Unpack(sextets.value)
  }

  lemma PaddedRoundTrip(b: seq<Byte>)
    ensures DecodePadded(EncodePadded(b)) == Some(b)
    ensures forall c <- EncodePadded(b) :: NotNewline(c) && c != '-'
    ensures |EncodePadded(b)| % 4 == 0
  {
    var raw := EncodeRaw(b, Standard);
    RawCharacters(b);
    RawLength(b);
    PaddedText(EncodePadded(b), raw, |b|);
  }

  lemma PaddedText(text: string, raw: string, n: nat)
    requires text == raw + Padding(n) && |raw| % 4 == (if n % 3 == 0 then 0 else n % 3 + 1) && (raw == "" <==> n == 0)
    requires DecodeChars(raw, Standard).Some? && forall c <- raw :: c != '=' && NotNewline(c) && c != '-'
    ensures DecodePadded(text) == Unpack(DecodeChars(raw, Standard).value)
    ensures forall c <- text :: NotNewline(c) && c != '-'
    ensures |text| % 4 == 0
  {
    PaddingIsPlain(n);
    FilterKeepsAll(text);
    PadCount(text, raw, n);
    DecodePaddedOf(text, raw);
  }

  lemma PaddingIsPlain(n: nat)
    ensures forall c <- Padding(n) :: c == '='
  {
  }

  lemma RawCharacters(b: seq<Byte>)
    ensures DecodeChars(EncodeRaw(b, Standard), Standard).Some?
    ensures Unpack(DecodeChars(EncodeRaw(b, Standard), Standard).value) == Some(b)
    ensures forall c <- EncodeRaw(b, Standard) :: c != '=' && NotNewline(c) && c != '-'
  {
    CharsRoundTrip(Pack(b), Standard);
    StandardHasNoDash(Pack(b));
    PackRoundTrip(b);
  }

  lemma RawLength(b: seq<Byte>)
    ensures |EncodeRaw(b, Standard)| % 4 == if |b| % 3 == 0 then 0 else |b| % 3 + 1
    ensures EncodeRaw(b, Standard) == "" <==> |b| == 0
  {
    PackLength(b);
  }

  lemma DecodePaddedOf(text: string, raw: string)
    requires raw <= text && Filter(text, NotNewline) == text && |text| % 4 == 0
    requires |text| > 0 ==>
      |text| >= 2 &&
      |raw| == |text| - if text[|text| - 1] == '=' then (if text[|text| - 2] == '=' then 2 else 1) else 0
    requires DecodeChars(raw, Standard).Some?
    ensures DecodePadded(text) == Unpack(DecodeChars(raw, Standard).value)
  {
    assert text[..|raw|] == raw;
  }

  /** The decoder strips exactly the padding the encoder added. */
  lemma PadCount(text: string, raw: string, n: nat)
    requires text == raw + Padding(n) && '=' !in raw && (raw == "" <==> n == 0)
    requires |raw| % 4 == if n % 3 == 0 then 0 else n % 3 + 1
    ensures |text| % 4 == 0
    ensures |text| > 0 ==>
      |text| >= 2 &&
      |raw| == |text| - if text[|text| - 1] == '=' then (if text[|text| - 2] == '=' then 2 else 1) else 0
  {
    if raw != "" {
      assert raw[|raw| - 1] in raw;
      assert text[|raw| - 1] == raw[|raw| - 1];
    }
  }

  lemma StandardHasNoDash(s: seq<Sextet>)
    ensures forall c <- EncodeChars(s, Standard) :: c != '-'
  {
  }

  // ---------- The code of RFC 4648 ----------

  /** The tables of sections 4 and 5. */
  const COMMON := "ABCDEFGHIJKLMNOPQRSTUVWXYZ" + "abcdefghijklmnopqrstuvwxyz" + "0123456789"
  const STANDARD_TABLE := COMMON + "+/"
  const URL_TABLE := COMMON + "-_"

  lemma TableOf(v: Sextet, alphabet: Alphabet)
    ensures |STANDARD_TABLE| == |URL_TABLE| == 64
    ensures EncodeChar(v, alphabet) == (if alphabet == Standard then STANDARD_TABLE else URL_TABLE)[v]
  {
    if v < 62 {
      LettersAndDigits(v);
    }
  }

  lemma LettersAndDigits(v: Sextet)
    requires v < 62
    ensures |COMMON| == 62 && COMMON[v] == EncodeChar(v, Standard) == EncodeChar(v, Url)
  {
    match v {
      case 0 => case 1 => case 2 => case 3 => case 4 => case 5 => case 6 => case 7 => case 8 => case 9 =>
      case 10 => case 11 => case 12 => case 13 => case 14 => case 15 => case 16 => case 17 => case 18 => case 19 =>
      case 20 => case 21 => case 22 => case 23 => case 24 => case 25 => case 26 => case 27 => case 28 => case 29 =>
      case 30 => case 31 => case 32 => case 33 => case 34 => case 35 => case 36 => case 37 => case 38 => case 39 =>
      case 40 => case 41 => case 42 => case 43 => case 44 => case 45 => case 46 => case 47 => case 48 => case 49 =>
      case 50 => case 51 => case 52 => case 53 => case 54 => case 55 => case 56 => case 57 => case 58 => case 59 =>
      case 60 => case 61 =>
    }
  }

  /** Three bytes and the four sextets of their group are the same 24-bit number, most significant first;
      a last group of one or two bytes is filled with zero bits. */
  lemma {:induction false} GroupsAreNumbers(b: seq<Byte>, i: nat)
    requires 3 * i < |b|
    ensures |Pack(b)| >= 4 * i + (if |b| - 3 * i >= 3 then 4 else |b| - 3 * i + 1)
    ensures var q, n := Pack(b)[4 * i..], |b| - 3 * i;
            if n >= 3 then Bits4(q[0], q[1], q[2], q[3]) == Bits3(b[3 * i], b[3 * i + 1], b[3 * i + 2])
               else if n == 2 then |q| == 3 && Bits4(q[0], q[1], q[2], 0) == Bits3(b[3 * i], b[3 * i + 1], 0)
               else |q| == 2 && Bits4(q[0], q[1], 0, 0) == Bits3(b[3 * i], 0, 0)
  {
    if i == 0 {
      assert Pack(b)[0..] == Pack(b);
      if |b| >= 3 {
        QuantumIsNumber(b[0], b[1], b[2]);
        assert Pack(b)[..4] == Quantum(b[0], b[1], b[2]);
      } else if |b| == 2 {
        TailIsNumber(b[0], b[1]);
      }
    } else {
      GroupsAreNumbers(b[3..], i - 1);
      assert Pack(b)[4 * i..] == Pack(b[3..])[4 * (i - 1)..];
    }
  }

  lemma QuantumIsNumber(b0: Byte, b1: Byte, b2: Byte)
    ensures var q := Quantum(b0, b1, b2); Bits4(q[0], q[1], q[2], q[3]) == Bits3(b0, b1, b2)
  {
  }

  lemma TailIsNumber(b0: Byte, b1: Byte)
    ensures Bits4(b0 / 4, b0 % 4 * 16 + b1 / 16, b1 % 16 * 4, 0) == Bits3(b0, b1, 0)
  {
  }

  function Bits3(b0: int, b1: int, b2: int): int {
    b0 * 0x1_0000 + b1 * 0x100 + b2
  }

  function Bits4(q0: int, q1: int, q2: int, q3: int): int {
    q0 * 0x4_0000 + q1 * 0x1000 + q2 * 0x40 + q3
  }
}
