/** The SSHSIG container: wire strings (section 5 of RFC 4251), the signed blob and the outer blob
    (section 2 of PROTOCOL.sshsig), and the armored text. */
module SshSig {
  import opened Wrappers
  import opened Seqs
  import opened Base64

  type Bytes = seq<Byte>

  const TWO32 := 0x1_0000_0000
  const LINE_WIDTH := 70
  const SIG_VERSION := 1

  /** "SSHSIG" and "sha256" in ASCII. */
  const MAGIC: Bytes := [0x53, 0x53, 0x48, 0x53, 0x49, 0x47]
  const HASH_NAME: Bytes := [0x73, 0x68, 0x61, 0x32, 0x35, 0x36]

  // ---------- Wire format ----------

  /** Big-endian. */
  function U32(v: nat): (b: Bytes)
    requires v < TWO32
    ensures |b| == 4 && v == (b[0] as int) * 0x100_0000 + (b[1] as int) * 0x1_0000 + (b[2] as int) * 0x100 + b[3] as int
  {
    var hi, lo := v / 0x1_0000, v % 0x1_0000;
    [hi / 256, hi % 256, lo / 256, lo % 256]
  }

  function Number(b0: int, b1: int, b2: int, b3: int): int {
    (b0 * 256 + b1) * 0x1_0000 + (b2 * 256 + b3)
  }

  function ReadU32(b: Bytes): (r: Option<(nat, Bytes)>)
    ensures r.Some? <==> |b| >= 4
  {
    if |b| < 4 then None
    else Some((Number(b[0], b[1], b[2], b[3]), b[4..]))
  }

  lemma U32RoundTrip(v: nat, rest: Bytes)
    requires v < TWO32
    ensures ReadU32(U32(v) + rest) == Some((v, rest))
  {
    assert (U32(v) + rest)[4..] == rest;
    var hi, lo := v / 0x1_0000, v % 0x1_0000;
    assert Number(hi / 256, hi % 256, lo / 256, lo % 256) == v;
  }

  /** The length is truncated to 32 bits, as the conversion in the source does. */
  function WireString(s: Bytes): Bytes {
    U32(|s| % TWO32) + s
  }

  function ReadString(b: Bytes): Option<(Bytes, Bytes)> {
    var n := ReadU32(b);
    if n.None? || |n.value.1| < n.value.0 then None
    else Some((n.value.1[..n.value.0], n.value.1[n.value.0..]))
  }

  /** A wire string reads back, whatever follows it, exactly when it is shorter than 2^32 bytes. */
  lemma WireStringRoundTripIff(s: Bytes, rest: Bytes)
    ensures ReadString(WireString(s) + rest) == Some((s, rest)) <==> |s| < TWO32
  {
    var n := |s| % TWO32;
    Truncation(|s|);
    WireStringReads(s, rest);
    if |s| < TWO32 {
      assert (s + rest)[..n] == s && (s + rest)[n..] == rest;
    } else {
      assert |(s + rest)[..n]| == n < |s|;
    }
  }

  lemma Truncation(n: nat)
    ensures n % TWO32 == n <==> n < TWO32
    ensures n % TWO32 <= n
  {
  }

  lemma WireStringReads(s: Bytes, rest: Bytes)
    ensures |s| % TWO32 <= |s|
    ensures var n := |s| % TWO32; ReadString(WireString(s) + rest) == Some(((s + rest)[..n], (s + rest)[n..]))
  {
    var n := |s| % TWO32;
    Truncation(|s|);
    assert WireString(s) + rest == U32(n) + (s + rest);
    U32RoundTrip(n, s + rest);
  }

  /** `bytes.Buffer`, as far as this package uses it. */
  class Buffer {
    var data: Bytes

    constructor ()
      ensures data == []
    {
      data := [];
    }

    method Write(s: Bytes)
      modifies this
      ensures data == old(data) + s
    {
      data := data + s;
    }

    method WriteUint32(v: nat)
      requires v < TWO32
      modifies this
      ensures data == old(data) + U32(v)
    {
      Write(U32(v));
    }

    method WriteString(s: Bytes)
      modifies this
      ensures data == old(data) + WireString(s)
    {
      WriteUint32(|s| % TWO32);
      Write(s);
      assert data == old(data) + (U32(|s| % TWO32) + s);
    }
  }

  // ---------- The signed data ----------

  function SignedBlob(namespace: Bytes, digest: Bytes): Bytes {
    MAGIC + (WireString(namespace) + (WireString([]) + (WireString(HASH_NAME) + WireString(digest))))
  }

  method SignedData(namespace: Bytes, digest: Bytes) returns (blob: Bytes)
    ensures blob == SignedBlob(namespace, digest)
    ensures |namespace| < TWO32 && |digest| < TWO32 ==> ReadSignedData(blob) == Some(Signed(namespace, [], "sha256", digest))
  {
    var buf := new Buffer();
    buf.Write(MAGIC);
    buf.WriteString(namespace);
    buf.WriteString([]);
    buf.WriteString(HASH_NAME);
    buf.WriteString(digest);
    blob := buf.data;
    assert blob == SignedBlob(namespace, digest);
    if |namespace| < TWO32 && |digest| < TWO32 {
      SignedDataReadsBack(namespace, digest);
    }
  }

  function Text(b: Bytes): string {
    seq(|b|, i requires 0 <= i < |b| => b[i] as char)
  }

  datatype Signed = Signed(namespace: Bytes, reserved: Bytes, hashName: string, digest: Bytes)

  /** A verifier's reader of the signed data, from the format: the preamble, then four strings and no more. */
  function ReadSignedData(b: Bytes): Option<Signed> {
    if |b| < 6 || Text(b[..6]) != "SSHSIG" then None
    else
      var namespace := ReadString(b[6..]);
      if namespace.None? then None
      else
        var reserved := ReadString(namespace.value.1);
        if reserved.None? then None
        else
          var hashName := ReadString(reserved.value.1);
          if hashName.None? then None
          else
            var digest := ReadString(hashName.value.1);
            if digest.None? || digest.value.1 != [] then None
            else Some(Signed(namespace.value.0, reserved.value.0, Text(hashName.value.0), digest.value.0))
  }

  /** What is signed reads as the format says, with an empty reserved field and the one hash name. */
  lemma SignedDataReadsBack(namespace: Bytes, digest: Bytes)
    requires |namespace| < TWO32 && |digest| < TWO32
    ensures ReadSignedData(SignedBlob(namespace, digest)) == Some(Signed(namespace, [], "sha256", digest))
  {
    var t3 := WireString(digest);
    var t2 := WireString(HASH_NAME) + t3;
    var t1 := WireString([]) + t2;
    var blob := SignedBlob(namespace, digest);
    assert blob[..6] == MAGIC && blob[6..] == WireString(namespace) + t1;
    ConstantsSpell();
    WireStringRoundTripIff(namespace, t1);
    WireStringRoundTripIff([], t2);
    WireStringRoundTripIff(HASH_NAME, t3);
    WireStringRoundTripIff(digest, []);
    assert t3 + [] == t3;
  }

  lemma ConstantsSpell()
    ensures Text(MAGIC) == "SSHSIG" && Text(HASH_NAME) == "sha256"
  {
  }

  /** A signature over one namespace and digest is never a signature over another. */
  lemma SignedBlobIsInjective(namespace: Bytes, digest: Bytes, namespace': Bytes, digest': Bytes)
    requires |namespace| < TWO32 && |digest| < TWO32 && |namespace'| < TWO32 && |digest'| < TWO32
    requires SignedBlob(namespace, digest) == SignedBlob(namespace', digest')
    ensures namespace == namespace' && digest == digest'
  {
    var tail := WireString([]) + (WireString(HASH_NAME) + WireString(digest));
    var tail' := WireString([]) + (WireString(HASH_NAME) + WireString(digest'));
    assert SignedBlob(namespace, digest)[|MAGIC|..] == WireString(namespace) + tail;
    assert SignedBlob(namespace', digest')[|MAGIC|..] == WireString(namespace') + tail';
    WireStringRoundTripIff(namespace, tail);
    WireStringRoundTripIff(namespace', tail');
    WireStringRoundTripIff([], WireString(HASH_NAME) + WireString(digest));
    WireStringRoundTripIff([], WireString(HASH_NAME) + WireString(digest'));
    WireStringRoundTripIff(HASH_NAME, WireString(digest));
    WireStringRoundTripIff(HASH_NAME, WireString(digest'));
    WireStringRoundTripIff(digest, []);
    WireStringRoundTripIff(digest', []);
    assert WireString(digest) + [] == WireString(digest);
    assert WireString(digest') + [] == WireString(digest');
  }

  // ---------- The outer blob ----------

  datatype Fields = Fields(
    version: nat, key: Bytes, namespace: Bytes, reserved: Bytes, hashName: Bytes, signature: Bytes)

  function Encode(f: Fields): Bytes
    requires f.version < TWO32
  {
    MAGIC + (U32(f.version) + (WireString(f.key) + (WireString(f.namespace) + (WireString(f.reserved)
      + (WireString(f.hashName) + WireString(f.signature))))))
  }

  function Decode(b: Bytes): Option<Fields> {
    if !(MAGIC <= b) then None
    else
      var version := ReadU32(b[|MAGIC|..]);
      if version.None? then None
      else
        var key := ReadString(version.value.1);
        if key.None? then None
        else
          var namespace := ReadString(key.value.1);
          if namespace.None? then None
          else
            var reserved := ReadString(namespace.value.1);
            if reserved.None? then None
            else
              var hashName := ReadString(reserved.value.1);
              if hashName.None? then None
              else
                var signature := ReadString(hashName.value.1);
                if signature.None? || signature.value.1 != [] then None
                else Some(Fields(version.value.0, key.value.0, namespace.value.0, reserved.value.0,
                                 hashName.value.0, signature.value.0))
  }

  predicate Short(f: Fields) {
    && |f.key| < TWO32 && |f.namespace| < TWO32 && |f.reserved| < TWO32
    && |f.hashName| < TWO32 && |f.signature| < TWO32
  }

  /** Every field is recovered exactly when every field is shorter than 2^32 bytes. */
  lemma DecodeInvertsEncodeIff(f: Fields)
    requires f.version < TWO32
    ensures Decode(Encode(f)) == Some(f) <==> Short(f)
  {
    var t5 := WireString(f.signature);
    var t4 := WireString(f.hashName) + t5;
    var t3 := WireString(f.reserved) + t4;
    var t2 := WireString(f.namespace) + t3;
    var t1 := WireString(f.key) + t2;
    assert Encode(f)[|MAGIC|..] == U32(f.version) + t1;
    U32RoundTrip(f.version, t1);
    WireStringRoundTripIff(f.key, t2);
    WireStringRoundTripIff(f.namespace, t3);
    WireStringRoundTripIff(f.reserved, t4);
    WireStringRoundTripIff(f.hashName, t5);
    WireStringRoundTripIff(f.signature, []);
    assert t5 + [] == t5;
    LongFieldIsLost(f.key, t2);
    LongFieldIsLost(f.namespace, t3);
    LongFieldIsLost(f.reserved, t4);
    LongFieldIsLost(f.hashName, t5);
    LongFieldIsLost(f.signature, []);
  }

  lemma LongFieldIsLost(s: Bytes, rest: Bytes)
    ensures |s| >= TWO32 ==>
      var r := ReadString(WireString(s) + rest); r.Some? && r.value.0 != s
  {
    Truncation(|s|);
    WireStringReads(s, rest);
  }

  /** The framing of `Sign` around an abstract signer: its public key and its signature over the signed data. */
  method Sign(key: Bytes, signer: Bytes -> Bytes, namespace: Bytes, digest: Bytes) returns (r: Result<string, ()>)
    ensures r.Err? <==> namespace == []
    ensures r.Ok? ==>
      r.value == Armored(Encode(Fields(SIG_VERSION, key, namespace, [], HASH_NAME, signer(SignedBlob(namespace, digest)))))
    ensures r.Ok? && |key| < TWO32 && |namespace| < TWO32 && |digest| < TWO32 ==>
      exists toSign :: SignsFor(r.value, key, signer, namespace, digest, toSign)
  {
    if namespace == [] {
      return Err(());
    }
    var toSign := SignedData(namespace, digest);
    var sigBlob := signer(toSign);
    var out := OuterBlob(key, namespace, sigBlob);
    var text := Armor(out);
    r := Ok(text);
    if |key| < TWO32 && |namespace| < TWO32 && |digest| < TWO32 {
      SignatureReadsBack(key, signer, namespace, digest);
    }
  }

  /** The text is a signature over bytes that read as this namespace and digest, hashed with sha256. */
  ghost predicate SignsFor(text: string, key: Bytes, signer: Bytes -> Bytes, namespace: Bytes, digest: Bytes, toSign: Bytes) {
    && ReadSignedData(toSign) == Some(Signed(namespace, [], "sha256", digest))
    && (|signer(toSign)| < TWO32 ==> ReadSignature(text, 1, key, namespace, "sha256", signer(toSign)))
  }

  lemma SignatureReadsBack(key: Bytes, signer: Bytes -> Bytes, namespace: Bytes, digest: Bytes)
    requires |key| < TWO32 && |namespace| < TWO32 && |digest| < TWO32
    ensures var toSign := SignedBlob(namespace, digest);
            SignsFor(Armored(Encode(Fields(SIG_VERSION, key, namespace, [], HASH_NAME, signer(toSign)))),
                     key, signer, namespace, digest, toSign)
  {
    SignedDataReadsBack(namespace, digest);
    if |signer(SignedBlob(namespace, digest))| < TWO32 {
      ArmoredSignatureIsRecoverable(key, signer, namespace, digest);
      ConstantsSpell();
    }
  }

  /** A reader of the armored text finds these fields, with an empty reserved one. */
  ghost predicate ReadSignature(text: string, version: nat, key: Bytes, namespace: Bytes, hashName: string, signature: Bytes) {
    var body := Dearmor(text);
    && body.Some? && Decode(body.value).Some?
    && var f := Decode(body.value).value;
       && f.version == version && f.key == key && f.namespace == namespace && f.reserved == []
       && Text(f.hashName) == hashName && f.signature == signature
  }

  method OuterBlob(key: Bytes, namespace: Bytes, sigBlob: Bytes) returns (blob: Bytes)
    ensures blob == Encode(Fields(SIG_VERSION, key, namespace, [], HASH_NAME, sigBlob))
  {
    var out := new Buffer();
    out.Write(MAGIC);
    out.WriteUint32(SIG_VERSION);
    out.WriteString(key);
    out.WriteString(namespace);
    out.WriteString([]);
    out.WriteString(HASH_NAME);
    out.WriteString(sigBlob);
    blob := out.data;
    Regroup(MAGIC, U32(SIG_VERSION), WireString(key), WireString(namespace), WireString([]),
            WireString(HASH_NAME), WireString(sigBlob));
  }

  lemma Regroup(a: Bytes, b: Bytes, c: Bytes, d: Bytes, e: Bytes, f: Bytes, g: Bytes)
    ensures [] + a + b + c + d + e + f + g == a + (b + (c + (d + (e + (f + g)))))
  {
  }

  // ---------- Armor ----------

  const BEGIN := "-----BEGIN SSH SIGNATURE-----"
  const END := "-----END SSH SIGNATURE-----"

  function Chunks(s: string): (lines: seq<string>)
    ensures forall l <- lines :: 0 < |l| <= LINE_WIDTH
  {
    if s == "" then []
    else if |s| <= LINE_WIDTH then [s]
    else [s[..LINE_WIDTH]] + Chunks(s[LINE_WIDTH..])
  }

  function Armored(body: Bytes): string {
    Join([BEGIN] + Chunks(EncodePadded(body)) + [END, ""], '\n')
  }

  function Terminated(lines: seq<string>): string {
    if lines == [] then "" else lines[0] + ['\n'] + Terminated(lines[1..])
  }

  lemma {:induction false} TerminatedIsJoin(lines: seq<string>)
    ensures Terminated(lines) == Join(lines + [""], '\n')
  {
    if lines != [] {
      TerminatedIsJoin(lines[1..]);
      assert (lines + [""])[1..] == lines[1..] + [""];
    }
  }

  lemma {:induction false} TerminatedAppend(a: seq<string>, b: seq<string>)
    ensures Terminated(a + b) == Terminated(a) + Terminated(b)
  {
    if a == [] {
      assert a + b == b;
    } else {
      TerminatedAppend(a[1..], b);
      assert (a + b)[1..] == a[1..] + b;
    }
  }

  method Armor(body: Bytes) returns (text: string)
    ensures text == Armored(body)
  {
    var encoded := EncodePadded(body);
    text := BEGIN + "\n";
    var i := 0;
    while i < |encoded|
      invariant 0 <= i
      invariant text + Rest(encoded, i) == BEGIN + "\n" + Rest(encoded, 0)
    {
      var end := i + LINE_WIDTH;
      if end > |encoded| {
        end := |encoded|;
      }
      ChunksStep(encoded, i, end);
      var line := encoded[i..end] + "\n";
      assert text + Rest(encoded, i) == text + line + Rest(encoded, i + LINE_WIDTH);
      text := text + line;
      i := i + LINE_WIDTH;
    }
    assert text == text + Rest(encoded, i);
    text := text + (END + "\n");
    ArmoredIsTerminated(body);
    assert encoded[0..] == encoded;
  }

  /** The body lines still to be written when the loop stands at i. */
  function Rest(encoded: string, i: nat): string {
    if i < |encoded| then Terminated(Chunks(encoded[i..])) else ""
  }

  lemma ChunksStep(encoded: string, i: nat, end: nat)
    requires i < |encoded| && end == if i + LINE_WIDTH > |encoded| then |encoded| else i + LINE_WIDTH
    ensures Rest(encoded, i) == encoded[i..end] + "\n" + Rest(encoded, i + LINE_WIDTH)
  {
    var s := encoded[i..];
    if |s| <= LINE_WIDTH {
      assert encoded[i..end] == s && [s][1..] == [];
      assert Terminated([s]) == s + "\n" + "";
    } else {
      assert s[..LINE_WIDTH] == encoded[i..end] && s[LINE_WIDTH..] == encoded[i + LINE_WIDTH..];
      assert Chunks(s)[1..] == Chunks(s[LINE_WIDTH..]);
    }
  }

  lemma ArmoredIsTerminated(body: Bytes)
    ensures Armored(body) == BEGIN + "\n" + Rest(EncodePadded(body), 0) + (END + "\n")
  {
    assert EncodePadded(body)[0..] == EncodePadded(body);
    var lines := Chunks(EncodePadded(body));
    TerminatedIsJoin([BEGIN] + lines + [END]);
    assert [BEGIN] + lines + [END] + [""] == [BEGIN] + lines + [END, ""];
    TerminatedAppend([BEGIN] + lines, [END]);
    TerminatedAppend([BEGIN], lines);
    assert [BEGIN][1..] == [] && [END][1..] == [];
    assert Terminated([BEGIN]) == BEGIN + "\n" && Terminated([END]) == END + "\n";
  }

  function Concat(lines: seq<string>): string {
    if lines == [] then "" else lines[0] + Concat(lines[1..])
  }

  /** A reader of the armored form: marker lines outside, base64 inside. */
  function Dearmor(text: string): Option<Bytes> {
    var lines := SplitOn(text, '\n');
    var n := |lines|;
    if n < 3 || lines[0] != BEGIN || lines[n - 2] != END || lines[n - 1] != "" then None
    else DecodePadded(Concat(lines[1..n - 2]))
  }

  lemma {:induction false} ConcatChunks(s: string)
    ensures Concat(Chunks(s)) == s
  {
    if |s| > LINE_WIDTH {
      ConcatChunks(s[LINE_WIDTH..]);
      assert s == s[..LINE_WIDTH] + s[LINE_WIDTH..];
    }
  }

  lemma {:induction false} ChunksAreWithin(s: string, c: char)
    requires c !in s
    ensures forall l <- Chunks(s) :: c !in l
  {
    if |s| > LINE_WIDTH {
      ChunksAreWithin(s[LINE_WIDTH..], c);
    }
  }

  /** De-armoring gives back the blob, and every body line is between 1 and 70 characters long. */
  lemma DearmorInvertsArmor(body: Bytes)
    ensures Dearmor(Armored(body)) == Some(body)
    ensures var lines := SplitOn(Armored(body), '\n');
            && |lines| >= 3 && lines[0] == "-----BEGIN SSH SIGNATURE-----"
            && lines[|lines| - 2..] == ["-----END SSH SIGNATURE-----", ""]
            && forall l <- lines[1..|lines| - 2] :: 0 < |l| <= 70
  {
    var encoded := EncodePadded(body);
    var lines := [BEGIN] + Chunks(encoded) + [END, ""];
    PaddedRoundTrip(body);
    ChunksAreWithin(encoded, '\n');
    MarkersAreOneLine();
    forall l | l in lines ensures '\n' !in l {
    }
    SplitJoin(lines, '\n');
    assert lines[1..|lines| - 2] == Chunks(encoded);
    ConcatChunks(encoded);
  }

  lemma MarkersAreOneLine()
    ensures '\n' !in BEGIN && '\n' !in END
  {
  }

  /** From the armored text back to the key, the namespace and the signature over exactly this digest. */
  lemma ArmoredSignatureIsRecoverable(key: Bytes, signer: Bytes -> Bytes, namespace: Bytes, digest: Bytes)
    requires |key| < TWO32 && |namespace| < TWO32 && |signer(SignedBlob(namespace, digest))| < TWO32
    ensures var f := Fields(SIG_VERSION, key, namespace, [], HASH_NAME, signer(SignedBlob(namespace, digest)));
            var body := Dearmor(Armored(Encode(f)));
            body.Some? && Decode(body.value) == Some(f)
  {
    var f := Fields(SIG_VERSION, key, namespace, [], HASH_NAME, signer(SignedBlob(namespace, digest)));
    DearmorInvertsArmor(Encode(f));
    DecodeInvertsEncodeIff(f);
  }
}
