/** The commit-object parser of the signing broker. It accepts exactly the payloads a printer of well-formed
    unsigned commits can produce, and the committer it reports is the one every reader of the bytes sees. */
module CommitParser {
  import opened Wrappers
  import opened Seqs
  import opened HeaderFolding

  datatype Commit = Commit(
    tree: string,
    parents: seq<string>,
    author: string,
    committer: string,
    committerEmail: string,
    message: string)

  datatype Malformed =
    | NoBlankLine | NoTree | BadTree | BadParent | NoAuthor | BadAuthor
    | NoCommitter | BadCommitter | AlreadySigned | DuplicateHeader | EmptyEmail

  // ---------- Values ----------

  predicate HexChar(c: char) {
    '0' <= c <= '9' || 'a' <= c <= 'f'
  }

  predicate ObjectId(s: string) {
    (|s| == 40 || |s| == 64) && forall c <- s :: HexChar(c)
  }

  predicate Control(c: char) {
    c < ' ' || c == 0x7f as char
  }

  predicate NameChar(c: char) {
    c != '<' && c != '>' && !Control(c)
  }

  predicate EmailChar(c: char) {
    NameChar(c) && c != ' '
  }

  predicate Digit(c: char) {
    '0' <= c <= '9'
  }

  predicate Zone(z: string) {
    |z| == 5 && (z[0] == '+' || z[0] == '-') && forall c <- z[1..] :: Digit(c)
  }

  datatype Identity = Identity(name: string, email: string, stamp: string, zone: string) {
    predicate Valid() {
      && name != "" && (forall c <- name :: NameChar(c))
      && (forall c <- email :: EmailChar(c))
      && stamp != "" && (forall c <- stamp :: Digit(c))
      && Zone(zone)
    }

    /** What follows the closing bracket. */
    function Right(): string {
      " " + stamp + " " + zone
    }

    function Render(): string {
      name + " " + ['<'] + email + ['>'] + Right()
    }
  }

  /** The identity pattern, applied to the value of an author or committer line. */
  function MatchIdentity(line: string): Option<Identity> {
    var lt := SplitOn(line, '<');
    if |lt| != 2 then None
    else
      var gt := SplitOn(lt[1], '>');
      if |gt| != 2 then None
      else
        var left, right := lt[0], gt[1];
        if |left| < 2 || left[|left| - 1] != ' ' || |right| < 8 || right[0] != ' ' || right[|right| - 6] != ' ' then
          None
        else
          var id := Identity(left[..|left| - 1], gt[0], right[1..|right| - 6], right[|right| - 5..]);
          if id.Valid() then Some(id) else None
  }

  /** The pattern has one reading: a line matches as `id` exactly when it is `id` written out. */
  lemma MatchIdentityIff(line: string, id: Identity)
    ensures MatchIdentity(line) == Some(id) <==> id.Valid() && line == id.Render()
  {
    if MatchIdentity(line) == Some(id) {
      MatchedLineRenders(line, id);
    }
    if id.Valid() && line == id.Render() {
      RenderedLineMatches(line, id);
    }
  }

  lemma MatchedLineRenders(line: string, id: Identity)
    requires MatchIdentity(line) == Some(id)
    ensures id.Valid() && line == id.Render()
  {
    var lt := SplitOn(line, '<');
    var gt := SplitOn(lt[1], '>');
    var left, right := lt[0], gt[1];
    JoinTwo(line, '<');
    JoinTwo(lt[1], '>');
    assert left == id.name + " ";
    assert right == " " + id.stamp + " " + id.zone;
  }

  lemma RenderedLineMatches(line: string, id: Identity)
    requires id.Valid() && line == id.Render()
    ensures MatchIdentity(line) == Some(id)
  {
    var left, right := id.name + " ", id.Right();
    SplitRendered(id);
    assert left[..|left| - 1] == id.name;
    assert right[1..|right| - 6] == id.stamp && right[|right| - 5..] == id.zone;
  }

  lemma RestIsPlain(id: Identity)
    requires id.Valid()
    ensures forall c <- id.Right() :: c != '<' && c != '>' && !Control(c)
  {
    assert id.zone == [id.zone[0]] + id.zone[1..];
  }

  lemma RenderIsOneLine(id: Identity)
    requires id.Valid()
    ensures '\n' !in id.Render()
  {
    RestIsPlain(id);
    assert '\n' !in id.name && '\n' !in id.email && '\n' !in id.Right();
  }

  predicate Plain(s: string) {
    forall c <- s :: c != '<' && c != '>'
  }

  lemma SplitBrackets(left: string, email: string, right: string)
    requires Plain(left) && Plain(email) && Plain(right)
    ensures SplitOn(left + ['<'] + (email + ['>'] + right), '<') == [left, email + ['>'] + right]
    ensures SplitOn((left + ['<'] + email) + ['>'] + right, '>') == [left + ['<'] + email, right]
    ensures SplitOn(email + ['>'] + right, '>') == [email, right]
    ensures SplitOn(left + ['<'] + email, '<') == [left, email]
  {
    SplitTwo(left, '<', email + ['>'] + right);
    SplitTwo(left + ['<'] + email, '>', right);
    SplitTwo(email, '>', right);
    SplitTwo(left, '<', email);
  }

  /** A rendered identity splits at its one bracket pair, whatever plain text is put in front. */
  lemma SplitRendered(id: Identity)
    requires id.Valid()
    ensures SplitOn(id.Render(), '<') == [id.name + " ", id.email + ['>'] + id.Right()]
    ensures SplitOn(id.Render(), '>') == [id.name + " " + ['<'] + id.email, id.Right()]
    ensures SplitOn(id.email + ['>'] + id.Right(), '>') == [id.email, id.Right()]
    ensures SplitOn(id.name + " " + ['<'] + id.email, '<') == [id.name + " ", id.email]
    ensures '\n' !in id.Render()
  {
    var left, right := id.name + " ", id.Right();
    RestIsPlain(id);
    assert id.Render() == left + ['<'] + (id.email + ['>'] + right);
    assert id.Render() == (left + ['<'] + id.email) + ['>'] + right;
    assert forall c <- left :: NameChar(c) || c == ' ';
    SplitBrackets(left, id.email, right);
    RenderIsOneLine(id);
  }

  // ---------- Header keys ----------

  predicate HasKey(line: string, key: string) {
    line == key || key + " " <= line
  }

  function Value(line: string, key: string): string
    requires HasKey(line, key)
  {
    if line == key then "" else line[|key| + 1..]
  }

  predicate Signature(line: string) {
    HasKey(line, "gpgsig") || HasKey(line, "gpgsig-sha256")
  }

  predicate Duplicate(line: string) {
    HasKey(line, "tree") || HasKey(line, "author") || HasKey(line, "committer")
  }

  predicate Refused(line: string) {
    Signature(line) || Duplicate(line)
  }

  // ---------- The printer ----------

  function ParentLines(parents: seq<string>): (r: seq<string>)
    ensures |r| == |parents|
  {
    seq(|parents|, i requires 0 <= i < |parents| => "parent " + parents[i])
  }

  function HeaderLines(c: Commit, extensions: seq<string>): seq<string> {
    ["tree " + c.tree] + ParentLines(c.parents) + ["author " + c.author] + ["committer " + c.committer] + extensions
  }

  function Print(c: Commit, extensions: seq<string>): string {
    Unfold(HeaderLines(c, extensions)) + "\n\n" + c.message
  }

  /** An extension header, possibly of several lines: any key but the five refused ones. */
  predicate ExtensionLine(l: string) {
    l != "" && l[0] != ' ' && l[0] != '\n' && !Refused(l)
  }

  predicate WellFormed(c: Commit, extensions: seq<string>) {
    && ObjectId(c.tree)
    && (forall p <- c.parents :: ObjectId(p))
    && MatchIdentity(c.author).Some?
    && MatchIdentity(c.committer).Some?
    && c.committerEmail == MatchIdentity(c.committer).value.email != ""
    && (forall l <- extensions :: ExtensionLine(l))
  }

  ghost predicate Prints(payload: string, c: Commit) {
    exists extensions :: WellFormed(c, extensions) && payload == Print(c, extensions)
  }

  // ---------- The parser ----------

  function ParentRun(lines: seq<string>, from: nat): (n: nat)
    requires from <= |lines|
    ensures from + n <= |lines|
    ensures forall i | from <= i < from + n :: HasKey(lines[i], "parent")
    ensures from + n < |lines| ==> !HasKey(lines[from + n], "parent")
    decreases |lines| - from
  {
    if from < |lines| && HasKey(lines[from], "parent") then 1 + ParentRun(lines, from + 1) else 0
  }

  function ParentValues(lines: seq<string>, from: nat, n: nat): (r: seq<string>)
    requires from + n <= |lines| && forall i | from <= i < from + n :: HasKey(lines[i], "parent")
    ensures |r| == n
  {
    seq(n, i requires 0 <= i < n => Value(lines[from + i], "parent"))
  }

  /** The refusal of the first trailing header that must not be there. */
  function TailCheck(tail: seq<string>): (r: Option<Malformed>)
    ensures r.None? <==> forall i | 0 <= i < |tail| :: !Refused(tail[i])
  {
    if tail == [] then None
    else if Signature(tail[0]) then Some(AlreadySigned)
    else if Duplicate(tail[0]) then Some(DuplicateHeader)
    else TailCheck(tail[1..])
  }

  /** The decision over the logical header lines, in the order the source takes it. */
  function Decide(lines: seq<string>, message: string): Result<Commit, Malformed>
    requires lines != []
  {
    if !HasKey(lines[0], "tree") then Err(NoTree)
    else if !ObjectId(Value(lines[0], "tree")) then Err(BadTree)
    else
      var n := ParentRun(lines, 1);
      var parents := ParentValues(lines, 1, n);
      if exists p <- parents :: !ObjectId(p) then Err(BadParent)
      else DecideIdentities(lines, n, Value(lines[0], "tree"), parents, message)
  }

  /** The part of the decision after `n` parents: author, committer and the headers that follow. */
  function DecideIdentities(lines: seq<string>, n: nat, tree: string, parents: seq<string>, message: string)
    : Result<Commit, Malformed>
  {
    if 1 + n >= |lines| || !HasKey(lines[1 + n], "author") then Err(NoAuthor)
    else
      var author := Value(lines[1 + n], "author");
      if MatchIdentity(author).None? then Err(BadAuthor)
      else if 2 + n >= |lines| || !HasKey(lines[2 + n], "committer") then Err(NoCommitter)
      else
        var committer := Value(lines[2 + n], "committer");
        var id := MatchIdentity(committer);
        if id.None? then Err(BadCommitter)
        else if TailCheck(lines[3 + n..]).Some? then Err(TailCheck(lines[3 + n..]).value)
        else if id.value.email == "" then Err(EmptyEmail)
        else Ok(Commit(tree, parents, author, committer, id.value.email, message))
  }

  function Parsed(payload: string): Result<Commit, Malformed> {
    var cut := CutBlank(payload);
    if cut.None? then Err(NoBlankLine)
    else Decide(Fold(SplitOn(cut.value.0, '\n')), cut.value.1)
  }

  method Parse(payload: string) returns (r: Result<Commit, Malformed>)
    ensures r == Parsed(payload)
    ensures r.Ok? ==> Prints(payload, r.value)
    ensures r.Err? ==> forall c :: !Prints(payload, c)
  {
    ParseInvertsPrint(payload);
    var cut := CutBlank(payload);
    if cut.None? {
      return Err(NoBlankLine);
    }
    var lines := SplitHeaderLines(cut.value.0);
    r := ParseLines(lines, cut.value.1);
  }

  method ParseLines(lines: seq<string>, message: string) returns (r: Result<Commit, Malformed>)
    requires lines != []
    ensures r == Decide(lines, message)
  {
    var idx := 0;
    if !HasKey(lines[idx], "tree") {
      return Err(NoTree);
    }
    var tree := Value(lines[idx], "tree");
    if !ObjectId(tree) {
      return Err(BadTree);
    }
    idx := idx + 1;
    var parents, ok := ParseParents(lines, idx);
    if !ok {
      return Err(BadParent);
    }
    r := ParseIdentities(lines, idx + |parents|, tree, parents, message);
  }

  method ParseIdentities(lines: seq<string>, at: nat, tree: string, parents: seq<string>, message: string)
    returns (r: Result<Commit, Malformed>)
    requires at > 0
    ensures r == DecideIdentities(lines, at - 1, tree, parents, message)
  {
    var idx := at;
    if idx >= |lines| || !HasKey(lines[idx], "author") {
      return Err(NoAuthor);
    }
    var author := Value(lines[idx], "author");
    if MatchIdentity(author).None? {
      return Err(BadAuthor);
    }
    idx := idx + 1;
    if idx >= |lines| || !HasKey(lines[idx], "committer") {
      return Err(NoCommitter);
    }
    var committer := Value(lines[idx], "committer");
    var id := MatchIdentity(committer);
    if id.None? {
      return Err(BadCommitter);
    }
    idx := idx + 1;
    var refusal := CheckTail(lines, idx);
    if refusal.Some? {
      return Err(refusal.value);
    }
    if id.value.email == "" {
      return Err(EmptyEmail);
    }
    r := Ok(Commit(tree, parents, author, committer, id.value.email, message));
  }

  /** The loop over the run of parent headers; stops at the first bad object id. */
  method ParseParents(lines: seq<string>, from: nat) returns (parents: seq<string>, ok: bool)
    requires from <= |lines|
    ensures ok <==> forall p <- ParentValues(lines, from, ParentRun(lines, from)) :: ObjectId(p)
    ensures ok ==> parents == ParentValues(lines, from, ParentRun(lines, from))
  {
    ghost var n := ParentRun(lines, from);
    ghost var all := ParentValues(lines, from, n);
    var idx := from;
    parents := [];
    while idx < |lines| && HasKey(lines[idx], "parent")
      invariant from <= idx <= from + n
      invariant ParentRun(lines, idx) == n - (idx - from)
      invariant parents == all[..idx - from]
      invariant forall p <- parents :: ObjectId(p)
    {
      var parent := Value(lines[idx], "parent");
      assert parent == all[idx - from];
      if !ObjectId(parent) {
        assert parent in all;
        return parents, false;
      }
      parents := parents + [parent];
      idx := idx + 1;
    }
    assert parents == all;
    ok := true;
  }

  /** The loop over every header after the committer. */
  method CheckTail(lines: seq<string>, from: nat) returns (refusal: Option<Malformed>)
    requires from <= |lines|
    ensures refusal == TailCheck(lines[from..])
  {
    for idx := from to |lines|
      invariant TailCheck(lines[from..]) == TailCheck(lines[idx..])
    {
      assert lines[idx..][1..] == lines[idx + 1..];
      if HasKey(lines[idx], "gpgsig") || HasKey(lines[idx], "gpgsig-sha256") {
        return Some(AlreadySigned);
      }
      if HasKey(lines[idx], "tree") || HasKey(lines[idx], "author") || HasKey(lines[idx], "committer") {
        return Some(DuplicateHeader);
      }
    }
    refusal := None;
  }

  // ---------- The parser inverts the printer ----------

  /** Accepting is being printable, and the accepted commit is the one printed. */
  lemma ParseInvertsPrint(payload: string)
    ensures forall c :: Parsed(payload) == Ok(c) <==> Prints(payload, c)
  {
    forall c
      ensures Parsed(payload) == Ok(c) <==> Prints(payload, c)
    {
      if Parsed(payload) == Ok(c) {
        AcceptedIsPrinted(payload, c);
      }
      if extensions :| WellFormed(c, extensions) && payload == Print(c, extensions) {
        PrintedIsAccepted(c, extensions);
      }
    }
  }

  /** Nothing is lost in print either: the commit and the extension headers are both recoverable. */
  lemma PrintIsInjective(c: Commit, extensions: seq<string>, d: Commit, others: seq<string>)
    requires WellFormed(c, extensions) && WellFormed(d, others)
    requires Print(c, extensions) == Print(d, others)
    ensures c == d && extensions == others
  {
    PrintedIsAccepted(c, extensions);
    PrintedIsAccepted(d, others);
    assert c == d;
    PrintedHeaders(c, extensions);
    PrintedHeaders(d, others);
    var k := 3 + |c.parents|;
    assert extensions == HeaderLines(c, extensions)[k..];
    assert others == HeaderLines(d, others)[k..];
  }

  /** Which payloads come back as which commit's printed form, spelt out from the header lines. */
  lemma AcceptedIsPrinted(payload: string, c: Commit)
    requires Parsed(payload) == Ok(c)
    ensures Prints(payload, c)
  {
    var (block, message) := CutBlank(payload).value;
    var lines := Fold(SplitOn(block, '\n'));
    DecideIffFits(lines, message, c);
    LogicalLinesAreClean(payload);
    FoldingIsLossless(block);
    FitsIsPrinted(payload, block, message, lines, c);
  }

  lemma FitsIsPrinted(payload: string, block: string, message: string, lines: seq<string>, c: Commit)
    requires Fits(lines, message, c) && CleanLines(lines)
    requires payload == block + "\n\n" + message && Unfold(lines) == block
    ensures Prints(payload, c)
  {
    var extensions := lines[3 + |c.parents|..];
    DecidedLines(lines, message, c);
    forall i | 0 <= i < |extensions| ensures ExtensionLine(extensions[i]) {
      assert extensions[i] == lines[3 + |c.parents| + i];
      UnrefusedIsExtension(extensions[i]);
    }
    assert WellFormed(c, extensions) && payload == Print(c, extensions);
  }

  lemma UnrefusedIsExtension(l: string)
    requires l != "" && l[0] != ' ' && l[0] != '\n' && !Refused(l)
    ensures ExtensionLine(l)
  {
  }

  /** An accepting decision, flattened. */
  predicate Fits(lines: seq<string>, message: string, c: Commit) {
    var n := |c.parents|;
    && 3 + n <= |lines|
    && HasKey(lines[0], "tree") && Value(lines[0], "tree") == c.tree && ObjectId(c.tree)
    && ParentsFit(lines, c.parents)
    && IdentitiesFit(lines, n, c)
    && c.message == message
  }

  predicate ParentsFit(lines: seq<string>, parents: seq<string>) {
    && 1 + |parents| <= |lines|
    && (forall i | 1 <= i < 1 + |parents| :: HasKey(lines[i], "parent") && Value(lines[i], "parent") == parents[i - 1])
    && (forall p <- parents :: ObjectId(p))
  }

  predicate IdentitiesFit(lines: seq<string>, n: nat, c: Commit) {
    && 3 + n <= |lines|
    && HasKey(lines[1 + n], "author")
    && Value(lines[1 + n], "author") == c.author && MatchIdentity(c.author).Some?
    && HasKey(lines[2 + n], "committer")
    && Value(lines[2 + n], "committer") == c.committer && MatchIdentity(c.committer).Some?
    && (forall i | 3 + n <= i < |lines| :: !Refused(lines[i]))
    && c.committerEmail == MatchIdentity(c.committer).value.email != ""
  }

  lemma KeysDiffer(line: string)
    ensures !(HasKey(line, "author") && HasKey(line, "parent"))
  {
    KeyHead(line, "author");
    KeyHead(line, "parent");
  }

  lemma KeyHead(line: string, key: string)
    requires key != ""
    ensures HasKey(line, key) ==> line != "" && line[0] == key[0]
  {
    if key + " " <= line {
      assert line[0] == (key + " ")[0];
    }
  }

  lemma DecideIffFits(lines: seq<string>, message: string, c: Commit)
    requires lines != []
    ensures Decide(lines, message) == Ok(c) <==> Fits(lines, message, c)
  {
    if Fits(lines, message, c) {
      FitsDecides(lines, message, c);
    }
    if Decide(lines, message) == Ok(c) {
      DecideFits(lines, message, c);
    }
  }

  lemma FitsDecides(lines: seq<string>, message: string, c: Commit)
    requires Fits(lines, message, c)
    ensures Decide(lines, message) == Ok(c)
  {
    var n := |c.parents|;
    KeysDiffer(lines[1 + n]);
    ParentRunIs(lines, 1, 1 + n);
    assert ParentValues(lines, 1, n) == c.parents;
    FitDecides(lines, n, c);
  }

  lemma TailIsQuiet(lines: seq<string>, k: nat)
    requires k <= |lines|
    ensures TailCheck(lines[k..]).None? <==> forall i | k <= i < |lines| :: !Refused(lines[i])
  {
    var tail := lines[k..];
    assert forall i | k <= i < |lines| :: lines[i] == tail[i - k];
    assert forall i | 0 <= i < |tail| :: tail[i] == lines[k + i];
  }

  lemma FitDecides(lines: seq<string>, n: nat, c: Commit)
    requires IdentitiesFit(lines, n, c)
    ensures DecideIdentities(lines, n, c.tree, c.parents, c.message) == Ok(c)
  {
    TailIsQuiet(lines, 3 + n);
  }

  lemma DecidedFit(lines: seq<string>, n: nat, tree: string, parents: seq<string>, message: string, c: Commit)
    requires DecideIdentities(lines, n, tree, parents, message) == Ok(c)
    ensures IdentitiesFit(lines, n, c) && c.tree == tree && c.parents == parents && c.message == message
  {
    TailIsQuiet(lines, 3 + n);
  }

  lemma DecideFits(lines: seq<string>, message: string, c: Commit)
    requires lines != [] && Decide(lines, message) == Ok(c)
    ensures Fits(lines, message, c)
  {
    var n := ParentRun(lines, 1);
    var parents := ParentValues(lines, 1, n);
    DecidedFit(lines, n, Value(lines[0], "tree"), parents, message, c);
    ParentsAre(lines, n, parents);
  }

  lemma ParentsAre(lines: seq<string>, n: nat, parents: seq<string>)
    requires 1 + n <= |lines| && forall i | 1 <= i < 1 + n :: HasKey(lines[i], "parent")
    requires parents == ParentValues(lines, 1, n)
    ensures |parents| == n && forall i | 1 <= i < 1 + n :: Value(lines[i], "parent") == parents[i - 1]
  {
  }

  lemma KeyedLine(line: string, key: string)
    requires HasKey(line, key)
    ensures Value(line, key) != "" ==> line == key + " " + Value(line, key)
  {
  }

  lemma EmptyIsNoIdentity()
    ensures MatchIdentity("").None?
  {
  }

  lemma KeyedIs(line: string, key: string, value: string)
    requires HasKey(line, key) && Value(line, key) == value && value != ""
    ensures line == key + " " + value
  {
    KeyedLine(line, key);
  }

  lemma IdentityIsText(s: string)
    requires MatchIdentity(s).Some?
    ensures s != ""
  {
    EmptyIsNoIdentity();
  }

  lemma DecidedIdentities(lines: seq<string>, n: nat, c: Commit)
    requires IdentitiesFit(lines, n, c)
    ensures lines[1 + n] == "author " + c.author && lines[2 + n] == "committer " + c.committer
  {
    IdentityIsText(c.author);
    KeyedIs(lines[1 + n], "author", c.author);
    IdentityIsText(c.committer);
    KeyedIs(lines[2 + n], "committer", c.committer);
  }

  lemma DecidedParents(lines: seq<string>, parents: seq<string>)
    requires ParentsFit(lines, parents)
    ensures lines[1..1 + |parents|] == ParentLines(parents)
  {
    forall i | 0 <= i < |parents| ensures lines[1 + i] == ParentLines(parents)[i] {
      assert parents[i] in parents;
      KeyedIs(lines[1 + i], "parent", parents[i]);
    }
  }

  lemma DecidedLines(lines: seq<string>, message: string, c: Commit)
    requires Fits(lines, message, c)
    ensures lines == HeaderLines(c, lines[3 + |c.parents|..])
  {
    KeyedIs(lines[0], "tree", c.tree);
    DecidedIdentities(lines, |c.parents|, c);
    DecidedParents(lines, c.parents);
    AssembleHeaders(c, lines);
  }

  lemma AssembleHeaders(c: Commit, lines: seq<string>)
    requires 3 + |c.parents| <= |lines|
    requires lines[0] == "tree " + c.tree && lines[1..1 + |c.parents|] == ParentLines(c.parents)
    requires lines[1 + |c.parents|] == "author " + c.author && lines[2 + |c.parents|] == "committer " + c.committer
    ensures lines == HeaderLines(c, lines[3 + |c.parents|..])
  {
    var n := |c.parents|;
    assert lines == [lines[0]] + lines[1..1 + n] + [lines[1 + n]] + [lines[2 + n]] + lines[3 + n..];
  }

  /** The logical lines of any payload that has a blank line: past the first, none is empty and none
      begins with a space or a newline. */
  predicate CleanLines(lines: seq<string>) {
    forall i | 1 <= i < |lines| :: lines[i] != "" && lines[i][0] != ' ' && lines[i][0] != '\n'
  }

  lemma LogicalLinesAreClean(payload: string)
    requires CutBlank(payload).Some?
    ensures CleanLines(Fold(SplitOn(CutBlank(payload).value.0, '\n')))
  {
    var block := CutBlank(payload).value.0;
    var raw := SplitOn(block, '\n');
    CutBlockIsClean(payload, block);
    NoEmptyLines(block);
    FoldedLinesStartClean(raw);
    forall k | 1 <= k < |raw| ensures '\n' !in raw[k] {
      assert raw[k] in raw;
    }
    FoldedLinesNonEmpty(raw);
  }

  lemma CutBlockIsClean(payload: string, block: string)
    requires CutBlank(payload).Some? && block == CutBlank(payload).value.0
    ensures forall i :: !BlankAt(block, i)
    ensures block == "" || block[|block| - 1] != '\n'
  {
    forall i ensures !BlankAt(block, i) {
      assert BlankAt(block, i) ==> BlankAt(payload, i);
    }
    if block != "" {
      assert !BlankAt(payload, |block| - 1);
    }
  }

  /** With no empty physical line after the first, no later logical line is empty or starts with a newline. */
  lemma {:induction false} FoldedLinesNonEmpty(raw: seq<string>)
    requires forall k | 1 <= k < |raw| :: raw[k] != "" && '\n' !in raw[k]
    ensures forall i | 1 <= i < |Fold(raw)| :: Fold(raw)[i] != "" && Fold(raw)[i][0] != '\n'
  {
    if raw != [] {
      var rest, l := raw[..|raw| - 1], raw[|raw| - 1];
      var front := Fold(rest);
      FoldedLinesNonEmpty(rest);
      assert |raw| > 1 ==> l != "" && l[0] in l;
      assert Fold(raw) == FoldStep(front, l);
    }
  }

  lemma HeaderLineAt(c: Commit, extensions: seq<string>)
    ensures var lines, n := HeaderLines(c, extensions), |c.parents|;
            && |lines| == 3 + n + |extensions|
            && lines[0] == "tree " + c.tree
            && (forall i | 0 <= i < n :: lines[1 + i] == "parent " + c.parents[i])
            && lines[1 + n] == "author " + c.author
            && lines[2 + n] == "committer " + c.committer
            && lines[3 + n..] == extensions
            && (forall i | 3 + n <= i < |lines| :: lines[i] in extensions)
  {
    var lines, n := HeaderLines(c, extensions), |c.parents|;
    forall i | 0 <= i < n ensures lines[1 + i] == "parent " + c.parents[i] {
      assert lines[1 + i] == ParentLines(c.parents)[i];
    }
    forall i | 3 + n <= i < |lines| ensures lines[i] in extensions {
      assert lines[i] == extensions[i - (3 + n)];
    }
  }

  lemma PrintedHeaders(c: Commit, extensions: seq<string>)
    requires WellFormed(c, extensions)
    ensures var lines := HeaderLines(c, extensions);
            && CutBlank(Print(c, extensions)) == Some((Unfold(lines), c.message))
            && SplitOn(Unfold(lines), '\n') == PhysicalLines(lines)
            && Fold(SplitOn(Unfold(lines), '\n')) == lines
  {
    var lines, n := HeaderLines(c, extensions), |c.parents|;
    HeaderLineAt(c, extensions);
    forall i | 0 <= i < |lines|
      ensures lines[i] != "" && lines[i][0] != ' ' && lines[i][0] != '\n'
    {
      if 1 <= i < 1 + n {
        assert lines[1 + (i - 1)] == "parent " + c.parents[i - 1];
      }
    }
    UnfoldingIsInvertible(lines);
    UnfoldedHasNoBlank(lines);
    CutIsUnique(Unfold(lines), c.message);
  }

  lemma UnfoldedHasNoBlank(lines: seq<string>)
    requires lines != [] && forall i | 0 <= i < |lines| :: lines[i] != "" && lines[i][0] != '\n'
    ensures forall i :: !BlankAt(Unfold(lines), i)
    ensures Unfold(lines) != "" && Unfold(lines)[|Unfold(lines)| - 1] != '\n'
  {
    PhysicalLinesNonEmpty(lines);
    PhysicalLinesClean(lines);
    JoinHasNoBlank(PhysicalLines(lines));
  }

  lemma {:induction false} PhysicalLinesNonEmpty(lines: seq<string>)
    requires forall i | 0 <= i < |lines| :: lines[i] != "" && lines[i][0] != '\n'
    ensures forall p <- PhysicalLines(lines) :: p != ""
  {
    if lines != [] {
      var rest, line := lines[..|lines| - 1], lines[|lines| - 1];
      PhysicalLinesNonEmpty(rest);
      PhysicalFirst(line);
    }
  }

  lemma PrintedIsAccepted(c: Commit, extensions: seq<string>)
    requires WellFormed(c, extensions)
    ensures Parsed(Print(c, extensions)) == Ok(c)
  {
    PrintedHeaders(c, extensions);
    PrintedLinesDecide(c, extensions);
  }

  lemma PrintedLine(key: string, value: string)
    ensures HasKey(key + " " + value, key) && Value(key + " " + value, key) == value
  {
  }

  lemma PrintedLinesDecide(c: Commit, extensions: seq<string>)
    requires WellFormed(c, extensions)
    ensures Decide(HeaderLines(c, extensions), c.message) == Ok(c)
  {
    var lines := HeaderLines(c, extensions);
    HeaderLineAt(c, extensions);
    PrintedLine("tree", c.tree);
    PrintedIdentities(lines, |c.parents|, c, extensions);
    PrintedParents(lines, c);
    DecideIffFits(lines, c.message, c);
  }

  lemma PrintedParents(lines: seq<string>, c: Commit)
    requires 1 + |c.parents| <= |lines| && forall i | 0 <= i < |c.parents| :: lines[1 + i] == "parent " + c.parents[i]
    ensures forall i | 1 <= i < 1 + |c.parents| :: HasKey(lines[i], "parent") && Value(lines[i], "parent") == c.parents[i - 1]
  {
    forall i | 1 <= i < 1 + |c.parents|
      ensures HasKey(lines[i], "parent") && Value(lines[i], "parent") == c.parents[i - 1]
    {
      PrintedLine("parent", c.parents[i - 1]);
      assert lines[1 + (i - 1)] == "parent " + c.parents[i - 1];
    }
  }

  lemma PrintedIdentities(lines: seq<string>, n: nat, c: Commit, extensions: seq<string>)
    requires WellFormed(c, extensions) && 3 + n <= |lines|
    requires lines[1 + n] == "author " + c.author && lines[2 + n] == "committer " + c.committer
    requires forall i | 3 + n <= i < |lines| :: lines[i] in extensions
    ensures IdentitiesFit(lines, n, c)
  {
    PrintedLine("author", c.author);
    PrintedLine("committer", c.committer);
    forall i | 3 + n <= i < |lines| ensures !Refused(lines[i]) {
      assert ExtensionLine(lines[i]);
    }
  }

  lemma {:induction false} ParentRunIs(lines: seq<string>, from: nat, end: nat)
    requires from <= end < |lines|
    requires forall i | from <= i < end :: HasKey(lines[i], "parent")
    requires !HasKey(lines[end], "parent")
    ensures ParentRun(lines, from) == end - from
    decreases end - from
  {
    if from < end {
      ParentRunIs(lines, from + 1, end);
    }
  }

  // ---------- Unambiguous identity ----------

  /** What a folding-unaware reader sees: the physical lines of the header block. */
  function RawHeaders(payload: string): seq<string> {
    var cut := CutBlank(payload);
    if cut.None? then [] else SplitOn(cut.value.0, '\n')
  }

  predicate Begins(key: string, l: string) {
    key + " " <= l
  }

  /** Readers that take the first or last committer line, and the first or last bracket pair in it. */
  function FirstBracketed(l: string): string {
    var lt := SplitOn(l, '<');
    if |lt| < 2 then "" else SplitOn(lt[1], '>')[0]
  }

  function LastBracketed(l: string): string {
    var gt := SplitOn(l, '>');
    if |gt| < 2 then ""
    else
      var lt := SplitOn(gt[|gt| - 2], '<');
      lt[|lt| - 1]
  }

  function CommitterLines(payload: string): seq<string> {
    Filter(RawHeaders(payload), l => Begins("committer", l))
  }

  /** Every accepted payload has exactly one physical committer line; it is never continued; it holds one
      bracket pair; every reader of it finds `committerEmail`; and no line begins a signature key and a space. */
  lemma UnambiguousIdentity(payload: string, c: Commit)
    requires Parsed(payload) == Ok(c)
    ensures var line := "committer " + c.committer;
            && CommitterLines(payload) == [line]
            && FirstBracketed(line) == LastBracketed(line) == c.committerEmail
            && |SplitOn(line, '<')| == |SplitOn(line, '>')| == 2
    ensures forall i | 0 <= i < |RawHeaders(payload)| && Begins("committer", RawHeaders(payload)[i]) ::
              i + 1 < |RawHeaders(payload)| ==> !Continuation(RawHeaders(payload)[i + 1])
    ensures forall l <- RawHeaders(payload) :: !Begins("gpgsig", l) && !Begins("gpgsig-sha256", l)
  {
    AcceptedIsPrinted(payload, c);
    var extensions :| WellFormed(c, extensions) && payload == Print(c, extensions);
    PrintedHeaders(c, extensions);
    PhysicalCommitterLines(c, extensions);
    OneBracketPair(c.committer);
  }

  lemma OneBracketPair(committer: string)
    requires MatchIdentity(committer).Some?
    ensures var line, email := "committer " + committer, MatchIdentity(committer).value.email;
            && FirstBracketed(line) == LastBracketed(line) == email
            && |SplitOn(line, '<')| == |SplitOn(line, '>')| == 2
  {
    var id := MatchIdentity(committer).value;
    MatchIdentityIff(committer, id);
    NamedIdentity(id);
    BracketsOf(id.(name := "committer " + id.name));
  }

  lemma NamedIdentity(id: Identity)
    requires id.Valid()
    ensures id.(name := "committer " + id.name).Valid()
    ensures "committer " + id.Render() == id.(name := "committer " + id.name).Render()
  {
    var named := id.(name := "committer " + id.name);
    KeyIsName();
    assert "committer " + id.Render() == named.Render();
  }

  lemma KeyIsName()
    ensures forall ch <- "committer " :: NameChar(ch)
  {
  }

  lemma BracketsOf(id: Identity)
    requires id.Valid()
    ensures FirstBracketed(id.Render()) == LastBracketed(id.Render()) == id.email
    ensures |SplitOn(id.Render(), '<')| == |SplitOn(id.Render(), '>')| == 2
  {
    SplitRendered(id);
  }

  lemma PhysicalCommitterLines(c: Commit, extensions: seq<string>)
    requires WellFormed(c, extensions)
    ensures var raw := PhysicalLines(HeaderLines(c, extensions));
            && Filter(raw, l => Begins("committer", l)) == ["committer " + c.committer]
            && (forall l <- raw :: !Begins("gpgsig", l) && !Begins("gpgsig-sha256", l))
            && (forall i | 0 <= i < |raw| && Begins("committer", raw[i]) ::
                  i + 1 < |raw| ==> !Continuation(raw[i + 1]))
  {
    var line := "committer " + c.committer;
    var before := ["tree " + c.tree] + ParentLines(c.parents) + ["author " + c.author];
    assert HeaderLines(c, extensions) == before + [line] + extensions;
    QuietBefore(c, before);
    forall l | l in extensions ensures !BeginsKey(l) {
      assert ExtensionLine(l);
    }
    CommitterIsOneLine(c);
    PhysicalLinesAppend(before + [line], extensions);
    PhysicalSnoc(before, line);
    QuietPhysicalLines(before);
    QuietPhysicalLines(extensions);
    ExtensionsStartClean(extensions);
    CommitterOnlyBetween(PhysicalLines(before), line, PhysicalLines(extensions));
  }

  lemma ExtensionsStartClean(extensions: seq<string>)
    requires forall l <- extensions :: ExtensionLine(l)
    ensures PhysicalLines(extensions) != [] ==> !Continuation(PhysicalLines(extensions)[0])
  {
    if extensions != [] {
      PhysicalStart(extensions);
      PhysicalFirst(extensions[0]);
      assert ExtensionLine(extensions[0]);
    }
  }

  lemma QuietBefore(c: Commit, before: seq<string>)
    requires before == ["tree " + c.tree] + ParentLines(c.parents) + ["author " + c.author]
    ensures forall l <- before :: !BeginsKey(l)
  {
    forall l | l in before ensures !BeginsKey(l) {
      assert l[0] == 't' || l[0] == 'p' || l[0] == 'a';
    }
  }

  lemma CommitterIsOneLine(c: Commit)
    requires MatchIdentity(c.committer).Some?
    ensures Physical("committer " + c.committer) == ["committer " + c.committer]
  {
    var id := MatchIdentity(c.committer).value;
    MatchIdentityIff(c.committer, id);
    SplitRendered(id);
    PhysicalFirst("committer " + c.committer);
  }

  predicate BeginsKey(l: string) {
    Begins("committer", l) || Begins("gpgsig", l) || Begins("gpgsig-sha256", l)
  }

  lemma {:induction false} QuietPhysicalLines(lines: seq<string>)
    requires forall l <- lines :: !BeginsKey(l)
    ensures forall p <- PhysicalLines(lines) :: !BeginsKey(p)
  {
    if lines != [] {
      var line := lines[|lines| - 1];
      QuietPhysicalLines(lines[..|lines| - 1]);
      PhysicalFirst(line);
      forall i | 0 <= i < |Physical(line)| ensures !BeginsKey(Physical(line)[i]) {
        if i > 0 {
          assert Continuation(Physical(line)[i]);
        } else {
          PrefixDoesNotBegin(Physical(line)[0], line);
        }
      }
    }
  }

  lemma PrefixDoesNotBegin(p: string, line: string)
    requires p <= line && !BeginsKey(line)
    ensures !BeginsKey(p)
  {
  }

  lemma {:induction false} PhysicalStart(lines: seq<string>)
    requires lines != []
    ensures PhysicalLines(lines) != [] && PhysicalLines(lines)[0] == Physical(lines[0])[0]
  {
    PhysicalLinesAppend([lines[0]], lines[1..]);
    assert [lines[0]] + lines[1..] == lines;
    PhysicalSnoc([], lines[0]);
    PhysicalFirst(lines[0]);
  }

  lemma CommitterOnlyBetween(a: seq<string>, line: string, b: seq<string>)
    requires forall l <- a + b :: !BeginsKey(l)
    requires Begins("committer", line)
    ensures Filter(a + [line] + b, l => Begins("committer", l)) == [line]
    ensures forall i | 0 <= i < |a + [line] + b| && Begins("committer", (a + [line] + b)[i]) :: i == |a|
  {
    var keep := (l: string) => Begins("committer", l);
    FilterAppend(a + [line], b, keep);
    FilterAppend(a, [line], keep);
    forall i | 0 <= i < |a| ensures !keep(a[i]) {
      assert a[i] in a + b;
    }
    forall i | 0 <= i < |b| ensures !keep(b[i]) {
      assert b[i] in a + b;
    }
    FilterNone(a, keep);
    FilterNone(b, keep);
    forall i | 0 <= i < |a + [line] + b| && i != |a|
      ensures !Begins("committer", (a + [line] + b)[i])
    {
      assert (a + [line] + b)[i] in a + b;
    }
  }

  /** A `parent` header after the committer is tolerated and not collected. */
  lemma LateParentIsIgnored(c: Commit, extensions: seq<string>, id: string)
    requires WellFormed(c, extensions)
    ensures Parsed(Print(c, extensions + ["parent " + id])) == Ok(c)
  {
    assert ExtensionLine("parent " + id);
    PrintedIsAccepted(c, extensions + ["parent " + id]);
  }

  /** A signature key is refused alone or before a space; on a line of its own that is continued, it is a
      logical line that goes on after the key and is accepted. */
  lemma ContinuedSignatureKeyIsAccepted(c: Commit, extensions: seq<string>, rest: string)
    requires WellFormed(c, extensions)
    ensures Signature("gpgsig") && Signature("gpgsig " + rest)
    ensures Parsed(Print(c, extensions + ["gpgsig\n" + rest])) == Ok(c)
  {
    var line := "gpgsig\n" + rest;
    assert line[6] == '\n' && "gpgsig "[6] == ' ' && "gpgsig-sha256"[6] == '-' && "gpgsig-sha256 "[6] == '-';
    assert line[0] == 'g' && "tree"[0] == "tree "[0] == 't' && "author"[0] == "author "[0] == 'a';
    assert "committer"[0] == "committer "[0] == 'c';
    assert ExtensionLine(line);
    PrintedIsAccepted(c, extensions + [line]);
  }

  // ---------- What a well-formed commit is ----------

  /** A SHA-1 or SHA-256 name in small hexadecimal letters. */
  predicate ObjectName(s: string) {
    (|s| == 40 || |s| == 64) && forall c <- s :: '0' <= c <= '9' || 'a' <= c <= 'f'
  }

  /** A name, an address without spaces in the one pair of brackets, seconds, and a zone; no control character
      anywhere. */
  ghost predicate IdentityText(line: string, name: string, email: string, stamp: string, zone: string) {
    && line == name + " <" + email + "> " + stamp + " " + zone
    && name != "" && (forall c <- name :: c >= ' ' && c != 0x7f as char && c != '<' && c != '>')
    && (forall c <- email :: c > ' ' && c != 0x7f as char && c != '<' && c != '>')
    && stamp != "" && (forall c <- stamp :: '0' <= c <= '9')
    && |zone| == 5 && (zone[0] == '+' || zone[0] == '-') && forall c <- zone[1..] :: '0' <= c <= '9'
  }

  ghost predicate NamesCommitter(line: string, email: string) {
    exists name, stamp, zone :: IdentityText(line, name, email, stamp, zone)
  }

  predicate ExtensionHeader(l: string) {
    && l != "" && l[0] != ' ' && l[0] != '\n'
    && l !in {"tree", "author", "committer", "gpgsig", "gpgsig-sha256"}
    && !("tree " <= l || "author " <= l || "committer " <= l || "gpgsig " <= l || "gpgsig-sha256 " <= l)
  }

  /** The commits the parser accepts the print of: object names for tree and parents, an author, a committer
      with the address it reports, and further headers under other keys than the five. */
  lemma WellFormedMeans(c: Commit, extensions: seq<string>)
    ensures WellFormed(c, extensions) <==>
              && ObjectName(c.tree) && (forall p <- c.parents :: ObjectName(p))
              && (exists email :: NamesCommitter(c.author, email))
              && NamesCommitter(c.committer, c.committerEmail) && c.committerEmail != ""
              && (forall l <- extensions :: ExtensionHeader(l))
  {
    IdentityMeans(c.author);
    IdentityMeans(c.committer);
    forall l <- extensions ensures ExtensionLine(l) <==> ExtensionHeader(l) {
    }
    forall p: string ensures ObjectId(p) <==> ObjectName(p) {
    }
  }

  lemma IdentityMeans(line: string)
    ensures MatchIdentity(line).Some? ==> NamesCommitter(line, MatchIdentity(line).value.email)
    ensures forall email | NamesCommitter(line, email) :: MatchIdentity(line).Some? && MatchIdentity(line).value.email == email
  {
    if MatchIdentity(line).Some? {
      var id := MatchIdentity(line).value;
      MatchIdentityIff(line, id);
      RenderIsText(id);
      assert IdentityText(line, id.name, id.email, id.stamp, id.zone);
    }
    forall email | NamesCommitter(line, email) ensures MatchIdentity(line).Some? && MatchIdentity(line).value.email == email {
      var name, stamp, zone :| IdentityText(line, name, email, stamp, zone);
      RenderIsText(Identity(name, email, stamp, zone));
      MatchIdentityIff(line, Identity(name, email, stamp, zone));
    }
  }

  lemma RenderIsText(id: Identity)
    ensures id.Render() == id.name + " <" + id.email + "> " + id.stamp + " " + id.zone
    ensures id.Valid() <==> IdentityText(id.Render(), id.name, id.email, id.stamp, id.zone)
  {
  }
}
