/** The dotted scope algebra: grammar, validation, coverage, and missing-scope computation.
    A character stands for one byte of the stored string. */
module Scopes {
  import opened Wrappers
  import opened Seqs

  type Scope = string

  const MAX_LENGTH := 256

  datatype Parts = Parts(op: string, target: Option<string>)

  datatype ScopeError =
    | EmptyScope | TooLong | BadSegment
    | EmptyTarget | BadTarget | Traversal
    | TargetRequired | TargetForbidden

  // ---------- Grammar ----------

  /** Operation and optional target, cut at the FIRST colon. */
  function Split(s: Scope): (p: Parts)
    ensures ':' !in p.op
    ensures s == if p.target.Some? then p.op + [':'] + p.target.value else p.op
  {
    if s == [] then Parts([], None)
    else if s[0] == ':' then Parts([], Some(s[1..]))
    else
      var rest := Split(s[1..]);
      Parts([s[0]] + rest.op, rest.target)
  }

  predicate Targeted(s: Scope) {
    Split(s).target.Some?
  }

  lemma {:induction false} TargetedIffColon(s: Scope)
    ensures Targeted(s) <==> ':' in s
  {
    if s != [] && s[0] != ':' {
      TargetedIffColon(s[1..]);
    }
  }

  lemma UntargetedSplit(s: Scope)
    requires ':' !in s
    ensures Split(s) == Parts(s, None)
  {
    TargetedIffColon(s);
  }

  predicate SegmentChar(c: char) {
    'a' <= c <= 'z' || '0' <= c <= '9' || c == '_'
  }

  predicate ValidSegment(seg: string) {
    seg != [] && forall c <- seg :: SegmentChar(c)
  }

  predicate TargetChar(c: char) {
    || 'A' <= c <= 'Z' || 'a' <= c <= 'z' || '0' <= c <= '9'
    || c == '.' || c == '_' || c == '/' || c == '-'
  }

  predicate HasTraversalSegment(target: string) {
    ".." in SplitOn(target, '/')
  }

  function Validate(s: Scope): Result<(), ScopeError> {
    if s == "" then Err(EmptyScope)
    else if |s| > MAX_LENGTH then Err(TooLong)
    else
      var p := Split(s);
      if exists seg <- SplitOn(p.op, '.') :: !ValidSegment(seg) then Err(BadSegment)
      else match p.target
        case None => Ok(())
        case Some(target) =>
          if target == "" then Err(EmptyTarget)
          else if exists c <- target :: !TargetChar(c) then Err(BadTarget)
          else if HasTraversalSegment(target) then Err(Traversal)
          else Ok(())
  }

  function ValidateCapability(s: Scope): Result<(), ScopeError> {
    var r := Validate(s);
    if r.Err? then r
    else if Split(s).target.None? then Err(TargetRequired)
    else r
  }

  function ValidateMemory(s: Scope): Result<(), ScopeError> {
    var r := Validate(s);
    if r.Err? then r
    else if Split(s).target.Some? then Err(TargetForbidden)
    else r
  }

  /** The two kinds of grant accept disjoint halves of the valid scopes, and together all of them. */
  lemma KindsPartitionValidScopes(s: Scope)
    ensures Validate(s).Ok? <==> (ValidateMemory(s).Ok? || ValidateCapability(s).Ok?)
    ensures !(ValidateMemory(s).Ok? && ValidateCapability(s).Ok?)
    ensures Validate(s).Ok? ==> (ValidateMemory(s).Ok? <==> ':' !in s)
  {
    TargetedIffColon(s);
  }

  /** In a valid scope a colon can only be the delimiter, so re-splitting a stored string on
      every colon never finds more than the operation and the target. */
  lemma ValidScopeHasOneDelimiter(s: Scope)
    requires Validate(s).Ok?
    ensures SplitOn(s, ':') ==
            match Split(s).target case None => [Split(s).op] case Some(t) => [Split(s).op, t]
  {
    var p := Split(s);
    SplitNone(p.op, ':');
    if p.target.Some? {
      assert ':' !in p.target.value;
      SplitNone(p.target.value, ':');
      SplitAppend(p.op, p.target.value, ':');
    }
  }

  // ---------- The grammar validation accepts ----------

  predicate Word(segment: string) {
    segment != "" && forall c <- segment :: 'a' <= c <= 'z' || '0' <= c <= '9' || c == '_'
  }

  /** A ".." between slashes or ends. */
  predicate Climbs(target: string, before: string, after: string) {
    && target == before + ".." + after
    && (before == "" || before[|before| - 1] == '/') && (after == "" || after[0] == '/')
  }

  ghost predicate Path(target: string) {
    && target != ""
    && (forall c <- target ::
          'A' <= c <= 'Z' || 'a' <= c <= 'z' || '0' <= c <= '9' || c == '.' || c == '_' || c == '/' || c == '-')
    && !exists before, after :: Climbs(target, before, after)
  }

  ghost predicate Spells(s: Scope, words: seq<string>, target: Option<string>) {
    && words != [] && (forall w <- words :: Word(w)) && (target.Some? ==> Path(target.value))
    && s == Join(words, '.') + (if target.Some? then ":" + target.value else "") && |s| <= 256
  }

  lemma TailOf(a: string, b: string)
    requires a != ""
    ensures (a + b)[0] == a[0] && (a + b)[1..] == a[1..] + b
  {
  }

  lemma {:induction false} SplitFirst(op: string, target: string)
    requires ':' !in op
    ensures Split(op + [':'] + target) == Parts(op, Some(target))
  {
    var s := op + [':'] + target;
    if op == "" {
      assert s[1..] == target;
    } else {
      SplitFirst(op[1..], target);
      TailOf(op, [':'] + target);
      Regroup(op, ":", target);
      Regroup(op[1..], ":", target);
    }
  }

  lemma TraversalClimbs(target: string)
    ensures HasTraversalSegment(target) <==> exists before, after :: Climbs(target, before, after)
  {
    var parts := SplitOn(target, '/');
    if HasTraversalSegment(target) {
      var k :| 0 <= k < |parts| && parts[k] == "..";
      AroundPart(parts, k);
      var before := if k == 0 then "" else Join(parts[..k], '/') + ['/'];
      var after := if k + 1 == |parts| then "" else ['/'] + Join(parts[k + 1..], '/');
      assert Climbs(target, before, after);
    }
    if before, after :| Climbs(target, before, after) {
      ClimbIsPart(target, before, after);
    }
  }

  lemma AroundPart(parts: seq<string>, k: nat)
    requires k < |parts|
    ensures Join(parts, '/') == (if k == 0 then "" else Join(parts[..k], '/') + ['/']) + parts[k]
                                + (if k + 1 == |parts| then "" else ['/'] + Join(parts[k + 1..], '/'))
  {
    FromPart(parts, k);
    var after := if k + 1 == |parts| then "" else ['/'] + Join(parts[k + 1..], '/');
    if k > 0 {
      assert parts == parts[..k] + parts[k..];
      JoinAppend(parts[..k], parts[k..], '/');
      Regroup(Join(parts[..k], '/') + ['/'], parts[k], after);
    } else {
      assert parts[0..] == parts;
      Regroup("", parts[k], after);
    }
  }

  lemma Regroup(a: string, b: string, c: string)
    ensures a + (b + c) == a + b + c
    ensures "" + b + c == b + c
  {
  }

  lemma FromPart(parts: seq<string>, k: nat)
    requires k < |parts|
    ensures Join(parts[k..], '/') == parts[k] + (if k + 1 == |parts| then "" else ['/'] + Join(parts[k + 1..], '/'))
  {
    var rest := parts[k..];
    assert rest[1..] == parts[k + 1..] && rest[0] == parts[k];
  }

  lemma ClimbIsPart(target: string, before: string, after: string)
    requires Climbs(target, before, after)
    ensures HasTraversalSegment(target)
  {
    LeadingPart(after);
    if before != "" {
      var front := before[..|before| - 1];
      assert before == front + ['/'];
      Regroup(before, "..", after);
      SplitAppend(front, ".." + after, '/');
    } else {
      assert target == ".." + after;
    }
  }

  lemma LeadingPart(after: string)
    requires after == "" || after[0] == '/'
    ensures ".." in SplitOn(".." + after, '/')
  {
    SplitNone("..", '/');
    if after != "" {
      assert ".." + after == ".." + ['/'] + after[1..];
      SplitAppend("..", after[1..], '/');
    } else {
      assert ".." + after == "..";
    }
  }

  /** The valid scopes are exactly those of the grammar: dotted words of small letters, digits and
      underscores, then if there is a colon a target of letters, digits, dots, dashes, underscores and slashes
      with no ".." between slashes; at most 256 characters in all. A memory scope has no target, a capability
      scope has one. */
  lemma ValidIffSpelled(s: Scope)
    ensures Validate(s).Ok? <==> exists words, target :: Spells(s, words, target)
    ensures ValidateMemory(s).Ok? <==> exists words :: Spells(s, words, None)
    ensures ValidateCapability(s).Ok? <==> exists words, target :: Spells(s, words, Some(target))
  {
    var p := Split(s);
    if Validate(s).Ok? {
      ValidIsSpelled(s);
    }
    forall words, target | Spells(s, words, target) ensures Validate(s).Ok? && p.target == target {
      SpelledIsValid(s, words, target);
    }
  }

  lemma ValidIsSpelled(s: Scope)
    requires Validate(s).Ok?
    ensures Spells(s, SplitOn(Split(s).op, '.'), Split(s).target)
  {
    var p := Split(s);
    var words := SplitOn(p.op, '.');
    forall w <- words ensures Word(w) {
      assert ValidSegment(w);
    }
    if p.target.Some? {
      TraversalClimbs(p.target.value);
      Regroup(p.op, ":", p.target.value);
    } else {
      assert p.op + "" == p.op;
    }
  }

  lemma SpelledIsValid(s: Scope, words: seq<string>, target: Option<string>)
    requires Spells(s, words, target)
    ensures Validate(s).Ok? && Split(s).target == target
  {
    SpelledSplits(s, words, target);
    WordsSplit(words);
    if target.Some? {
      TraversalClimbs(target.value);
    }
  }

  lemma SpelledSplits(s: Scope, words: seq<string>, target: Option<string>)
    requires words != [] && (forall w <- words :: Word(w))
    requires s == Join(words, '.') + (if target.Some? then ":" + target.value else "")
    ensures Split(s) == Parts(Join(words, '.'), target)
  {
    var op := Join(words, '.');
    forall w <- words ensures ':' !in w {
      assert Word(w);
    }
    JoinLacks(words, ':');
    if target.Some? {
      SplitFirst(op, target.value);
      Regroup(op, ":", target.value);
    } else {
      UntargetedSplit(op);
      assert s == op;
    }
  }

  lemma WordsSplit(words: seq<string>)
    requires words != [] && forall w <- words :: Word(w)
    ensures SplitOn(Join(words, '.'), '.') == words && forall w <- words :: ValidSegment(w)
    ensures Join(words, '.') != ""
  {
    forall w <- words ensures '.' !in w && ValidSegment(w) {
      assert Word(w);
    }
    SplitJoin(words, '.');
    assert Word(words[0]);
  }

  lemma {:induction false} JoinLacks(words: seq<string>, c: char)
    requires words != [] && c != '.' && forall w <- words :: c !in w
    ensures c !in Join(words, '.')
  {
    if |words| > 1 {
      JoinLacks(words[1..], c);
    }
  }

  // ---------- Coverage ----------

  /** Exact match, or `g` followed by a dot is a prefix of `r`. */
  predicate OpCovers(g: string, r: string) {
    g == r || g + "." <= r
  }

  predicate Covers(g: Scope, r: Scope) {
    var gp, rp := Split(g), Split(r);
    gp.target == rp.target && OpCovers(gp.op, rp.op)
  }

  predicate AnyCovers(granted: seq<Scope>, r: Scope) {
    exists g <- granted :: Covers(g, r)
  }

  /** Reference meaning of the ancestor rule: the grant's dotted path is a prefix, segment by
      segment, of the requested path. A raw string prefix inside a segment never counts. */
  lemma OpCoversIsSegmentPrefix(g: string, r: string)
    ensures OpCovers(g, r) <==> SplitOn(g, '.') <= SplitOn(r, '.')
  {
    var gs, rs := SplitOn(g, '.'), SplitOn(r, '.');
    if g != r && g + "." <= r {
      var tail := r[|g| + 1..];
      assert r == g + ['.'] + tail;
      SplitAppend(g, tail, '.');
    }
    if gs <= rs {
      if |gs| == |rs| {
        assert gs == rs;
      } else {
        var rest := rs[|gs|..];
        assert rs == gs + rest;
        JoinAppend(gs, rest, '.');
        assert r == g + ['.'] + Join(rest, '.');
      }
    }
  }

  /** Coverage stated without string prefixes: same target, and a segment-wise path prefix. */
  lemma CoversMeaning(g: Scope, r: Scope)
    ensures Covers(g, r) <==>
            Split(g).target == Split(r).target &&
            SplitOn(Split(g).op, '.') <= SplitOn(Split(r).op, '.')
  {
    OpCoversIsSegmentPrefix(Split(g).op, Split(r).op);
  }

  lemma CoversIsPartialOrder(a: Scope, b: Scope, c: Scope)
    ensures Covers(a, a)
    ensures Covers(a, b) && Covers(b, a) ==> a == b
    ensures Covers(a, b) && Covers(b, c) ==> Covers(a, c)
  {
    CoversMeaning(a, a);
    CoversMeaning(a, b);
    CoversMeaning(b, a);
    CoversMeaning(b, c);
    CoversMeaning(a, c);
    var x, y := SplitOn(Split(a).op, '.'), SplitOn(Split(b).op, '.');
    if Covers(a, b) && Covers(b, a) {
      assert x == y;
      assert Split(a).op == Join(x, '.') == Split(b).op;
    }
  }

  /** No grant crosses the memory/capability line. */
  lemma CoversStaysInKind(g: Scope, r: Scope)
    requires Covers(g, r) && Validate(g).Ok? && Validate(r).Ok?
    ensures ValidateMemory(g).Ok? <==> ValidateMemory(r).Ok?
    ensures ValidateCapability(g).Ok? <==> ValidateCapability(r).Ok?
  {
  }

  // ---------- Missing, Satisfied, Dedupe ----------

  function UncoveredBy(granted: seq<Scope>): Scope -> bool {
    r => !AnyCovers(granted, r)
  }

  function Uncovered(requested: seq<Scope>, granted: seq<Scope>): seq<Scope> {
    Filter(Distinct(requested), UncoveredBy(granted))
  }

  predicate Satisfied(requested: seq<Scope>, granted: seq<Scope>) {
    |Uncovered(requested, granted)| == 0
  }

  /** `Missing` walks the request once, keeping a seen-set and appending what no grant covers. */
  method Missing(requested: seq<Scope>, granted: seq<Scope>) returns (missing: seq<Scope>)
    ensures missing == Uncovered(requested, granted)
    ensures forall r :: r in missing <==> r in requested && !AnyCovers(granted, r)
    ensures NoDuplicates(missing)
    ensures missing == [] <==> Satisfied(requested, granted)
  {
    var seen: set<Scope> := {};
    missing := [];
    for i := 0 to |requested|
      invariant seen == set r | r in requested[..i]
      invariant missing == Uncovered(requested[..i], granted)
    {
      var r := requested[i];
      var covered := AnyCovers(granted, r);
      assert requested[..i + 1] == requested[..i] + [r];
      UncoveredSnoc(requested[..i], r, granted, covered);
      if r in seen {
        continue;
      }
      seen := seen + {r};
      if !covered {
        missing := missing + [r];
      }
    }
    assert requested[..|requested|] == requested;
    UncoveredMeaning(requested, granted);
  }

  /** The exact uncovered set, each scope once. */
  lemma UncoveredMeaning(requested: seq<Scope>, granted: seq<Scope>)
    ensures forall r :: r in Uncovered(requested, granted) <==> r in requested && !AnyCovers(granted, r)
    ensures NoDuplicates(Uncovered(requested, granted))
  {
    FilterNoDuplicates(Distinct(requested), UncoveredBy(granted));
  }

  lemma UncoveredSnoc(front: seq<Scope>, r: Scope, granted: seq<Scope>, covered: bool)
    requires covered == AnyCovers(granted, r)
    ensures Uncovered(front + [r], granted)
         == if r in front || covered then Uncovered(front, granted) else Uncovered(front, granted) + [r]
  {
    assert (front + [r])[..|front|] == front;
    FilterSnoc(Distinct(front), r, UncoveredBy(granted));
    assert Uncovered(front, granted) + [] == Uncovered(front, granted);
  }

  lemma {:induction false} FilterNoDuplicates<T(!new)>(s: seq<T>, keep: T -> bool)
    requires NoDuplicates(s)
    ensures NoDuplicates(Filter(s, keep))
  {
    if s != [] {
      FilterNoDuplicates(s[1..], keep);
      assert forall x <- s[1..] :: x != s[0];
    }
  }

  /** A request is satisfied exactly when every one of its scopes is covered by some grant. */
  lemma SatisfiedMeaning(requested: seq<Scope>, granted: seq<Scope>)
    ensures Satisfied(requested, granted) <==> forall r <- requested :: AnyCovers(granted, r)
    ensures forall r :: AnyCovers(granted, r) <==>
              exists g <- granted :: Split(g).target == Split(r).target
                                     && SplitOn(Split(g).op, '.') <= SplitOn(Split(r).op, '.')
  {
    var missing := Uncovered(requested, granted);
    forall r | r in requested && !AnyCovers(granted, r)
      ensures r in missing
    {
    }
    if missing != [] {
      assert missing[0] in missing;
    }
    forall g, r {
      CoversMeaning(g, r);
    }
  }

  /** Replacing grants by broader ones never takes an authorisation away. */
  lemma SatisfiedMonotone(requested: seq<Scope>, granted: seq<Scope>, broader: seq<Scope>)
    requires forall g <- granted :: AnyCovers(broader, g)
    requires Satisfied(requested, granted)
    ensures Satisfied(requested, broader)
  {
    SatisfiedMeaning(requested, granted);
    SatisfiedMeaning(requested, broader);
    forall r | r in requested
      ensures AnyCovers(broader, r)
    {
      var g :| g in granted && Covers(g, r);
      var b :| b in broader && Covers(b, g);
      CoversIsPartialOrder(b, g, r);
    }
  }

  method Dedupe(scopes: seq<Scope>) returns (deduped: seq<Scope>)
    ensures deduped == Distinct(scopes)
    ensures deduped == scopes <==> NoDuplicates(scopes)
  {
    var seen: set<Scope> := {};
    deduped := [];
    for i := 0 to |scopes|
      invariant seen == set r | r in scopes[..i]
      invariant deduped == Distinct(scopes[..i])
    {
      assert scopes[..i + 1][..i] == scopes[..i];
      if scopes[i] in seen {
        continue;
      }
      seen := seen + {scopes[i]};
      deduped := deduped + [scopes[i]];
    }
    assert scopes[..|scopes|] == scopes;
    DistinctFixpoint(scopes);
  }

  lemma {:induction false} DistinctFixpoint<T(!new)>(s: seq<T>)
    ensures Distinct(s) == s <==> NoDuplicates(s)
    ensures |Distinct(s)| <= |s|
  {
    if s != [] {
      var front := s[..|s| - 1];
      DistinctFixpoint(front);
      if NoDuplicates(s) {
        assert NoDuplicates(front);
        assert s[|s| - 1] !in front;
        assert s == front + [s[|s| - 1]];
      }
    }
  }
}
