/** Scope visibility as the SQL queries evaluate it: escaped LIKE patterns under a doubly negated
    existential, shown to mean exactly what the scope algebra says. */
module LikeFilter {
  import opened Wrappers
  import opened Seqs
  import opened Scopes

  // ---------- LIKE, after section 9.7.1 of the PostgreSQL manual ----------

  datatype Token = Lit(c: char) | AnyOne | AnyRun

  function Prepend(first: Token, rest: Option<seq<Token>>): Option<seq<Token>> {
    if rest.None? then None else Some([first] + rest.value)
  }

  /** A pattern's tokens; None when it ends in a dangling escape, which PostgreSQL reports as an error. */
  function Tokens(p: string): Option<seq<Token>> {
    if p == [] then Some([])
    else if p[0] == '\\' then
      if |p| == 1 then None else Prepend(Lit(p[1]), Tokens(p[2..]))
    else
      Prepend(if p[0] == '%' then AnyRun else if p[0] == '_' then AnyOne else Lit(p[0]), Tokens(p[1..]))
  }

  predicate Matches(s: string, p: seq<Token>)
    decreases |s| + |p|
  {
    if p == [] then s == []
    else match p[0]
      case Lit(c) => s != [] && s[0] == c && Matches(s[1..], p[1..])
      case AnyOne => s != [] && Matches(s[1..], p[1..])
      case AnyRun => Matches(s, p[1..]) || (s != [] && Matches(s[1..], p))
  }

  predicate Like(s: string, p: string) {
    Tokens(p).Some? && Matches(s, Tokens(p).value)
  }

  // ---------- Patterns built from grants ----------

  predicate Meta(c: char) {
    c == '\\' || c == '_' || c == '%'
  }

  function EscapeChar(c: char): string {
    if Meta(c) then ['\\', c] else [c]
  }

  function Escape(g: string): string {
    if g == [] then [] else EscapeChar(g[0]) + Escape(g[1..])
  }

  function DescendantPattern(g: Scope): string {
    Escape(g) + ".%"
  }

  function Literals(s: string): (t: seq<Token>)
    ensures |t| == |s|
  {
    if s == [] then [] else [Lit(s[0])] + Literals(s[1..])
  }

  /** One escaped character scans as one literal token. */
  lemma TokensOfEscapedChar(c: char, tail: string)
    ensures Tokens(EscapeChar(c) + tail) == Prepend(Lit(c), Tokens(tail))
  {
    if Meta(c) {
      assert (['\\', c] + tail)[2..] == tail;
    } else {
      assert ([c] + tail)[1..] == tail;
    }
  }

  lemma {:induction false} TokensOfEscaped(g: string, tail: string, tokens: seq<Token>)
    requires Tokens(tail) == Some(tokens)
    ensures Tokens(Escape(g) + tail) == Some(Literals(g) + tokens)
  {
    if g == [] {
      assert Escape(g) + tail == tail;
      assert Literals(g) + tokens == tokens;
    } else {
      TokensOfEscaped(g[1..], tail, tokens);
      EscapedStep(g[0], Escape(g[1..]), tail, Literals(g[1..]), tokens);
    }
  }

  lemma EscapedStep(c: char, escaped: string, tail: string, literals: seq<Token>, tokens: seq<Token>)
    requires Tokens(escaped + tail) == Some(literals + tokens)
    ensures Tokens((EscapeChar(c) + escaped) + tail) == Some(([Lit(c)] + literals) + tokens)
  {
    TokensOfEscapedChar(c, escaped + tail);
    assert (EscapeChar(c) + escaped) + tail == EscapeChar(c) + (escaped + tail);
    assert ([Lit(c)] + literals) + tokens == [Lit(c)] + (literals + tokens);
  }

  lemma {:induction false} MatchesLiterals(s: string, g: string, p: seq<Token>)
    ensures Matches(s, Literals(g) + p) <==> g <= s && Matches(s[|g|..], p)
  {
    if g == [] {
      assert Literals(g) + p == p;
    } else {
      assert (Literals(g) + p)[1..] == Literals(g[1..]) + p;
      if s != [] && s[0] == g[0] {
        MatchesLiterals(s[1..], g[1..], p);
        if g[1..] <= s[1..] {
          assert s[1..][|g| - 1..] == s[|g|..];
        }
      }
    }
  }

  lemma {:induction false} AnyRunMatchesAll(s: string)
    ensures Matches(s, [AnyRun])
  {
    if s != [] {
      AnyRunMatchesAll(s[1..]);
    }
  }

  /** Escaping makes the pattern a literal prefix test, for every string whatever it contains,
      and the pattern never ends in a dangling escape. */
  lemma DescendantPatternIsPrefixTest(g: Scope, r: string)
    ensures Tokens(DescendantPattern(g)).Some?
    ensures Like(r, DescendantPattern(g)) <==> g + "." <= r
  {
    var tail := [Lit('.'), AnyRun];
    assert Tokens(".%") == Some(tail) by {
      var percent := ['%'];
      assert percent[1..] == [] && [AnyRun] + [] == [AnyRun];
      assert Tokens(percent) == Some([AnyRun]);
      assert ".%"[1..] == percent && [Lit('.')] + [AnyRun] == tail;
    }
    TokensOfEscaped(g, ".%", tail);
    MatchesLiterals(r, g, tail);
    if g <= r && |r| > |g| && r[|g|] == '.' {
      AnyRunMatchesAll(r[|g|..][1..]);
    }
  }

  method ScopePrefixes(granted: seq<Scope>) returns (prefixes: seq<string>)
    ensures |prefixes| == |granted|
    ensures forall i | 0 <= i < |granted| :: prefixes[i] == DescendantPattern(granted[i])
    ensures prefixes == Patterns(granted)
  {
    prefixes := [];
    for i := 0 to |granted|
      invariant |prefixes| == i
      invariant forall j | 0 <= j < i :: prefixes[j] == DescendantPattern(granted[j])
    {
      prefixes := prefixes + [Escape(granted[i]) + ".%"];
    }
  }

  function Patterns(granted: seq<Scope>): seq<string> {
    seq(|granted|, i requires 0 <= i < |granted| => DescendantPattern(granted[i]))
  }

  // ---------- Row predicates ----------

  /** `scope = ANY(granted) OR scope LIKE ANY(prefixes)`. */
  predicate TagMatches(tag: Scope, granted: seq<Scope>, prefixes: seq<string>) {
    tag in granted || exists p <- prefixes :: Like(tag, p)
  }

  /** The predicate shared by candidate_facts, fact visibility and the dedupe search: an active fact
      with at least one tag and no tag that fails to match. */
  predicate RowVisible(active: bool, tags: seq<Scope>, granted: seq<Scope>, prefixes: seq<string>) {
    && active
    && (exists t :: t in tags)
    && !(exists t :: t in tags && !TagMatches(t, granted, prefixes))
  }

  /** One grant against one tag, as SQL sees it: the ancestor rule over the whole string. */
  lemma TagMatchesMeaning(tag: Scope, granted: seq<Scope>)
    ensures TagMatches(tag, granted, Patterns(granted)) <==> exists g <- granted :: OpCovers(g, tag)
  {
    var patterns := Patterns(granted);
    forall g | g in granted
      ensures Like(tag, DescendantPattern(g)) <==> g + "." <= tag
    {
      DescendantPatternIsPrefixTest(g, tag);
    }
    if g :| g in granted && OpCovers(g, tag) && g != tag {
      var i :| 0 <= i < |granted| && granted[i] == g;
      assert patterns[i] == DescendantPattern(g) && patterns[i] in patterns;
    }
  }

  lemma PrefixElements(a: string, b: string, c: char)
    ensures a <= b && c in a ==> c in b
  {
    if a <= b {
      assert b == a + b[|a|..];
    }
  }

  /** On an untargeted tag the target-blind rule and `Covers` agree for every grant. */
  lemma OpCoversIsCoversOnUntargeted(g: Scope, tag: Scope)
    requires ':' !in tag
    ensures OpCovers(g, tag) <==> Covers(g, tag)
  {
    UntargetedSplit(tag);
    TargetedIffColon(g);
    PrefixElements(g + ".", tag, ':');
    if ':' !in g {
      UntargetedSplit(g);
    }
  }

  /** The query translation preserves meaning: with untargeted tags, a row is visible exactly when it is
      active, tagged, and satisfied by the grants, whatever the grants contain. */
  lemma VisibleIffSatisfied(active: bool, tags: seq<Scope>, granted: seq<Scope>)
    requires forall t <- tags :: ':' !in t
    ensures RowVisible(active, tags, granted, Patterns(granted)) <==>
            active && tags != [] && Satisfied(tags, granted)
  {
    SatisfiedMeaning(tags, granted);
    forall t | t in tags
      ensures TagMatches(t, granted, Patterns(granted)) <==> AnyCovers(granted, t)
    {
      TagMatchesMeaning(t, granted);
      forall g | g in granted
        ensures OpCovers(g, t) <==> Covers(g, t)
      {
        OpCoversIsCoversOnUntargeted(g, t);
      }
    }
    if tags != [] {
      assert tags[0] in tags;
    }
  }

  /** Exactly which tags are safe to leave to SQL: those without a colon, and those without a dot.
      Every targeted tag with a dot in it is matched differently from `Covers` by some grant. */
  lemma TagSafeForSqlIff(tag: Scope)
    ensures (forall g: Scope :: OpCovers(g, tag) <==> Covers(g, tag)) <==> ':' !in tag || '.' !in tag
  {
    if ':' !in tag {
      forall g: Scope ensures OpCovers(g, tag) <==> Covers(g, tag) {
        OpCoversIsCoversOnUntargeted(g, tag);
      }
    } else if '.' !in tag {
      forall g: Scope ensures OpCovers(g, tag) <==> Covers(g, tag) {
        DotlessTag(g, tag);
      }
    } else {
      var k :| 0 <= k < |tag| && tag[k] == '.';
      var g := tag[..k];
      assert g + "." == tag[..k + 1];
      assert OpCovers(g, tag) && |g| < |tag|;
      if Covers(g, tag) {
        CoveredPrefixIsUntargeted(g, tag);
        assert false;
      }
    }
  }

  lemma DotlessTag(g: Scope, tag: Scope)
    requires '.' !in tag
    ensures OpCovers(g, tag) <==> g == tag
    ensures Covers(g, tag) <==> g == tag
  {
    var gp, tp := Split(g), Split(tag);
    PrefixElements(g + ".", tag, '.');
    PrefixElements(tp.op, tag, '.');
    PrefixElements(gp.op + ".", tp.op, '.');
    assert '.' in g + "." && '.' in gp.op + ".";
  }

  /** Text added after a target is part of the target. */
  lemma {:induction false} ExtendingATarget(g: Scope, tag: Scope)
    requires g + "." <= tag && ':' in g
    ensures Split(tag).op == Split(g).op && Split(tag).target != Split(g).target
  {
    if g[0] == ':' {
      assert Split(tag).target == Some(tag[1..]) && |tag[1..]| > |g[1..]|;
    } else {
      ExtendingATarget(g[1..], tag[1..]);
    }
  }

  /** A proper dotted prefix can only cover a string that has no target. */
  lemma CoveredPrefixIsUntargeted(g: Scope, tag: Scope)
    requires g + "." <= tag && Covers(g, tag)
    ensures ':' !in tag
  {
    TargetedIffColon(tag);
    TargetedIffColon(g);
    if ':' in g {
      ExtendingATarget(g, tag);
      assert false;
    }
  }

  /** Fact writes go through `ValidateMemory`, so every stored tag is on the safe side. */
  lemma MemoryTagsAreSafe(tags: seq<Scope>)
    requires forall t <- tags :: ValidateMemory(t).Ok?
    ensures forall t <- tags :: ':' !in t
  {
    forall t | t in tags ensures ':' !in t {
      KindsPartitionValidScopes(t);
    }
  }

  /** Why the gate is needed: with no gate, a grant for one target would match, in SQL, every dotted
      extension of that target, none of which it covers. */
  lemma TargetedTagLeaks(g: Scope, child: string)
    requires ':' in g
    ensures var tag := g + "." + child;
            TagMatches(tag, [g], Patterns([g])) && !AnyCovers([g], tag)
  {
    var tag := g + "." + child;
    TagMatchesMeaning(tag, [g]);
    assert g in [g] && OpCovers(g, tag);
    ExtendingATarget(g, tag);
  }
}
