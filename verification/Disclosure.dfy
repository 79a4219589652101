/** Depth-aware disclosure: the effective depth of a fact under a set of grants, the projection the
    search applies per row, and what a proposer may be told about a dedupe match. */
module Disclosure {
  import opened Wrappers
  import opened Seqs
  import opened Scopes
  import LikeFilter

  type Depth = string

  const SUMMARY: Depth := "summary"
  const FACTS: Depth := "facts"
  const FULL: Depth := "full"

  /** Least to most permissive. */
  const DEPTH_ORDER: seq<Depth> := [SUMMARY, FACTS, FULL]

  datatype GrantedScope = GrantedScope(scope: Scope, depth: Depth)

  predicate ValidDepth(d: Depth) {
    d in DEPTH_ORDER
  }

  function Rank(d: Depth): (rank: int)
    ensures -1 <= rank < 3
    ensures rank >= 0 <==> ValidDepth(d)
    ensures rank >= 0 ==> DEPTH_ORDER[rank] == d
  {
    if d == SUMMARY then 0 else if d == FACTS then 1 else if d == FULL then 2 else -1
  }

  lemma RankIsInjective(d: Depth, e: Depth)
    requires ValidDepth(d) && ValidDepth(e) && Rank(d) == Rank(e)
    ensures d == e
  {
  }

  // ---------- Effective depth ----------

  predicate GrantCovers(g: GrantedScope, tag: Scope) {
    Scopes.Covers(g.scope, tag)
  }

  /** A covering grant carries a depth outside the closed vocabulary. */
  predicate BadTag(tag: Scope, granted: seq<GrantedScope>) {
    exists g <- granted :: GrantCovers(g, tag) && !ValidDepth(g.depth)
  }

  predicate CoveredTag(tag: Scope, granted: seq<GrantedScope>) {
    exists g <- granted :: GrantCovers(g, tag)
  }

  /** Some grant lets the tag be read at rank k or deeper. */
  predicate TagReadable(tag: Scope, granted: seq<GrantedScope>, k: int) {
    exists g <- granted :: GrantCovers(g, tag) && Rank(g.depth) >= k
  }

  /** Every tag can be read at rank k or deeper, each through some grant of its own. */
  predicate Readable(tags: seq<Scope>, granted: seq<GrantedScope>, k: int) {
    forall t <- tags :: TagReadable(t, granted, k)
  }

  predicate ValidGrants(granted: seq<GrantedScope>) {
    forall g <- granted :: ValidDepth(g.depth)
  }

  /** The first tag at which the scan must give up: bad, or covered by nothing. */
  predicate Stop(tag: Scope, granted: seq<GrantedScope>) {
    BadTag(tag, granted) || !CoveredTag(tag, granted)
  }

  predicate FirstStop(tags: seq<Scope>, granted: seq<GrantedScope>, i: nat) {
    && i < |tags|
    && Stop(tags[i], granted)
    && forall j | 0 <= j < i :: !Stop(tags[j], granted)
  }

  /** What a result of the scan must be: an error exactly when the first stopping tag is a bad one,
      "summary" when it is an uncovered one or there are no tags, and otherwise the deepest level at
      which every tag is readable. */
  ghost predicate IsEffectiveDepth(tags: seq<Scope>, granted: seq<GrantedScope>, r: Result<Depth, ()>) {
    if exists i: nat :: FirstStop(tags, granted, i) then
      forall i: nat | FirstStop(tags, granted, i) ::
        r == if BadTag(tags[i], granted) then Err(()) else Ok(SUMMARY)
    else if tags == [] then r == Ok(SUMMARY)
    else
      && r.Ok? && ValidDepth(r.value)
      && Threshold(tags, granted, Rank(r.value))
  }

  /** `rank` is the deepest level at which all the tags are readable. */
  ghost predicate Threshold(tags: seq<Scope>, granted: seq<GrantedScope>, rank: int) {
    forall k: int :: k <= 2 ==> (Readable(tags, granted, k) <==> k <= rank)
  }

  /** The nested scan of the source: per tag the most permissive covering grant, over tags the least
      permissive of those, with early returns. */
  method EffectiveDepth(tags: seq<Scope>, granted: seq<GrantedScope>) returns (r: Result<Depth, ()>)
    ensures IsEffectiveDepth(tags, granted, r)
  {
    var best := -1;
    for i := 0 to |tags|
      invariant Scanned(tags, granted, i, best)
    {
      var tagRank := BestRank(tags[i], granted);
      if tagRank.Err? {
        EarlyReturn(tags, granted, i, best);
        return Err(());
      }
      BestCovers(tags[i], granted, tagRank.value);
      if tagRank.value == -1 {
        EarlyReturn(tags, granted, i, best);
        return Ok(SUMMARY);
      }
      ScanStep(tags, granted, i, best, tagRank.value);
      if best == -1 || tagRank.value < best {
        best := tagRank.value;
      }
    }
    FullScan(tags, granted, best);
    if best == -1 {
      return Ok(SUMMARY);
    }
    r := Ok(DEPTH_ORDER[best]);
  }

  /** The first `i` tags stop nothing, and `best` is the deepest level at which all of them are readable. */
  ghost predicate Scanned(tags: seq<Scope>, granted: seq<GrantedScope>, i: nat, best: int) {
    && i <= |tags| && -1 <= best <= 2 && (best == -1 <==> i == 0)
    && NoStop(tags, granted, i)
    && (i > 0 ==> Threshold(tags[..i], granted, best))
  }

  predicate NoStop(tags: seq<Scope>, granted: seq<GrantedScope>, i: nat)
    requires i <= |tags|
  {
    forall j | 0 <= j < i :: !Stop(tags[j], granted)
  }

  lemma NoStopSnoc(tags: seq<Scope>, granted: seq<GrantedScope>, i: nat, rank: int)
    requires i < |tags| && NoStop(tags, granted, i) && IsBest(tags[i], granted, rank) && rank >= 0
    ensures NoStop(tags, granted, i + 1)
  {
    BestCovers(tags[i], granted, rank);
  }

  lemma EarlyReturn(tags: seq<Scope>, granted: seq<GrantedScope>, i: nat, best: int)
    requires i < |tags| && Scanned(tags, granted, i, best) && Stop(tags[i], granted)
    ensures IsEffectiveDepth(tags, granted, if BadTag(tags[i], granted) then Err(()) else Ok(SUMMARY))
  {
    assert FirstStop(tags, granted, i);
    forall i': nat | FirstStop(tags, granted, i') ensures i' == i {
    }
  }

  lemma ScanStep(tags: seq<Scope>, granted: seq<GrantedScope>, i: nat, best: int, rank: int)
    requires i < |tags| && Scanned(tags, granted, i, best) && IsBest(tags[i], granted, rank) && rank >= 0
    ensures Scanned(tags, granted, i + 1, if best == -1 || rank < best then rank else best)
  {
    NoStopSnoc(tags, granted, i, rank);
    ThresholdStep(tags, i, granted, best, rank);
  }

  lemma FullScan(tags: seq<Scope>, granted: seq<GrantedScope>, best: int)
    requires Scanned(tags, granted, |tags|, best)
    ensures IsEffectiveDepth(tags, granted, if best == -1 then Ok(SUMMARY) else Ok(DEPTH_ORDER[best]))
  {
    assert tags[..|tags|] == tags;
  }

  /** The most permissive rank among the covering grants, all of them valid; -1 for none. */
  ghost predicate IsBest(tag: Scope, granted: seq<GrantedScope>, rank: int) {
    && -1 <= rank <= 2
    && (forall g <- granted :: GrantCovers(g, tag) ==> 0 <= Rank(g.depth) <= rank)
    && (rank >= 0 ==> exists g <- granted :: GrantCovers(g, tag) && Rank(g.depth) == rank)
  }

  lemma BestSnoc(tag: Scope, seen: seq<GrantedScope>, g: GrantedScope, rank: int, covers: bool)
    requires IsBest(tag, seen, rank) && covers == GrantCovers(g, tag) && (covers ==> Rank(g.depth) >= 0)
    ensures IsBest(tag, seen + [g], if covers && Rank(g.depth) > rank then Rank(g.depth) else rank)
  {
    assert g in seen + [g] && forall h <- seen :: h in seen + [g];
  }

  lemma BestCovers(tag: Scope, granted: seq<GrantedScope>, rank: int)
    requires IsBest(tag, granted, rank)
    ensures !BadTag(tag, granted) && (rank >= 0 <==> CoveredTag(tag, granted))
  {
  }

  lemma BestMeans(tag: Scope, granted: seq<GrantedScope>, rank: int)
    requires IsBest(tag, granted, rank)
    ensures rank >= 0 ==> forall k: int :: TagReadable(tag, granted, k) <==> k <= rank
  {
  }

  /** The inner loop: the most permissive rank among the grants covering one tag, -1 for none. */
  method BestRank(tag: Scope, granted: seq<GrantedScope>) returns (r: Result<int, ()>)
    ensures r.Err? <==> BadTag(tag, granted)
    ensures r.Ok? ==> IsBest(tag, granted, r.value)
  {
    var tagRank := -1;
    for n := 0 to |granted|
      invariant IsBest(tag, granted[..n], tagRank)
    {
      var g := granted[n];
      var covers := GrantCovers(g, tag);
      assert granted[..n + 1] == granted[..n] + [g];
      if covers {
        var rank := Rank(g.depth);
        if rank < 0 {
          assert g in granted;
          return Err(());
        }
        BestSnoc(tag, granted[..n], g, tagRank, true);
        if rank > tagRank {
          tagRank := rank;
        }
      } else {
        BestSnoc(tag, granted[..n], g, tagRank, false);
      }
    }
    assert granted[..|granted|] == granted;
    BestCovers(tag, granted, tagRank);
    r := Ok(tagRank);
  }

  lemma ThresholdStep(tags: seq<Scope>, i: nat, granted: seq<GrantedScope>, best: int, rank: int)
    requires i < |tags| && 0 <= rank <= 2
    requires best == -1 <==> i == 0
    requires i > 0 ==> Threshold(tags[..i], granted, best)
    requires IsBest(tags[i], granted, rank)
    ensures Threshold(tags[..i + 1], granted, if best == -1 || rank < best then rank else best)
  {
    BestMeans(tags[i], granted, rank);
    var longer := tags[..i + 1];
    var next := if best == -1 || rank < best then rank else best;
    forall k: int
      ensures k <= 2 ==> (Readable(longer, granted, k) <==> k <= next)
    {
      ReadableSnoc(tags, i, granted, k);
      assert i == 0 ==> tags[..i] == [] && Readable(tags[..i], granted, k);
    }
  }

  lemma ReadableSnoc(tags: seq<Scope>, i: nat, granted: seq<GrantedScope>, k: int)
    requires i < |tags|
    ensures Readable(tags[..i + 1], granted, k) <==>
            Readable(tags[..i], granted, k) && TagReadable(tags[i], granted, k)
  {
    assert tags[..i + 1] == tags[..i] + [tags[i]];
    assert tags[i] in tags[..i + 1];
    forall t | t in tags[..i] ensures t in tags[..i + 1] {
    }
  }

  /** The specification leaves no choice. */
  lemma EffectiveDepthIsUnique(tags: seq<Scope>, granted: seq<GrantedScope>, r: Result<Depth, ()>, s: Result<Depth, ()>)
    requires IsEffectiveDepth(tags, granted, r) && IsEffectiveDepth(tags, granted, s)
    ensures r == s
  {
    if i: nat :| FirstStop(tags, granted, i) {
    } else if tags != [] {
      assert Readable(tags, granted, Rank(r.value)) && Readable(tags, granted, Rank(s.value));
      RankIsInjective(r.value, s.value);
    }
  }

  predicate Passes(tag: Scope, granted: seq<GrantedScope>) {
    && (exists g <- granted :: Scopes.Covers(g.scope, tag))
    && forall g <- granted | Scopes.Covers(g.scope, tag) :: g.depth in {"summary", "facts", "full"}
  }

  predicate FailsAt(tags: seq<Scope>, granted: seq<GrantedScope>, i: nat) {
    && i < |tags|
    && (exists g <- granted :: Scopes.Covers(g.scope, tags[i]) && g.depth !in {"summary", "facts", "full"})
    && forall j | 0 <= j < i :: Passes(tags[j], granted)
  }

  lemma StopIff(tag: Scope, granted: seq<GrantedScope>)
    ensures Stop(tag, granted) <==> !Passes(tag, granted)
    ensures BadTag(tag, granted)
       <==> exists g <- granted :: Scopes.Covers(g.scope, tag) && g.depth !in {"summary", "facts", "full"}
  {
    forall g <- granted ensures ValidDepth(g.depth) <==> g.depth in {"summary", "facts", "full"} {
    }
  }

  lemma FailsAtIff(tags: seq<Scope>, granted: seq<GrantedScope>, i: nat)
    ensures FailsAt(tags, granted, i) <==> FirstStop(tags, granted, i) && BadTag(tags[i], granted)
  {
    forall t <- tags {
      StopIff(t, granted);
    }
  }

  /** The scan fails exactly when some tag is covered by a grant of an unknown depth while every tag before it
      is covered, and by grants of known depths alone. */
  lemma FailsIff(tags: seq<Scope>, granted: seq<GrantedScope>, r: Result<Depth, ()>)
    requires IsEffectiveDepth(tags, granted, r)
    ensures r.Err? <==> exists i: nat :: FailsAt(tags, granted, i)
  {
    if i: nat :| FirstStop(tags, granted, i) {
      FailsAtIff(tags, granted, i);
    }
    if i: nat :| FailsAt(tags, granted, i) {
      FailsAtIff(tags, granted, i);
    }
  }

  /** With valid depths the whole scan collapses to one threshold law: above "summary", a fact is read at
      rank k or deeper exactly when it has tags and each of them is readable at k; without tags it reads at
      "summary", whatever is granted. */
  lemma ThresholdLaw(tags: seq<Scope>, granted: seq<GrantedScope>, r: Result<Depth, ()>)
    requires ValidGrants(granted) && IsEffectiveDepth(tags, granted, r)
    ensures r.Ok? && ValidDepth(r.value)
    ensures forall k | 1 <= k <= 2 :: Rank(r.value) >= k <==> tags != [] && Readable(tags, granted, k)
    ensures tags == [] ==> r.value == SUMMARY
  {
    if i: nat :| FirstStop(tags, granted, i) {
      assert !BadTag(tags[i], granted) && !CoveredTag(tags[i], granted);
      assert r == Ok(SUMMARY) && Rank(SUMMARY) == 0;
      forall k: int ensures !Readable(tags, granted, k) {
        assert tags[i] in tags && !TagReadable(tags[i], granted, k);
      }
    } else if tags == [] {
      assert r == Ok(SUMMARY) && Rank(SUMMARY) == 0;
    } else {
      assert Threshold(tags, granted, Rank(r.value));
    }
  }

  /** Order and repetition of tags and grants do not matter, more grants never read less, and dropping
      tags (but not all of them) never reads less. */
  lemma DepthIsMonotone(tags: seq<Scope>, granted: seq<GrantedScope>, r: Result<Depth, ()>,
                        fewerTags: seq<Scope>, moreGrants: seq<GrantedScope>, s: Result<Depth, ()>)
    requires ValidGrants(granted) && ValidGrants(moreGrants)
    requires IsEffectiveDepth(tags, granted, r) && IsEffectiveDepth(fewerTags, moreGrants, s)
    requires fewerTags != [] && (forall t <- fewerTags :: t in tags) && (forall g <- granted :: g in moreGrants)
    ensures r.Ok? && s.Ok? && Rank(r.value) <= Rank(s.value)
  {
    ThresholdLaw(tags, granted, r);
    ThresholdLaw(fewerTags, moreGrants, s);
    forall k | 1 <= k <= 2 && Readable(tags, granted, k)
      ensures Readable(fewerTags, moreGrants, k)
    {
      forall t | t in fewerTags ensures TagReadable(t, moreGrants, k) {
        assert TagReadable(t, granted, k);
      }
    }
    if Rank(r.value) >= 1 {
      assert Readable(tags, granted, 1);
      if Rank(r.value) >= 2 {
        assert Readable(tags, granted, 2);
      }
    }
  }

  lemma DepthIgnoresOrderAndRepetition(tags: seq<Scope>, granted: seq<GrantedScope>, r: Result<Depth, ()>,
                                       tags': seq<Scope>, granted': seq<GrantedScope>, s: Result<Depth, ()>)
    requires ValidGrants(granted) && ValidGrants(granted')
    requires IsEffectiveDepth(tags, granted, r) && IsEffectiveDepth(tags', granted', s)
    requires forall t :: t in tags <==> t in tags'
    requires forall g :: g in granted <==> g in granted'
    ensures r == s
  {
    assert (tags == [] || tags[0] in tags') && (tags' == [] || tags'[0] in tags);
    if tags != [] {
      DepthIsMonotone(tags, granted, r, tags', granted', s);
      DepthIsMonotone(tags', granted', s, tags, granted, r);
      RankIsInjective(r.value, s.value);
    }
  }

  // ---------- The read path ----------

  datatype FactRow = FactRow(
    id: string, active: bool, content: string, summary: Option<string>, tags: seq<Scope>, provenance: string)

  datatype FactView = FactView(
    id: string, depth: Depth, content: Option<string>, summary: string, provenance: Option<string>)

  function Project(row: FactRow, depth: Depth): FactView {
    FactView(
      row.id,
      depth,
      if depth == SUMMARY then None else Some(row.content),
      if depth == SUMMARY && row.summary.Some? then row.summary.value else "",
      if depth == FULL then Some(row.provenance) else None)
  }

  function ScopesOf(granted: seq<GrantedScope>): (s: seq<Scope>)
    ensures |s| == |granted|
    ensures forall i | 0 <= i < |granted| :: s[i] == granted[i].scope
  {
    seq(|granted|, i requires 0 <= i < |granted| => granted[i].scope)
  }

  predicate Visible(row: FactRow, granted: seq<GrantedScope>) {
    LikeFilter.RowVisible(row.active, row.tags, ScopesOf(granted), LikeFilter.Patterns(ScopesOf(granted)))
  }

  /** The projection loop over the rows the query returned, in whatever order it ranked them. */
  method SearchFacts(rows: seq<FactRow>, granted: seq<GrantedScope>) returns (views: Result<seq<FactView>, ()>)
    ensures views.Ok? ==>
      && |views.value| == |rows|
      && forall i | 0 <= i < |rows| ::
          && IsEffectiveDepth(rows[i].tags, granted, Ok(views.value[i].depth))
          && views.value[i] == Project(rows[i], views.value[i].depth)
    ensures ValidGrants(granted) ==> views.Ok?
  {
    var out: seq<FactView> := [];
    for i := 0 to |rows|
      invariant |out| == i
      invariant forall j | 0 <= j < i ::
        IsEffectiveDepth(rows[j].tags, granted, Ok(out[j].depth)) && out[j] == Project(rows[j], out[j].depth)
    {
      var depth := EffectiveDepth(rows[i].tags, granted);
      if depth.Err? {
        if ValidGrants(granted) {
          ThresholdLaw(rows[i].tags, granted, depth);
        }
        return Err(());
      }
      out := out + [Project(rows[i], depth.value)];
    }
    views := Ok(out);
  }

  /** A row with untargeted tags is visible exactly when it is active and has tags, each covered by some grant. */
  lemma VisibleIff(row: FactRow, granted: seq<GrantedScope>)
    requires forall t <- row.tags :: ':' !in t
    ensures Visible(row, granted) <==>
              row.active && row.tags != [] && forall t <- row.tags :: exists g <- granted :: Scopes.Covers(g.scope, t)
  {
    var scopes := ScopesOf(granted);
    LikeFilter.VisibleIffSatisfied(row.active, row.tags, scopes);
    Scopes.SatisfiedMeaning(row.tags, scopes);
    forall t <- row.tags ensures Scopes.AnyCovers(scopes, t) <==> exists g <- granted :: Scopes.Covers(g.scope, t) {
      if g :| g in granted && Scopes.Covers(g.scope, t) {
        assert g.scope in scopes;
      }
    }
  }

  /** Each tag is covered by some grant of one of these depths. */
  predicate AllAt(tags: seq<Scope>, granted: seq<GrantedScope>, depths: set<string>) {
    forall t <- tags :: exists g <- granted :: Scopes.Covers(g.scope, t) && g.depth in depths
  }

  lemma ReadableIsAllAt(tags: seq<Scope>, granted: seq<GrantedScope>)
    requires ValidGrants(granted)
    ensures Readable(tags, granted, 1) <==> AllAt(tags, granted, {"facts", "full"})
    ensures Readable(tags, granted, 2) <==> AllAt(tags, granted, {"full"})
  {
    forall t <- tags
      ensures TagReadable(t, granted, 1) <==> exists g <- granted :: Scopes.Covers(g.scope, t) && g.depth in {"facts", "full"}
      ensures TagReadable(t, granted, 2) <==> exists g <- granted :: Scopes.Covers(g.scope, t) && g.depth in {"full"}
    {
    }
  }

  /** What a search shows of a visible row: its content exactly when every tag is granted at "facts" or
      "full", and otherwise only its summary; its provenance exactly when every tag is granted at "full". */
  lemma ReadShowsContentIff(row: FactRow, granted: seq<GrantedScope>, r: Result<Depth, ()>)
    requires ValidGrants(granted) && Visible(row, granted)
    requires IsEffectiveDepth(row.tags, granted, r)
    ensures r.Ok?
    ensures var view := Project(row, r.value);
            var shown, full := AllAt(row.tags, granted, {"facts", "full"}), AllAt(row.tags, granted, {"full"});
            && view.id == row.id && view.depth == (if full then "full" else if shown then "facts" else "summary")
            && view.content == (if shown then Some(row.content) else None)
            && view.summary == (if shown || row.summary.None? then "" else row.summary.value)
            && view.provenance == (if full then Some(row.provenance) else None)
  {
    ThresholdLaw(row.tags, granted, r);
    ReadableIsAllAt(row.tags, granted);
  }

  // ---------- The dedupe disclosure ----------

  datatype Verdict = Novel | Duplicate | Contradiction | NeedsReview

  datatype DedupeDisclosure = DedupeDisclosure(verdict: Verdict, candidate: Option<string>)

  /** What the proposer is told, given the true verdict and the matched row if any. */
  function DisclosureFor(verdict: Verdict, candidate: Option<FactRow>, depth: Depth): DedupeDisclosure {
    if candidate.None? then DedupeDisclosure(Novel, None)
    else if depth != SUMMARY then DedupeDisclosure(verdict, Some(candidate.value.id))
    else DedupeDisclosure(NeedsReview, None)
  }

  /** The true verdict: distance decides only after exact equality has failed. */
  function TrueVerdict(content: string, nearest: Option<(FactRow, real)>): (Verdict, Option<FactRow>) {
    if nearest.None? then (Novel, None)
    else if nearest.value.0.content == content then (Duplicate, Some(nearest.value.0))
    else if nearest.value.1 < 0.15 then (Contradiction, Some(nearest.value.0))
    else (Novel, None)
  }

  method DisclosureForProposer(verdict: Verdict, candidate: Option<FactRow>, granted: seq<GrantedScope>)
    returns (d: Result<DedupeDisclosure, ()>)
    ensures candidate.None? ==> d == Ok(DedupeDisclosure(Novel, None))
    ensures candidate.Some? && d.Ok? ==>
      exists depth ::
        && IsEffectiveDepth(candidate.value.tags, granted, Ok(depth))
        && d.value == DisclosureFor(verdict, candidate, depth)
    ensures candidate.Some? && d.Err? ==> IsEffectiveDepth(candidate.value.tags, granted, Err(()))
  {
    if candidate.None? {
      return Ok(DedupeDisclosure(Novel, None));
    }
    var depth := EffectiveDepth(candidate.value.tags, granted);
    if depth.Err? {
      return Err(());
    }
    d := Ok(DisclosureFor(verdict, candidate, depth.value));
  }

  /** What a proposer learns of the nearest visible fact: that there is none near enough; or, when a search
      would show it that fact's content, its id and whether the content is equal; or else one constant answer,
      whatever the guess, the match and the row. */
  lemma DisclosureMatchesReadPath(content: string, nearest: Option<(FactRow, real)>, granted: seq<GrantedScope>,
                                  r: Result<Depth, ()>)
    requires ValidGrants(granted)
    requires nearest.Some? ==> Visible(nearest.value.0, granted) && IsEffectiveDepth(nearest.value.0.tags, granted, r)
    ensures var (verdict, candidate) := TrueVerdict(content, nearest);
            if nearest.None? || (nearest.value.0.content != content && nearest.value.1 >= 0.15)
            then candidate == None && forall depth :: DisclosureFor(verdict, candidate, depth) == DedupeDisclosure(Novel, None)
            else
              && r.Ok? && candidate == Some(nearest.value.0)
              && var shown := Project(nearest.value.0, r.value).content == Some(nearest.value.0.content);
                 var seen := if nearest.value.0.content == content then Duplicate else Contradiction;
                 DisclosureFor(verdict, candidate, r.value)
                 == if shown then DedupeDisclosure(seen, Some(nearest.value.0.id)) else DedupeDisclosure(NeedsReview, None)
  {
    if nearest.Some? {
      ReadShowsContentIff(nearest.value.0, granted, r);
    }
  }
}
