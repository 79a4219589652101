/** The poll lists only the oldest pending rows. Whether a row can be announced resolved while it is still
    pending depends on where new rows sort. */
module PendingWindow {
  import opened Wrappers
  import opened Seqs
  import opened ApproverModel
  import opened EventStream

  /** The pending ids in listing order, every id ever inserted, and what one connection has seen. */
  datatype State = State(pending: seq<Id>, known: set<Id>, seen: set<Id>)

  const INIT := State([], {}, {})

  datatype Step =
    | Insert(id: Id, at: nat)
    | Decide(at: nat)
    | Poll(pass: Pass)

  function Window(limit: nat, pending: seq<Id>): seq<Id> {
    if |pending| <= limit then pending else pending[..limit]
  }

  predicate Lists(items: seq<Item>, ids: seq<Id>) {
    |items| == |ids| && forall i | 0 <= i < |ids| :: items[i].id == ids[i]
  }

  /** With `last`, a new row sorts after every pending one. */
  predicate Enabled(limit: nat, last: bool, s: State, step: Step) {
    match step
    case Insert(id, at) => id !in s.known && at <= |s.pending| && (last ==> at == |s.pending|)
    case Decide(at) => at < |s.pending|
    case Poll(p) => Fits(s.seen, p) && Lists(p.listing, Window(limit, s.pending))
  }

  function After(limit: nat, last: bool, s: State, step: Step): State
    requires Enabled(limit, last, s, step)
  {
    match step
    case Insert(id, at) => s.(pending := s.pending[..at] + [id] + s.pending[at..], known := s.known + {id})
    case Decide(at) => s.(pending := s.pending[..at] + s.pending[at + 1..])
    case Poll(p) => s.(seen := SeenAfter(s.seen, p))
  }

  function Run(limit: nat, last: bool, steps: seq<Step>): Option<State> {
    if steps == [] then Some(INIT)
    else
      var before, step := Run(limit, last, steps[..|steps| - 1]), steps[|steps| - 1];
      if before.Some? && Enabled(limit, last, before.value, step) then Some(After(limit, last, before.value, step)) else None
  }

  /** A seen row that is still pending lies within the window. */
  ghost predicate Inv(limit: nat, s: State) {
    WellFormed(s) && forall i | limit <= i < |s.pending| :: s.pending[i] !in s.seen
  }

  ghost predicate WellFormed(s: State) {
    s.seen <= s.known && (forall id <- s.pending :: id in s.known) && NoDuplicates(s.pending)
  }

  /** A row goes in before the end of a full window whose last row has been seen. */
  predicate PushesOut(limit: nat, s: State, at: nat) {
    at < limit <= |s.pending| && s.pending[limit - 1] in s.seen
  }

  lemma InsertWellFormed(s: State, id: Id, at: nat)
    requires WellFormed(s) && id !in s.known && at <= |s.pending|
    ensures WellFormed(After(0, false, s, Insert(id, at)))
  {
    var longer := s.pending[..at] + [id] + s.pending[at..];
    forall i | 0 <= i < |longer| ensures longer[i] == if i == at then id else s.pending[if i < at then i else i - 1] {
    }
    forall i | 0 <= i < |longer| && i != at ensures longer[i] in s.pending {
    }
  }

  lemma InsertKeepsIff(limit: nat, s: State, id: Id, at: nat)
    requires Inv(limit, s) && id !in s.known && at <= |s.pending|
    ensures Inv(limit, After(limit, false, s, Insert(id, at))) <==> !PushesOut(limit, s, at)
  {
    InsertWellFormed(s, id, at);
    var longer := s.pending[..at] + [id] + s.pending[at..];
    if PushesOut(limit, s, at) {
      assert longer[limit] == s.pending[limit - 1];
    } else {
      forall i | limit <= i < |longer| ensures longer[i] !in s.seen {
        assert longer[i] == if i == at then id else s.pending[if i < at then i else i - 1];
      }
    }
  }

  lemma DecideKeeps(limit: nat, s: State, at: nat)
    requires WellFormed(s) && at < |s.pending|
    ensures WellFormed(After(limit, false, s, Decide(at)))
    ensures Inv(limit, s) ==> Inv(limit, After(limit, false, s, Decide(at)))
    ensures var s' := After(limit, false, s, Decide(at));
            && s'.known == s.known && s'.seen == s.seen && |s'.pending| == |s.pending| - 1
            && forall i | 0 <= i < |s'.pending| :: s'.pending[i] == s.pending[if i < at then i else i + 1]
  {
    OrderWithout(s.pending, at);
    var rest := s.pending[..at] + s.pending[at + 1..];
    forall i | 0 <= i < |rest| ensures rest[i] == s.pending[if i < at then i else i + 1] {
    }
  }

  lemma ListedIds(items: seq<Item>, ids: seq<Id>)
    requires Lists(items, ids)
    ensures forall id :: id in Ids(items) <==> id in ids
  {
    forall id | id in ids ensures id in Ids(items) {
      var i :| 0 <= i < |ids| && ids[i] == id;
      assert items[i].id == id;
    }
  }

  lemma PollKeeps(limit: nat, s: State, p: Pass)
    requires WellFormed(s) && Enabled(limit, false, s, Poll(p))
    ensures WellFormed(After(limit, false, s, Poll(p)))
    ensures Inv(limit, s) ==> Inv(limit, After(limit, false, s, Poll(p)))
    ensures Inv(limit, s) ==> forall id <- Ids(p.resolved) :: id !in s.pending
  {
    var window := Window(limit, s.pending);
    ListedIds(p.listing, window);
    forall i | 0 <= i < |s.pending| && s.pending[i] in Ids(p.listing) ensures i < limit {
      var j :| 0 <= j < |window| && window[j] == s.pending[i];
      assert s.pending[j] == s.pending[i];
    }
    forall i | 0 <= i < |s.pending| && Inv(limit, s) ensures s.pending[i] !in Ids(p.resolved) {
      assert i < limit ==> window[i] == s.pending[i] && window[i] in window;
    }
  }

  lemma StepWellFormed(limit: nat, last: bool, s: State, step: Step)
    requires WellFormed(s) && Enabled(limit, last, s, step)
    ensures WellFormed(After(limit, last, s, step))
  {
    match step
    case Insert(id, at) => InsertWellFormed(s, id, at);
    case Decide(at) => DecideKeeps(limit, s, at);
    case Poll(p) => PollKeeps(limit, s, p);
  }

  lemma {:induction false} RunWellFormed(limit: nat, last: bool, steps: seq<Step>)
    ensures Run(limit, last, steps).Some? ==> WellFormed(Run(limit, last, steps).value)
  {
    if steps != [] {
      RunWellFormed(limit, last, steps[..|steps| - 1]);
      if Run(limit, last, steps).Some? {
        StepWellFormed(limit, last, Run(limit, last, steps[..|steps| - 1]).value, steps[|steps| - 1]);
      }
    }
  }

  predicate Harmless(limit: nat, s: State, step: Step) {
    step.Insert? ==> !PushesOut(limit, s, step.at)
  }

  lemma StepKeepsIff(limit: nat, last: bool, s: State, step: Step)
    requires Inv(limit, s) && Enabled(limit, last, s, step)
    ensures Inv(limit, After(limit, last, s, step)) <==> Harmless(limit, s, step)
  {
    match step
    case Insert(id, at) => InsertKeepsIff(limit, s, id, at);
    case Decide(at) => DecideKeeps(limit, s, at);
    case Poll(p) => PollKeeps(limit, s, p);
  }

  lemma {:induction false} RunInvariant(limit: nat, steps: seq<Step>)
    ensures Run(limit, true, steps).Some? ==> Inv(limit, Run(limit, true, steps).value)
  {
    if steps != [] {
      RunInvariant(limit, steps[..|steps| - 1]);
      if Run(limit, true, steps).Some? {
        StepKeepsIff(limit, true, Run(limit, true, steps[..|steps| - 1]).value, steps[|steps| - 1]);
      }
    }
  }

  /** If new rows sort last, no poll of any run announces a row resolved while it is pending, and every
      seen row that is still pending is still listed. */
  lemma NoneResolvedWhilePending(limit: nat, steps: seq<Step>, p: Pass)
    requires Run(limit, true, steps).Some? && Enabled(limit, true, Run(limit, true, steps).value, Poll(p))
    ensures forall id <- Ids(p.resolved) :: id !in Run(limit, true, steps).value.pending
    ensures var s := Run(limit, true, steps).value; forall id <- s.pending :: id in s.seen ==> id in Ids(p.listing)
  {
    RunInvariant(limit, steps);
    var s := Run(limit, true, steps).value;
    PollKeeps(limit, s, p);
    ListedIds(p.listing, Window(limit, s.pending));
    forall id <- s.pending | id in s.seen ensures id in Ids(p.listing) {
      var i :| 0 <= i < |s.pending| && s.pending[i] == id;
      assert Window(limit, s.pending)[i] == id;
    }
  }

  // ---------- Exactly when a pending row can be announced resolved ----------

  ghost predicate Misleads(limit: nat, s: State, p: Pass) {
    Enabled(limit, false, s, Poll(p)) && exists id <- Ids(p.resolved) :: id in s.pending
  }

  /** Some poll can announce a pending row resolved exactly when a seen row is still pending but has
      `limit` or more pending rows before it. */
  lemma CanMisleadIff(limit: nat, s: State)
    requires WellFormed(s)
    ensures (exists p :: Misleads(limit, s, p)) <==> exists i | limit <= i < |s.pending| :: s.pending[i] in s.seen
  {
    if i :| limit <= i < |s.pending| && s.pending[i] in s.seen {
      var p := MisleadingPass(limit, s, i);
    } else {
      forall p ensures !Misleads(limit, s, p) {
        if Enabled(limit, false, s, Poll(p)) {
          PollKeeps(limit, s, p);
        }
      }
    }
  }

  lemma MisleadingPass(limit: nat, s: State, i: nat) returns (p: Pass)
    requires WellFormed(s) && limit <= i < |s.pending| && s.pending[i] in s.seen
    ensures Misleads(limit, s, p)
  {
    var window, row := Window(limit, s.pending), s.pending[i];
    p := Pass(Rows(window), Rows([row]));
    ListedIds(Rows(window), window);
    ListedIds(Rows([row]), [row]);
    forall j | 0 <= j < |window| ensures window[j] == s.pending[j] && window[j] != row {
    }
    DistinctRows(window);
    assert Ids(Rows([row])) == {row};
  }

  lemma {:induction false} PrefixRuns(limit: nat, steps: seq<Step>, n: nat)
    requires Run(limit, false, steps).Some? && n <= |steps|
    ensures Run(limit, false, steps[..n]).Some?
  {
    if n == |steps| {
      assert steps[..n] == steps;
    } else {
      PrefixRuns(limit, steps[..|steps| - 1], n);
      assert steps[..|steps| - 1][..n] == steps[..n];
    }
  }

  ghost predicate NoneMisleads(limit: nat, steps: seq<Step>) {
    Run(limit, false, steps).Some? && forall p :: !Misleads(limit, Run(limit, false, steps).value, p)
  }

  ghost predicate HarmlessAfter(limit: nat, steps: seq<Step>, step: Step) {
    Run(limit, false, steps).Some? && Harmless(limit, Run(limit, false, steps).value, step)
  }

  lemma NextMisleads(limit: nat, steps: seq<Step>, n: nat)
    requires Run(limit, false, steps).Some? && n < |steps| && NoneMisleads(limit, steps[..n])
    ensures NoneMisleads(limit, steps[..n + 1]) <==> HarmlessAfter(limit, steps[..n], steps[n])
  {
    PrefixRuns(limit, steps, n + 1);
    assert steps[..n + 1][..n] == steps[..n];
    RunWellFormed(limit, false, steps[..n]);
    RunWellFormed(limit, false, steps[..n + 1]);
    var s := Run(limit, false, steps[..n]).value;
    CanMisleadIff(limit, s);
    CanMisleadIff(limit, After(limit, false, s, steps[n]));
    StepKeepsIff(limit, false, s, steps[n]);
  }

  /** Wherever rows sort, in no state of the first `n` steps of a run can a poll announce a pending row
      resolved if and only if no insertion so far pushed a seen row out of a full window. */
  lemma NeverMisleadsIff(limit: nat, steps: seq<Step>, n: nat)
    requires Run(limit, false, steps).Some? && n <= |steps|
    ensures (forall k | 0 <= k <= n :: NoneMisleads(limit, steps[..k]))
       <==> (forall k | 0 <= k < n :: HarmlessAfter(limit, steps[..k], steps[k]))
  {
    var safe := (k: nat) => k <= |steps| && NoneMisleads(limit, steps[..k]);
    var harmless := (k: nat) => k < |steps| && HarmlessAfter(limit, steps[..k], steps[k]);
    assert safe(0) by {
      CanMisleadIff(limit, INIT);
      assert NoneMisleads(limit, []);
    }
    forall k | 0 <= k < n && safe(k) ensures safe(k + 1) <==> harmless(k) {
      NextMisleads(limit, steps, k);
    }
    HoldsThroughoutIff(safe, harmless, n);
    assert forall k | 0 <= k <= n :: safe(k) <==> NoneMisleads(limit, steps[..k]);
    assert forall k | 0 <= k < n :: harmless(k) <==> HarmlessAfter(limit, steps[..k], steps[k]);
  }

  // ---------- When a new row sorts first ----------

  function Inserts(ids: seq<Id>): seq<Step> {
    seq(|ids|, i requires 0 <= i < |ids| => Insert(ids[i], i))
  }

  function Filled(ids: seq<Id>): State {
    State(ids, set id | id in ids, {})
  }

  lemma {:induction false} FillRun(limit: nat, ids: seq<Id>)
    requires NoDuplicates(ids)
    ensures Run(limit, false, Inserts(ids)) == Some(Filled(ids))
  {
    if ids == [] {
      assert INIT == Filled(ids);
    } else {
      var rest, id := ids[..|ids| - 1], ids[|ids| - 1];
      FillRun(limit, rest);
      InsertsSnoc(rest, id);
      assert ids == rest + [id] && id !in rest;
      RunSnoc(limit, Inserts(rest), Insert(id, |rest|));
      FillStep(limit, rest, id);
    }
  }

  lemma InsertsSnoc(rest: seq<Id>, id: Id)
    ensures Inserts(rest + [id]) == Inserts(rest) + [Insert(id, |rest|)]
  {
  }

  lemma FillStep(limit: nat, rest: seq<Id>, id: Id)
    requires id !in rest
    ensures Enabled(limit, false, Filled(rest), Insert(id, |rest|))
    ensures After(limit, false, Filled(rest), Insert(id, |rest|)) == Filled(rest + [id])
  {
    assert rest[|rest|..] == [] && rest[..|rest|] == rest;
    assert Filled(rest + [id]).known == Filled(rest).known + {id};
  }

  function Rows(ids: seq<Id>): seq<Item> {
    seq(|ids|, i requires 0 <= i < |ids| => Item(Diff, ids[i], ""))
  }

  function PushedOut(ids: seq<Id>, early: Id): seq<Step>
    requires ids != []
  {
    Inserts(ids) + [Poll(Pass(Rows(ids), []))] + [Insert(early, 0)]
  }

  /** The assumption is needed: with a full window, one row that commits late but sorts first pushes the
      youngest listed row out, and the next poll may announce that row resolved though it is pending. */
  lemma RowSortingFirstPushesOut(limit: nat, ids: seq<Id>, early: Id)
    requires limit > 0 && |ids| == limit && NoDuplicates(ids) && early !in ids
    ensures var end := Run(limit, false, PushedOut(ids, early));
            var p := Pass(Rows([early] + ids[..limit - 1]), Rows([ids[limit - 1]]));
            && end.Some? && Enabled(limit, false, end.value, Poll(p))
            && ids[limit - 1] in end.value.pending && ids[limit - 1] in Ids(p.resolved)
  {
    FillRun(limit, ids);
    var first := Poll(Pass(Rows(ids), []));
    RunSnoc(limit, Inserts(ids), first);
    RunSnoc(limit, Inserts(ids) + [first], Insert(early, 0));
    FirstPoll(limit, ids);
    FirstIsFree(limit, After(limit, false, Filled(ids), first), ids, early);
  }

  lemma FirstPoll(limit: nat, ids: seq<Id>)
    requires |ids| == limit && NoDuplicates(ids)
    ensures var first, all := Poll(Pass(Rows(ids), [])), set id | id in ids;
            && Enabled(limit, false, Filled(ids), first)
            && After(limit, false, Filled(ids), first) == State(ids, all, all)
  {
    ListedIds(Rows(ids), ids);
    DistinctRows(ids);
    assert Ids(Rows(ids)) == set id | id in ids;
    assert Ids([]) == {};
  }

  lemma RunSnoc(limit: nat, steps: seq<Step>, step: Step)
    ensures Run(limit, false, steps + [step])
         == var before := Run(limit, false, steps);
            if before.Some? && Enabled(limit, false, before.value, step)
            then Some(After(limit, false, before.value, step)) else None
  {
    assert (steps + [step])[..|steps|] == steps;
  }

  lemma FirstIsFree(limit: nat, s: State, ids: seq<Id>, early: Id)
    requires limit > 0 && |ids| == limit && NoDuplicates(ids) && early !in ids
    requires s.pending == ids && s.known == s.seen == set id | id in ids
    ensures Enabled(limit, false, s, Insert(early, 0))
    ensures var s3, last := After(limit, false, s, Insert(early, 0)), ids[limit - 1];
            var p := Pass(Rows([early] + ids[..limit - 1]), Rows([last]));
            Enabled(limit, false, s3, Poll(p)) && last in s3.pending && last in Ids(p.resolved)
  {
    var last, window := ids[limit - 1], [early] + ids[..limit - 1];
    var s3 := After(limit, false, s, Insert(early, 0));
    assert s3.pending == [early] + ids && s3.pending[limit] == last;
    assert Window(limit, s3.pending) == window;
    ListedIds(Rows(window), window);
    ListedIds(Rows([last]), [last]);
    assert last !in window by {
      assert forall i | 0 <= i < limit - 1 :: ids[..limit - 1][i] == ids[i];
    }
    DistinctRows(window);
    assert Ids(Rows([last])) == {last};
  }

  lemma DistinctRows(ids: seq<Id>)
    requires NoDuplicates(ids)
    ensures DistinctIds(Rows(ids))
  {
  }
}
