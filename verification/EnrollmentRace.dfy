/** Minting a token statement by statement: mints in flight at once, interleaved with every other handler.
    The gate is read in three statements, and the insert comes later in a transaction of its own. */
module EnrollmentRace {
  import opened Wrappers
  import opened Enrollment
  import Runs = EnrollmentRuns

  /** Where a mint has got to. The counts found so far, then a factor still to prove, or the gate passed:
      with the factor proven, or unproven because every read found it open. */
  datatype Flight =
    | Entered(caller: Id)
    | CountedTokens(caller: Id, found: bool)
    | CountedBoth(caller: Id, found: bool)
    | MustProve(caller: Id)
    | Passed(caller: Id, proven: bool)

  /** `base` holds the rows and the history of whole handlers; `unproven` counts the tokens inserted by a
      mint that no factor was proven for. */
  datatype State = State(base: Runs.State, flights: map<Id, Flight>, unproven: nat)

  const INIT := State(Runs.INIT, map[], 0)

  datatype Step =
    | Enter(request: Id, caller: Id)
    | CountTokens(request: Id)
    | CountCredentials(request: Id)
    | ReadLatch(request: Id)
    | Prove(request: Id, ev: Evidence, now: Time)
    | Insert(request: Id, name: string, id: Id)
    | Drop(request: Id)
    | Handle(e: Runs.Event)

  predicate At(s: State, q: Id) {
    q in s.flights
  }

  predicate NameFits(name: string) {
    name != "" && |name| <= MAX_LABEL
  }

  /** Every other handler runs as a whole; a mint goes statement by statement and can end at any of them.
      The label is read from the body after the gate. */
  predicate Enabled(s: State, step: Step) {
    match step
    case Enter(q, caller) => q !in s.flights && Authenticated(s.base.rows, caller)
    case CountTokens(q) => At(s, q) && s.flights[q].Entered?
    case CountCredentials(q) => At(s, q) && s.flights[q].CountedTokens?
    case ReadLatch(q) => At(s, q) && s.flights[q].CountedBoth?
    case Prove(q, _, _) => At(s, q) && s.flights[q].MustProve? && s.flights[q].caller in s.base.rows.tokens
    case Insert(q, name, id) => At(s, q) && s.flights[q].Passed? && NameFits(name) && id !in s.base.used
    case Drop(q) => At(s, q)
    case Handle(e) => !e.Mint? && Runs.Enabled(s.base, e)
  }

  function Gone(s: State, q: Id): map<Id, Flight> {
    s.flights - {q}
  }

  function Moved(s: State, q: Id, f: Flight): State {
    s.(flights := s.flights[q := f])
  }

  predicate TokensEnrolled(r: Rows) {
    exists t <- r.tokens :: r.tokens[t].totp
  }

  function After(s: State, step: Step): State
    requires Enabled(s, step)
  {
    match step
    case Enter(q, caller) => Moved(s, q, Entered(caller))
    case CountTokens(q) => Moved(s, q, CountedTokens(s.flights[q].caller, TokensEnrolled(s.base.rows)))
    case CountCredentials(q) =>
      Moved(s, q, CountedBoth(s.flights[q].caller, s.flights[q].found || s.base.rows.credentials != map[]))
    case ReadLatch(q) =>
      var f := s.flights[q];
      Moved(s, q, if s.base.rows.latch || f.found then MustProve(f.caller) else Passed(f.caller, false))
    case Prove(q, ev, now) =>
      var f := s.flights[q];
      var v := AfterVerify(s.base.rows, f.caller, ev, now);
      State(s.base.(rows := v.0), if v.1 then s.flights[q := Passed(f.caller, true)] else Gone(s, q), s.unproven)
    case Insert(q, _, id) =>
      State(WithToken(s.base, id), Gone(s, q), s.unproven + (if s.flights[q].proven then 0 else 1))
    case Drop(q) => s.(flights := Gone(s, q))
    case Handle(e) => s.(base := Runs.After(s.base, e))
  }

  /** The insert and the latch commit together. */
  function WithToken(b: Runs.State, id: Id): Runs.State {
    b.(rows := b.rows.(tokens := b.rows.tokens[id := Token(true, false)], latch := true), used := b.used + {id})
  }

  function From(s: State, steps: seq<Step>): Option<State> {
    if steps == [] then Some(s)
    else
      var before, step := From(s, steps[..|steps| - 1]), steps[|steps| - 1];
      if before.Some? && Enabled(before.value, step) then Some(After(before.value, step)) else None
  }

  function Run(steps: seq<Step>): Option<State> {
    From(INIT, steps)
  }

  // ---------- The invariant ----------

  predicate Found(f: Flight) {
    (f.CountedTokens? || f.CountedBoth?) && f.found
  }

  /** A count found above zero was found with the latch set, and the latch stays. */
  ghost predicate Inv(s: State) {
    Runs.Inv(s.base) && forall q <- s.flights :: Found(s.flights[q]) ==> s.base.rows.latch
  }

  lemma ProveKeeps(b: Runs.State, caller: Id, ev: Evidence, now: Time)
    requires Runs.Inv(b) && caller in b.rows.tokens
    ensures Runs.Inv(b.(rows := AfterVerify(b.rows, caller, ev, now).0))
    ensures AfterVerify(b.rows, caller, ev, now).0.latch == b.rows.latch
  {
    Runs.VerifyKeeps(b.rows, caller, ev, now);
    var r := AfterVerify(b.rows, caller, ev, now).0;
    forall t <- b.factorless ensures Runs.Factorless(r, t) {
      assert Runs.Factorless(b.rows, t);
    }
  }

  lemma InsertKeeps(b: Runs.State, id: Id)
    requires Runs.Inv(b) && id !in b.used
    ensures Runs.Inv(WithToken(b, id))
  {
    forall t <- b.factorless ensures Runs.Factorless(WithToken(b, id).rows, t) {
      assert Runs.Factorless(b.rows, t);
    }
  }

  lemma FlightsKeep(s: State, step: Step)
    requires Inv(s) && Enabled(s, step) && !step.Prove? && !step.Insert? && !step.Handle?
    ensures Inv(After(s, step))
  {
  }

  lemma StepKeeps(s: State, step: Step)
    requires Inv(s) && Enabled(s, step)
    ensures Inv(After(s, step)) && (s.base.rows.latch ==> After(s, step).base.rows.latch)
  {
    match step
    case Prove(q, ev, now) => ProveKeeps(s.base, s.flights[q].caller, ev, now);
    case Insert(_, _, id) => InsertKeeps(s.base, id);
    case Handle(e) => Runs.StepKeeps(s.base, e);
    case _ => FlightsKeep(s, step);
  }

  lemma {:induction false} FromInvariant(s: State, steps: seq<Step>)
    requires Inv(s)
    ensures From(s, steps).Some? ==> Inv(From(s, steps).value)
  {
    if steps != [] {
      FromInvariant(s, steps[..|steps| - 1]);
      if From(s, steps).Some? {
        StepKeeps(From(s, steps[..|steps| - 1]).value, steps[|steps| - 1]);
      }
    }
  }

  /** Reading the gate in three statements comes to the same as reading it at the last of them, the latch;
      and tokens created without a factor stay powerless however mints interleave. */
  lemma GateReadIsAtomic(steps: seq<Step>, q: Id)
    requires Run(steps).Some? && Enabled(Run(steps).value, ReadLatch(q))
    ensures var s := Run(steps).value;
            && (After(s, ReadLatch(q)).flights[q].Passed? <==> !GateClosed(s.base.rows))
            && forall t <- s.base.factorless :: Runs.Factorless(s.base.rows, t)
  {
    FromInvariant(INIT, steps);
  }

  // ---------- At most the mints that read it open ----------

  predicate PassedOpen(s: State, q: Id) {
    q in s.flights && s.flights[q].Passed? && !s.flights[q].proven
  }

  /** The mints in flight that finished reading the gate while it was open. */
  function Open(s: State): set<Id> {
    set q | q in s.flights && PassedOpen(s, q)
  }

  lemma ClosedStep(s: State, step: Step)
    requires Enabled(s, step) && s.base.rows.latch
    ensures Open(After(s, step)) <= Open(s)
    ensures step.Insert? && PassedOpen(s, step.request) ==>
              Open(After(s, step)) <= Open(s) - {step.request} && After(s, step).unproven == s.unproven + 1
    ensures !(step.Insert? && PassedOpen(s, step.request)) ==> After(s, step).unproven == s.unproven
  {
  }

  lemma Fewer(a: set<Id>, b: set<Id>)
    requires a <= b
    ensures |a| <= |b|
  {
    assert b == a + (b - a);
  }

  lemma ClosedCount(s: State, step: Step)
    requires Enabled(s, step) && s.base.rows.latch
    ensures s.unproven <= After(s, step).unproven
    ensures After(s, step).unproven + |Open(After(s, step))| <= s.unproven + |Open(s)|
  {
    ClosedStep(s, step);
    if step.Insert? && PassedOpen(s, step.request) {
      Fewer(Open(After(s, step)), Open(s) - {step.request});
    } else {
      Fewer(Open(After(s, step)), Open(s));
    }
  }

  lemma {:induction false} ClosedRun(s: State, steps: seq<Step>)
    requires Inv(s) && s.base.rows.latch
    ensures From(s, steps).Some? ==>
              && From(s, steps).value.base.rows.latch
              && From(s, steps).value.unproven + |Open(From(s, steps).value)| <= s.unproven + |Open(s)|
  {
    if steps != [] {
      var rest := steps[..|steps| - 1];
      ClosedRun(s, rest);
      FromInvariant(s, rest);
      if From(s, steps).Some? {
        StepKeeps(From(s, rest).value, steps[|steps| - 1]);
        ClosedCount(From(s, rest).value, steps[|steps| - 1]);
      }
    }
  }

  // ---------- And as many as those ----------

  lemma {:induction false} FromFrom(s: State, a: seq<Step>, b: seq<Step>)
    requires From(s, a).Some?
    ensures From(s, a + b) == From(From(s, a).value, b)
  {
    if b == [] {
      assert a + b == a;
    } else {
      var rest, step := b[..|b| - 1], b[|b| - 1];
      assert (a + b)[..|a + b| - 1] == a + rest;
      FromFrom(s, a, rest);
    }
  }

  lemma FromStep(s: State, step: Step, more: seq<Step>)
    requires Enabled(s, step)
    ensures From(s, [step] + more) == From(After(s, step), more)
  {
    assert [step][..0] == [];
    assert From(s, [step]) == Some(After(s, step));
    FromFrom(s, [step], more);
  }

  lemma {:induction false} NewId(used: set<Id>) returns (id: Id)
    ensures forall x <- used :: x < id
  {
    id := 0;
    if x :| x in used {
      var other := NewId(used - {x});
      id := if x < other then other else x + 1;
      assert forall y <- used :: y == x || y in used - {x};
    }
  }

  /** Inserting `k` of them, one after the other. */
  lemma {:induction false} InsertMany(s: State, k: nat) returns (steps: seq<Step>)
    requires k <= |Open(s)|
    ensures MintsUnproven(s, steps, k)
    decreases k
  {
    steps := [];
    if k > 0 {
      assert Open(s) != {};
      var q :| q in Open(s);
      var id := NewId(s.base.used);
      var insert := Insert(q, "a", id);
      assert Open(After(s, insert)) == Open(s) - {q};
      var more := InsertMany(After(s, insert), k - 1);
      steps := [insert] + more;
      FromStep(s, insert, more);
    }
  }

  /** While the gate is open some caller is or can be active. */
  lemma ActiveCaller(s: State) returns (steps: seq<Step>, caller: Id)
    requires Inv(s) && !s.base.rows.latch
    ensures var end := From(s, steps);
            && end.Some? && Inv(end.value) && !end.value.base.rows.latch && Authenticated(end.value.base.rows, caller)
            && end.value.flights == s.flights && end.value.unproven == s.unproven
  {
    if t :| t in s.base.rows.tokens && !s.base.rows.tokens[t].revoked {
      steps, caller := [], t;
    } else {
      caller := NewId(s.base.used);
      var boot := Handle(Runs.Boot(caller));
      steps := [boot] + [];
      FromStep(s, boot, []);
      StepKeeps(s, boot);
    }
  }

  lemma {:induction false} FromSteps(s: State, steps: seq<Step>, states: seq<State>)
    requires |states| == |steps| + 1 && states[0] == s
    requires forall i | 0 <= i < |steps| :: Follows(states[i], steps[i], states[i + 1])
    ensures From(s, steps) == Some(states[|steps|])
  {
    if steps != [] {
      var n := |steps| - 1;
      FromSteps(s, steps[..n], states[..n + 1]);
      assert Follows(states[n], steps[n], states[n + 1]);
    }
  }

  ghost predicate Follows(s: State, step: Step, next: State) {
    Enabled(s, step) && next == After(s, step)
  }

  /** What four statements make of a new mint with no other step between them. */
  lemma ReadGate(s: State, q: Id, caller: Id)
    requires Authenticated(s.base.rows, caller) && q !in s.flights
    ensures From(s, [Enter(q, caller), CountTokens(q), CountCredentials(q), ReadLatch(q)])
         == Some(Moved(s, q, if GateClosed(s.base.rows) then MustProve(caller) else Passed(caller, false)))
  {
    var r := s.base.rows;
    var t, c := TokensEnrolled(r), r.credentials != map[];
    var s1, s2 := Moved(s, q, Entered(caller)), Moved(s, q, CountedTokens(caller, t));
    var s3 := Moved(s, q, CountedBoth(caller, t || c));
    var all := [Enter(q, caller), CountTokens(q), CountCredentials(q), ReadLatch(q)];
    assert s1.flights[q := CountedTokens(caller, t)] == s2.flights;
    assert s2.flights[q := CountedBoth(caller, t || c)] == s3.flights;
    FromSteps(s, all, [s, s1, s2, s3, After(s3, ReadLatch(q))]);
    var f := if GateClosed(r) then MustProve(caller) else Passed(caller, false);
    assert s3.flights[q := f] == s.flights[q := f];
  }

  /** With the gate open, any number of mints can read it open before the first inserts. */
  lemma {:induction false} OpenMany(s: State, caller: Id, k: nat) returns (steps: seq<Step>)
    requires !GateClosed(s.base.rows) && Authenticated(s.base.rows, caller)
    ensures var end := From(s, steps);
            end.Some? && end.value.unproven == s.unproven && |Open(end.value)| == |Open(s)| + k
    decreases k
  {
    steps := [];
    if k > 0 {
      var q := NewId(s.flights.Keys);
      var first := [Enter(q, caller), CountTokens(q), CountCredentials(q), ReadLatch(q)];
      ReadGate(s, q, caller);
      var m := From(s, first).value;
      assert Open(m) == Open(s) + {q};
      var more := OpenMany(m, caller, k - 1);
      steps := first + more;
      FromFrom(s, first, more);
    }
  }

  ghost predicate MintsUnproven(s: State, steps: seq<Step>, k: nat) {
    From(s, steps).Some? && From(s, steps).value.unproven == s.unproven + k
  }

  lemma OpenGateMints(s: State, k: nat) returns (steps: seq<Step>)
    requires Inv(s) && !s.base.rows.latch
    ensures MintsUnproven(s, steps, k)
  {
    var boot, caller := ActiveCaller(s);
    var a := From(s, boot).value;
    var gate := OpenMany(a, caller, k);
    var b := From(a, gate).value;
    var inserts := InsertMany(b, k);
    steps := boot + (gate + inserts);
    FromFrom(a, gate, inserts);
    FromFrom(s, boot, gate + inserts);
  }

  /** From any state of any run, `k` more tokens can be minted with no factor proven if and only if the gate
      is open, and then any number, or at least `k` mints in flight finished reading it while it was. In
      particular none can once it is closed and no such mint is left. */
  lemma UnprovenMintsIff(steps: seq<Step>, k: nat)
    requires Run(steps).Some?
    ensures var s := Run(steps).value;
            (exists more :: MintsUnproven(s, more, k)) <==> (!GateClosed(s.base.rows) || k <= |Open(s)|)
  {
    FromInvariant(INIT, steps);
    var s := Run(steps).value;
    if !s.base.rows.latch {
      var more := OpenGateMints(s, k);
    } else {
      forall more | MintsUnproven(s, more, k) ensures k <= |Open(s)| {
        ClosedRun(s, more);
      }
      if k <= |Open(s)| {
        var more := InsertMany(s, k);
        assert MintsUnproven(s, more, k);
      }
    }
  }

  // ---------- A mint alone ----------

  /** The statements of a mint with no other step between them. */
  function Alone(r: Rows, q: Id, caller: Id, name: string, ev: Evidence, now: Time, id: Id): seq<Step>
    requires Authenticated(r, caller)
  {
    [Enter(q, caller), CountTokens(q), CountCredentials(q), ReadLatch(q)]
    + (if GateClosed(r) then [Prove(q, ev, now)] else [])
    + (if GateClosed(r) && !AfterVerify(r, caller, ev, now).1 then []
       else if NameFits(name) then [Insert(q, name, id)] else [Drop(q)])
  }

  /** Run with nothing in between, the statements leave the rows as the handler does, end the request, and
      mint unproven exactly when the handler does. */
  lemma MintAlone(s: State, q: Id, caller: Id, name: string, ev: Evidence, now: Time, id: Id)
    requires Authenticated(s.base.rows, caller) && q !in s.flights && id !in s.base.used
    ensures var end := From(s, Alone(s.base.rows, q, caller, name, ev, now, id));
            && end.Some? && end.value.flights == s.flights
            && end.value.base.rows == AfterCreateToken(s.base.rows, caller, name, ev, now, id).0
            && end.value.unproven == s.unproven
                 + (if Runs.MintsUnproven(s.base, Runs.Mint(caller, name, ev, now, id)) then 1 else 0)
  {
    var gate := [Enter(q, caller), CountTokens(q), CountCredentials(q), ReadLatch(q)];
    ReadGate(s, q, caller);
    var m := From(s, gate).value;
    var proof := if GateClosed(s.base.rows) then [Prove(q, ev, now)] else [];
    FromFrom(s, gate, proof);
    var last := if NameFits(name) then [Insert(q, name, id)] else [Drop(q)];
    if GateClosed(s.base.rows) {
      FromStep(m, Prove(q, ev, now), []);
      assert [Prove(q, ev, now)] + [] == proof;
      if AfterVerify(s.base.rows, caller, ev, now).1 {
        EndsAlone(After(m, Prove(q, ev, now)), q, name, id);
        FromFrom(s, gate + proof, last);
      } else {
        assert gate + proof + [] == gate + proof;
      }
    } else {
      assert gate + proof == gate;
      EndsAlone(m, q, name, id);
      FromFrom(s, gate, last);
    }
  }

  lemma EndsAlone(m: State, q: Id, name: string, id: Id)
    requires q in m.flights && m.flights[q].Passed? && id !in m.base.used
    ensures var step := if NameFits(name) then Insert(q, name, id) else Drop(q);
            Enabled(m, step) && From(m, [step]) == Some(After(m, step))
  {
    var step := if NameFits(name) then Insert(q, name, id) else Drop(q);
    FromStep(m, step, []);
    assert [step] + [] == [step];
  }
}
