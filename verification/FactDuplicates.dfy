/** Facts of equal content: how far the duplicate check inside a commit reaches. */
module FactDuplicates {
  import opened Wrappers
  import opened Seqs
  import opened Scopes
  import opened FactStore

  /** The check and the insert are not one step, so equal contents can both become active, but only when
      the later commit's check ran before the earlier one committed. */
  ghost predicate OnlyOverlapsDuplicate(db: Db, born: map<Id, nat>, checked: map<Id, nat>) {
    && checked.Keys == db.facts.Keys == born.Keys
    && forall f, g | Active(db, f) && Active(db, g) :: NotSeen(db, born, checked, f, g)
  }

  predicate NotSeen(db: Db, born: map<Id, nat>, checked: map<Id, nat>, f: Id, g: Id)
    requires f in db.facts && g in db.facts && f in born && g in born && g in checked
  {
    db.facts[f].content == db.facts[g].content && born[f] < born[g] ==> checked[g] <= born[f]
  }

  /** Every active fact with the content a transaction is about to insert was committed since its check. */
  ghost predicate CheckHolds(db: Db, born: map<Id, nat>, tx: Tx) {
    tx.Committing? && tx.at !in {Begun, Loaded} ==>
      && tx.checked <= |db.facts|
      && forall f | Active(db, f) && f in born :: AfterCheck(db, born, tx, f)
  }

  predicate AfterCheck(db: Db, born: map<Id, nat>, tx: Tx, f: Id)
    requires tx.Committing? && f in db.facts && f in born
  {
    db.facts[f].content == tx.row.content && Some(f) != tx.row.target ==> tx.checked <= born[f]
  }

  ghost predicate DupInv(s: State) {
    OnlyOverlapsDuplicate(s.db, s.born, s.checked) && forall t <- s.txs :: CheckHolds(s.db, s.born, s.txs[t])
  }

  lemma CommitDup(db: Db, born: map<Id, nat>, checked: map<Id, nat>, tx: Tx)
    requires OnlyOverlapsDuplicate(db, born, checked) && CheckHolds(db, born, tx)
    requires forall f <- born :: born[f] < |db.facts|
    requires Grounded(db, tx) && tx.Committing? && tx.at == Logged
    ensures OnlyOverlapsDuplicate(Written(db, tx), born[tx.fact := |db.facts|], checked[tx.fact := tx.checked])
  {
    var db', born', checked' := Written(db, tx), born[tx.fact := |db.facts|], checked[tx.fact := tx.checked];
    assert checked'.Keys == db'.facts.Keys == born'.Keys;
    forall f, g | Active(db', f) && Active(db', g) ensures NotSeen(db', born', checked', f, g) {
      CommitPair(db, born, checked, tx, f, g);
    }
  }

  lemma CommitPair(db: Db, born: map<Id, nat>, checked: map<Id, nat>, tx: Tx, f: Id, g: Id)
    requires OnlyOverlapsDuplicate(db, born, checked) && CheckHolds(db, born, tx)
    requires g in born ==> born[g] < |db.facts|
    requires Grounded(db, tx) && tx.Committing? && tx.at == Logged
    requires Active(Written(db, tx), f) && Active(Written(db, tx), g)
    ensures NotSeen(Written(db, tx), born[tx.fact := |db.facts|], checked[tx.fact := tx.checked], f, g)
  {
    StillActive(db, tx, f);
    StillActive(db, tx, g);
    assert f != tx.fact && g != tx.fact ==> NotSeen(db, born, checked, f, g);
    assert f != tx.fact ==> AfterCheck(db, born, tx, f);
  }

  lemma StillActive(db: Db, tx: Tx, f: Id)
    requires Grounded(db, tx) && tx.Committing? && tx.at == Logged && Active(Written(db, tx), f)
    ensures f != tx.fact ==> Active(db, f) && Some(f) != tx.row.target && Written(db, tx).facts[f] == db.facts[f]
    ensures f == tx.fact ==> Written(db, tx).facts[f].content == tx.row.content
  {
  }

  lemma CommitChecks(db: Db, born: map<Id, nat>, tx: Tx, other: Tx)
    requires Grounded(db, tx) && tx.Committing? && tx.at == Logged && CheckHolds(db, born, other)
    ensures CheckHolds(Written(db, tx), born[tx.fact := |db.facts|], other)
  {
    var db', born' := Written(db, tx), born[tx.fact := |db.facts|];
    assert db'.facts.Keys == db.facts.Keys + {tx.fact};
    if other.Committing? && other.at !in {Begun, Loaded} {
      forall f | Active(db', f) && f in born' ensures AfterCheck(db', born', other, f) {
        if f != tx.fact {
          assert Active(db, f) && AfterCheck(db, born, other, f);
        }
      }
    }
  }

  lemma CommitStepDup(serial: bool, s: State, t: Id)
    requires DupInv(s) && BornInOrder(s.db, s.born) && Enabled(serial, s, Commit(t)) && Grounded(s.db, s.txs[t])
    ensures DupInv(After(serial, s, Commit(t)))
  {
    var tx, s' := s.txs[t], After(serial, s, Commit(t));
    if tx.Committing? {
      CommitDup(s.db, s.born, s.checked, tx);
      forall u <- s'.txs ensures CheckHolds(s'.db, s'.born, s'.txs[u]) {
        CommitChecks(s.db, s.born, tx, s.txs[u]);
      }
    } else {
      RejectionDup(s, s'.db);
    }
  }

  lemma RejectionDup(s: State, db': Db)
    requires DupInv(s) && db'.facts == s.db.facts
    ensures OnlyOverlapsDuplicate(db', s.born, s.checked)
    ensures forall t <- s.txs :: CheckHolds(db', s.born, s.txs[t])
  {
    forall f, g | Active(db', f) && Active(db', g) ensures NotSeen(db', s.born, s.checked, f, g) {
      assert Active(s.db, f) && Active(s.db, g) && NotSeen(s.db, s.born, s.checked, f, g);
    }
    forall t <- s.txs ensures CheckHolds(db', s.born, s.txs[t]) {
      assert CheckHolds(s.db, s.born, s.txs[t]);
      var tx := s.txs[t];
      if tx.Committing? && tx.at !in {Begun, Loaded} {
        forall f | Active(db', f) && f in s.born ensures AfterCheck(db', s.born, tx, f) {
          assert Active(s.db, f) && AfterCheck(s.db, s.born, tx, f);
        }
      }
    }
  }

  lemma CheckStepHolds(serial: bool, s: State, t: Id)
    requires Enabled(serial, s, CheckDuplicate(t))
    ensures CheckHolds(s.db, s.born, After(serial, s, CheckDuplicate(t)).txs[t])
  {
  }

  lemma OpenStepDup(serial: bool, s: State, step: Step)
    requires DupInv(s) && Opens(step) && Enabled(serial, s, step)
    requires step.tx in s.txs ==> Grounded(s.db, s.txs[step.tx])
    ensures DupInv(After(serial, s, step))
  {
    var s', t := After(serial, s, step), step.tx;
    assert s'.txs == s.txs[t := s'.txs[t]];
    if step.CheckDuplicate? {
      CheckStepHolds(serial, s, t);
    } else {
      assert t in s.txs ==> CheckHolds(s.db, s.born, s.txs[t]);
      OtherStepHolds(serial, s, step);
    }
  }

  lemma OtherStepHolds(serial: bool, s: State, step: Step)
    requires Opens(step) && !step.CheckDuplicate? && Enabled(serial, s, step)
    requires step.tx in s.txs ==> Grounded(s.db, s.txs[step.tx]) && CheckHolds(s.db, s.born, s.txs[step.tx])
    ensures CheckHolds(s.db, s.born, After(serial, s, step).txs[step.tx])
  {
    var tx' := After(serial, s, step).txs[step.tx];
    if tx'.Committing? && tx'.at !in {Begun, Loaded} {
      forall f | Active(s.db, f) && f in s.born ensures AfterCheck(s.db, s.born, tx', f) {
        assert AfterCheck(s.db, s.born, s.txs[step.tx], f);
      }
    }
  }

  lemma {:induction false} RunDupInvariant(serial: bool, steps: seq<Step>)
    ensures Run(serial, steps).Some? ==> DupInv(Run(serial, steps).value)
  {
    if steps != [] && Run(serial, steps).Some? {
      var rest, step := steps[..|steps| - 1], steps[|steps| - 1];
      RunDupInvariant(serial, rest);
      RunInvariant(serial, rest);
      DupStep(serial, Run(serial, rest).value, step);
    }
  }

  lemma DupStep(serial: bool, s: State, step: Step)
    requires TxInv(s.db, s.txs) && BornInOrder(s.db, s.born) && DupInv(s) && Enabled(serial, s, step)
    ensures DupInv(After(serial, s, step))
  {
    match step
    case Propose(_, _, _, _) => RejectionDup(s, After(serial, s, step).db);
    case Commit(t) => CommitStepDup(serial, s, t);
    case Abort(t) =>
    case _ => OpenStepDup(serial, s, step);
  }

  /** In any run, of two active facts with equal content the later was checked before the earlier committed. */
  lemma DuplicatesOnlyFromOverlap(serial: bool, steps: seq<Step>, f: Id, g: Id)
    requires Run(serial, steps).Some?
    requires var s := Run(serial, steps).value;
             Active(s.db, f) && Active(s.db, g) && s.db.facts[f].content == s.db.facts[g].content
    ensures var s := Run(serial, steps).value;
            && f in s.born && g in s.born && g in s.checked
            && (s.born[f] < s.born[g] ==> s.checked[g] <= s.born[f])
  {
    RunDupInvariant(serial, steps);
    var s := Run(serial, steps).value;
    assert NotSeen(s.db, s.born, s.checked, f, g);
  }

  // ---------- Exactly when contents stay distinct ----------

  ghost predicate DistinctContents(db: Db) {
    forall f, g | Active(db, f) && Active(db, g) && f != g :: db.facts[f].content != db.facts[g].content
  }

  /** No active fact that committed after the transaction's duplicate check, other than the one it
      supersedes, has the content it is about to commit. */
  ghost predicate NothingSince(s: State, t: Id)
    requires t in s.txs && s.txs[t].Committing?
  {
    forall f | Active(s.db, f) && f in s.born && s.born[f] >= s.txs[t].checked && Some(f) != s.txs[t].row.target ::
      s.db.facts[f].content != s.txs[t].row.content
  }

  ghost predicate Harmless(s: State, step: Step) {
    step.Commit? && step.tx in s.txs && s.txs[step.tx].Committing? ==> NothingSince(s, step.tx)
  }

  lemma CommitDistinct(serial: bool, s: State, t: Id)
    requires Enabled(serial, s, Commit(t)) && s.txs[t].Committing? && Grounded(s.db, s.txs[t])
    requires CheckHolds(s.db, s.born, s.txs[t]) && s.born.Keys == s.db.facts.Keys && DistinctContents(s.db)
    ensures DistinctContents(After(serial, s, Commit(t)).db) <==> NothingSince(s, t)
  {
    var tx, db' := s.txs[t], Written(s.db, s.txs[t]);
    if NothingSince(s, t) {
      forall f, g | Active(db', f) && Active(db', g) && f != g ensures db'.facts[f].content != db'.facts[g].content {
        StillActive(s.db, tx, f);
        StillActive(s.db, tx, g);
        assert f != tx.fact ==> AfterCheck(s.db, s.born, tx, f);
        assert g != tx.fact ==> AfterCheck(s.db, s.born, tx, g);
      }
    } else {
      var f :| Active(s.db, f) && f in s.born && s.born[f] >= tx.checked && Some(f) != tx.row.target
               && s.db.facts[f].content == tx.row.content;
      StaysBeside(s.db, tx, f);
    }
  }

  lemma StaysBeside(db: Db, tx: Tx, f: Id)
    requires Grounded(db, tx) && tx.Committing? && tx.at == Logged && Active(db, f) && Some(f) != tx.row.target
    ensures Active(Written(db, tx), f) && Active(Written(db, tx), tx.fact) && f != tx.fact
    ensures Written(db, tx).facts[f].content == db.facts[f].content
    ensures Written(db, tx).facts[tx.fact].content == tx.row.content
  {
  }

  lemma SameFactsDistinct(serial: bool, s: State, step: Step)
    requires Enabled(serial, s, step) && !(step.Commit? && s.txs[step.tx].Committing?)
    ensures DistinctContents(After(serial, s, step).db) <==> DistinctContents(s.db)
  {
    var db' := After(serial, s, step).db;
    assert forall f :: Active(db', f) <==> Active(s.db, f);
  }

  /** From a state of a run whose active contents are distinct, a step leaves them distinct if and only if
      it is no commit of a fact whose content another has committed since its check. */
  lemma StaysDistinctIff(serial: bool, steps: seq<Step>, step: Step)
    requires Run(serial, steps).Some? && Enabled(serial, Run(serial, steps).value, step)
    requires DistinctContents(Run(serial, steps).value.db)
    ensures DistinctContents(After(serial, Run(serial, steps).value, step).db) <==> Harmless(Run(serial, steps).value, step)
  {
    var s := Run(serial, steps).value;
    RunInvariant(serial, steps);
    RunDupInvariant(serial, steps);
    if step.Commit? && s.txs[step.tx].Committing? {
      CommitDistinct(serial, s, step.tx);
    } else {
      SameFactsDistinct(serial, s, step);
    }
  }

  ghost predicate DistinctAt(serial: bool, steps: seq<Step>) {
    Run(serial, steps).Some? && DistinctContents(Run(serial, steps).value.db)
  }

  ghost predicate HarmlessAfter(serial: bool, steps: seq<Step>, step: Step) {
    Run(serial, steps).Some? && Harmless(Run(serial, steps).value, step)
  }

  lemma {:induction false} PrefixRuns(serial: bool, steps: seq<Step>, n: nat)
    requires Run(serial, steps).Some? && n <= |steps|
    ensures Run(serial, steps[..n]).Some?
  {
    if n == |steps| {
      assert steps[..n] == steps;
    } else {
      PrefixRuns(serial, steps[..|steps| - 1], n);
      assert steps[..|steps| - 1][..n] == steps[..n];
    }
  }

  lemma NextDistinct(serial: bool, steps: seq<Step>, n: nat)
    requires Run(serial, steps).Some? && n < |steps| && DistinctAt(serial, steps[..n])
    ensures DistinctAt(serial, steps[..n + 1]) <==> HarmlessAfter(serial, steps[..n], steps[n])
  {
    PrefixRuns(serial, steps, n + 1);
    assert steps[..n + 1][..n] == steps[..n];
    StaysDistinctIff(serial, steps[..n], steps[n]);
  }

  /** The contents of the active facts are pairwise distinct throughout the first `n` steps of a run if and
      only if none of these commits content that another has committed since its check. */
  lemma DistinctThroughoutIff(serial: bool, steps: seq<Step>, n: nat)
    requires Run(serial, steps).Some? && n <= |steps|
    ensures (forall k | 0 <= k <= n :: DistinctAt(serial, steps[..k]))
       <==> (forall k | 0 <= k < n :: HarmlessAfter(serial, steps[..k], steps[k]))
  {
    var distinct := (k: nat) => k <= |steps| && DistinctAt(serial, steps[..k]);
    var harmless := (k: nat) => k < |steps| && HarmlessAfter(serial, steps[..k], steps[k]);
    assert distinct(0) by {
      assert steps[..0] == [] && DistinctAt(serial, []);
    }
    forall k | 0 <= k < n && distinct(k) ensures distinct(k + 1) <==> harmless(k) {
      NextDistinct(serial, steps, k);
    }
    HoldsThroughoutIff(distinct, harmless, n);
    assert forall k | 0 <= k <= n :: distinct(k) <==> DistinctAt(serial, steps[..k]);
    assert forall k | 0 <= k < n :: harmless(k) <==> HarmlessAfter(serial, steps[..k], steps[k]);
  }

  /** With one transaction open at a time, each check sees every fact committed before its own. */
  ghost predicate SerialInv(s: State) {
    && (forall t, u | t in s.txs && u in s.txs :: t == u)
    && (forall t <- s.txs :: UpToDate(s.db, s.txs[t]))
    && s.checked == s.born
    && (forall f, g | f in s.born && g in s.born && s.born[f] == s.born[g] :: f == g)
  }

  predicate UpToDate(db: Db, tx: Tx) {
    tx.Committing? && tx.at !in {Begun, Loaded} ==> tx.checked == |db.facts|
  }

  lemma SerialOpen(s: State, step: Step)
    requires Opens(step) && SerialInv(s) && Enabled(true, s, step)
    requires step.tx in s.txs ==> Grounded(s.db, s.txs[step.tx])
    ensures SerialInv(After(true, s, step))
  {
    var s', t := After(true, s, step), step.tx;
    assert t in s.txs ==> UpToDate(s.db, s.txs[t]);
    assert UpToDate(s.db, s'.txs[t]);
    assert s'.txs.Keys == {t};
  }

  lemma SerialCommit(s: State, t: Id)
    requires SerialInv(s) && BornInOrder(s.db, s.born) && Enabled(true, s, Commit(t)) && Grounded(s.db, s.txs[t])
    ensures SerialInv(After(true, s, Commit(t)))
  {
    assert UpToDate(s.db, s.txs[t]);
    assert (s.txs - {t}).Keys == {};
  }

  lemma SerialStep(s: State, step: Step)
    requires TxInv(s.db, s.txs) && BornInOrder(s.db, s.born) && SerialInv(s) && Enabled(true, s, step)
    ensures SerialInv(After(true, s, step))
  {
    match step
    case Propose(_, _, _, _) =>
      forall t <- s.txs ensures UpToDate(After(true, s, step).db, s.txs[t]) {
        assert UpToDate(s.db, s.txs[t]);
      }
    case Commit(t) => SerialCommit(s, t);
    case Abort(t) =>
    case _ => SerialOpen(s, step);
  }

  lemma {:induction false} SerialRun(steps: seq<Step>)
    ensures Run(true, steps).Some? ==> SerialInv(Run(true, steps).value)
  {
    if steps != [] && Run(true, steps).Some? {
      var rest, step := steps[..|steps| - 1], steps[|steps| - 1];
      SerialRun(rest);
      RunInvariant(true, rest);
      SerialStep(Run(true, rest).value, step);
    }
  }

  /** Serially, the contents of the active facts are pairwise distinct. */
  lemma SerialContentsAreDistinct(steps: seq<Step>, f: Id, g: Id)
    requires Run(true, steps).Some? && f != g
    requires Active(Run(true, steps).value.db, f) && Active(Run(true, steps).value.db, g)
    ensures var facts := Run(true, steps).value.db.facts; facts[f].content != facts[g].content
  {
    RunDupInvariant(true, steps);
    SerialRun(steps);
    var s := Run(true, steps).value;
    assert s.born[f] != s.born[g];
    assert NotSeen(s.db, s.born, s.checked, f, g) && NotSeen(s.db, s.born, s.checked, g, f);
  }

  // ---------- Two commits at once ----------

  ghost predicate Steps(from: State, step: Step, to: State) {
    Enabled(false, from, step) && to == After(false, from, step)
  }

  lemma {:induction false} Follows(before: seq<Step>, steps: seq<Step>, s: seq<State>)
    requires |s| == |steps| + 1 && Run(false, before) == Some(s[0])
    requires forall i | 0 <= i < |steps| :: Steps(s[i], steps[i], s[i + 1])
    ensures Run(false, before + steps) == Some(s[|steps|])
  {
    if steps == [] {
      assert before + steps == before;
    } else {
      var n := |steps| - 1;
      assert Steps(s[n], steps[n], s[n + 1]);
      forall i | 0 <= i < n ensures Steps(s[..n + 1][i], steps[..n][i], s[..n + 1][i + 1]) {
        assert Steps(s[i], steps[i], s[i + 1]);
      }
      Follows(before, steps[..n], s[..n + 1]);
      assert (before + steps)[..|before + steps| - 1] == before + steps[..n];
    }
  }

  const BEGINS := [Propose(0, "x", ["a"], None), Propose(1, "x", ["a"], None),
                   BeginCommit(0, 0), Load(0), BeginCommit(1, 1), Load(1)]
  const CHECKS := [CheckDuplicate(0), CheckDuplicate(1)]
  const INSERTS := [Insert(0, 0), Insert(1, 1)]
  const FIRST_ENDS := [Mark(0), Log(0), Commit(0)]
  const SECOND_ENDS := [Mark(1), Log(1), Commit(1)]
  const OVERLAP := BEGINS + CHECKS + INSERTS + FIRST_ENDS + SECOND_ENDS

  lemma PlainScope()
    ensures ValidateMemory("a").Ok?
  {
    UntargetedSplit("a");
    SplitNone("a", '.');
  }

  const X := Diff("x", ["a"], None, Pending)

  function At(n: Id, at: Point, fact: Id): Tx {
    Committing(n, at, X, fact, 0)
  }

  function Two(a: Tx, b: Tx): State {
    INIT.(db := Db(map[0 := X, 1 := X], map[], []), txs := map[0 := a, 1 := b])
  }

  function FirstDone(b: Tx): State {
    State(Db(map[0 := X.(status := Committed), 1 := X], map[0 := Fact("x", ["a"], 0, None)], [DiffCommitted(0, 0)]),
          map[1 := b], map[0 := 0], map[0 := 0])
  }

  lemma OverlapBegins()
    ensures Run(false, BEGINS) == Some(Two(At(0, Loaded, 0), At(1, Loaded, 0)))
  {
    var s1 := INIT.(db := Db(map[0 := X], map[], []));
    var s2 := INIT.(db := Db(map[0 := X, 1 := X], map[], []));
    var s3 := s2.(txs := map[0 := Committing(0, Begun, NO_ROW, 0, 0)]);
    var s4 := s2.(txs := map[0 := At(0, Loaded, 0)]);
    var s5 := Two(At(0, Loaded, 0), Committing(1, Begun, NO_ROW, 0, 0));
    Follows([], BEGINS, [INIT, s1, s2, s3, s4, s5, Two(At(0, Loaded, 0), At(1, Loaded, 0))]);
    assert [] + BEGINS == BEGINS;
  }

  lemma OverlapChecks(before: seq<Step>)
    requires Run(false, before) == Some(Two(At(0, Loaded, 0), At(1, Loaded, 0)))
    ensures Run(false, before + CHECKS) == Some(Two(At(0, Checked, 0), At(1, Checked, 0)))
  {
    Follows(before, CHECKS, [Two(At(0, Loaded, 0), At(1, Loaded, 0)), Two(At(0, Checked, 0), At(1, Loaded, 0)),
                             Two(At(0, Checked, 0), At(1, Checked, 0))]);
  }

  lemma OverlapInserts(before: seq<Step>)
    requires Run(false, before) == Some(Two(At(0, Checked, 0), At(1, Checked, 0)))
    ensures Run(false, before + INSERTS) == Some(Two(At(0, Inserted, 0), At(1, Inserted, 1)))
  {
    FirstInserts();
    SecondInserts();
    Follows(before, INSERTS, [Two(At(0, Checked, 0), At(1, Checked, 0)), Two(At(0, Inserted, 0), At(1, Checked, 0)),
                              Two(At(0, Inserted, 0), At(1, Inserted, 1))]);
  }

  lemma FirstInserts()
    ensures Steps(Two(At(0, Checked, 0), At(1, Checked, 0)), Insert(0, 0), Two(At(0, Inserted, 0), At(1, Checked, 0)))
  {
    PlainScope();
  }

  lemma SecondInserts()
    ensures Steps(Two(At(0, Inserted, 0), At(1, Checked, 0)), Insert(1, 1), Two(At(0, Inserted, 0), At(1, Inserted, 1)))
  {
    PlainScope();
  }

  lemma FirstEnds(before: seq<Step>)
    requires Run(false, before) == Some(Two(At(0, Inserted, 0), At(1, Inserted, 1)))
    ensures Run(false, before + FIRST_ENDS) == Some(FirstDone(At(1, Inserted, 1)))
  {
    var b := At(1, Inserted, 1);
    FirstCommit(b);
    FirstMarks(b);
    Follows(before, FIRST_ENDS, [Two(At(0, Inserted, 0), b), Two(At(0, Marked, 0), b), Two(At(0, Logged, 0), b), FirstDone(b)]);
  }

  lemma FirstMarks(b: Tx)
    ensures Steps(Two(At(0, Inserted, 0), b), Mark(0), Two(At(0, Marked, 0), b))
    ensures Steps(Two(At(0, Marked, 0), b), Log(0), Two(At(0, Logged, 0), b))
  {
  }

  lemma FirstCommit(b: Tx)
    ensures Steps(Two(At(0, Logged, 0), b), Commit(0), FirstDone(b))
  {
    var s := Two(At(0, Logged, 0), b);
    assert s.txs - {0} == map[1 := b];
    assert Written(s.db, At(0, Logged, 0)).diffs == map[0 := X.(status := Committed), 1 := X];
  }

  lemma SecondEnds(before: seq<Step>)
    requires Run(false, before) == Some(FirstDone(At(1, Inserted, 1)))
    ensures var end := Run(false, before + SECOND_ENDS);
            && end.Some? && Active(end.value.db, 0) && Active(end.value.db, 1)
            && end.value.db.facts[0].content == end.value.db.facts[1].content
  {
    var last := SecondCommit();
    SecondMarks();
    Follows(before, SECOND_ENDS,
            [FirstDone(At(1, Inserted, 1)), FirstDone(At(1, Marked, 1)), FirstDone(At(1, Logged, 1)), last]);
  }

  lemma SecondMarks()
    ensures Steps(FirstDone(At(1, Inserted, 1)), Mark(1), FirstDone(At(1, Marked, 1)))
    ensures Steps(FirstDone(At(1, Marked, 1)), Log(1), FirstDone(At(1, Logged, 1)))
  {
  }

  lemma SecondCommit() returns (last: State)
    ensures Steps(FirstDone(At(1, Logged, 1)), Commit(1), last)
    ensures Active(last.db, 0) && Active(last.db, 1) && last.db.facts[0].content == last.db.facts[1].content
  {
    last := After(false, FirstDone(At(1, Logged, 1)), Commit(1));
    assert last.db.facts == map[0 := Fact("x", ["a"], 0, None)][1 := Fact("x", ["a"], 1, None)];
  }

  /** The serial hypothesis is needed: two overlapping commits leave two active facts of one content. */
  lemma OverlappingCommitsDuplicate()
    ensures Run(false, OVERLAP).Some?
    ensures var db := Run(false, OVERLAP).value.db;
            Active(db, 0) && Active(db, 1) && db.facts[0].content == db.facts[1].content
  {
    OverlapBegins();
    OverlapChecks(BEGINS);
    OverlapInserts(BEGINS + CHECKS);
    FirstEnds(BEGINS + CHECKS + INSERTS);
    SecondEnds(BEGINS + CHECKS + INSERTS + FIRST_ENDS);
  }
}