/** What every run of commits and rejections guarantees, whatever interleaves. */
module FactRuns {
  import opened Wrappers
  import opened Seqs
  import opened FactStore

  /** In every reachable state a diff is committed exactly when some fact came from it, and then only one;
      each fact supersedes at most one, the one its diff targeted; and the active facts number the
      committed diffs that target nothing. */
  lemma CommitsAndFactsCorrespond(serial: bool, steps: seq<Step>)
    requires Run(serial, steps).Some?
    ensures var db := Run(serial, steps).value.db;
            && (forall d <- db.diffs :: db.diffs[d].status == Committed <==> exists f <- db.facts :: db.facts[f].source == d)
            && (forall f, g | f in db.facts && g in db.facts && db.facts[f].source == db.facts[g].source :: f == g)
            && (forall f <- db.facts :: FactOf(db, f, db.facts[f].source))
            && (forall g, h | g in db.facts && h in db.facts :: Linked(db, g, h))
            && (forall f, g | f in db.facts && g in db.facts && db.facts[f].supersededBy.Some?
                              && db.facts[f].supersededBy == db.facts[g].supersededBy :: f == g)
            && |ActiveFacts(db)| == |CommittedRoots(db)|
  {
    RunInvariant(serial, steps);
    var db := Run(serial, steps).value.db;
    forall d <- db.diffs | exists f <- db.facts :: db.facts[f].source == d ensures db.diffs[d].status == Committed {
      var f :| f in db.facts && db.facts[f].source == d;
      assert FactOf(db, f, d);
    }
    forall f, g | f in db.facts && g in db.facts && db.facts[f].supersededBy.Some?
                  && db.facts[f].supersededBy == db.facts[g].supersededBy
      ensures f == g
    {
      var h := db.facts[f].supersededBy.value;
      assert Linked(db, f, h) && Linked(db, g, h);
    }
  }

  /** The fact at the end of the chain of supersessions that starts at `f`. */
  ghost function Head(db: Db, born: map<Id, nat>, f: Id): (h: Id)
    requires BornInOrder(db, born) && f in db.facts
    ensures Active(db, h) && born[f] <= born[h]
    decreases |db.facts| - born[f]
  {
    match db.facts[f].supersededBy
    case None => f
    case Some(g) => Head(db, born, g)
  }

  ghost predicate Reaches(db: Db, born: map<Id, nat>, f: Id, g: Id)
    requires BornInOrder(db, born) && f in db.facts
    decreases |db.facts| - born[f]
  {
    f == g || (db.facts[f].supersededBy.Some? && Reaches(db, born, db.facts[f].supersededBy.value, g))
  }

  /** Two facts that lead to the same end lie on one chain. */
  lemma {:induction false} SameEndOneChain(db: Db, born: map<Id, nat>, f: Id, g: Id)
    requires DbInv(db, born) && f in db.facts && g in db.facts
    requires Head(db, born, f) == Head(db, born, g)
    ensures Reaches(db, born, f, g) || Reaches(db, born, g, f)
    decreases 2 * |db.facts| - born[f] - born[g]
  {
    if f != g {
      if db.facts[f].supersededBy.Some? {
        var f' := db.facts[f].supersededBy.value;
        SameEndOneChain(db, born, f', g);
        if !Reaches(db, born, f', g) {
          LastLink(db, born, g, f);
        }
      } else {
        ReachesHead(db, born, g);
      }
    }
  }

  lemma {:induction false} ReachesHead(db: Db, born: map<Id, nat>, f: Id)
    requires BornInOrder(db, born) && f in db.facts
    ensures Reaches(db, born, f, Head(db, born, f))
    decreases |db.facts| - born[f]
  {
    if db.facts[f].supersededBy.Some? {
      ReachesHead(db, born, db.facts[f].supersededBy.value);
    }
  }

  /** What reaches the fact that superseded `f` is that fact or goes through `f`. */
  lemma {:induction false} LastLink(db: Db, born: map<Id, nat>, g: Id, f: Id)
    requires DbInv(db, born) && f in db.facts && g in db.facts && db.facts[f].supersededBy.Some?
    requires Reaches(db, born, g, db.facts[f].supersededBy.value)
    ensures g == db.facts[f].supersededBy.value || Reaches(db, born, g, f)
    decreases |db.facts| - born[g]
  {
    var f' := db.facts[f].supersededBy.value;
    if g != f' {
      var g' := db.facts[g].supersededBy.value;
      LastLink(db, born, g', f);
      if g' == f' {
        assert Linked(db, f, f') && Linked(db, g, f');
      }
    }
  }

  lemma {:induction false} OneChainSameEnd(db: Db, born: map<Id, nat>, f: Id, g: Id)
    requires BornInOrder(db, born) && f in db.facts && Reaches(db, born, f, g)
    ensures g in db.facts && Head(db, born, f) == Head(db, born, g)
    decreases |db.facts| - born[f]
  {
    if f != g {
      OneChainSameEnd(db, born, db.facts[f].supersededBy.value, g);
    }
  }

  /** In every run each supersession chain is finite and ends in an active fact, and chains never meet:
      two facts lead to the same end if and only if one leads to the other. */
  lemma ChainsAreDisjoint(serial: bool, steps: seq<Step>, f: Id, g: Id)
    requires Run(serial, steps).Some?
    requires f in Run(serial, steps).value.db.facts && g in Run(serial, steps).value.db.facts
    ensures var db, born := Run(serial, steps).value.db, Run(serial, steps).value.born;
            && BornInOrder(db, born)
            && Active(db, Head(db, born, f)) && Reaches(db, born, f, Head(db, born, f))
            && (Head(db, born, f) == Head(db, born, g) <==> Reaches(db, born, f, g) || Reaches(db, born, g, f))
  {
    RunInvariant(serial, steps);
    var db, born := Run(serial, steps).value.db, Run(serial, steps).value.born;
    ReachesHead(db, born, f);
    if Head(db, born, f) == Head(db, born, g) {
      SameEndOneChain(db, born, f, g);
    } else if Reaches(db, born, f, g) {
      OneChainSameEnd(db, born, f, g);
    } else if Reaches(db, born, g, f) {
      OneChainSameEnd(db, born, g, f);
    }
  }

  /** One audit row for each decided diff and none for any other, so an aborted transaction leaves none. */
  lemma OneAuditRowPerDecision(serial: bool, steps: seq<Step>, d: Id)
    requires Run(serial, steps).Some? && d in Run(serial, steps).value.db.diffs
    ensures var db := Run(serial, steps).value.db;
            |Filter(db.audit, (a: Audit) => a.diff == d)| == if db.diffs[d].status == Pending then 0 else 1
    ensures forall a <- Run(serial, steps).value.db.audit :: Truthful(Run(serial, steps).value.db, a)
  {
    RunInvariant(serial, steps);
    var db := Run(serial, steps).value.db;
    forall a <- db.audit | a.diff == d ensures db.diffs[d].status != Pending {
      assert Truthful(db, a);
    }
    RowsOf(db.audit, d);
  }

  lemma {:induction false} RowsOf(audit: seq<Audit>, d: Id)
    requires forall i, j | 0 <= i < j < |audit| :: audit[i].diff != audit[j].diff
    ensures |Filter(audit, (a: Audit) => a.diff == d)| == if exists a <- audit :: a.diff == d then 1 else 0
  {
    if audit != [] {
      RowsOf(audit[1..], d);
      assert audit == [audit[0]] + audit[1..];
    }
  }

  // ---------- What each step does ----------

  /** The whole effect of a step on the database: a commit decides its diff, a proposal adds a pending one,
      and no other step changes anything. */
  ghost predicate Does(s: State, step: Step, db': Db) {
    match step
    case Commit(t) =>
      && t in s.txs
      && (match s.txs[t]
          case Rejecting(diff, _) => Rejects(s.db, db', diff)
          case Committing(diff, _, _, fact, _) => Commits(s.db, db', diff, fact))
    case Propose(diff, content, scopes, target) =>
      && diff !in s.db.diffs && content != "" && scopes != []
      && db'.diffs == s.db.diffs[diff := Diff(content, scopes, target, Pending)]
      && db'.facts == s.db.facts && db'.audit == s.db.audit
    case _ => db' == s.db
  }

  lemma CommitDoes(db: Db, tx: Tx)
    requires Grounded(db, tx) && tx.at == Logged
    ensures tx.Rejecting? ==> Rejects(db, Written(db, tx), tx.diff)
    ensures tx.Committing? ==> Commits(db, Written(db, tx), tx.diff, tx.fact)
  {
  }

  /** In every run, a step does to the database just what its decision promises. */
  lemma StepsDoAsPromised(serial: bool, steps: seq<Step>, step: Step)
    requires Run(serial, steps).Some? && Enabled(serial, Run(serial, steps).value, step)
    ensures Does(Run(serial, steps).value, step, After(serial, Run(serial, steps).value, step).db)
  {
    RunInvariant(serial, steps);
    var s := Run(serial, steps).value;
    if step.Commit? {
      assert Grounded(s.db, s.txs[step.tx]);
      CommitDoes(s.db, s.txs[step.tx]);
    }
  }

  function IsCommit(): Step -> bool {
    (step: Step) => step.Commit?
  }

  /** Each committed transaction adds exactly one audit row; an aborted one, and every other step, none. */
  lemma {:induction false} OneAuditRowPerCommit(serial: bool, steps: seq<Step>)
    requires Run(serial, steps).Some?
    ensures |Run(serial, steps).value.db.audit| == |Filter(steps, IsCommit())|
  {
    if steps != [] {
      var rest, step := steps[..|steps| - 1], steps[|steps| - 1];
      OneAuditRowPerCommit(serial, rest);
      StepsDoAsPromised(serial, rest, step);
      FilterSnoc(rest, step, IsCommit());
      assert rest + [step] == steps;
    }
  }

  // ---------- Decisions are final ----------

  /** What a later database keeps of an earlier one. */
  ghost predicate Keeps(a: Db, b: Db) {
    && (forall d <- a.diffs :: d in b.diffs && (a.diffs[d].status != Pending ==> b.diffs[d] == a.diffs[d]))
    && (forall f <- a.facts :: f in b.facts && (a.facts[f].supersededBy.Some? ==> b.facts[f] == a.facts[f])
          && b.facts[f].(supersededBy := None) == a.facts[f].(supersededBy := None))
    && a.audit <= b.audit
  }

  lemma StepKeepsDecisions(serial: bool, s: State, step: Step)
    requires TxInv(s.db, s.txs) && Enabled(serial, s, step)
    ensures Keeps(s.db, After(serial, s, step).db)
  {
    if step.Commit? {
      assert Grounded(s.db, s.txs[step.tx]);
    }
  }

  /** A diff is decided at most once and a fact superseded at most once: later steps change neither, nor
      any audit row. */
  lemma {:induction false} DecisionsAreFinal(serial: bool, a: seq<Step>, b: seq<Step>)
    requires Run(serial, a + b).Some?
    ensures Run(serial, a).Some? && Keeps(Run(serial, a).value.db, Run(serial, a + b).value.db)
  {
    if b == [] {
      assert a + b == a;
    } else {
      var rest, step := b[..|b| - 1], b[|b| - 1];
      assert (a + b)[..|a + b| - 1] == a + rest;
      DecisionsAreFinal(serial, a, rest);
      RunInvariant(serial, a + rest);
      var s := Run(serial, a + rest).value;
      StepKeepsDecisions(serial, s, step);
      KeepsTransitive(Run(serial, a).value.db, s.db, Run(serial, a + b).value.db);
    }
  }

  lemma KeepsTransitive(a: Db, b: Db, c: Db)
    requires Keeps(a, b) && Keeps(b, c)
    ensures Keeps(a, c)
  {
  }
}
