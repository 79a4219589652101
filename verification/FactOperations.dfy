/** `CommitDiff` and `RejectDiff` themselves, each as one transaction run alone, and that running alone is
    exactly what their statements do in `FactStore` when nothing interleaves. */
module FactOperations {
  import opened Wrappers
  import opened Seqs
  import opened Scopes
  import opened FactStore

  datatype Error = NoSuchDiff | NotPending | DuplicateContent | BadScope | RepeatedScope | TargetSuperseded

  /** Why a commit run alone fails, if it does; the checks are tried in this order. */
  function CommitFailure(db: Db, diff: Id): Option<Error> {
    if diff !in db.diffs then Some(NoSuchDiff)
    else
      var row := db.diffs[diff];
      if row.status != Pending then Some(NotPending)
      else if DuplicateExists(db, row.content, row.target) then Some(DuplicateContent)
      else if !MemoryScopes(row.scopes) then Some(BadScope)
      else if !NoDuplicates(row.scopes) then Some(RepeatedScope)
      else if row.target.Some? && !Active(db, row.target.value) then Some(TargetSuperseded)
      else None
  }

  /** A diff that can be committed: pending, with distinct, valid and untargeted scopes, no active fact but its
      target with its content, and its target, if any, active. */
  ghost predicate Committable(db: Db, diff: Id) {
    && diff in db.diffs && db.diffs[diff].status == Pending
    && var row := db.diffs[diff];
       && (forall f <- db.facts | db.facts[f].supersededBy == None && db.facts[f].content == row.content :: row.target == Some(f))
       && NoDuplicates(row.scopes) && (forall s <- row.scopes :: Validate(s).Ok? && Split(s).target.None?)
       && (row.target.Some? ==> row.target.value in db.facts && db.facts[row.target.value].supersededBy == None)
  }

  lemma CommittableIff(db: Db, diff: Id)
    ensures Committable(db, diff) <==> CommitFailure(db, diff) == None
  {
  }

  function Done(db: Db, diff: Id, fact: Id): Tx
    requires diff in db.diffs
  {
    Committing(diff, Logged, db.diffs[diff], fact, |db.facts|)
  }

  class Store {
    var db: Db

    constructor ()
      ensures db == INIT.db
    {
      db := Db(map[], map[], []);
    }

    /** `fact` is the fresh id the database generates. An error rolls everything back. */
    method CommitDiff(diff: Id, fact: Id) returns (r: Result<Fact, Error>)
      requires fact !in db.facts
      modifies this
      ensures r.Ok? <==> Committable(old(db), diff)
      ensures r.Ok? ==> Commits(old(db), db, diff, fact)
      ensures r.Err? ==> CommitFailure(old(db), diff) == Some(r.error) && db == old(db)
      ensures r.Ok? ==>
                && CommitFailure(old(db), diff) == None
                && db == Written(old(db), Done(old(db), diff, fact))
                && fact in db.facts && r.value == db.facts[fact]
    {
      CommittableIff(db, diff);
      if diff !in db.diffs {
        return Err(NoSuchDiff);
      }
      var row := db.diffs[diff];
      if row.status != Pending {
        return Err(NotPending);
      }
      if DuplicateExists(db, row.content, row.target) {
        return Err(DuplicateContent);
      }
      if !MemoryScopes(row.scopes) {
        return Err(BadScope);
      }
      var facts := db.facts[fact := Fact(row.content, [], diff, None)];
      for i := 0 to |row.scopes|
        invariant facts == db.facts[fact := Fact(row.content, row.scopes[..i], diff, None)]
        invariant NoDuplicates(row.scopes[..i])
      {
        if row.scopes[i] in facts[fact].scopes {
          RepeatAt(row.scopes, i);
          return Err(RepeatedScope);
        }
        assert row.scopes[..i + 1] == row.scopes[..i] + [row.scopes[i]];
        facts := facts[fact := facts[fact].(scopes := facts[fact].scopes + [row.scopes[i]])];
      }
      assert row.scopes[..|row.scopes|] == row.scopes;
      if row.target.Some? {
        if !Active(db, row.target.value) {
          return Err(TargetSuperseded);
        }
        facts := facts[row.target.value := facts[row.target.value].(supersededBy := Some(fact))];
      }
      r := Ok(facts[fact]);
      db := Db(db.diffs[diff := row.(status := Committed)], facts, db.audit + [DiffCommitted(diff, fact)]);
      assert db.facts == Written(old(db), Done(old(db), diff, fact)).facts;
      DoneCommits(old(db), diff, fact);
    }

    /** A conditional update: no pending row, no change. */
    method RejectDiff(diff: Id) returns (ok: bool)
      modifies this
      ensures ok <==> diff in old(db).diffs && old(db).diffs[diff].status == Pending
      ensures db == if ok then Written(old(db), Rejecting(diff, Logged)) else old(db)
      ensures ok ==> Rejects(old(db), db, diff)
    {
      if diff !in db.diffs || db.diffs[diff].status != Pending {
        return false;
      }
      db := Db(db.diffs[diff := db.diffs[diff].(status := Rejected)], db.facts, db.audit + [DiffRejected(diff)]);
      ok := true;
    }
  }

  lemma DoneCommits(db: Db, diff: Id, fact: Id)
    requires Committable(db, diff) && fact !in db.facts
    ensures Commits(db, Written(db, Done(db, diff, fact)), diff, fact)
  {
  }

  lemma RepeatAt(scopes: seq<string>, i: nat)
    requires i < |scopes| && scopes[i] in scopes[..i]
    ensures !NoDuplicates(scopes)
  {
  }

  // ---------- Run alone, the statements do what the method does ----------

  function CommitSteps(t: Id, diff: Id, fact: Id, targeted: bool): seq<Step> {
    [BeginCommit(t, diff), Load(t), CheckDuplicate(t), Insert(t, fact)]
      + (if targeted then [Supersede(t)] else []) + [Mark(t), Log(t), Commit(t)]
  }

  /** The state a sequence of steps reaches from a given state. */
  function From(s: State, steps: seq<Step>): Option<State>
    decreases |steps|
  {
    if steps == [] then Some(s)
    else if Enabled(true, s, steps[0]) then From(After(true, s, steps[0]), steps[1..])
    else None
  }

  lemma FromCons(s: State, step: Step, rest: seq<Step>)
    ensures From(s, [step] + rest) == if Enabled(true, s, step) then From(After(true, s, step), rest) else None
  {
    assert ([step] + rest)[1..] == rest;
  }

  function Alone(s: State, t: Id, tx: Tx): State {
    s.(txs := map[t := tx])
  }

  lemma BeginAlone(s: State, t: Id, diff: Id, rest: seq<Step>)
    requires s.txs == map[]
    ensures From(s, [BeginCommit(t, diff)] + rest) == From(Alone(s, t, Committing(diff, Begun, NO_ROW, 0, 0)), rest)
  {
    FromCons(s, BeginCommit(t, diff), rest);
  }

  lemma LoadAlone(s: State, t: Id, diff: Id, rest: seq<Step>)
    requires diff in s.db.diffs
    ensures From(Alone(s, t, Committing(diff, Begun, NO_ROW, 0, 0)), [Load(t)] + rest)
         == if s.db.diffs[diff].status != Pending then None
            else From(Alone(s, t, Committing(diff, Loaded, s.db.diffs[diff], 0, 0)), rest)
  {
    var begun := Alone(s, t, Committing(diff, Begun, NO_ROW, 0, 0));
    FromCons(begun, Load(t), rest);
    assert Enabled(true, begun, Load(t)) ==>
             After(true, begun, Load(t)) == Alone(s, t, Committing(diff, Loaded, s.db.diffs[diff], 0, 0));
  }

  lemma CheckAlone(s: State, t: Id, tx: Tx, rest: seq<Step>)
    requires tx.Committing? && tx.at == Loaded
    ensures From(Alone(s, t, tx), [CheckDuplicate(t)] + rest)
         == if DuplicateExists(s.db, tx.row.content, tx.row.target) then None
            else From(Alone(s, t, tx.(at := Checked, checked := |s.db.facts|)), rest)
  {
    FromCons(Alone(s, t, tx), CheckDuplicate(t), rest);
    assert Enabled(true, Alone(s, t, tx), CheckDuplicate(t)) ==>
             After(true, Alone(s, t, tx), CheckDuplicate(t)) == Alone(s, t, tx.(at := Checked, checked := |s.db.facts|));
  }

  lemma InsertAlone(s: State, t: Id, tx: Tx, fact: Id, rest: seq<Step>)
    requires tx.Committing? && tx.at == Checked && fact !in s.db.facts
    ensures From(Alone(s, t, tx), [Insert(t, fact)] + rest)
         == if !MemoryScopes(tx.row.scopes) || !NoDuplicates(tx.row.scopes) then None
            else From(Alone(s, t, tx.(at := Inserted, fact := fact)), rest)
  {
    FromCons(Alone(s, t, tx), Insert(t, fact), rest);
    assert Enabled(true, Alone(s, t, tx), Insert(t, fact)) ==>
             After(true, Alone(s, t, tx), Insert(t, fact)) == Alone(s, t, tx.(at := Inserted, fact := fact));
  }

  lemma SupersedeAlone(s: State, t: Id, tx: Tx, rest: seq<Step>)
    requires tx.Committing? && tx.at == Inserted && tx.row.target.Some?
    ensures From(Alone(s, t, tx), [Supersede(t)] + rest)
         == if !Active(s.db, tx.row.target.value) then None else From(Alone(s, t, tx.(at := Superseding)), rest)
  {
    FromCons(Alone(s, t, tx), Supersede(t), rest);
    assert Enabled(true, Alone(s, t, tx), Supersede(t)) ==>
             After(true, Alone(s, t, tx), Supersede(t)) == Alone(s, t, tx.(at := Superseding));
  }

  lemma MarkAlone(s: State, t: Id, tx: Tx, rest: seq<Step>)
    requires tx.Committing? && tx.at == if tx.row.target.Some? then Superseding else Inserted
    ensures From(Alone(s, t, tx), [Mark(t)] + ([Log(t)] + rest)) == From(Alone(s, t, tx.(at := Logged)), rest)
  {
    FromCons(Alone(s, t, tx), Mark(t), [Log(t)] + rest);
    assert After(true, Alone(s, t, tx), Mark(t)) == Alone(s, t, tx.(at := Marked));
    FromCons(Alone(s, t, tx.(at := Marked)), Log(t), rest);
    assert After(true, Alone(s, t, tx.(at := Marked)), Log(t)) == Alone(s, t, tx.(at := Logged));
  }

  lemma EndAlone(s: State, t: Id, tx: Tx)
    requires tx.at == Logged
    ensures var end := From(Alone(s, t, tx), [Commit(t)] + []);
            end.Some? && end.value.db == Written(s.db, tx) && end.value.txs == map[]
  {
    FromCons(Alone(s, t, tx), Commit(t), []);
    assert Alone(s, t, tx).txs - {t} == map[];
  }

  /** With no other transaction open, the statements of a commit all go through exactly when the method
      succeeds, and then leave the database it leaves. */
  lemma CommitAlone(s: State, t: Id, diff: Id, fact: Id)
    requires s.txs == map[] && diff in s.db.diffs && fact !in s.db.facts
    ensures var end := From(s, CommitSteps(t, diff, fact, s.db.diffs[diff].target.Some?));
            && (end.Some? <==> CommitFailure(s.db, diff) == None)
            && (end.Some? ==> end.value.db == Written(s.db, Done(s.db, diff, fact)) && end.value.txs == map[])
  {
    var row := s.db.diffs[diff];
    var loaded := Committing(diff, Loaded, row, 0, 0);
    var checked := loaded.(at := Checked, checked := |s.db.facts|);
    var inserted := checked.(at := Inserted, fact := fact);
    var end := [Mark(t)] + ([Log(t)] + ([Commit(t)] + []));
    var last := if row.target.Some? then [Supersede(t)] + end else end;
    assert CommitSteps(t, diff, fact, row.target.Some?)
        == [BeginCommit(t, diff)] + ([Load(t)] + ([CheckDuplicate(t)] + ([Insert(t, fact)] + last)));
    BeginAlone(s, t, diff, [Load(t)] + ([CheckDuplicate(t)] + ([Insert(t, fact)] + last)));
    LoadAlone(s, t, diff, [CheckDuplicate(t)] + ([Insert(t, fact)] + last));
    CheckAlone(s, t, loaded, [Insert(t, fact)] + last);
    InsertAlone(s, t, checked, fact, last);
    if row.target.Some? {
      SupersedeAlone(s, t, inserted, end);
      MarkAlone(s, t, inserted.(at := Superseding), [Commit(t)] + []);
    } else {
      MarkAlone(s, t, inserted, [Commit(t)] + []);
    }
    EndAlone(s, t, Done(s.db, diff, fact));
  }

  /** A rejection alone goes through exactly when the method does, and leaves the same database. */
  lemma RejectAlone(s: State, t: Id, diff: Id)
    requires s.txs == map[]
    ensures var end := From(s, [BeginReject(t, diff)] + ([Reject(t)] + ([Log(t)] + ([Commit(t)] + []))));
            && (end.Some? <==> diff in s.db.diffs && s.db.diffs[diff].status == Pending)
            && (end.Some? ==> end.value.db == Written(s.db, Rejecting(diff, Logged)) && end.value.txs == map[])
  {
    var begun, marked := Alone(s, t, Rejecting(diff, Begun)), Alone(s, t, Rejecting(diff, Marked));
    FromCons(s, BeginReject(t, diff), [Reject(t)] + ([Log(t)] + ([Commit(t)] + [])));
    FromCons(begun, Reject(t), [Log(t)] + ([Commit(t)] + []));
    assert Enabled(true, begun, Reject(t)) ==> After(true, begun, Reject(t)) == marked;
    FromCons(marked, Log(t), [Commit(t)] + []);
    assert After(true, marked, Log(t)) == Alone(s, t, Rejecting(diff, Logged));
    EndAlone(s, t, Rejecting(diff, Logged));
  }
}
