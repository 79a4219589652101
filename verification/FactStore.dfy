/** Committing and rejecting staged diffs: every interleaving of the transactions' statements, with row
    locks, writes that become visible at commit, and aborts at any point. */
module FactStore {
  import opened Wrappers
  import opened Seqs
  import opened Scopes

  type Id = nat

  datatype Status = Pending | Rejected | Committed

  datatype Diff = Diff(content: string, scopes: seq<string>, target: Option<Id>, status: Status)

  /** A fact is active while nothing supersedes it: `invalid_at` and `superseded_by` are set together. */
  datatype Fact = Fact(content: string, scopes: seq<string>, source: Id, supersededBy: Option<Id>)

  datatype Audit = DiffCommitted(diff: Id, fact: Id) | DiffRejected(diff: Id)

  datatype Db = Db(diffs: map<Id, Diff>, facts: map<Id, Fact>, audit: seq<Audit>)

  /** Where an open transaction has got to. */
  datatype Point = Begun | Loaded | Checked | Inserted | Superseding | Marked | Logged

  datatype Tx =
    | Committing(diff: Id, at: Point, row: Diff, fact: Id, checked: nat)
    | Rejecting(diff: Id, at: Point)

  /** The last two are history: `born` numbers the facts in the order their transactions committed, and
      `checked` tells how many facts there were when the fact's own duplicate check ran. */
  datatype State = State(db: Db, txs: map<Id, Tx>, born: map<Id, nat>, checked: map<Id, nat>)

  const INIT := State(Db(map[], map[], []), map[], map[], map[])

  const NO_ROW := Diff("", [], None, Pending)

  datatype Step =
    | Propose(diff: Id, content: string, scopes: seq<string>, target: Option<Id>)
    | BeginCommit(tx: Id, diff: Id)
    | Load(tx: Id)
    | CheckDuplicate(tx: Id)
    | Insert(tx: Id, fact: Id)
    | Supersede(tx: Id)
    | Mark(tx: Id)
    | BeginReject(tx: Id, diff: Id)
    | Reject(tx: Id)
    | Log(tx: Id)
    | Commit(tx: Id)
    | Abort(tx: Id)

  // ---------- Statements ----------

  predicate HoldsDiff(tx: Tx, diff: Id) {
    tx.diff == diff && tx.at != Begun
  }

  predicate HoldsFact(tx: Tx, fact: Id) {
    tx.Committing? && tx.at in {Superseding, Marked, Logged} && tx.row.target == Some(fact)
  }

  predicate HasInserted(tx: Tx) {
    tx.Committing? && tx.at !in {Begun, Loaded, Checked}
  }

  predicate DiffUnlocked(s: State, diff: Id) {
    forall t <- s.txs :: !HoldsDiff(s.txs[t], diff)
  }

  predicate FactUnlocked(s: State, fact: Id) {
    forall t <- s.txs :: !HoldsFact(s.txs[t], fact)
  }

  predicate Active(db: Db, fact: Id) {
    fact in db.facts && db.facts[fact].supersededBy == None
  }

  predicate DuplicateExists(db: Db, content: string, except: Option<Id>) {
    exists f <- db.facts :: Active(db, f) && db.facts[f].content == content && Some(f) != except
  }

  predicate MemoryScopes(scopes: seq<string>) {
    forall s <- scopes :: ValidateMemory(s).Ok?
  }

  predicate OpenAt(s: State, tx: Id, at: Point) {
    tx in s.txs && s.txs[tx].at == at
  }

  predicate CommittingAt(s: State, tx: Id, at: Point) {
    OpenAt(s, tx, at) && s.txs[tx].Committing?
  }

  /** When a statement can run and its transaction go on. A statement that waits for a row lock sees the
      row as last committed; one whose check fails leaves only `Abort`. With `serial`, a transaction
      starts only when none is open. */
  predicate Enabled(serial: bool, s: State, step: Step) {
    match step
    case Propose(diff, content, scopes, target) =>
      diff !in s.db.diffs && content != "" && scopes != [] && (target.Some? ==> target.value in s.db.facts)
    case BeginCommit(tx, diff) => tx !in s.txs && (serial ==> s.txs == map[])
    case Load(tx) =>
      && CommittingAt(s, tx, Begun) && DiffUnlocked(s, s.txs[tx].diff)
      && s.txs[tx].diff in s.db.diffs && s.db.diffs[s.txs[tx].diff].status == Pending
    case CheckDuplicate(tx) =>
      CommittingAt(s, tx, Loaded) && !DuplicateExists(s.db, s.txs[tx].row.content, s.txs[tx].row.target)
    case Insert(tx, fact) =>
      && CommittingAt(s, tx, Checked)
      && MemoryScopes(s.txs[tx].row.scopes) && NoDuplicates(s.txs[tx].row.scopes)
      && fact !in s.db.facts && (forall t <- s.txs :: HasInserted(s.txs[t]) ==> s.txs[t].fact != fact)
    case Supersede(tx) =>
      && CommittingAt(s, tx, Inserted) && s.txs[tx].row.target.Some?
      && FactUnlocked(s, s.txs[tx].row.target.value) && Active(s.db, s.txs[tx].row.target.value)
    case Mark(tx) =>
      CommittingAt(s, tx, if tx in s.txs && s.txs[tx].Committing? && s.txs[tx].row.target.Some? then Superseding else Inserted)
    case BeginReject(tx, diff) => tx !in s.txs && (serial ==> s.txs == map[])
    case Reject(tx) =>
      && OpenAt(s, tx, Begun) && s.txs[tx].Rejecting? && DiffUnlocked(s, s.txs[tx].diff)
      && s.txs[tx].diff in s.db.diffs && s.db.diffs[s.txs[tx].diff].status == Pending
    case Log(tx) => OpenAt(s, tx, Marked)
    case Commit(tx) => OpenAt(s, tx, Logged)
    case Abort(tx) => tx in s.txs
  }

  function Moved(s: State, tx: Id, at: Point): State
    requires tx in s.txs
  {
    s.(txs := s.txs[tx := s.txs[tx].(at := at)])
  }

  function After(serial: bool, s: State, step: Step): State
    requires Enabled(serial, s, step)
  {
    match step
    case Propose(diff, content, scopes, target) =>
      s.(db := s.db.(diffs := s.db.diffs[diff := Diff(content, scopes, target, Pending)]))
    case BeginCommit(tx, diff) => s.(txs := s.txs[tx := Committing(diff, Begun, NO_ROW, 0, 0)])
    case Load(tx) => s.(txs := s.txs[tx := s.txs[tx].(at := Loaded, row := s.db.diffs[s.txs[tx].diff])])
    case CheckDuplicate(tx) => s.(txs := s.txs[tx := s.txs[tx].(at := Checked, checked := |s.db.facts|)])
    case Insert(tx, fact) => s.(txs := s.txs[tx := s.txs[tx].(at := Inserted, fact := fact)])
    case Supersede(tx) => Moved(s, tx, Superseding)
    case Mark(tx) => Moved(s, tx, Marked)
    case BeginReject(tx, diff) => s.(txs := s.txs[tx := Rejecting(diff, Begun)])
    case Reject(tx) => Moved(s, tx, Marked)
    case Log(tx) => Moved(s, tx, Logged)
    case Commit(tx) =>
      State(Written(s.db, s.txs[tx]), s.txs - {tx},
            if s.txs[tx].Committing? then s.born[s.txs[tx].fact := |s.db.facts|] else s.born,
            if s.txs[tx].Committing? then s.checked[s.txs[tx].fact := s.txs[tx].checked] else s.checked)
    case Abort(tx) => s.(txs := s.txs - {tx})
  }

  /** What a transaction's writes make of the database when it commits. */
  function Written(db: Db, tx: Tx): Db {
    if tx.Rejecting? then Db(Decided(db.diffs, tx.diff, Rejected), db.facts, db.audit + [DiffRejected(tx.diff)])
    else
      Db(Decided(db.diffs, tx.diff, Committed),
         Relinked(db.facts, tx.row.target, tx.fact)[tx.fact := Fact(tx.row.content, tx.row.scopes, tx.diff, None)],
         db.audit + [DiffCommitted(tx.diff, tx.fact)])
  }

  function Decided(diffs: map<Id, Diff>, diff: Id, status: Status): map<Id, Diff> {
    if diff in diffs then diffs[diff := diffs[diff].(status := status)] else diffs
  }

  function Relinked(facts: map<Id, Fact>, target: Option<Id>, heir: Id): map<Id, Fact> {
    if target.Some? && target.value in facts then facts[target.value := facts[target.value].(supersededBy := Some(heir))]
    else facts
  }

  /** A decision as the store promises it: a pending diff is rejected, nothing else of the diffs or the facts
      changes, and the log gains its row. */
  ghost predicate Rejects(a: Db, b: Db, diff: Id) {
    && diff in a.diffs && a.diffs[diff].status == Pending
    && b.diffs.Keys == a.diffs.Keys && b.diffs[diff] == a.diffs[diff].(status := Rejected)
    && (forall d <- a.diffs | d != diff :: b.diffs[d] == a.diffs[d])
    && b.facts == a.facts && b.audit == a.audit + [DiffRejected(diff)]
  }

  /** A pending diff with distinct, valid and untargeted scopes becomes one new active fact; an active fact it
      targets is superseded by that one; nothing else changes, and the log gains its row. */
  ghost predicate Commits(a: Db, b: Db, diff: Id, fact: Id) {
    && diff in a.diffs && a.diffs[diff].status == Pending && fact !in a.facts
    && var row := a.diffs[diff];
       && NoDuplicates(row.scopes) && (forall s <- row.scopes :: Validate(s).Ok? && Split(s).target.None?)
       && b.diffs.Keys == a.diffs.Keys && b.diffs[diff] == row.(status := Committed)
       && (forall d <- a.diffs | d != diff :: b.diffs[d] == a.diffs[d])
       && b.facts.Keys == a.facts.Keys + {fact} && b.facts[fact] == Fact(row.content, row.scopes, diff, None)
       && (row.target.Some? ==> row.target.value in a.facts && a.facts[row.target.value].supersededBy == None)
       && (forall f <- a.facts :: b.facts[f] == a.facts[f].(supersededBy :=
             if row.target == Some(f) then Some(fact) else a.facts[f].supersededBy))
       && b.audit == a.audit + [DiffCommitted(diff, fact)]
  }

  function Run(serial: bool, steps: seq<Step>): Option<State> {
    if steps == [] then Some(INIT)
    else
      var before, step := Run(serial, steps[..|steps| - 1]), steps[|steps| - 1];
      if before.Some? && Enabled(serial, before.value, step) then Some(After(serial, before.value, step)) else None
  }

  // ---------- The invariant ----------

  /** A diff is committed exactly when one fact has it as its source, and that fact carries its content. */
  ghost predicate Sources(db: Db) {
    && (forall f <- db.facts :: FactOf(db, f, db.facts[f].source))
    && (forall f, g | f in db.facts && g in db.facts && db.facts[f].source == db.facts[g].source :: f == g)
    && (forall d <- db.diffs :: db.diffs[d].status == Committed ==> exists f <- db.facts :: db.facts[f].source == d)
  }

  predicate FactOf(db: Db, f: Id, d: Id)
    requires f in db.facts
  {
    && d in db.diffs && db.diffs[d].status == Committed
    && db.facts[f].content == db.diffs[d].content && db.facts[f].scopes == db.diffs[d].scopes
    && MemoryScopes(db.facts[f].scopes)
  }

  ghost predicate References(db: Db) {
    && (forall d <- db.diffs :: db.diffs[d].target.Some? ==> db.diffs[d].target.value in db.facts)
    && (forall g <- db.facts :: db.facts[g].supersededBy.Some? ==> db.facts[g].supersededBy.value in db.facts)
  }

  /** `g` is superseded by `h` exactly when the diff `h` came from targets `g`. */
  ghost predicate Links(db: Db) {
    forall g, h | g in db.facts && h in db.facts :: Linked(db, g, h)
  }

  predicate Linked(db: Db, g: Id, h: Id)
    requires g in db.facts && h in db.facts
  {
    && db.facts[h].source in db.diffs
    && (db.facts[g].supersededBy == Some(h) <==> db.diffs[db.facts[h].source].target == Some(g))
  }

  ghost predicate BornInOrder(db: Db, born: map<Id, nat>) {
    && born.Keys == db.facts.Keys
    && (forall f <- born :: born[f] < |db.facts|)
    && (forall g <- db.facts :: db.facts[g].supersededBy.Some? ==>
          db.facts[g].supersededBy.value in born && born[g] < born[db.facts[g].supersededBy.value])
  }

  /** One audit row for each decided diff, naming its decision and its fact. */
  ghost predicate Audited(db: Db) {
    && (forall a <- db.audit :: Truthful(db, a))
    && (forall i, j | 0 <= i < j < |db.audit| :: db.audit[i].diff != db.audit[j].diff)
    && (forall d <- db.diffs :: db.diffs[d].status != Pending ==> exists a <- db.audit :: a.diff == d)
  }

  predicate Truthful(db: Db, a: Audit) {
    && a.diff in db.diffs
    && match a
       case DiffCommitted(d, f) => f in db.facts && db.facts[f].source == d && db.diffs[d].status == Committed
       case DiffRejected(d) => db.diffs[d].status == Rejected
  }

  function ActiveFacts(db: Db): set<Id> {
    set f | f in db.facts && db.facts[f].supersededBy == None
  }

  function CommittedRoots(db: Db): set<Id> {
    set d | d in db.diffs && db.diffs[d].status == Committed && db.diffs[d].target == None
  }

  /** What an open transaction knows stays true while it holds its locks. */
  ghost predicate Grounded(db: Db, tx: Tx) {
    && (tx.at != Begun ==> tx.diff in db.diffs && db.diffs[tx.diff].status == Pending)
    && (tx.Committing? && tx.at != Begun ==> tx.row == db.diffs[tx.diff])
    && (HasInserted(tx) ==> tx.fact !in db.facts && MemoryScopes(tx.row.scopes) && NoDuplicates(tx.row.scopes))
    && (tx.Committing? && tx.at in {Superseding, Marked, Logged} && tx.row.target.Some? ==> Active(db, tx.row.target.value))
    && (tx.Rejecting? ==> tx.at in {Begun, Marked, Logged})
    && (tx.Committing? && tx.at in {Marked, Logged} ==> HasInserted(tx))
  }

  predicate HoldsTarget(tx: Tx) {
    tx.Committing? && tx.row.target.Some? && HoldsFact(tx, tx.row.target.value)
  }

  /** No two transactions hold the same diff or the same fact, or insert the same fact. */
  predicate Compatible(a: Tx, b: Tx) {
    && (a.at != Begun && b.at != Begun ==> a.diff != b.diff)
    && (HoldsTarget(a) && HoldsTarget(b) ==> a.row.target != b.row.target)
    && (HasInserted(a) && HasInserted(b) ==> a.fact != b.fact)
  }

  ghost predicate TxInv(db: Db, txs: map<Id, Tx>) {
    && (forall t, u | t in txs && u in txs && t != u :: Compatible(txs[t], txs[u]))
    && forall t <- txs :: Grounded(db, txs[t])
  }

  ghost predicate DbInv(db: Db, born: map<Id, nat>) {
    && Sources(db) && References(db) && Links(db) && BornInOrder(db, born) && Audited(db)
    && |ActiveFacts(db)| == |CommittedRoots(db)|
  }

  ghost predicate Inv(s: State) {
    DbInv(s.db, s.born) && TxInv(s.db, s.txs)
  }

  // ---------- Each step keeps it ----------

  lemma TxReplaced(db: Db, txs: map<Id, Tx>, t: Id, tx: Tx)
    requires TxInv(db, txs) && Grounded(db, tx)
    requires forall u <- txs :: u != t ==> Compatible(tx, txs[u])
    ensures TxInv(db, txs[t := tx])
  {
    var txs' := txs[t := tx];
    forall u, v | u in txs' && v in txs' && u != v ensures Compatible(txs'[u], txs'[v]) {
      if u != t && v != t {
        assert Compatible(txs[u], txs[v]);
      }
    }
  }

  predicate Opens(step: Step) {
    !step.Propose? && !step.Commit? && !step.Abort?
  }

  lemma OpenStepGrounded(serial: bool, s: State, step: Step)
    requires Opens(step) && Enabled(serial, s, step)
    requires step.tx in s.txs ==> Grounded(s.db, s.txs[step.tx])
    ensures Grounded(s.db, After(serial, s, step).txs[step.tx])
  {
  }

  lemma OpenStepCompatible(serial: bool, s: State, step: Step, u: Id)
    requires Opens(step) && Enabled(serial, s, step) && u in s.txs && u != step.tx
    requires step.tx in s.txs ==> Compatible(s.txs[step.tx], s.txs[u])
    ensures Compatible(After(serial, s, step).txs[step.tx], s.txs[u])
  {
  }

  lemma OpenStepKeeps(serial: bool, s: State, step: Step)
    requires TxInv(s.db, s.txs) && Opens(step) && Enabled(serial, s, step)
    ensures var s' := After(serial, s, step); TxInv(s'.db, s'.txs) && s'.db == s.db && s'.born == s.born
  {
    var s' := After(serial, s, step);
    var t := step.tx;
    assert s'.txs == s.txs[t := s'.txs[t]];
    OpenStepGrounded(serial, s, step);
    forall u <- s.txs | u != t ensures Compatible(s'.txs[t], s.txs[u]) {
      OpenStepCompatible(serial, s, step, u);
    }
    TxReplaced(s.db, s.txs, t, s'.txs[t]);
  }

  lemma AbortKeeps(db: Db, txs: map<Id, Tx>, t: Id)
    requires TxInv(db, txs)
    ensures TxInv(db, txs - {t})
  {
    var rest := txs - {t};
    forall u, v | u in rest && v in rest && u != v ensures Compatible(rest[u], rest[v]) {
      assert Compatible(txs[u], txs[v]);
    }
  }

  lemma ProposeKeeps(db: Db, db': Db, born: map<Id, nat>, d: Id)
    requires DbInv(db, born) && Proposes(db, db', d)
    ensures DbInv(db', born)
  {
    ProposeKeepsSources(db, db', d);
    ProposeKeepsLinks(db, db', d);
    ProposeKeepsAudit(db, db', d);
    ProposeKeepsCounts(db, db', d);
  }

  lemma ProposeKeepsTxs(db: Db, db': Db, txs: map<Id, Tx>, d: Id)
    requires TxInv(db, txs) && Proposes(db, db', d)
    ensures TxInv(db', txs)
  {
    forall t <- txs ensures Grounded(db', txs[t]) {
      assert Grounded(db, txs[t]);
    }
  }

  lemma ProposeKeepsCounts(db: Db, db': Db, d: Id)
    requires Proposes(db, db', d)
    ensures ActiveFacts(db') == ActiveFacts(db) && CommittedRoots(db') == CommittedRoots(db)
  {
  }

  lemma ProposeKeepsLinks(db: Db, db': Db, d: Id)
    requires References(db) && Links(db) && Proposes(db, db', d)
    ensures References(db') && Links(db')
  {
    forall g, h | g in db'.facts && h in db'.facts ensures Linked(db', g, h) {
      assert Linked(db, g, h);
    }
  }

  ghost predicate Proposes(db: Db, db': Db, d: Id) {
    && d !in db.diffs && db'.facts == db.facts && db'.audit == db.audit
    && d in db'.diffs && db'.diffs == db.diffs[d := db'.diffs[d]] && db'.diffs[d].status == Pending
    && (db'.diffs[d].target.Some? ==> db'.diffs[d].target.value in db.facts)
  }

  lemma ProposeKeepsSources(db: Db, db': Db, d: Id)
    requires Sources(db) && Proposes(db, db', d)
    ensures Sources(db')
  {
    forall f <- db'.facts ensures FactOf(db', f, db'.facts[f].source) {
      assert FactOf(db, f, db.facts[f].source);
    }
  }

  lemma ProposeKeepsAudit(db: Db, db': Db, d: Id)
    requires Audited(db) && Proposes(db, db', d)
    ensures Audited(db')
  {
    forall a <- db'.audit ensures Truthful(db', a) {
      assert Truthful(db, a);
    }
  }

  /** One truthful row for the diff just decided keeps the log one row per decided diff. */
  lemma AuditGrows(db: Db, db': Db, a: Audit)
    requires Audited(db) && a.diff in db.diffs && db.diffs[a.diff].status == Pending
    requires db'.audit == db.audit + [a] && Truthful(db', a)
    requires db'.diffs.Keys == db.diffs.Keys
    requires forall d <- db.diffs :: d != a.diff ==> db'.diffs[d] == db.diffs[d]
    requires forall f <- db.facts :: f in db'.facts && db'.facts[f].source == db.facts[f].source
    ensures Audited(db')
  {
    forall b <- db.audit ensures b.diff != a.diff && Truthful(db', b) {
      assert Truthful(db, b);
    }
    forall d <- db'.diffs | db'.diffs[d].status != Pending ensures exists b <- db'.audit :: b.diff == d {
      if d == a.diff {
        assert a in db'.audit;
      } else {
        var b :| b in db.audit && b.diff == d;
        assert b in db'.audit;
      }
    }
    forall i, j | 0 <= i < j < |db'.audit| ensures db'.audit[i].diff != db'.audit[j].diff {
      assert db'.audit[i] in db.audit;
    }
  }

  lemma RejectionWrites(db: Db, born: map<Id, nat>, tx: Tx)
    requires DbInv(db, born) && Grounded(db, tx) && tx.Rejecting? && tx.at == Logged
    ensures DbInv(Written(db, tx), born)
  {
    RejectionSources(db, tx);
    RejectionLinks(db, tx);
    RejectionCounts(db, tx);
    AuditGrows(db, Written(db, tx), DiffRejected(tx.diff));
  }

  lemma RejectionCounts(db: Db, tx: Tx)
    requires Grounded(db, tx) && tx.Rejecting? && tx.at == Logged
    ensures ActiveFacts(Written(db, tx)) == ActiveFacts(db) && CommittedRoots(Written(db, tx)) == CommittedRoots(db)
  {
  }

  lemma RejectionLinks(db: Db, tx: Tx)
    requires References(db) && Links(db) && Grounded(db, tx) && tx.Rejecting? && tx.at == Logged
    ensures References(Written(db, tx)) && Links(Written(db, tx))
  {
    var db' := Written(db, tx);
    forall g, h | g in db'.facts && h in db'.facts ensures Linked(db', g, h) {
      assert Linked(db, g, h);
    }
  }

  lemma RejectionSources(db: Db, tx: Tx)
    requires Sources(db) && Grounded(db, tx) && tx.Rejecting? && tx.at == Logged
    ensures Sources(Written(db, tx))
  {
    var db' := Written(db, tx);
    forall f <- db'.facts ensures FactOf(db', f, db'.facts[f].source) {
      assert FactOf(db, f, db.facts[f].source);
    }
  }

  lemma CommitSources(db: Db, tx: Tx)
    requires Sources(db) && Grounded(db, tx) && tx.Committing? && tx.at == Logged
    ensures Sources(Written(db, tx))
  {
    var db' := Written(db, tx);
    forall f <- db'.facts ensures FactOf(db', f, db'.facts[f].source) {
      if f != tx.fact {
        assert FactOf(db, f, db.facts[f].source);
      }
    }
    forall d <- db'.diffs | db'.diffs[d].status == Committed ensures exists f <- db'.facts :: db'.facts[f].source == d {
      if d == tx.diff {
        assert db'.facts[tx.fact].source == d;
      } else {
        var f :| f in db.facts && db.facts[f].source == d;
        assert db'.facts[f].source == d;
      }
    }
    forall f, g | f in db'.facts && g in db'.facts && db'.facts[f].source == db'.facts[g].source ensures f == g {
      assert f != tx.fact ==> FactOf(db, f, db.facts[f].source);
      assert g != tx.fact ==> FactOf(db, g, db.facts[g].source);
    }
  }

  lemma CommitReferences(db: Db, tx: Tx)
    requires References(db) && Grounded(db, tx) && tx.Committing? && tx.at == Logged
    ensures References(Written(db, tx))
  {
  }

  lemma CommitLinks(db: Db, tx: Tx)
    requires Sources(db) && References(db) && Links(db) && Grounded(db, tx) && tx.Committing? && tx.at == Logged
    ensures Links(Written(db, tx))
  {
    var db' := Written(db, tx);
    forall g, h | g in db'.facts && h in db'.facts ensures Linked(db', g, h) {
      if g in db.facts && h in db.facts {
        assert FactOf(db, h, db.facts[h].source) && Linked(db, g, h);
        OldLink(db, tx, g, h);
      } else if h in db.facts {
        assert FactOf(db, h, db.facts[h].source);
      }
    }
  }

  /** The target was active, so no fact had superseded it and no other link changes. */
  lemma OldLink(db: Db, tx: Tx, g: Id, h: Id)
    requires Grounded(db, tx) && tx.Committing? && tx.at == Logged
    requires g in db.facts && h in db.facts && Linked(db, g, h) && FactOf(db, h, db.facts[h].source)
    ensures Linked(Written(db, tx), g, h)
  {
  }

  lemma CommitBorn(db: Db, born: map<Id, nat>, tx: Tx)
    requires BornInOrder(db, born) && Grounded(db, tx) && tx.Committing? && tx.at == Logged
    ensures BornInOrder(Written(db, tx), born[tx.fact := |db.facts|])
  {
    OneFactMore(db, tx);
    var db' := Written(db, tx);
    forall g | g in db'.facts && db'.facts[g].supersededBy.Some?
      ensures var h := db'.facts[g].supersededBy.value;
              h in db'.facts && (h == tx.fact || (h in db.facts && g in db.facts && db.facts[g].supersededBy == Some(h)))
              && g in db.facts
    {
    }
  }

  lemma OneFactMore(db: Db, tx: Tx)
    requires Grounded(db, tx) && tx.Committing? && tx.at == Logged
    ensures Written(db, tx).facts.Keys == db.facts.Keys + {tx.fact} && tx.fact !in db.facts
    ensures |Written(db, tx).facts| == |db.facts| + 1
  {
    var db' := Written(db, tx);
    assert db'.facts.Keys == db.facts.Keys + {tx.fact};
    assert |db'.facts.Keys| == |db.facts.Keys| + 1;
  }

  lemma CommitCounts(db: Db, tx: Tx)
    requires Grounded(db, tx) && tx.Committing? && tx.at == Logged
    requires |ActiveFacts(db)| == |CommittedRoots(db)|
    ensures |ActiveFacts(Written(db, tx))| == |CommittedRoots(Written(db, tx))|
  {
    CommitActive(db, tx);
    CommitRoots(db, tx);
    var facts, roots := ActiveFacts(db), CommittedRoots(db);
    assert tx.fact !in facts && tx.diff !in roots;
    assert tx.row.target.Some? ==> tx.row.target.value in facts;
  }

  lemma CommitActive(db: Db, tx: Tx)
    requires Grounded(db, tx) && tx.Committing? && tx.at == Logged
    ensures ActiveFacts(Written(db, tx))
         == ActiveFacts(db) - (if tx.row.target.Some? then {tx.row.target.value} else {}) + {tx.fact}
  {
  }

  lemma CommitRoots(db: Db, tx: Tx)
    requires Grounded(db, tx) && tx.Committing? && tx.at == Logged
    ensures CommittedRoots(Written(db, tx)) == CommittedRoots(db) + if tx.row.target.Some? then {} else {tx.diff}
  {
  }

  lemma CommitWrites(db: Db, born: map<Id, nat>, tx: Tx)
    requires DbInv(db, born) && Grounded(db, tx) && tx.Committing? && tx.at == Logged
    ensures DbInv(Written(db, tx), born[tx.fact := |db.facts|])
  {
    CommitSources(db, tx);
    CommitReferences(db, tx);
    CommitLinks(db, tx);
    CommitBorn(db, born, tx);
    CommitCounts(db, tx);
    CommitAudit(db, tx);
  }

  lemma CommitAudit(db: Db, tx: Tx)
    requires Audited(db) && Grounded(db, tx) && tx.Committing? && tx.at == Logged
    ensures Audited(Written(db, tx))
  {
    AuditGrows(db, Written(db, tx), DiffCommitted(tx.diff, tx.fact));
  }

  /** A commit leaves what every other open transaction relies on. */
  lemma OthersStayGrounded(db: Db, tx: Tx, other: Tx)
    requires Grounded(db, tx) && tx.at == Logged && Grounded(db, other) && Compatible(tx, other)
    ensures Grounded(Written(db, tx), other)
  {
  }

  lemma CommitKeeps(serial: bool, s: State, t: Id)
    requires Inv(s) && Enabled(serial, s, Commit(t))
    ensures Inv(After(serial, s, Commit(t)))
  {
    var tx := s.txs[t];
    assert Grounded(s.db, tx);
    if tx.Rejecting? {
      RejectionWrites(s.db, s.born, tx);
    } else {
      CommitWrites(s.db, s.born, tx);
    }
    AbortKeeps(s.db, s.txs, t);
    var rest := s.txs - {t};
    forall u <- rest ensures Grounded(Written(s.db, tx), rest[u]) {
      OthersStayGrounded(s.db, tx, s.txs[u]);
    }
  }

  lemma {:induction false} RunInvariant(serial: bool, steps: seq<Step>)
    ensures Run(serial, steps).Some? ==> Inv(Run(serial, steps).value)
  {
    if steps == [] {
      assert ActiveFacts(INIT.db) == {} && CommittedRoots(INIT.db) == {};
    } else {
      var rest, step := steps[..|steps| - 1], steps[|steps| - 1];
      RunInvariant(serial, rest);
      if Run(serial, steps).Some? {
        StepKeeps(serial, Run(serial, rest).value, step);
      }
    }
  }

  lemma StepKeeps(serial: bool, s: State, step: Step)
    requires Inv(s) && Enabled(serial, s, step)
    ensures Inv(After(serial, s, step))
  {
    match step
    case Propose(d, content, scopes, target) =>
      ProposeKeeps(s.db, After(serial, s, step).db, s.born, d);
      ProposeKeepsTxs(s.db, After(serial, s, step).db, s.txs, d);
    case Commit(t) => CommitKeeps(serial, s, t);
    case Abort(t) => AbortKeeps(s.db, s.txs, t);
    case _ => OpenStepKeeps(serial, s, step);
  }
}
