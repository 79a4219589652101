/** What every run of the consent statements guarantees. */
module ConsentRuns {
  import opened Wrappers
  import opened Seqs
  import opened Scopes
  import opened Consent

  // ---------- Where grants come from ----------

  function OriginOf(g: Id): Audit -> bool {
    (a: Audit) => IsOrigin(a) && a.grant == g
  }

  function DecisionOf(r: Id): Audit -> bool {
    (a: Audit) => DecidesRequest(a) && a.request == r
  }

  lemma {:induction false} AtMostOne(audit: seq<Audit>, keep: Audit -> bool)
    requires forall i, j | 0 <= i < j < |audit| :: !(keep(audit[i]) && keep(audit[j]))
    ensures |Filter(audit, keep)| == if exists a <- audit :: keep(a) then 1 else 0
  {
    if audit != [] {
      AtMostOne(audit[1..], keep);
      assert audit == [audit[0]] + audit[1..];
    }
  }

  /** Every grant fits its kind and has exactly one origin in the log: a direct creation, and then no
      request names it, or the approval of the one request that names it, whose subject, kind, depth and
      scopes it has. */
  lemma EveryGrantHasOneOrigin(steps: seq<Step>, g: Id)
    requires Run(steps).Some? && g in Run(steps).value.db.grants
    ensures var db := Run(steps).value.db;
            && GrantFits(db.grants[g])
            && |Filter(db.audit, OriginOf(g))| == 1
            && (GrantCreated(g) in db.audit || exists r :: RequestApproved(g, r) in db.audit)
            && (GrantCreated(g) in db.audit ==> forall r <- db.requests :: db.requests[r].result != Some(g))
            && (forall r :: RequestApproved(g, r) in db.audit ==> OnlyRequestFor(db, r, g))
  {
    RunInvariant(steps);
    var db := Run(steps).value.db;
    AtMostOne(db.audit, OriginOf(g));
    assert HasOrigin(db.audit, g);
    var a :| a in db.audit && IsOrigin(a) && a.grant == g;
    assert a == GrantCreated(g) || a == RequestApproved(g, a.request);
    if GrantCreated(g) in db.audit {
      CreatedForNoRequest(db, g);
    }
    forall r | RequestApproved(g, r) in db.audit ensures OnlyRequestFor(db, r, g) {
      ApprovedForOneRequest(db, r, g);
    }
  }

  predicate OnlyRequestFor(db: Db, r: Id, g: Id) {
    && g in db.grants && r in db.requests && db.requests[r].status == Approved && Matches(db.requests[r], db.grants[g])
    && (forall q <- db.requests :: db.requests[q].result == Some(g) <==> q == r)
    && GrantCreated(g) !in db.audit
  }

  /** The request that names a grant is the one its only origin names. */
  lemma ResultIsLogged(db: Db, q: Id)
    requires DbInv(db) && q in db.requests && db.requests[q].result.Some?
    ensures RequestApproved(db.requests[q].result.value, q) in db.audit
  {
    assert RequestSettled(db, q) && HasDecision(db.audit, q, db.requests[q]);
  }

  lemma OriginsAgree(db: Db, a: Audit, b: Audit)
    requires NoRepeats(db.audit) && a in db.audit && b in db.audit && Repeats(a, b) && Repeats(b, a)
    ensures a == b
  {
    var i :| 0 <= i < |db.audit| && db.audit[i] == a;
    var j :| 0 <= j < |db.audit| && db.audit[j] == b;
  }

  lemma CreatedForNoRequest(db: Db, g: Id)
    requires DbInv(db) && GrantCreated(g) in db.audit
    ensures forall r <- db.requests :: db.requests[r].result != Some(g)
  {
    forall r <- db.requests | db.requests[r].result == Some(g) ensures false {
      ResultIsLogged(db, r);
      OriginsAgree(db, GrantCreated(g), RequestApproved(g, r));
    }
  }

  lemma ApprovedForOneRequest(db: Db, r: Id, g: Id)
    requires DbInv(db) && RequestApproved(g, r) in db.audit
    ensures OnlyRequestFor(db, r, g)
  {
    assert Truthful(db, RequestApproved(g, r)) && RequestSettled(db, r);
    forall q <- db.requests | db.requests[q].result == Some(g) ensures q == r {
      ResultIsLogged(db, q);
      OriginsAgree(db, RequestApproved(g, r), RequestApproved(g, q));
    }
    if GrantCreated(g) in db.audit {
      OriginsAgree(db, GrantCreated(g), RequestApproved(g, r));
    }
  }

  /** A decided request has exactly one decision in the log, a pending one none. */
  lemma OneDecisionPerRequest(steps: seq<Step>, r: Id)
    requires Run(steps).Some? && r in Run(steps).value.db.requests
    ensures var db := Run(steps).value.db;
            |Filter(db.audit, DecisionOf(r))| == if db.requests[r].status == Pending then 0 else 1
  {
    RunInvariant(steps);
    var db := Run(steps).value.db;
    AtMostOne(db.audit, DecisionOf(r));
    assert HasDecision(db.audit, r, db.requests[r]);
    forall a <- db.audit | DecisionOf(r)(a) ensures db.requests[r].status != Pending {
      assert Truthful(db, a);
    }
  }

  function IsCommit(): Step -> bool {
    (step: Step) => step.Commit?
  }

  /** Each committed transaction adds exactly one audit row; an aborted one, and every other step, none. */
  lemma {:induction false} OneAuditRowPerCommit(steps: seq<Step>)
    requires Run(steps).Some?
    ensures |Run(steps).value.db.audit| == |Filter(steps, IsCommit())|
  {
    if steps != [] {
      var rest, step := steps[..|steps| - 1], steps[|steps| - 1];
      OneAuditRowPerCommit(rest);
      FilterSnoc(rest, step, IsCommit());
      assert rest + [step] == steps;
    }
  }

  // ---------- What each step does ----------

  /** The whole effect of a step on the database. */
  ghost predicate Does(s: State, step: Step, db': Db) {
    match step
    case Commit(t) =>
      && t in s.txs
      && (match s.txs[t]
          case Creating(_, row, g) => Creates(s.db, db', g, row)
          case Approving(_, r, _, row, g) => Approves(s.db, db', r, g, row)
          case Denying(_, r) => Denies(s.db, db', r)
          case Revoking(_, g, start) => Revokes(s.db, db', g, start)
          case Renewing(_, g, start, _, expiry) => Renews(s.db, db', g, start, expiry))
    case PlaceRequest(r, row) =>
      && r !in s.db.requests && row.status == Pending && row.result == None
      && (row.ttlSeconds.Some? ==> row.ttlSeconds.value > 0)
      && db'.requests == s.db.requests[r := row] && db'.grants == s.db.grants && db'.audit == s.db.audit
    case _ => db' == s.db
  }

  lemma CommitDoes(now: Time, db: Db, tx: Tx)
    requires Grounded(now, db, tx) && tx.at == Logged
    requires tx.Approving? && tx.request in db.requests ==> RequestSettled(db, tx.request)
    ensures tx.Creating? ==> Creates(db, Written(db, tx), tx.grant, tx.row)
    ensures tx.Approving? ==> Approves(db, Written(db, tx), tx.request, tx.grant, tx.row)
    ensures tx.Denying? ==> Denies(db, Written(db, tx), tx.request)
    ensures tx.Revoking? ==> Revokes(db, Written(db, tx), tx.grant, tx.start)
    ensures tx.Renewing? ==> Renews(db, Written(db, tx), tx.grant, tx.start, tx.expiry)
  {
  }

  /** In every run, a step does to the database just what it promises. */
  lemma StepsDoAsPromised(steps: seq<Step>, step: Step)
    requires Run(steps).Some? && Enabled(Run(steps).value, step)
    ensures Does(Run(steps).value, step, After(Run(steps).value, step).db)
  {
    RunInvariant(steps);
    var s := Run(steps).value;
    if step.Commit? {
      var tx := s.txs[step.tx];
      assert Grounded(s.now, s.db, tx);
      CommitDoes(s.now, s.db, tx);
    }
  }

  // ---------- When grants expire ----------

  /** An approval that has inserted its grant, and a renewal that has computed its expiry, change only in how
      far they have got. */
  predicate Fixed(tx: Tx) {
    (tx.Approving? && tx.at in {Inserted, Wrote, Logged}) || (tx.Renewing? && tx.at in {Computed, Wrote, Logged})
  }

  predicate Same(a: Tx, b: Tx) {
    match a
    case Approving(_, r, asked, row, g) =>
      b.Approving? && b.request == r && b.asked == asked && b.row == row && b.grant == g
    case Renewing(_, g, start, ttl, expiry) =>
      b.Renewing? && b.grant == g && b.start == start && b.ttl == ttl && b.expiry == expiry
    case _ => false
  }

  function Ends(t: Id): Step -> bool {
    (step: Step) => (step.Commit? || step.Abort?) && step.tx == t
  }

  lemma StepStaysFixed(s: State, step: Step, t: Id)
    requires Enabled(s, step) && t in s.txs && Fixed(s.txs[t]) && !Ends(t)(step)
    ensures t in After(s, step).txs && Fixed(After(s, step).txs[t]) && Same(s.txs[t], After(s, step).txs[t])
  {
  }

  lemma {:induction false} StaysFixed(s: State, steps: seq<Step>, t: Id)
    requires From(s, steps).Some? && t in s.txs && Fixed(s.txs[t]) && forall step <- steps :: !Ends(t)(step)
    ensures var end := From(s, steps).value; t in end.txs && Fixed(end.txs[t]) && Same(s.txs[t], end.txs[t])
  {
    if steps != [] {
      var rest, step := steps[..|steps| - 1], steps[|steps| - 1];
      assert step in steps;
      StaysFixed(s, rest, t);
      StepStaysFixed(From(s, rest).value, step, t);
    }
  }

  lemma FixedCommit(s: State, step: Step, more: seq<Step>, t: Id) returns (m: State)
    requires Inv(s) && Enabled(s, step) && t in After(s, step).txs && Fixed(After(s, step).txs[t])
    requires (forall q <- more :: !Ends(t)(q)) && From(s, [step] + (more + [Commit(t)])).Some?
    ensures t in m.txs && m.txs[t].at == Logged && Grounded(m.now, m.db, m.txs[t]) && Same(After(s, step).txs[t], m.txs[t])
    ensures From(s, [step] + (more + [Commit(t)])).value.db == Written(m.db, m.txs[t])
  {
    FromStep(s, step, more + [Commit(t)]);
    StepKeeps(s, step);
    m := FixedUntil(After(s, step), more, t);
  }

  lemma FixedUntil(s: State, more: seq<Step>, t: Id) returns (m: State)
    requires Inv(s) && t in s.txs && Fixed(s.txs[t]) && forall q <- more :: !Ends(t)(q)
    requires From(s, more + [Commit(t)]).Some?
    ensures t in m.txs && m.txs[t].at == Logged && Grounded(m.now, m.db, m.txs[t]) && Same(s.txs[t], m.txs[t])
    ensures From(s, more + [Commit(t)]).value.db == Written(m.db, m.txs[t])
  {
    FromAppend(s, more, Commit(t));
    StaysFixed(s, more, t);
    FromKeepsInv(s, more);
    m := From(s, more).value;
  }

  /** The grant of an approval that commits expires the requested seconds after the instant of its insert, and
      never if no lifetime was asked for. */
  lemma ApprovedLifetime(steps: seq<Step>, t: Id, g: Id, more: seq<Step>)
    requires Run(steps).Some? && Enabled(Run(steps).value, Insert(t, g)) && Run(steps).value.txs[t].Approving?
    requires forall q <- more :: !Ends(t)(q)
    requires From(Run(steps).value, [Insert(t, g)] + (more + [Commit(t)])).Some?
    ensures var s, end := Run(steps).value, From(Run(steps).value, [Insert(t, g)] + (more + [Commit(t)])).value;
            var r := s.txs[t].request;
            && r in end.db.requests && g in end.db.grants
            && end.db.grants[g].expiresAt == match end.db.requests[r].ttlSeconds
                                             case None => None
                                             case Some(seconds) => Some(s.now + seconds * 1_000_000_000)
  {
    RunInvariant(steps);
    var s := Run(steps).value;
    InsertSets(s, t, g);
    var m := FixedCommit(s, Insert(t, g), more, t);
    CommitLeaves(m.now, m.db, m.txs[t]);
  }

  predicate LastsFrom(row: Grant, asked: Request, inserted: Time) {
    row.expiresAt == match asked.ttlSeconds case None => None case Some(seconds) => Some(inserted + seconds * 1_000_000_000)
  }

  lemma InsertSets(s: State, t: Id, g: Id)
    requires Enabled(s, Insert(t, g)) && s.txs[t].Approving?
    ensures var tx := After(s, Insert(t, g)).txs[t];
            && Fixed(tx) && tx.Approving? && tx.grant == g && tx.request == s.txs[t].request && LastsFrom(tx.row, tx.asked, s.now)
  {
  }

  lemma CommitLeaves(now: Time, db: Db, tx: Tx)
    requires (tx.Approving? || tx.Renewing?) && tx.at == Logged && Grounded(now, db, tx)
    ensures tx.grant in Written(db, tx).grants
    ensures tx.Approving? ==>
              && Written(db, tx).grants[tx.grant] == tx.row && tx.request in Written(db, tx).requests
              && Written(db, tx).requests[tx.request].ttlSeconds == tx.asked.ttlSeconds
    ensures tx.Renewing? ==> Written(db, tx).grants[tx.grant].expiresAt == Some(tx.expiry)
  {
  }

  lemma ComputeSets(s: State, t: Id)
    requires Enabled(s, Compute(t))
    ensures var tx := After(s, Compute(t)).txs[t];
            Fixed(tx) && tx.Renewing? && tx.grant == s.txs[t].grant && tx.expiry == s.now + s.txs[t].ttl
  {
  }

  /** A renewal that commits leaves its grant to expire the lifetime it was called with after the instant at
      which it computed the expiry, however long it waited since. */
  lemma RenewedLifetime(steps: seq<Step>, t: Id, more: seq<Step>)
    requires Run(steps).Some? && Enabled(Run(steps).value, Compute(t))
    requires forall q <- more :: !Ends(t)(q)
    requires From(Run(steps).value, [Compute(t)] + (more + [Commit(t)])).Some?
    ensures var s, end := Run(steps).value, From(Run(steps).value, [Compute(t)] + (more + [Commit(t)])).value;
            var g := s.txs[t].grant;
            && g in end.db.grants && s.txs[t].ttl > 0
            && end.db.grants[g].expiresAt == Some(s.now + s.txs[t].ttl)
  {
    RunInvariant(steps);
    var s := Run(steps).value;
    assert Grounded(s.now, s.db, s.txs[t]);
    ComputeSets(s, t);
    var m := FixedCommit(s, Compute(t), more, t);
    CommitLeaves(m.now, m.db, m.txs[t]);
  }

  // ---------- What later states keep ----------

  ghost predicate Keeps(a: Db, b: Db) {
    && (forall r <- a.requests :: r in b.requests && (a.requests[r].status != Pending ==> b.requests[r] == a.requests[r]))
    && (forall g <- a.grants :: g in b.grants && SameTerms(a.grants[g], b.grants[g]))
    && a.audit <= b.audit
  }

  predicate SameTerms(g: Grant, h: Grant) {
    && g.subject == h.subject && g.kind == h.kind && g.depth == h.depth && g.scopes == h.scopes
    && (g.revokedAt.Some? ==> h.revokedAt == g.revokedAt)
  }

  lemma StepKeepsTerms(s: State, step: Step)
    requires TxInv(s.now, s.db, s.txs) && Enabled(s, step)
    ensures Keeps(s.db, After(s, step).db)
  {
    if step.Commit? {
      assert Grounded(s.now, s.db, s.txs[step.tx]);
    }
  }

  lemma {:induction false} FromKeepsInv(s: State, steps: seq<Step>)
    requires Inv(s)
    ensures From(s, steps).Some? ==> Inv(From(s, steps).value) && s.now <= From(s, steps).value.now
                                     && Keeps(s.db, From(s, steps).value.db)
  {
    if steps != [] {
      var rest, step := steps[..|steps| - 1], steps[|steps| - 1];
      FromKeepsInv(s, rest);
      if From(s, steps).Some? {
        var m := From(s, rest).value;
        StepKeeps(m, step);
        StepKeepsTerms(m, step);
        KeepsTransitive(s.db, m.db, From(s, steps).value.db);
      }
    }
  }

  lemma KeepsTransitive(a: Db, b: Db, c: Db)
    requires Keeps(a, b) && Keeps(b, c)
    ensures Keeps(a, c)
  {
  }

  /** A request leaves pending at most once; a grant's subject, kind, depth and scopes never change; a
      revoked grant never becomes active again. */
  lemma DecisionsAreFinal(steps: seq<Step>, more: seq<Step>, g: Id)
    requires Run(steps).Some? && From(Run(steps).value, more).Some?
    ensures Keeps(Run(steps).value.db, From(Run(steps).value, more).value.db)
    ensures var earlier, later := Run(steps).value, From(Run(steps).value, more).value;
            g in earlier.db.grants && earlier.db.grants[g].revokedAt.Some? ==>
              g in later.db.grants && !Active(later.db.grants[g], later.now)
  {
    RunInvariant(steps);
    FromKeepsInv(Run(steps).value, more);
  }

  // ---------- Lapsed grants ----------

  predicate Lapsed(s: State, g: Id) {
    && g in s.db.grants && s.db.grants[g].revokedAt == None
    && s.db.grants[g].expiresAt.Some? && s.db.grants[g].expiresAt.value <= s.now
  }

  /** No open renewal can bring the row's expiry past an instant: one that has computed its expiry stays
      below it or, like one that has not, began too late for its update to apply. */
  predicate Bounded(kind: Kind, tx: Tx, g: Id, ceiling: Time) {
    tx.Renewing? && tx.grant == g ==>
      match tx.at
      case Begun => kind == Memory ==> ceiling <= tx.start
      case Computed => kind == Memory ==> ceiling <= tx.start || tx.expiry <= ceiling
      case _ => tx.expiry <= ceiling
  }

  predicate Ceiling(s: State, g: Id, ceiling: Time)
    requires g in s.db.grants && s.db.grants[g].expiresAt.Some?
  {
    && s.db.grants[g].expiresAt.value <= ceiling <= s.now
    && forall t <- s.txs :: Bounded(s.db.grants[g].kind, s.txs[t], g, ceiling)
  }

  /** Between its expiry and now there is an instant that no open renewal can get past. */
  predicate Over(s: State, g: Id)
    requires Lapsed(s, g)
  {
    exists c | s.db.grants[g].expiresAt.value <= c <= s.now :: Ceiling(s, g, c)
  }

  predicate Finished(s: State, g: Id, ceiling: Time) {
    && g in s.db.grants
    && (s.db.grants[g].revokedAt.Some? || (s.db.grants[g].expiresAt.Some? && Ceiling(s, g, ceiling)))
  }

  lemma OpenStepBounded(s: State, g: Id, step: Step, c: Time)
    requires Opens(step) && Enabled(s, step) && g in s.db.grants && s.db.grants[g].expiresAt.Some?
    requires s.db.grants[g].expiresAt.value <= c <= s.now
    requires step.tx in s.txs ==> Bounded(s.db.grants[g].kind, s.txs[step.tx], g, c)
    ensures Bounded(s.db.grants[g].kind, TxAfter(s, step), g, c)
  {
  }

  lemma CommitKeepsCeiling(s: State, g: Id, t: Id, c: Time)
    requires Enabled(s, Commit(t)) && Grounded(s.now, s.db, s.txs[t]) && g in s.db.grants
    requires s.db.grants[g].expiresAt.Some? && Ceiling(s, g, c)
    ensures Finished(After(s, Commit(t)), g, c)
  {
    assert Bounded(s.db.grants[g].kind, s.txs[t], g, c);
    var s' := After(s, Commit(t));
    forall u <- s'.txs ensures Bounded(s'.db.grants[g].kind, s'.txs[u], g, c) {
      assert Bounded(s.db.grants[g].kind, s.txs[u], g, c);
    }
  }

  lemma FinishedStep(s: State, g: Id, step: Step, c: Time)
    requires TxInv(s.now, s.db, s.txs) && Finished(s, g, c) && Enabled(s, step)
    ensures Finished(After(s, step), g, c)
  {
    if s.db.grants[g].revokedAt.Some? {
      StepKeepsTerms(s, step);
    } else if step.Commit? {
      CommitKeepsCeiling(s, g, step.tx, c);
    } else if Opens(step) {
      OpenStepBounded(s, g, step, c);
    }
  }

  lemma {:induction false} FinishedStays(s: State, g: Id, steps: seq<Step>, c: Time)
    requires Inv(s) && Finished(s, g, c)
    ensures From(s, steps).Some? ==> Finished(From(s, steps).value, g, c)
  {
    if steps != [] {
      var rest := steps[..|steps| - 1];
      FinishedStays(s, g, rest, c);
      FromKeepsInv(s, rest);
      if From(s, steps).Some? {
        FinishedStep(From(s, rest).value, g, steps[|steps| - 1], c);
      }
    }
  }

  // ---------- How a lapsed grant can come back ----------

  lemma FromAppend(s: State, a: seq<Step>, step: Step)
    ensures From(s, a + [step])
         == var m := From(s, a); if m.Some? && Enabled(m.value, step) then Some(After(m.value, step)) else None
  {
    assert (a + [step])[..|a|] == a;
  }

  lemma {:induction false} FromFrom(s: State, a: seq<Step>, b: seq<Step>)
    requires From(s, a).Some?
    ensures From(s, a + b) == From(From(s, a).value, b)
  {
    if b == [] {
      assert a + b == a;
    } else {
      var rest, step := b[..|b| - 1], b[|b| - 1];
      assert a + b == (a + rest) + [step];
      FromFrom(s, a, rest);
      FromAppend(s, a + rest, step);
    }
  }

  lemma FromStep(s: State, step: Step, more: seq<Step>)
    requires Enabled(s, step)
    ensures From(s, [step] + more) == From(After(s, step), more)
  {
    FromAppend(s, [], step);
    assert [] + [step] == [step];
    FromFrom(s, [step], more);
  }

  ghost predicate Revives(s: State, g: Id, steps: seq<Step>) {
    var end := From(s, steps);
    end.Some? && g in end.value.db.grants && Active(end.value.db.grants[g], end.value.now)
  }

  predicate Holds(s: State, g: Id, t: Id) {
    t in s.txs && HoldsGrant(s.txs[t], g)
  }

  /** A renewal that has written the row can be brought to commit. */
  lemma FinishRenewal(s: State, t: Id) returns (steps: seq<Step>)
    requires t in s.txs && s.txs[t].Renewing? && s.txs[t].at in {Wrote, Logged}
    ensures From(s, steps) == Some(s.(db := Written(s.db, s.txs[t]), txs := s.txs - {t}))
  {
    if s.txs[t].at == Logged {
      steps := [Commit(t)];
      FromStep(s, Commit(t), []);
      assert [Commit(t)] + [] == steps;
    } else {
      steps := [Log(t)] + ([Commit(t)] + []);
      var logged := After(s, Log(t));
      FromStep(s, Log(t), [Commit(t)] + []);
      FromStep(logged, Commit(t), []);
      assert logged.txs - {t} == s.txs - {t};
    }
  }

  lemma {:induction false} Revival(s: State, g: Id) returns (steps: seq<Step>)
    requires Inv(s) && Lapsed(s, g) && !Over(s, g)
    ensures Revives(s, g, steps)
    decreases |s.txs|, 3
  {
    if u :| Holds(s, g, u) {
      if s.txs[u].Renewing? && s.txs[u].expiry > s.db.grants[g].expiresAt.value {
        steps := CommitAndRevive(s, g, u);
      } else {
        steps := AbortAndRevive(s, g, u);
      }
    } else {
      var t := InTime(s, g);
      if s.txs[t].at == Begun {
        steps := ComputeAndRevive(s, g, t);
      } else {
        steps := RenewAndRevive(s, g, t);
      }
    }
  }

  /** With nothing holding the row, what keeps its expiry from being a ceiling is a renewal begun before it. */
  lemma InTime(s: State, g: Id) returns (t: Id)
    requires Lapsed(s, g) && !Over(s, g) && Inv(s)
    requires forall u :: !Holds(s, g, u)
    ensures t in s.txs && s.txs[t].Renewing? && s.txs[t].grant == g && s.txs[t].at in {Begun, Computed}
    ensures s.db.grants[g].kind == Memory && s.txs[t].start < s.db.grants[g].expiresAt.value && s.txs[t].ttl > 0
    ensures s.txs[t].at == Computed ==> s.txs[t].expiry > s.db.grants[g].expiresAt.value
  {
    var e := s.db.grants[g].expiresAt.value;
    assert !Ceiling(s, g, e);
    t :| t in s.txs && !Bounded(s.db.grants[g].kind, s.txs[t], g, e);
    assert Grounded(s.now, s.db, s.txs[t]) && !Holds(s, g, t);
  }

  lemma {:induction false} AbortAndRevive(s: State, g: Id, u: Id) returns (steps: seq<Step>)
    requires Inv(s) && Lapsed(s, g) && !Over(s, g) && Holds(s, g, u)
    requires !(s.txs[u].Renewing? && s.txs[u].expiry > s.db.grants[g].expiresAt.value)
    ensures Revives(s, g, steps)
    decreases |s.txs|, 0
  {
    var m := After(s, Abort(u));
    StepKeeps(s, Abort(u));
    AbortStaysOpen(s, g, u);
    assert m.txs.Keys == s.txs.Keys - {u};
    var more := Revival(m, g);
    steps := [Abort(u)] + more;
    FromStep(s, Abort(u), more);
  }

  lemma AbortStaysOpen(s: State, g: Id, u: Id)
    requires Lapsed(s, g) && !Over(s, g) && Holds(s, g, u)
    requires !(s.txs[u].Renewing? && s.txs[u].expiry > s.db.grants[g].expiresAt.value)
    ensures !Over(After(s, Abort(u)), g)
  {
    var s' := After(s, Abort(u));
    forall c | s.db.grants[g].expiresAt.value <= c <= s.now && Ceiling(s', g, c) ensures false {
      forall t <- s.txs ensures Bounded(s.db.grants[g].kind, s.txs[t], g, c) {
        assert t != u ==> t in s'.txs && s'.txs[t] == s.txs[t];
      }
      assert Ceiling(s, g, c);
    }
  }

  lemma {:induction false} ComputeAndRevive(s: State, g: Id, t: Id) returns (steps: seq<Step>)
    requires Inv(s) && Lapsed(s, g)
    requires t in s.txs && s.txs[t].Renewing? && s.txs[t].grant == g && s.txs[t].at == Begun && s.txs[t].ttl > 0
    requires s.db.grants[g].kind == Memory && s.txs[t].start < s.db.grants[g].expiresAt.value
    requires forall u :: !Holds(s, g, u)
    ensures Revives(s, g, steps)
    decreases |s.txs|, 2
  {
    var m := After(s, Compute(t));
    StepKeeps(s, Compute(t));
    assert m.txs.Keys == s.txs.Keys;
    forall u ensures !Holds(m, g, u) {
      assert !Holds(s, g, u);
    }
    var more := RenewAndRevive(m, g, t);
    steps := [Compute(t)] + more;
    FromStep(s, Compute(t), more);
  }

  lemma {:induction false} RenewAndRevive(s: State, g: Id, t: Id) returns (steps: seq<Step>)
    requires Inv(s) && Lapsed(s, g)
    requires t in s.txs && s.txs[t].Renewing? && s.txs[t].grant == g && s.txs[t].at == Computed
    requires !Over(s, g) || s.txs[t].expiry > s.now
    requires s.db.grants[g].kind == Memory && s.txs[t].start < s.db.grants[g].expiresAt.value < s.txs[t].expiry
    requires forall u :: !Holds(s, g, u)
    ensures Revives(s, g, steps)
    decreases |s.txs|, 1
  {
    FreeToRenew(s, g, t);
    var m := After(s, Renew(t));
    StepKeeps(s, Renew(t));
    assert m.txs.Keys == s.txs.Keys;
    var more := CommitAndRevive(m, g, t);
    steps := [Renew(t)] + more;
    FromStep(s, Renew(t), more);
  }

  lemma FreeToRenew(s: State, g: Id, t: Id)
    requires Lapsed(s, g)
    requires t in s.txs && s.txs[t].Renewing? && s.txs[t].grant == g && s.txs[t].at == Computed
    requires !Over(s, g) || s.txs[t].expiry > s.now
    requires s.db.grants[g].kind == Memory && s.txs[t].start < s.db.grants[g].expiresAt.value
    requires forall u :: !Holds(s, g, u)
    ensures Enabled(s, Renew(t)) && !Over(After(s, Renew(t)), g)
  {
    forall u <- s.txs ensures !HoldsGrant(s.txs[u], g) {
      assert !Holds(s, g, u);
    }
    var s' := After(s, Renew(t));
    forall c | s.db.grants[g].expiresAt.value <= c <= s.now && Ceiling(s', g, c) ensures false {
      assert Bounded(s'.db.grants[g].kind, s'.txs[t], g, c);
      forall u <- s.txs ensures Bounded(s.db.grants[g].kind, s.txs[u], g, c) {
        assert u in s'.txs && Bounded(s'.db.grants[g].kind, s'.txs[u], g, c);
      }
      assert Ceiling(s, g, c);
    }
  }

  /** The holder commits; either that is enough, or the expiry it sets still lets one behind it through. */
  lemma {:induction false} CommitAndRevive(s: State, g: Id, u: Id) returns (steps: seq<Step>)
    requires Inv(s) && Lapsed(s, g) && !Over(s, g) && Holds(s, g, u)
    requires s.txs[u].Renewing? && s.txs[u].expiry > s.db.grants[g].expiresAt.value
    ensures Revives(s, g, steps)
    decreases |s.txs|, 0
  {
    var first := FinishRenewal(s, u);
    var m := From(s, first).value;
    FromKeepsInv(s, first);
    steps := first;
    if s.txs[u].expiry <= s.now {
      CommitStaysOpen(s, m, g, u);
      var more := Revival(m, g);
      steps := first + more;
      FromFrom(s, first, more);
    }
  }

  lemma CommitStaysOpen(s: State, m: State, g: Id, u: Id)
    requires Lapsed(s, g) && !Over(s, g) && Holds(s, g, u) && s.txs[u].Renewing?
    requires s.db.grants[g].expiresAt.value < s.txs[u].expiry <= s.now
    requires m == s.(db := Written(s.db, s.txs[u]), txs := s.txs - {u})
    ensures Lapsed(m, g) && !Over(m, g) && |m.txs| < |s.txs|
  {
    assert m.txs.Keys == s.txs.Keys - {u};
    forall c | s.txs[u].expiry <= c <= s.now && Ceiling(m, g, c) ensures false {
      forall t <- s.txs ensures Bounded(s.db.grants[g].kind, s.txs[t], g, c) {
        assert t != u ==> t in m.txs && Bounded(m.db.grants[g].kind, m.txs[t], g, c);
      }
      assert Ceiling(s, g, c);
    }
  }

  /** Exactly when a lapsed grant can ever be active again: no instant up to now bounds every expiry that
      its open renewals can still set. */
  lemma LapsedComesBackIff(steps: seq<Step>, g: Id)
    requires Run(steps).Some? && Lapsed(Run(steps).value, g)
    ensures (exists more :: Revives(Run(steps).value, g, more)) <==> !Over(Run(steps).value, g)
  {
    RunInvariant(steps);
    var s := Run(steps).value;
    if Over(s, g) {
      var c :| s.db.grants[g].expiresAt.value <= c <= s.now && Ceiling(s, g, c);
      forall more ensures !Revives(s, g, more) {
        FinishedStays(s, g, more, c);
        FromKeepsInv(s, more);
      }
    } else {
      var more := Revival(s, g);
    }
  }

  /** In particular a grant that lapses with no renewal of it open never becomes active again. */
  lemma LapsedForGood(steps: seq<Step>, g: Id, more: seq<Step>)
    requires Run(steps).Some? && Lapsed(Run(steps).value, g)
    requires forall t <- Run(steps).value.txs :: !(Run(steps).value.txs[t].Renewing? && Run(steps).value.txs[t].grant == g)
    requires From(Run(steps).value, more).Some?
    ensures g in From(Run(steps).value, more).value.db.grants
    ensures !Active(From(Run(steps).value, more).value.db.grants[g], From(Run(steps).value, more).value.now)
  {
    RunInvariant(steps);
    var s := Run(steps).value;
    FinishedStays(s, g, more, s.db.grants[g].expiresAt.value);
    FromKeepsInv(s, more);
  }

  // ---------- A renewal that outlives its grant ----------

  const LATE_ROW := Grant("agent", Memory, Some("facts"), ["a"], Some(10), None)

  const LATE: seq<Step> := [
    BeginCreate(0, LATE_ROW), Insert(0, 0), Log(0), Commit(0),
    BeginRenew(1, 0, 50), Compute(1), Wait(20), Renew(1), Log(1), Commit(1)]

  lemma {:induction false} Follows(steps: seq<Step>, s: seq<State>, n: nat)
    requires n <= |steps| && |s| == |steps| + 1 && s[0] == INIT
    requires forall i | 0 <= i < |steps| :: Steps(s[i], steps[i], s[i + 1])
    ensures Run(steps[..n]) == Some(s[n])
  {
    if n > 0 {
      Follows(steps, s, n - 1);
      assert steps[..n][..n - 1] == steps[..n - 1];
      assert Steps(s[n - 1], steps[n - 1], s[n - 1 + 1]);
    }
  }

  ghost predicate Steps(from: State, step: Step, to: State) {
    Enabled(from, step) && to == After(from, step)
  }

  function Made(): Db {
    Db(map[0 := LATE_ROW], map[], [GrantCreated(0)])
  }

  lemma LateCreation() returns (s: seq<State>)
    ensures |s| == 5 && s[0] == INIT && s[4] == State(0, Made(), map[])
    ensures forall i | 0 <= i < 4 :: Steps(s[i], LATE[i], s[i + 1])
  {
    UntargetedSplit("a");
    SplitNone("a", '.');
    assert ValidateMemory("a").Ok?;
    var s1 := INIT.(txs := map[0 := Creating(Begun, LATE_ROW, 0)]);
    var s2 := INIT.(txs := map[0 := Creating(Inserted, LATE_ROW, 0)]);
    var s3 := INIT.(txs := map[0 := Creating(Logged, LATE_ROW, 0)]);
    s := [INIT, s1, s2, s3, State(0, Made(), map[])];
    assert s3.txs - {0} == map[];
  }

  lemma LateRenewal() returns (s: seq<State>)
    ensures |s| == 7 && s[0] == State(0, Made(), map[])
    ensures forall i | 0 <= i < 6 :: Steps(s[i], LATE[i + 4], s[i + 1])
    ensures Lapsed(s[3], 0) && s[6].now == 20
    ensures 0 in s[6].db.grants && Active(s[6].db.grants[0], 20)
  {
    var s5, s6, s7 := RenewalWaits();
    var s8 := State(20, Made(), map[1 := Renewing(Wrote, 0, 0, 50, 50)]);
    RenewedLate(s7, s8);
    var s9, s10 := RenewalCommits(s8);
    s := [State(0, Made(), map[]), s5, s6, s7, s8, s9, s10];
  }

  lemma RenewalWaits() returns (s5: State, s6: State, s7: State)
    ensures Steps(State(0, Made(), map[]), BeginRenew(1, 0, 50), s5) && Steps(s5, Compute(1), s6) && Steps(s6, Wait(20), s7)
    ensures s7 == State(20, Made(), map[1 := Renewing(Computed, 0, 0, 50, 50)])
  {
    s5 := State(0, Made(), map[1 := Renewing(Begun, 0, 0, 50, 0)]);
    s6 := State(0, Made(), map[1 := Renewing(Computed, 0, 0, 50, 50)]);
    s7 := State(20, Made(), map[1 := Renewing(Computed, 0, 0, 50, 50)]);
  }

  lemma RenewalCommits(s8: State) returns (s9: State, s10: State)
    requires s8 == State(20, Made(), map[1 := Renewing(Wrote, 0, 0, 50, 50)])
    ensures Steps(s8, Log(1), s9) && Steps(s9, Commit(1), s10)
    ensures s10.now == 20 && 0 in s10.db.grants && Active(s10.db.grants[0], 20)
  {
    s9 := State(20, Made(), map[1 := Renewing(Logged, 0, 0, 50, 50)]);
    s10 := After(s9, Commit(1));
  }

  /** The transaction began at 0, when the grant had not expired; that is what the update compares with. */
  lemma RenewedLate(s7: State, s8: State)
    requires s7 == State(20, Made(), map[1 := Renewing(Computed, 0, 0, 50, 50)])
    requires s8 == State(20, Made(), map[1 := Renewing(Wrote, 0, 0, 50, 50)])
    ensures Steps(s7, Renew(1), s8) && Lapsed(s7, 0)
  {
  }

  lemma LateStates() returns (s: seq<State>)
    ensures |s| == 11 && s[0] == INIT
    ensures forall i | 0 <= i < 10 :: Steps(s[i], LATE[i], s[i + 1])
    ensures Lapsed(s[7], 0) && s[10].now == 20
    ensures 0 in s[10].db.grants && Active(s[10].db.grants[0], 20)
  {
    var a := LateCreation();
    var b := LateRenewal();
    s := a + b[1..];
    forall i | 0 <= i < 10 ensures Steps(s[i], LATE[i], s[i + 1]) {
      if i < 4 {
        assert Steps(a[i], LATE[i], a[i + 1]);
      } else {
        assert Steps(b[i - 4], LATE[i - 4 + 4], b[i - 4 + 1]);
      }
    }
  }

  /** The expiry test in the update compares with the start of the transaction, so a renewal begun in
      time and delayed past the expiry brings the lapsed grant back. */
  lemma DelayedRenewalRevives()
    ensures Run(LATE[..7]).Some? && Lapsed(Run(LATE[..7]).value, 0)
    ensures Run(LATE).Some? && 0 in Run(LATE).value.db.grants
    ensures Active(Run(LATE).value.db.grants[0], Run(LATE).value.now)
  {
    var s := LateStates();
    Follows(LATE, s, 7);
    Follows(LATE, s, 10);
    assert LATE[..10] == LATE;
  }

  // ---------- What a renewal grants at that instant ----------

  predicate Contributes(g: Grant, subject: string, now: Time) {
    g.subject == subject && g.kind == Memory && g.depth.Some? && Active(g, now)
  }

  /** The scopes and depths a subject's active memory grants give it. */
  function GrantedScopeDepths(db: Db, subject: string, now: Time): set<(string, string)> {
    set g, sc | g in db.grants && Contributes(db.grants[g], subject, now) && sc in db.grants[g].scopes
      :: (sc, db.grants[g].depth.value)
  }

  function ContributingGrants(db: Db, subject: string, now: Time): set<Id> {
    set g | g in db.grants && Contributes(db.grants[g], subject, now)
  }

  ghost predicate Gives(db: Db, subject: string, now: Time, g: Id, sc: string, depth: string) {
    && g in db.grants && Contributes(db.grants[g], subject, now)
    && sc in db.grants[g].scopes && db.grants[g].depth == Some(depth)
  }

  lemma GivenIff(db: Db, subject: string, now: Time, p: (string, string))
    ensures p in GrantedScopeDepths(db, subject, now) <==> exists g :: Gives(db, subject, now, g, p.0, p.1)
  {
    if g :| Gives(db, subject, now, g, p.0, p.1) {
      assert g in db.grants && p.0 in db.grants[g].scopes && p == (p.0, db.grants[g].depth.value);
    }
    if p in GrantedScopeDepths(db, subject, now) {
      var g, sc :| g in db.grants && Contributes(db.grants[g], subject, now) && sc in db.grants[g].scopes
                   && p == (sc, db.grants[g].depth.value);
      assert Gives(db, subject, now, g, p.0, p.1);
    }
  }

  /** Another grant gives the same subject the same scope at the same depth. */
  predicate Elsewhere(db: Db, g: Id, sc: string, now: Time)
    requires g in db.grants
  {
    exists o <- db.grants :: o != g && GivesAs(db.grants[o], db.grants[g], sc, now)
  }

  predicate GivesAs(other: Grant, row: Grant, sc: string, now: Time) {
    Contributes(other, row.subject, now) && sc in other.scopes && other.depth == row.depth
  }

  predicate AllElsewhere(db: Db, g: Id, now: Time)
    requires g in db.grants
  {
    forall sc <- db.grants[g].scopes :: Elsewhere(db, g, sc, now)
  }

  /** At the instant a renewal commits, no subject's scopes and depths change if and only if the renewed
      grant was in force just when its new expiry is still to come, or every scope of it comes at its depth
      from another grant of the subject; the grants they come from stay the same only in the first case. */
  lemma RenewalKeepsGrantedScopes(steps: seq<Step>, t: Id)
    requires Run(steps).Some? && Enabled(Run(steps).value, Commit(t)) && Run(steps).value.txs[t].Renewing?
    ensures var s, s' := Run(steps).value, After(Run(steps).value, Commit(t));
            var g, expiry := s.txs[t].grant, s.txs[t].expiry;
            && g in s.db.grants
            && ((forall subject :: GrantedScopeDepths(s'.db, subject, s.now) == GrantedScopeDepths(s.db, subject, s.now))
                <==> ((Active(s.db.grants[g], s.now) <==> expiry > s.now) || AllElsewhere(s.db, g, s.now)))
            && ((forall subject :: ContributingGrants(s'.db, subject, s.now) == ContributingGrants(s.db, subject, s.now))
                <==> (Active(s.db.grants[g], s.now) <==> expiry > s.now))
  {
    RunInvariant(steps);
    var s := Run(steps).value;
    assert Grounded(s.now, s.db, s.txs[t]);
    RenewedRow(s.db, Written(s.db, s.txs[t]), s.now, s.txs[t].grant, s.txs[t].expiry);
    SameContributors(s.db, Written(s.db, s.txs[t]), s.now, s.txs[t].grant, s.txs[t].expiry);
  }

  lemma SameContributors(db: Db, db': Db, now: Time, g: Id, expiry: Time)
    requires g in db.grants && db.grants[g].kind == Memory && db.grants[g].depth.Some? && db.grants[g].revokedAt == None
    requires db'.grants == db.grants[g := db.grants[g].(expiresAt := Some(expiry))]
    ensures (forall subject :: ContributingGrants(db', subject, now) == ContributingGrants(db, subject, now))
       <==> (Active(db.grants[g], now) <==> expiry > now)
  {
    var subject := db.grants[g].subject;
    assert g in ContributingGrants(db, subject, now) <==> Active(db.grants[g], now);
    assert g in ContributingGrants(db', subject, now) <==> expiry > now;
  }

  lemma RenewedRow(db: Db, db': Db, now: Time, g: Id, expiry: Time)
    requires g in db.grants && db.grants[g].kind == Memory && db.grants[g].depth.Some? && db.grants[g].revokedAt == None
    requires db'.grants == db.grants[g := db.grants[g].(expiresAt := Some(expiry))]
    ensures (forall subject :: GrantedScopeDepths(db', subject, now) == GrantedScopeDepths(db, subject, now))
       <==> ((Active(db.grants[g], now) <==> expiry > now) || AllElsewhere(db, g, now))
  {
    if (Active(db.grants[g], now) <==> expiry > now) || AllElsewhere(db, g, now) {
      forall subject ensures GrantedScopeDepths(db', subject, now) == GrantedScopeDepths(db, subject, now) {
        forall p ensures p in GrantedScopeDepths(db', subject, now) <==> p in GrantedScopeDepths(db, subject, now) {
          GivenIff(db, subject, now, p);
          GivenIff(db', subject, now, p);
          StillGiven(db, db', subject, now, g, p);
          StillGiven(db', db, subject, now, g, p);
        }
      }
    } else {
      var sc :| sc in db.grants[g].scopes && !Elsewhere(db, g, sc, now);
      OnlyHere(db, db', now, g, sc);
    }
  }

  /** Two databases that differ in one grant's expiry, where that makes no difference to the grant or every
      scope of it is given elsewhere. */
  lemma StillGiven(a: Db, b: Db, subject: string, now: Time, g: Id, p: (string, string))
    requires a.grants.Keys == b.grants.Keys && g in a.grants && SameTerms(a.grants[g], b.grants[g])
    requires forall o <- a.grants | o != g :: a.grants[o] == b.grants[o]
    requires (Active(a.grants[g], now) <==> Active(b.grants[g], now)) || AllElsewhere(a, g, now) || AllElsewhere(b, g, now)
    ensures (exists o :: Gives(a, subject, now, o, p.0, p.1)) ==> exists o :: Gives(b, subject, now, o, p.0, p.1)
  {
    if o :| Gives(a, subject, now, o, p.0, p.1) {
      if o != g || (Active(a.grants[g], now) <==> Active(b.grants[g], now)) {
        assert Gives(b, subject, now, o, p.0, p.1);
      } else {
        var db := if AllElsewhere(a, g, now) then a else b;
        assert Elsewhere(db, g, p.0, now);
        var q :| q in db.grants && q != g && GivesAs(db.grants[q], db.grants[g], p.0, now);
        assert Gives(b, subject, now, q, p.0, p.1);
      }
    }
  }

  lemma OnlyHere(db: Db, db': Db, now: Time, g: Id, sc: string)
    requires g in db.grants && db.grants[g].kind == Memory && db.grants[g].depth.Some? && sc in db.grants[g].scopes
    requires db'.grants.Keys == db.grants.Keys && SameTerms(db.grants[g], db'.grants[g])
    requires forall o <- db.grants | o != g :: db'.grants[o] == db.grants[o]
    requires !(Active(db.grants[g], now) <==> Active(db'.grants[g], now)) && !Elsewhere(db, g, sc, now)
    ensures GrantedScopeDepths(db', db.grants[g].subject, now) != GrantedScopeDepths(db, db.grants[g].subject, now)
  {
    var row := db.grants[g];
    var p := (sc, row.depth.value);
    GivenIff(db, row.subject, now, p);
    GivenIff(db', row.subject, now, p);
    forall o | o != g ensures !Gives(db, row.subject, now, o, p.0, p.1) && !Gives(db', row.subject, now, o, p.0, p.1) {
      assert o in db.grants ==> !GivesAs(db.grants[o], row, sc, now);
    }
    assert Gives(db, row.subject, now, g, p.0, p.1) <==> Active(row, now);
    assert Gives(db', row.subject, now, g, p.0, p.1) <==> Active(db'.grants[g], now);
  }

  // ---------- What a listing shows as active ----------

  /** The test by which a listing of grants shows one as active: unrevoked, and not past its expiry. */
  predicate ShownActive(g: Grant, now: Time) {
    g.revokedAt == None && !(g.expiresAt.Some? && now > g.expiresAt.value)
  }

  /** The scopes and depths of the memory grants that a listing shows a subject as active. */
  function ShownScopeDepths(db: Db, subject: string, now: Time): set<(string, string)> {
    set g, sc | g in db.grants && Shows(db.grants[g], subject, now) && sc in db.grants[g].scopes
      :: (sc, db.grants[g].depth.value)
  }

  predicate Shows(g: Grant, subject: string, now: Time) {
    g.subject == subject && g.kind == Memory && g.depth.Some? && ShownActive(g, now)
  }

  /** The listing and the queries differ on a grant just at the instant of its expiry; a subject is shown
      exactly what it is granted if and only if every scope of its grants that expire at this instant comes
      at their depth from another grant. */
  lemma ShownIsGrantedIff(db: Db, subject: string, now: Time)
    ensures forall g :: ShownActive(g, now) != Active(g, now) <==> g.revokedAt == None && g.expiresAt == Some(now)
    ensures GrantedScopeDepths(db, subject, now) <= ShownScopeDepths(db, subject, now)
    ensures ShownScopeDepths(db, subject, now) == GrantedScopeDepths(db, subject, now)
       <==> forall g <- db.grants | Shows(db.grants[g], subject, now) && db.grants[g].expiresAt == Some(now) ::
              AllElsewhere(db, g, now)
  {
    if ShownScopeDepths(db, subject, now) == GrantedScopeDepths(db, subject, now) {
      forall g <- db.grants, sc <- db.grants[g].scopes
        | Shows(db.grants[g], subject, now) && db.grants[g].expiresAt == Some(now)
        ensures Elsewhere(db, g, sc, now)
      {
        var p := (sc, db.grants[g].depth.value);
        assert p in ShownScopeDepths(db, subject, now);
        GivenIff(db, subject, now, p);
        var o :| Gives(db, subject, now, o, p.0, p.1);
        assert GivesAs(db.grants[o], db.grants[g], sc, now);
      }
    } else {
      var p :| p in ShownScopeDepths(db, subject, now) && p !in GrantedScopeDepths(db, subject, now);
      GivenIff(db, subject, now, p);
      var g, sc :| g in db.grants && Shows(db.grants[g], subject, now) && sc in db.grants[g].scopes
                   && p == (sc, db.grants[g].depth.value);
      NotElsewhere(db, subject, now, g, sc);
    }
  }

  lemma NotElsewhere(db: Db, subject: string, now: Time, g: Id, sc: string)
    requires g in db.grants && Shows(db.grants[g], subject, now) && sc in db.grants[g].scopes
    requires !exists o :: Gives(db, subject, now, o, sc, db.grants[g].depth.value)
    ensures db.grants[g].expiresAt == Some(now) && !AllElsewhere(db, g, now)
  {
    assert !Gives(db, subject, now, g, sc, db.grants[g].depth.value);
    forall o <- db.grants ensures !GivesAs(db.grants[o], db.grants[g], sc, now) {
      assert !Gives(db, subject, now, o, sc, db.grants[g].depth.value);
    }
    assert !Elsewhere(db, g, sc, now);
  }
}
