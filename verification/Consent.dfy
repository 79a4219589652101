/** Grants and grant requests: every interleaving of the statements of create, approve, deny, revoke and
    renew, with row locks, writes that become visible at commit, and aborts at any point. */
module Consent {
  import opened Wrappers
  import opened Seqs
  import opened Scopes

  type Id = nat
  type Time = int

  const SECOND: Time := 1_000_000_000

  datatype Kind = Memory | Capability

  datatype Grant = Grant(subject: string, kind: Kind, depth: Option<string>, scopes: seq<string>,
                         expiresAt: Option<Time>, revokedAt: Option<Time>)

  datatype RequestStatus = Pending | Approved | Denied

  datatype Request = Request(subject: string, kind: Kind, depth: Option<string>, scopes: seq<string>,
                             ttlSeconds: Option<int>, status: RequestStatus, result: Option<Id>)

  datatype Audit =
    | GrantCreated(grant: Id)
    | RequestApproved(grant: Id, request: Id)
    | RequestDenied(request: Id)
    | GrantRevoked(grant: Id)
    | GrantRenewed(grant: Id)

  datatype Db = Db(grants: map<Id, Grant>, requests: map<Id, Request>, audit: seq<Audit>)

  // ---------- What fits a kind ----------

  const DEPTHS := ["summary", "facts", "full"]

  /** A memory grant has a depth from the closed vocabulary; a capability grant has none. */
  predicate DepthFits(kind: Kind, depth: Option<string>) {
    match kind
    case Memory => depth.Some? && depth.value in DEPTHS
    case Capability => depth == None
  }

  predicate ScopesFit(kind: Kind, scopes: seq<string>) {
    match kind
    case Memory => forall s <- scopes :: ValidateMemory(s).Ok?
    case Capability => forall s <- scopes :: ValidateCapability(s).Ok?
  }

  /** The meaning the queries give to an active grant. */
  predicate Active(g: Grant, now: Time) {
    g.revokedAt == None && (g.expiresAt.None? || g.expiresAt.value > now)
  }

  // ---------- Open transactions ----------

  datatype Point = Begun | Loaded | Computed | Inserted | Wrote | Logged

  /** `start` is the time the transaction began, which is what its statements call now; `ttl` comes with the
      call, and `expiry` is computed from it before the update is sent, so before any wait for the row. */
  datatype Tx =
    | Creating(at: Point, row: Grant, grant: Id)
    | Approving(at: Point, request: Id, asked: Request, row: Grant, grant: Id)
    | Denying(at: Point, request: Id)
    | Revoking(at: Point, grant: Id, start: Time)
    | Renewing(at: Point, grant: Id, start: Time, ttl: Time, expiry: Time)

  datatype State = State(now: Time, db: Db, txs: map<Id, Tx>)

  const INIT := State(0, Db(map[], map[], []), map[])

  const NO_GRANT := Grant("", Capability, None, [], None, None)
  const NO_REQUEST := Request("", Capability, None, [], None, Pending, None)

  datatype Step =
    | Wait(until: Time)
    | PlaceRequest(request: Id, asked: Request)
    | BeginCreate(tx: Id, row: Grant)
    | BeginApprove(tx: Id, request: Id)
    | BeginDeny(tx: Id, request: Id)
    | BeginRevoke(tx: Id, grant: Id)
    | BeginRenew(tx: Id, grant: Id, ttl: Time)
    | Load(tx: Id)
    | Insert(tx: Id, grant: Id)
    | Approve(tx: Id)
    | Deny(tx: Id)
    | Revoke(tx: Id)
    | Compute(tx: Id)
    | Renew(tx: Id)
    | Log(tx: Id)
    | Commit(tx: Id)
    | Abort(tx: Id)

  predicate HoldsRequest(tx: Tx, r: Id) {
    (tx.Approving? || tx.Denying?) && tx.at != Begun && tx.request == r
  }

  predicate HoldsGrant(tx: Tx, g: Id) {
    (tx.Revoking? || tx.Renewing?) && tx.at in {Wrote, Logged} && tx.grant == g
  }

  predicate HasInserted(tx: Tx) {
    (tx.Creating? || tx.Approving?) && tx.at in {Inserted, Wrote, Logged}
  }

  predicate RequestUnlocked(s: State, r: Id) {
    forall t <- s.txs :: !HoldsRequest(s.txs[t], r)
  }

  predicate GrantUnlocked(s: State, g: Id) {
    forall t <- s.txs :: !HoldsGrant(s.txs[t], g)
  }

  /** What the table's constraints ask of a request row, however it got there. */
  predicate RequestRowAllowed(row: Request) {
    && DepthFits(row.kind, row.depth) && row.status == Pending && row.result == None
    && (row.ttlSeconds.Some? ==> row.ttlSeconds.value > 0)
  }

  /** What is checked before a direct creation begins its transaction. */
  predicate Creatable(row: Grant) {
    row.scopes != [] && DepthFits(row.kind, row.depth) && ScopesFit(row.kind, row.scopes) && row.revokedAt == None
  }

  /** The condition of the renewing update, in which `now()` is the start of the transaction. */
  predicate Renewable(g: Grant, start: Time) {
    g.kind == Memory && Active(g, start)
  }

  predicate OpenAt(s: State, tx: Id, at: Point) {
    tx in s.txs && s.txs[tx].at == at
  }

  /** When a statement can run and its transaction go on; an update that waits for a row lock applies its
      condition to the row as last committed. */
  predicate Enabled(s: State, step: Step) {
    match step
    case Wait(until) => s.now <= until
    case PlaceRequest(r, row) => r !in s.db.requests && RequestRowAllowed(row)
    case BeginCreate(tx, row) => tx !in s.txs && Creatable(row)
    case BeginApprove(tx, _) => tx !in s.txs
    case BeginDeny(tx, _) => tx !in s.txs
    case BeginRevoke(tx, _) => tx !in s.txs
    case BeginRenew(tx, _, ttl) => tx !in s.txs && ttl > 0
    case Load(tx) =>
      && OpenAt(s, tx, Begun) && s.txs[tx].Approving? && RequestUnlocked(s, s.txs[tx].request)
      && s.txs[tx].request in s.db.requests
      && var asked := s.db.requests[s.txs[tx].request]; asked.status == Pending && ScopesFit(asked.kind, asked.scopes)
    case Insert(tx, grant) =>
      && tx in s.txs && (s.txs[tx].Creating? || s.txs[tx].Approving?)
      && s.txs[tx].at == (if s.txs[tx].Creating? then Begun else Loaded)
      && grant !in s.db.grants && (forall t <- s.txs :: HasInserted(s.txs[t]) ==> s.txs[t].grant != grant)
      && NoDuplicates(if s.txs[tx].Creating? then s.txs[tx].row.scopes else s.txs[tx].asked.scopes)
    case Approve(tx) => OpenAt(s, tx, Inserted) && s.txs[tx].Approving?
    case Deny(tx) =>
      && OpenAt(s, tx, Begun) && s.txs[tx].Denying? && RequestUnlocked(s, s.txs[tx].request)
      && s.txs[tx].request in s.db.requests && s.db.requests[s.txs[tx].request].status == Pending
    case Revoke(tx) =>
      && OpenAt(s, tx, Begun) && s.txs[tx].Revoking? && GrantUnlocked(s, s.txs[tx].grant)
      && s.txs[tx].grant in s.db.grants && s.db.grants[s.txs[tx].grant].revokedAt == None
    case Compute(tx) => OpenAt(s, tx, Begun) && s.txs[tx].Renewing?
    case Renew(tx) =>
      && OpenAt(s, tx, Computed) && s.txs[tx].Renewing? && GrantUnlocked(s, s.txs[tx].grant)
      && s.txs[tx].grant in s.db.grants && Renewable(s.db.grants[s.txs[tx].grant], s.txs[tx].start)
    case Log(tx) => tx in s.txs && s.txs[tx].at == if s.txs[tx].Creating? then Inserted else Wrote
    case Commit(tx) => OpenAt(s, tx, Logged)
    case Abort(tx) => tx in s.txs
  }

  function Moved(s: State, tx: Id, at: Point): Tx
    requires tx in s.txs
  {
    s.txs[tx].(at := at)
  }

  /** The transaction a step leaves open. */
  function TxAfter(s: State, step: Step): Tx
    requires Enabled(s, step) && !step.Wait? && !step.PlaceRequest? && !step.Commit? && !step.Abort?
  {
    match step
    case BeginCreate(_, row) => Creating(Begun, row, 0)
    case BeginApprove(_, r) => Approving(Begun, r, NO_REQUEST, NO_GRANT, 0)
    case BeginDeny(_, r) => Denying(Begun, r)
    case BeginRevoke(_, g) => Revoking(Begun, g, s.now)
    case BeginRenew(_, g, ttl) => Renewing(Begun, g, s.now, ttl, 0)
    case Load(tx) => s.txs[tx].(at := Loaded, asked := s.db.requests[s.txs[tx].request])
    case Insert(tx, grant) =>
      (match s.txs[tx]
       case Creating(_, row, _) => Creating(Inserted, row, grant)
       case Approving(_, r, asked, _, _) => Approving(Inserted, r, asked, GrantFrom(asked, s.now), grant)
       case other => other)
    case Approve(tx) => Moved(s, tx, Wrote)
    case Deny(tx) => Moved(s, tx, Wrote)
    case Revoke(tx) => Moved(s, tx, Wrote)
    case Compute(tx) => s.txs[tx].(at := Computed, expiry := s.now + s.txs[tx].ttl)
    case Renew(tx) => Moved(s, tx, Wrote)
    case Log(tx) => Moved(s, tx, Logged)
  }

  function GrantFrom(asked: Request, now: Time): Grant {
    Grant(asked.subject, asked.kind, asked.depth, asked.scopes,
          if asked.ttlSeconds.Some? then Some(now + asked.ttlSeconds.value * SECOND) else None, None)
  }

  function After(s: State, step: Step): State
    requires Enabled(s, step)
  {
    match step
    case Wait(until) => s.(now := until)
    case PlaceRequest(r, row) => s.(db := s.db.(requests := s.db.requests[r := row]))
    case Commit(tx) => s.(db := Written(s.db, s.txs[tx]), txs := s.txs - {tx})
    case Abort(tx) => s.(txs := s.txs - {tx})
    case _ => s.(txs := s.txs[step.tx := TxAfter(s, step)])
  }

  /** What a transaction's writes make of the database when it commits. */
  function Written(db: Db, tx: Tx): Db {
    match tx
    case Creating(_, row, g) => db.(grants := db.grants[g := row], audit := db.audit + [GrantCreated(g)])
    case Approving(_, r, _, row, g) =>
      Db(db.grants[g := row], Decided(db.requests, r, Approved, Some(g)), db.audit + [RequestApproved(g, r)])
    case Denying(_, r) => db.(requests := Decided(db.requests, r, Denied, None), audit := db.audit + [RequestDenied(r)])
    case Revoking(_, g, start) =>
      db.(grants := if g in db.grants then db.grants[g := db.grants[g].(revokedAt := Some(start))] else db.grants,
          audit := db.audit + [GrantRevoked(g)])
    case Renewing(_, g, _, _, expiry) =>
      db.(grants := if g in db.grants then db.grants[g := db.grants[g].(expiresAt := Some(expiry))] else db.grants,
          audit := db.audit + [GrantRenewed(g)])
  }

  function Decided(requests: map<Id, Request>, r: Id, status: RequestStatus, result: Option<Id>): map<Id, Request> {
    if r in requests then requests[r := requests[r].(status := status, result := result)] else requests
  }

  // ---------- What the writes are, as promised ----------

  /** A memory grant has one of the three depths and untargeted scopes; a capability grant has no depth and
      targeted ones; all are valid. */
  predicate TermsFit(kind: Kind, depth: Option<string>, scopes: seq<string>) {
    && (forall s <- scopes :: Validate(s).Ok? && (Split(s).target.Some? <==> kind == Capability))
    && if kind == Capability then depth == None else depth in {Some("summary"), Some("facts"), Some("full")}
  }

  ghost predicate Creates(a: Db, b: Db, g: Id, row: Grant) {
    && g !in a.grants && row.scopes != [] && NoDuplicates(row.scopes) && TermsFit(row.kind, row.depth, row.scopes)
    && row.revokedAt == None
    && b.grants == a.grants[g := row] && b.requests == a.requests && b.audit == a.audit + [GrantCreated(g)]
  }

  ghost predicate Decides(a: Db, b: Db, r: Id, status: RequestStatus, result: Option<Id>) {
    && r in a.requests && a.requests[r].status == Pending && b.requests.Keys == a.requests.Keys
    && b.requests[r] == a.requests[r].(status := status, result := result)
    && forall q <- a.requests | q != r :: b.requests[q] == a.requests[q]
  }

  /** The grant made has the terms asked for, and an expiry just when a lifetime was asked for. */
  ghost predicate Approves(a: Db, b: Db, r: Id, g: Id, row: Grant) {
    && Decides(a, b, r, Approved, Some(g)) && g !in a.grants && b.grants == a.grants[g := row]
    && b.audit == a.audit + [RequestApproved(g, r)]
    && var asked := a.requests[r];
       && row.subject == asked.subject && row.kind == asked.kind && row.depth == asked.depth && row.scopes == asked.scopes
       && NoDuplicates(row.scopes) && TermsFit(row.kind, row.depth, row.scopes) && row.revokedAt == None
       && (row.expiresAt.Some? <==> asked.ttlSeconds.Some?)
  }

  ghost predicate Denies(a: Db, b: Db, r: Id) {
    Decides(a, b, r, Denied, None) && b.grants == a.grants && b.audit == a.audit + [RequestDenied(r)]
  }

  ghost predicate Changes(a: Db, b: Db, g: Id, row: Grant) {
    && g in a.grants && a.grants[g].revokedAt == None && b.grants.Keys == a.grants.Keys && b.grants[g] == row
    && (forall h <- a.grants | h != g :: b.grants[h] == a.grants[h])
    && b.requests == a.requests
  }

  ghost predicate Revokes(a: Db, b: Db, g: Id, at: Time) {
    && g in a.grants && Changes(a, b, g, a.grants[g].(revokedAt := Some(at)))
    && b.audit == a.audit + [GrantRevoked(g)]
  }

  /** Only a memory grant that had not expired when the transaction began is renewed. */
  ghost predicate Renews(a: Db, b: Db, g: Id, start: Time, expiry: Time) {
    && g in a.grants && a.grants[g].kind == Memory
    && (a.grants[g].expiresAt.None? || start < a.grants[g].expiresAt.value)
    && Changes(a, b, g, a.grants[g].(expiresAt := Some(expiry)))
    && b.audit == a.audit + [GrantRenewed(g)]
  }

  function From(s: State, steps: seq<Step>): Option<State> {
    if steps == [] then Some(s)
    else
      var before, step := From(s, steps[..|steps| - 1]), steps[|steps| - 1];
      if before.Some? && Enabled(before.value, step) then Some(After(before.value, step)) else None
  }

  function Run(steps: seq<Step>): Option<State> {
    From(INIT, steps)
  }

  // ---------- The invariant ----------

  predicate GrantFits(g: Grant) {
    DepthFits(g.kind, g.depth) && ScopesFit(g.kind, g.scopes) && NoDuplicates(g.scopes)
  }

  predicate Matches(r: Request, g: Grant) {
    r.subject == g.subject && r.kind == g.kind && r.depth == g.depth && r.scopes == g.scopes
  }

  /** An approved request resulted in the grant it names, which matches it; no other names a grant. */
  predicate RequestSettled(db: Db, r: Id)
    requires r in db.requests
  {
    var row := db.requests[r];
    && DepthFits(row.kind, row.depth)
    && (row.status == Approved <==> row.result.Some?)
    && (row.status == Approved ==> row.result.value in db.grants && Matches(row, db.grants[row.result.value]))
  }

  predicate IsOrigin(a: Audit) {
    a.GrantCreated? || a.RequestApproved?
  }

  predicate DecidesRequest(a: Audit) {
    a.RequestApproved? || a.RequestDenied?
  }

  predicate Truthful(db: Db, a: Audit) {
    match a
    case GrantCreated(g) => g in db.grants
    case RequestApproved(g, r) => g in db.grants && r in db.requests && db.requests[r].status == Approved && db.requests[r].result == Some(g)
    case RequestDenied(r) => r in db.requests && db.requests[r].status == Denied
    case GrantRevoked(g) => g in db.grants && db.grants[g].revokedAt.Some?
    case GrantRenewed(g) => g in db.grants
  }

  /** Two rows for one creation, or for one decision. */
  predicate Repeats(a: Audit, b: Audit) {
    || (IsOrigin(a) && IsOrigin(b) && a.grant == b.grant)
    || (DecidesRequest(a) && DecidesRequest(b) && a.request == b.request)
  }

  predicate NoRepeats(audit: seq<Audit>) {
    forall i, j | 0 <= i < j < |audit| :: !Repeats(audit[i], audit[j])
  }

  /** Every grant has its origin and every decision its row. */
  predicate Complete(db: Db) {
    && (forall g <- db.grants :: HasOrigin(db.audit, g))
    && (forall r <- db.requests :: HasDecision(db.audit, r, db.requests[r]))
  }

  predicate HasOrigin(audit: seq<Audit>, g: Id) {
    exists a <- audit :: IsOrigin(a) && a.grant == g
  }

  predicate HasDecision(audit: seq<Audit>, r: Id, row: Request) {
    match row.status
    case Pending => true
    case Approved => row.result.Some? && RequestApproved(row.result.value, r) in audit
    case Denied => RequestDenied(r) in audit
  }

  predicate Logs(db: Db) {
    (forall a <- db.audit :: Truthful(db, a)) && NoRepeats(db.audit) && Complete(db)
  }

  ghost predicate DbInv(db: Db) {
    && (forall g <- db.grants :: GrantFits(db.grants[g]))
    && (forall r <- db.requests :: RequestSettled(db, r))
    && Logs(db)
  }

  /** What an open transaction knows stays true while it holds its locks. */
  predicate Grounded(now: Time, db: Db, tx: Tx) {
    match tx
    case Creating(at, row, g) =>
      && Creatable(row) && at in {Begun, Inserted, Logged}
      && (at != Begun ==> g !in db.grants && GrantFits(row))
    case Approving(at, r, asked, row, g) =>
      && (at != Begun ==> r in db.requests && db.requests[r] == asked && asked.status == Pending && ScopesFit(asked.kind, asked.scopes))
      && (at in {Inserted, Wrote, Logged} ==>
            && g !in db.grants && Matches(asked, row) && NoDuplicates(row.scopes)
            && row.revokedAt == None && (row.expiresAt.Some? <==> asked.ttlSeconds.Some?))
    case Denying(at, r) =>
      at in {Begun, Wrote, Logged} && (at != Begun ==> r in db.requests && db.requests[r].status == Pending)
    case Revoking(at, g, start) =>
      && at in {Begun, Wrote, Logged} && start <= now
      && (at != Begun ==> g in db.grants && db.grants[g].revokedAt == None)
    case Renewing(at, g, start, ttl, expiry) =>
      && at in {Begun, Computed, Wrote, Logged} && start <= now && ttl > 0
      && (at in {Wrote, Logged} ==> g in db.grants && Renewable(db.grants[g], start))
  }

  predicate Compatible(a: Tx, b: Tx) {
    && ((a.Approving? || a.Denying?) && (b.Approving? || b.Denying?) && a.at != Begun && b.at != Begun ==> a.request != b.request)
    && ((a.Revoking? || a.Renewing?) && (b.Revoking? || b.Renewing?) && a.at in {Wrote, Logged} && b.at in {Wrote, Logged}
        ==> a.grant != b.grant)
    && (HasInserted(a) && HasInserted(b) ==> a.grant != b.grant)
  }

  ghost predicate TxInv(now: Time, db: Db, txs: map<Id, Tx>) {
    && (forall t, u | t in txs && u in txs && t != u :: Compatible(txs[t], txs[u]))
    && forall t <- txs :: Grounded(now, db, txs[t])
  }

  ghost predicate Inv(s: State) {
    DbInv(s.db) && TxInv(s.now, s.db, s.txs)
  }

  // ---------- Each step keeps it ----------

  predicate Opens(step: Step) {
    !step.Wait? && !step.PlaceRequest? && !step.Commit? && !step.Abort?
  }

  lemma OpenStepGrounded(s: State, step: Step)
    requires Opens(step) && Enabled(s, step)
    requires step.tx in s.txs ==> Grounded(s.now, s.db, s.txs[step.tx])
    requires forall r <- s.db.requests :: RequestSettled(s.db, r)
    ensures Grounded(s.now, s.db, TxAfter(s, step))
  {
  }

  lemma OpenStepCompatible(s: State, step: Step, u: Id)
    requires Opens(step) && Enabled(s, step) && u in s.txs && u != step.tx
    requires step.tx in s.txs ==> Compatible(s.txs[step.tx], s.txs[u])
    ensures Compatible(TxAfter(s, step), s.txs[u]) && Compatible(s.txs[u], TxAfter(s, step))
  {
  }

  lemma OpenStepKeeps(s: State, step: Step)
    requires Inv(s) && Opens(step) && Enabled(s, step)
    ensures TxInv(s.now, s.db, s.txs[step.tx := TxAfter(s, step)])
  {
    var tx, txs := TxAfter(s, step), s.txs[step.tx := TxAfter(s, step)];
    OpenStepGrounded(s, step);
    forall t, u | t in txs && u in txs && t != u ensures Compatible(txs[t], txs[u]) {
      if t == step.tx {
        OpenStepCompatible(s, step, u);
      } else if u == step.tx {
        OpenStepCompatible(s, step, t);
      } else {
        assert Compatible(s.txs[t], s.txs[u]);
      }
    }
  }

  lemma WaitKeeps(now: Time, later: Time, db: Db, txs: map<Id, Tx>)
    requires TxInv(now, db, txs) && now <= later
    ensures TxInv(later, db, txs)
  {
    forall t <- txs ensures Grounded(later, db, txs[t]) {
      assert Grounded(now, db, txs[t]);
    }
  }

  lemma AbortKeeps(now: Time, db: Db, txs: map<Id, Tx>, t: Id)
    requires TxInv(now, db, txs)
    ensures TxInv(now, db, txs - {t})
  {
    var rest := txs - {t};
    forall u, v | u in rest && v in rest && u != v ensures Compatible(rest[u], rest[v]) {
      assert Compatible(txs[u], txs[v]);
    }
  }

  lemma PlaceKeeps(now: Time, db: Db, txs: map<Id, Tx>, r: Id, row: Request)
    requires DbInv(db) && TxInv(now, db, txs) && r !in db.requests && RequestRowAllowed(row)
    ensures var db' := db.(requests := db.requests[r := row]); DbInv(db') && TxInv(now, db', txs)
  {
    var db' := db.(requests := db.requests[r := row]);
    PlaceKeepsLogs(db, r, row);
    forall q <- db'.requests ensures RequestSettled(db', q) {
      assert q != r ==> RequestSettled(db, q);
    }
    forall t <- txs ensures Grounded(now, db', txs[t]) {
      assert Grounded(now, db, txs[t]);
    }
  }

  lemma PlaceKeepsLogs(db: Db, r: Id, row: Request)
    requires Logs(db) && r !in db.requests && RequestRowAllowed(row)
    ensures Logs(db.(requests := db.requests[r := row]))
  {
    var db' := db.(requests := db.requests[r := row]);
    forall a <- db'.audit ensures Truthful(db', a) {
      assert Truthful(db, a);
    }
  }

  lemma CommitFits(now: Time, db: Db, tx: Tx)
    requires forall g <- db.grants :: GrantFits(db.grants[g])
    requires forall r <- db.requests :: RequestSettled(db, r)
    requires Grounded(now, db, tx) && tx.at == Logged
    ensures forall g <- Written(db, tx).grants :: GrantFits(Written(db, tx).grants[g])
  {
    if tx.Approving? {
      assert RequestSettled(db, tx.request);
    }
  }

  lemma CommitSettles(now: Time, db: Db, tx: Tx)
    requires forall r <- db.requests :: RequestSettled(db, r)
    requires Grounded(now, db, tx) && tx.at == Logged
    ensures forall r <- Written(db, tx).requests :: RequestSettled(Written(db, tx), r)
  {
    var db' := Written(db, tx);
    forall r <- db'.requests ensures RequestSettled(db', r) {
      assert RequestSettled(db, r);
    }
  }

  lemma NoRepeatsSnoc(audit: seq<Audit>, a: Audit)
    requires NoRepeats(audit) && forall b <- audit :: !Repeats(b, a)
    ensures NoRepeats(audit + [a])
  {
  }

  lemma LoggedOnce(now: Time, db: Db, tx: Tx, b: Audit)
    requires Grounded(now, db, tx) && tx.at == Logged && Truthful(db, b)
    ensures !Repeats(b, RowOf(tx))
  {
  }

  lemma CommitCompletes(now: Time, db: Db, tx: Tx)
    requires Complete(db) && Grounded(now, db, tx) && tx.at == Logged
    ensures Complete(Written(db, tx))
  {
    var db' := Written(db, tx);
    assert db'.audit == db.audit + [RowOf(tx)] && RowOf(tx) in db'.audit;
    forall g <- db'.grants ensures HasOrigin(db'.audit, g) {
      if g in db.grants {
        var a :| a in db.audit && IsOrigin(a) && a.grant == g;
        assert a in db'.audit;
      }
    }
    forall r <- db'.requests ensures HasDecision(db'.audit, r, db'.requests[r]) {
      assert HasDecision(db.audit, r, db.requests[r]);
    }
  }

  lemma StillTruthful(now: Time, db: Db, tx: Tx, a: Audit)
    requires Grounded(now, db, tx) && tx.at == Logged && Truthful(db, a)
    ensures Truthful(Written(db, tx), a)
  {
  }

  function RowOf(tx: Tx): Audit {
    match tx
    case Creating(_, _, g) => GrantCreated(g)
    case Approving(_, r, _, _, g) => RequestApproved(g, r)
    case Denying(_, r) => RequestDenied(r)
    case Revoking(_, g, _) => GrantRevoked(g)
    case Renewing(_, g, _, _, _) => GrantRenewed(g)
  }

  lemma CommitLogs(now: Time, db: Db, tx: Tx)
    requires Logs(db) && Grounded(now, db, tx) && tx.at == Logged
    ensures Logs(Written(db, tx))
  {
    CommitTruth(now, db, tx);
    forall b <- db.audit ensures !Repeats(b, RowOf(tx)) {
      LoggedOnce(now, db, tx, b);
    }
    NoRepeatsSnoc(db.audit, RowOf(tx));
    CommitCompletes(now, db, tx);
  }

  lemma CommitTruth(now: Time, db: Db, tx: Tx)
    requires Grounded(now, db, tx) && tx.at == Logged
    requires forall a <- db.audit :: Truthful(db, a)
    ensures forall a <- Written(db, tx).audit :: Truthful(Written(db, tx), a)
  {
    var db' := Written(db, tx);
    assert db'.audit == db.audit + [RowOf(tx)] && Truthful(db', RowOf(tx));
    forall b <- db'.audit ensures Truthful(db', b) {
      if b in db.audit {
        StillTruthful(now, db, tx, b);
      }
    }
  }

  lemma OthersStayGrounded(now: Time, db: Db, tx: Tx, other: Tx)
    requires Grounded(now, db, tx) && tx.at == Logged && Grounded(now, db, other) && Compatible(tx, other)
    ensures Grounded(now, Written(db, tx), other)
  {
  }

  lemma CommitKeeps(s: State, t: Id)
    requires Inv(s) && Enabled(s, Commit(t))
    ensures Inv(After(s, Commit(t)))
  {
    var tx := s.txs[t];
    CommitFits(s.now, s.db, tx);
    CommitSettles(s.now, s.db, tx);
    CommitLogs(s.now, s.db, tx);
    AbortKeeps(s.now, s.db, s.txs, t);
    forall u | u in s.txs && u != t ensures Grounded(s.now, Written(s.db, tx), s.txs[u]) {
      OthersStayGrounded(s.now, s.db, tx, s.txs[u]);
    }
  }

  lemma StepKeeps(s: State, step: Step)
    requires Inv(s) && Enabled(s, step)
    ensures Inv(After(s, step))
  {
    match step
    case Wait(until) => WaitKeeps(s.now, until, s.db, s.txs);
    case PlaceRequest(r, row) => PlaceKeeps(s.now, s.db, s.txs, r, row);
    case Commit(t) => CommitKeeps(s, t);
    case Abort(t) => AbortKeeps(s.now, s.db, s.txs, t);
    case _ => OpenStepKeeps(s, step);
  }

  lemma {:induction false} RunInvariant(steps: seq<Step>)
    ensures Run(steps).Some? ==> Inv(Run(steps).value)
  {
    if steps != [] {
      RunInvariant(steps[..|steps| - 1]);
      if Run(steps).Some? {
        StepKeeps(Run(steps[..|steps| - 1]).value, steps[|steps| - 1]);
      }
    }
  }
}
