/** The consent operations themselves, each as one transaction run alone. */
module ConsentOperations {
  import opened Wrappers
  import opened Seqs
  import opened Scopes
  import opened Consent
  import ConsentRuns

  datatype Error =
    | NoScopes | BadKind | BadDepth | DepthForbidden | BadScope | RepeatedScope | NoActor | NoSubject
    | BadTtl | NotFound | NotPending | NotRenewable

  /** An omitted kind is memory; a memory kind takes a depth from the closed vocabulary, any other none. */
  function KindAndDepth(kind: string, depth: string): (r: Result<(Kind, Option<string>), Error>)
    ensures r.Ok? <==> (kind in ["", "memory"] && depth in ["summary", "facts", "full"]) || (kind == "capability" && depth == "")
    ensures r.Ok? ==> DepthFits(r.value.0, r.value.1)
    ensures r.Ok? ==> r.value == if kind == "capability" then (Capability, None) else (Memory, Some(depth))
  {
    if kind != "" && kind != "memory" && kind != "capability" then Err(BadKind)
    else if kind != "capability" then if depth in DEPTHS then Ok((Memory, Some(depth))) else Err(BadDepth)
    else if depth != "" then Err(DepthForbidden)
    else Ok((Capability, None))
  }

  /** What can be asked for: at least one scope, all valid, and untargeted with one of the three depths, or
      targeted with no depth. */
  predicate Wanted(scopes: seq<string>, kind: string, depth: string) {
    && scopes != []
    && if kind == "capability" then depth == "" && TermsFit(Capability, None, scopes)
       else (kind == "" || kind == "memory") && TermsFit(Memory, Some(depth), scopes)
  }

  lemma WantedIff(scopes: seq<string>, kind: string, depth: string)
    ensures Wanted(scopes, kind, depth)
       <==> scopes != [] && KindAndDepth(kind, depth).Ok? && ScopesFit(KindAndDepth(kind, depth).value.0, scopes)
  {
  }

  class Store {
    var db: Db

    constructor ()
      ensures db == INIT.db
    {
      db := Db(map[], map[], []);
    }

    method CreateGrant(subject: string, scopes: seq<string>, kind: string, depth: string, ttl: Option<Time>,
                       actor: string, now: Time, grant: Id) returns (r: Result<Grant, Error>)
      requires grant !in db.grants
      modifies this
      ensures r.Ok? <==> Wanted(scopes, kind, depth) && actor != "" && NoDuplicates(scopes)
      ensures r.Err? ==> db == old(db)
      ensures r.Ok? ==>
                && db == Written(old(db), Creating(Logged, r.value, grant))
                && Creatable(r.value) && GrantFits(r.value) && r.value.subject == subject && r.value.scopes == scopes
                && r.value.expiresAt == match ttl case None => None case Some(d) => Some(now + d)
      ensures r.Ok? ==> Creates(old(db), db, grant, r.value)
                        && (r.value.kind == Capability <==> kind == "capability")
                        && r.value.depth == if kind == "capability" then None else Some(depth)
    {
      WantedIff(scopes, kind, depth);
      if scopes == [] {
        return Err(NoScopes);
      }
      var kd := KindAndDepth(kind, depth);
      if kd.Err? {
        return Err(kd.error);
      }
      if !ScopesFit(kd.value.0, scopes) {
        return Err(BadScope);
      }
      if actor == "" {
        return Err(NoActor);
      }
      var expiresAt := if ttl.Some? then Some(now + ttl.value) else None;
      var row := Grant(subject, kd.value.0, kd.value.1, scopes, expiresAt, None);
      if !NoDuplicates(scopes) {
        return Err(RepeatedScope);
      }
      db := db.(grants := db.grants[grant := row], audit := db.audit + [GrantCreated(grant)]);
      r := Ok(row);
    }

    method RequestGrant(subject: string, scopes: seq<string>, kind: string, depth: string, ttlSeconds: Option<int>,
                        request: Id) returns (r: Result<Request, Error>)
      requires request !in db.requests
      modifies this
      ensures r.Ok? <==> Wanted(scopes, kind, depth) && subject != "" && (ttlSeconds.Some? ==> ttlSeconds.value > 0)
      ensures db == if r.Ok? then old(db).(requests := old(db).requests[request := r.value]) else old(db)
      ensures r.Ok? ==>
                && RequestRowAllowed(r.value) && r.value.subject == subject && r.value.scopes == Distinct(scopes)
                && r.value.ttlSeconds == ttlSeconds
                && KindAndDepth(kind, depth) == Ok((r.value.kind, r.value.depth))
                && r.value.status == Pending && r.value.result == None
                && db.grants == old(db).grants && db.audit == old(db).audit
    {
      WantedIff(scopes, kind, depth);
      if scopes == [] {
        return Err(NoScopes);
      }
      var kd := KindAndDepth(kind, depth);
      if kd.Err? {
        return Err(kd.error);
      }
      if !ScopesFit(kd.value.0, scopes) {
        return Err(BadScope);
      }
      if subject == "" {
        return Err(NoSubject);
      }
      var deduped := Dedupe(scopes);
      if ttlSeconds.Some? && ttlSeconds.value <= 0 {
        return Err(BadTtl);
      }
      var row := Request(subject, kd.value.0, kd.value.1, deduped, ttlSeconds, Pending, None);
      db := db.(requests := db.requests[request := row]);
      r := Ok(row);
    }

    method ApproveGrantRequest(id: Id, decidedBy: string, now: Time, grant: Id) returns (r: Result<Grant, Error>)
      requires grant !in db.grants
      modifies this
      ensures r.Ok? <==> decidedBy != "" && id in old(db).requests && Approvable(old(db).requests[id])
      ensures r.Err? ==> db == old(db)
      ensures r.Ok? ==>
                && r.value == GrantFrom(old(db).requests[id], now)
                && db == Written(old(db), Approving(Logged, id, old(db).requests[id], r.value, grant))
      ensures r.Ok? && RequestRowAllowed(old(db).requests[id]) ==> Approves(old(db), db, id, grant, r.value)
      ensures r.Ok? ==> r.value.revokedAt == None
                        && r.value.expiresAt == match old(db).requests[id].ttlSeconds
                                                case None => None
                                                case Some(seconds) => Some(now + seconds * 1_000_000_000)
    {
      if decidedBy == "" {
        return Err(NoActor);
      }
      if id !in db.requests {
        return Err(NotFound);
      }
      var asked := db.requests[id];
      if asked.status != Pending {
        return Err(NotPending);
      }
      if !ScopesFit(asked.kind, asked.scopes) {
        return Err(BadScope);
      }
      var expiresAt := if asked.ttlSeconds.Some? then Some(now + asked.ttlSeconds.value * SECOND) else None;
      if !NoDuplicates(asked.scopes) {
        return Err(RepeatedScope);
      }
      var row := Grant(asked.subject, asked.kind, asked.depth, asked.scopes, expiresAt, None);
      var requests := db.requests[id := asked.(status := Approved, result := Some(grant))];
      db := Db(db.grants[grant := row], requests, db.audit + [RequestApproved(grant, id)]);
      r := Ok(row);
    }

    method DenyGrantRequest(id: Id, decidedBy: string) returns (r: Result<(), Error>)
      modifies this
      ensures r.Ok? <==> decidedBy != "" && id in old(db).requests && old(db).requests[id].status == Pending
      ensures db == if r.Ok? then Written(old(db), Denying(Logged, id)) else old(db)
      ensures r.Ok? ==> Denies(old(db), db, id)
    {
      if decidedBy == "" {
        return Err(NoActor);
      }
      if id !in db.requests || db.requests[id].status != Pending {
        return Err(NotPending);
      }
      var row := db.requests[id].(status := Denied, result := None);
      db := db.(requests := db.requests[id := row], audit := db.audit + [RequestDenied(id)]);
      r := Ok(());
    }

    method RevokeGrant(id: Id, actor: string, now: Time) returns (r: Result<(), Error>)
      modifies this
      ensures r.Ok? <==> actor != "" && id in old(db).grants && old(db).grants[id].revokedAt == None
      ensures db == if r.Ok? then Written(old(db), Revoking(Logged, id, now)) else old(db)
      ensures r.Ok? ==> Revokes(old(db), db, id, now)
    {
      if actor == "" {
        return Err(NoActor);
      }
      if id !in db.grants || db.grants[id].revokedAt.Some? {
        return Err(NotFound);
      }
      var row := db.grants[id].(revokedAt := Some(now));
      db := db.(grants := db.grants[id := row], audit := db.audit + [GrantRevoked(id)]);
      r := Ok(());
    }

    /** `start` is when the transaction began, `now` when the new expiry was computed. */
    method RenewGrant(id: Id, ttl: Time, actor: string, start: Time, now: Time) returns (r: Result<Grant, Error>)
      modifies this
      ensures r.Ok? <==> actor != "" && ttl > 0 && id in old(db).grants && old(db).grants[id].kind == Memory
                         && old(db).grants[id].revokedAt == None
                         && (old(db).grants[id].expiresAt.None? || start < old(db).grants[id].expiresAt.value)
      ensures db == if r.Ok? then Written(old(db), Renewing(Logged, id, start, ttl, now + ttl)) else old(db)
      ensures r.Ok? ==> r.value == db.grants[id] && r.value.expiresAt == Some(now + ttl)
      ensures r.Ok? ==> Renews(old(db), db, id, start, now + ttl)
    {
      if actor == "" {
        return Err(NoActor);
      }
      if ttl <= 0 {
        return Err(BadTtl);
      }
      var newExpiry := now + ttl;
      if id !in db.grants || !Renewable(db.grants[id], start) {
        return Err(NotRenewable);
      }
      var row := db.grants[id].(expiresAt := Some(newExpiry));
      db := db.(grants := db.grants[id := row], audit := db.audit + [GrantRenewed(id)]);
      r := Ok(row);
    }
  }

  /** What approval needs of a stored request. */
  predicate Approvable(row: Request) {
    row.status == Pending && ScopesFit(row.kind, row.scopes) && NoDuplicates(row.scopes)
  }

  /** Removing exact duplicates is what makes every request that can be staged one that can be approved. */
  lemma StagedRequestsAreApprovable(subject: string, scopes: seq<string>, kind: string, depth: string,
                                    ttlSeconds: Option<int>)
    requires Wanted(scopes, kind, depth)
    ensures var kd := KindAndDepth(kind, depth).value;
            && Approvable(Request(subject, kd.0, kd.1, Distinct(scopes), ttlSeconds, Pending, None))
            && (Approvable(Request(subject, kd.0, kd.1, scopes, ttlSeconds, Pending, None)) <==> NoDuplicates(scopes))
            && forall now :: GrantFits(GrantFrom(Request(subject, kd.0, kd.1, Distinct(scopes), ttlSeconds, Pending, None), now))
  {
    assert forall s <- Distinct(scopes) :: s in scopes;
  }

  // ---------- Run alone, the statements do what the methods do ----------

  lemma {:induction false} NoneStays(s: State, a: seq<Step>, b: seq<Step>)
    requires From(s, a).None?
    ensures From(s, a + b).None?
  {
    if b == [] {
      assert a + b == a;
    } else {
      NoneStays(s, a, b[..|b| - 1]);
      assert (a + b)[..|a + b| - 1] == a + b[..|b| - 1];
    }
  }

  lemma FromCons(s: State, step: Step, rest: seq<Step>)
    ensures From(s, [step] + rest) == if Enabled(s, step) then From(After(s, step), rest) else None
  {
    if Enabled(s, step) {
      ConsentRuns.FromStep(s, step, rest);
    } else {
      assert [step][..0] == [];
      NoneStays(s, [step], rest);
    }
  }

  function Alone(s: State, t: Id, tx: Tx): State {
    s.(txs := map[t := tx])
  }

  /** The end of every transaction: its audit row and its commit. */
  lemma EndAlone(s: State, t: Id, tx: Tx)
    requires tx.at == if tx.Creating? then Inserted else Wrote
    ensures var end := From(Alone(s, t, tx), [Log(t)] + ([Commit(t)] + []));
            end == Some(s.(db := Written(s.db, tx), txs := map[]))
  {
    var wrote := Alone(s, t, tx);
    FromCons(wrote, Log(t), [Commit(t)] + []);
    LogThenCommit(s, t, tx);
    FromCons(After(wrote, Log(t)), Commit(t), []);
  }

  lemma LogThenCommit(s: State, t: Id, tx: Tx)
    requires tx.at == if tx.Creating? then Inserted else Wrote
    ensures var wrote := Alone(s, t, tx);
            && Enabled(wrote, Log(t)) && Enabled(After(wrote, Log(t)), Commit(t))
            && After(After(wrote, Log(t)), Commit(t)) == s.(db := Written(s.db, tx), txs := map[])
  {
    assert After(Alone(s, t, tx), Log(t)).txs - {t} == map[];
  }

  lemma CreateAlone(s: State, t: Id, row: Grant, g: Id)
    requires s.txs == map[] && g !in s.db.grants
    ensures var end := From(s, [BeginCreate(t, row)] + ([Insert(t, g)] + ([Log(t)] + ([Commit(t)] + []))));
            && (end.Some? <==> Creatable(row) && NoDuplicates(row.scopes))
            && (end.Some? ==> end.value == s.(db := Written(s.db, Creating(Logged, row, g))))
  {
    var rest := [Log(t)] + ([Commit(t)] + []);
    var begun := Alone(s, t, Creating(Begun, row, 0));
    FromCons(s, BeginCreate(t, row), [Insert(t, g)] + rest);
    FromCons(begun, Insert(t, g), rest);
    assert Enabled(begun, Insert(t, g)) ==> After(begun, Insert(t, g)) == Alone(s, t, Creating(Inserted, row, g));
    EndAlone(s, t, Creating(Inserted, row, g));
  }

  function Asked(s: State, r: Id): Request {
    if r in s.db.requests then s.db.requests[r] else NO_REQUEST
  }

  lemma LoadAlone(s: State, t: Id, r: Id, rest: seq<Step>)
    ensures var asked := Asked(s, r);
            From(Alone(s, t, Approving(Begun, r, NO_REQUEST, NO_GRANT, 0)), [Load(t)] + rest)
            == if r in s.db.requests && asked.status == Pending && ScopesFit(asked.kind, asked.scopes)
               then From(Alone(s, t, Approving(Loaded, r, asked, NO_GRANT, 0)), rest) else None
  {
    var begun := Alone(s, t, Approving(Begun, r, NO_REQUEST, NO_GRANT, 0));
    FromCons(begun, Load(t), rest);
    assert Enabled(begun, Load(t)) ==> After(begun, Load(t)) == Alone(s, t, Approving(Loaded, r, Asked(s, r), NO_GRANT, 0));
  }

  lemma InsertAlone(s: State, t: Id, r: Id, asked: Request, g: Id, rest: seq<Step>)
    requires g !in s.db.grants
    ensures From(Alone(s, t, Approving(Loaded, r, asked, NO_GRANT, 0)), [Insert(t, g)] + rest)
         == if NoDuplicates(asked.scopes) then From(Alone(s, t, Approving(Inserted, r, asked, GrantFrom(asked, s.now), g)), rest)
            else None
  {
    var loaded := Alone(s, t, Approving(Loaded, r, asked, NO_GRANT, 0));
    FromCons(loaded, Insert(t, g), rest);
    assert Enabled(loaded, Insert(t, g)) ==>
             After(loaded, Insert(t, g)) == Alone(s, t, Approving(Inserted, r, asked, GrantFrom(asked, s.now), g));
  }

  lemma WriteAlone(s: State, t: Id, r: Id, asked: Request, row: Grant, g: Id, rest: seq<Step>)
    ensures From(Alone(s, t, Approving(Inserted, r, asked, row, g)), [Approve(t)] + rest)
         == From(Alone(s, t, Approving(Wrote, r, asked, row, g)), rest)
  {
    var inserted := Alone(s, t, Approving(Inserted, r, asked, row, g));
    FromCons(inserted, Approve(t), rest);
    assert After(inserted, Approve(t)) == Alone(s, t, Approving(Wrote, r, asked, row, g));
  }

  lemma ApproveAlone(s: State, t: Id, r: Id, g: Id)
    requires s.txs == map[] && g !in s.db.grants
    ensures var end := From(s, [BeginApprove(t, r)] + ([Load(t)] + ([Insert(t, g)]
                                 + ([Approve(t)] + ([Log(t)] + ([Commit(t)] + []))))));
            var asked := Asked(s, r);
            && (end.Some? <==> r in s.db.requests && Approvable(asked))
            && (end.Some? ==> end.value == s.(db := Written(s.db, Approving(Logged, r, asked, GrantFrom(asked, s.now), g))))
  {
    var end := [Log(t)] + ([Commit(t)] + []);
    var rest, asked := [Approve(t)] + end, Asked(s, r);
    FromCons(s, BeginApprove(t, r), [Load(t)] + ([Insert(t, g)] + rest));
    LoadAlone(s, t, r, [Insert(t, g)] + rest);
    InsertAlone(s, t, r, asked, g, rest);
    WriteAlone(s, t, r, asked, GrantFrom(asked, s.now), g, end);
    EndAlone(s, t, Approving(Wrote, r, asked, GrantFrom(asked, s.now), g));
  }

  lemma DenyAlone(s: State, t: Id, r: Id)
    requires s.txs == map[]
    ensures var end := From(s, [BeginDeny(t, r)] + ([Deny(t)] + ([Log(t)] + ([Commit(t)] + []))));
            && (end.Some? <==> r in s.db.requests && s.db.requests[r].status == Pending)
            && (end.Some? ==> end.value == s.(db := Written(s.db, Denying(Logged, r))))
  {
    var rest := [Log(t)] + ([Commit(t)] + []);
    var begun := Alone(s, t, Denying(Begun, r));
    FromCons(s, BeginDeny(t, r), [Deny(t)] + rest);
    FromCons(begun, Deny(t), rest);
    assert Enabled(begun, Deny(t)) ==> After(begun, Deny(t)) == Alone(s, t, Denying(Wrote, r));
    EndAlone(s, t, Denying(Wrote, r));
  }

  lemma RevokeAlone(s: State, t: Id, g: Id)
    requires s.txs == map[]
    ensures var end := From(s, [BeginRevoke(t, g)] + ([Revoke(t)] + ([Log(t)] + ([Commit(t)] + []))));
            && (end.Some? <==> g in s.db.grants && s.db.grants[g].revokedAt == None)
            && (end.Some? ==> end.value == s.(db := Written(s.db, Revoking(Logged, g, s.now))))
  {
    var rest := [Log(t)] + ([Commit(t)] + []);
    var begun := Alone(s, t, Revoking(Begun, g, s.now));
    FromCons(s, BeginRevoke(t, g), [Revoke(t)] + rest);
    FromCons(begun, Revoke(t), rest);
    assert Enabled(begun, Revoke(t)) ==> After(begun, Revoke(t)) == Alone(s, t, Revoking(Wrote, g, s.now));
    EndAlone(s, t, Revoking(Wrote, g, s.now));
  }

  lemma ComputeAlone(s: State, t: Id, g: Id, ttl: Time, rest: seq<Step>)
    ensures From(Alone(s, t, Renewing(Begun, g, s.now, ttl, 0)), [Compute(t)] + rest)
         == From(Alone(s, t, Renewing(Computed, g, s.now, ttl, s.now + ttl)), rest)
  {
    var begun := Alone(s, t, Renewing(Begun, g, s.now, ttl, 0));
    FromCons(begun, Compute(t), rest);
    assert After(begun, Compute(t)) == Alone(s, t, Renewing(Computed, g, s.now, ttl, s.now + ttl));
  }

  lemma RenewComputed(s: State, t: Id, g: Id, ttl: Time, rest: seq<Step>)
    ensures var computed := Renewing(Computed, g, s.now, ttl, s.now + ttl);
            From(Alone(s, t, computed), [Renew(t)] + rest)
            == if g in s.db.grants && Renewable(s.db.grants[g], s.now) then From(Alone(s, t, computed.(at := Wrote)), rest) else None
  {
    var computed := Alone(s, t, Renewing(Computed, g, s.now, ttl, s.now + ttl));
    FromCons(computed, Renew(t), rest);
    assert Enabled(computed, Renew(t)) ==> After(computed, Renew(t)) == Alone(s, t, Renewing(Wrote, g, s.now, ttl, s.now + ttl));
  }

  lemma RenewBegun(s: State, t: Id, g: Id, ttl: Time)
    ensures var end := From(Alone(s, t, Renewing(Begun, g, s.now, ttl, 0)),
                            [Compute(t)] + ([Renew(t)] + ([Log(t)] + ([Commit(t)] + []))));
            && (end.Some? <==> g in s.db.grants && Renewable(s.db.grants[g], s.now))
            && (end.Some? ==> end.value == s.(db := Written(s.db, Renewing(Logged, g, s.now, ttl, s.now + ttl)), txs := map[]))
  {
    var rest := [Log(t)] + ([Commit(t)] + []);
    ComputeAlone(s, t, g, ttl, [Renew(t)] + rest);
    RenewComputed(s, t, g, ttl, rest);
    RenewEnds(s, t, g, ttl);
  }

  lemma RenewEnds(s: State, t: Id, g: Id, ttl: Time)
    ensures From(Alone(s, t, Renewing(Wrote, g, s.now, ttl, s.now + ttl)), [Log(t)] + ([Commit(t)] + []))
         == Some(s.(db := Written(s.db, Renewing(Logged, g, s.now, ttl, s.now + ttl)), txs := map[]))
  {
    EndAlone(s, t, Renewing(Wrote, g, s.now, ttl, s.now + ttl));
  }

  lemma RenewAlone(s: State, t: Id, g: Id, ttl: Time)
    requires s.txs == map[]
    ensures var end := From(s, [BeginRenew(t, g, ttl)] + ([Compute(t)] + ([Renew(t)] + ([Log(t)] + ([Commit(t)] + [])))));
            && (end.Some? <==> ttl > 0 && g in s.db.grants && Renewable(s.db.grants[g], s.now))
            && (end.Some? ==> end.value == s.(db := Written(s.db, Renewing(Logged, g, s.now, ttl, s.now + ttl))))
  {
    FromCons(s, BeginRenew(t, g, ttl), [Compute(t)] + ([Renew(t)] + ([Log(t)] + ([Commit(t)] + []))));
    RenewBegun(s, t, g, ttl);
  }
}
