/** Whole runs of the broker: signing calls interleaved step by step with each other and with the cache's
    reloads and revocations. */
module BrokerRuns {
  import opened Wrappers
  import opened Seqs
  import Cache
  import CacheProtocol
  import CommitParser
  import RateLimiter
  import opened Broker

  type Id = nat

  datatype Config = Config(hash: string -> string, parse: string -> Parsed, crypto: Crypto, limit: int, window: int, gap: Time)

  /** The parser in use is the commit parser. */
  ghost predicate ParsesCommits(c: Config) {
    forall payload :: c.parse(payload) == CommitParser.Parsed(payload)
  }

  /** A call and how far it has got. `barred` is history: the grants `Remove` had run on when it started. */
  datatype Call =
    | Looked(req: Request, entry: Cache.Entry, barred: set<string>)
    | Admitted(req: Request, entry: Cache.Entry, barred: set<string>, at: Time)
    | Finished(req: Request, entry: Cache.Entry, barred: set<string>, at: Time, backend: Backend, result: Result<string, Reason>)
    | Refused(reason: Reason)

  datatype Admission = Admission(call: Id, key: string, at: Time)

  /** `rated` are the limiter's calls in lock order; its state is what they leave. The last four are
      history: the cache's own steps, which call wrote each audit row, the admissions in order, and what
      preflight would have answered each call as it started. */
  datatype State = State(
    cache: CacheProtocol.State, rated: seq<RateLimiter.Call>, clock: Time, calls: map<Id, Call>, audit: seq<AuditRow>,
    cacheSteps: seq<CacheProtocol.Step>, signers: seq<Id>, admissions: seq<Admission>, asked: map<Id, Answer>)

  type Answer = Result<Option<Time>, Reason>

  const INIT := State(CacheProtocol.INIT, [], 0, map[], [], [], [], [], map[])

  datatype Step =
    | CacheStep(step: CacheProtocol.Step)
    | Start(call: Id, req: Request, now: Time)
    | Rate(call: Id, now: Time)
    | Finish(call: Id, backend: Backend)

  /** The limiter's clock readings do not decrease in the order it takes its lock. */
  ghost predicate Enabled(c: Config, s: State, step: Step) {
    match step
    case CacheStep(e) => CacheProtocol.Enabled(c.gap, s.cache, e)
    case Start(q, _, _) => q !in s.calls
    case Rate(q, now) => q in s.calls && s.calls[q].Looked? && s.clock <= now
    case Finish(q, _) => q in s.calls && s.calls[q].Admitted?
  }

  function Starts(c: Config, s: State, req: Request, now: Time): Call {
    match Cache.Found(s.cache.view, c.hash(req.token), now)
    case None => Refused(NoActiveGrant)
    case Some(entry) => Looked(req, entry, s.cache.removed)
  }

  ghost function After(c: Config, s: State, step: Step): State
    requires Enabled(c, s, step)
  {
    match step
    case CacheStep(e) => s.(cache := CacheProtocol.After(c.gap, s.cache, e), cacheSteps := s.cacheSteps + [e])
    case Start(q, req, now) =>
      s.(calls := s.calls[q := Starts(c, s, req, now)],
         asked := s.asked[q := PreflightAnswer(Cache.Found(s.cache.view, c.hash(req.token), now), req.scope)])
    case Rate(q, now) =>
      var call := s.calls[q];
      var key := call.entry.grantId;
      var rated := s.(rated := s.rated + [RateLimiter.Call(key, now)], clock := now);
      if RateLimiter.Allowed(c.limit, c.window, RateLimiter.State(c.limit, c.window, s.rated), key, now) then
        rated.(calls := s.calls[q := Admitted(call.req, call.entry, call.barred, now)],
               admissions := s.admissions + [Admission(q, key, now)])
      else rated.(calls := s.calls[q := Refused(TooMany)])
    case Finish(q, backend) =>
      var call := s.calls[q];
      var d := Decide(c.crypto, call.entry, call.req, c.parse(call.req.payload), backend);
      s.(calls := s.calls[q := Finished(call.req, call.entry, call.barred, call.at, backend, d.1)],
         audit := s.audit + RowsOf(d.0),
         signers := s.signers + (if d.0.Some? then [q] else []))
  }

  ghost function Run(c: Config, steps: seq<Step>): Option<State> {
    if steps == [] then Some(INIT)
    else
      var before, step := Run(c, steps[..|steps| - 1]), steps[|steps| - 1];
      if before.Some? && Enabled(c, before.value, step) then Some(After(c, before.value, step)) else None
  }

  // ---------- Audit rows and signatures ----------

  /** The row was written by this call for an authorized request, and the call returned its signature unless
      the answer of the insert was lost. */
  ghost predicate Accounts(c: Config, call: Call, row: AuditRow) {
    && call.Finished? && Authorized(call.entry, call.req, c.parse(call.req.payload)) && row == RowFor(c.crypto, call.entry, call.req)
    && (call.result == Ok(c.crypto.signature(call.req.payload)) || call.backend.insert == AnswerLost)
  }

  ghost function Accountant(c: Config): (Call, AuditRow) -> bool {
    (call: Call, row: AuditRow) => Accounts(c, call, row)
  }

  ghost predicate Accounted(accounts: (Call, AuditRow) -> bool, calls: map<Id, Call>, audit: seq<AuditRow>, signers: seq<Id>) {
    && |signers| == |audit| && NoDuplicates(signers)
    && (forall i | 0 <= i < |signers| :: signers[i] in calls && calls[signers[i]].Finished? && accounts(calls[signers[i]], audit[i]))
    && (forall q <- calls :: calls[q].Finished? && calls[q].result.Ok? ==> q in signers)
  }

  ghost predicate Audited(c: Config, s: State) {
    Accounted(Accountant(c), s.calls, s.audit, s.signers)
  }

  lemma FinishAccounts(c: Config, call: Call, backend: Backend)
    requires call.Admitted?
    ensures var d := Decide(c.crypto, call.entry, call.req, c.parse(call.req.payload), backend);
            var done := Finished(call.req, call.entry, call.barred, call.at, backend, d.1);
            && (d.0.Some? ==> Accounts(c, done, d.0.value))
            && (d.1.Ok? ==> d.0.Some?)
  {
    SignedIffAuthorized(c.crypto, call.entry, call.req, c.parse(call.req.payload), backend);
  }

  lemma FinishAudits(c: Config, s: State, q: Id, backend: Backend)
    requires Audited(c, s) && Enabled(c, s, Finish(q, backend))
    ensures Audited(c, After(c, s, Finish(q, backend)))
  {
    var call := s.calls[q];
    var d := Decide(c.crypto, call.entry, call.req, c.parse(call.req.payload), backend);
    var done := Finished(call.req, call.entry, call.barred, call.at, backend, d.1);
    FinishAccounts(c, call, backend);
    if d.0.Some? {
      assert Accountant(c)(done, d.0.value);
      AuditMore(Accountant(c), s.calls, s.audit, s.signers, q, done, d.0.value);
    } else {
      AuditSame(Accountant(c), s.calls, s.audit, s.signers, q, done);
    }
  }

  lemma AuditMore(accounts: (Call, AuditRow) -> bool, calls: map<Id, Call>, audit: seq<AuditRow>, signers: seq<Id>, q: Id,
                  done: Call, row: AuditRow)
    requires Accounted(accounts, calls, audit, signers) && q in calls && calls[q].Admitted?
    requires done.Finished? && accounts(done, row)
    ensures Accounted(accounts, calls[q := done], audit + [row], signers + [q])
  {
    assert forall i | 0 <= i < |signers| :: signers[i] != q;
  }

  lemma AuditSame(accounts: (Call, AuditRow) -> bool, calls: map<Id, Call>, audit: seq<AuditRow>, signers: seq<Id>, q: Id,
                  done: Call)
    requires Accounted(accounts, calls, audit, signers) && q in calls && calls[q].Admitted?
    requires done.Finished? && done.result.Err?
    ensures Accounted(accounts, calls[q := done], audit + [], signers + [])
  {
    assert audit + [] == audit && signers + [] == signers;
    assert forall i | 0 <= i < |signers| :: signers[i] != q;
  }

  lemma OtherAudits(c: Config, s: State, step: Step)
    requires Audited(c, s) && Enabled(c, s, step) && !step.Finish?
    ensures Audited(c, After(c, s, step))
  {
    if !step.CacheStep? {
      AuditOther(Accountant(c), s.calls, s.audit, s.signers, step.call, After(c, s, step).calls[step.call]);
    }
  }

  lemma AuditOther(accounts: (Call, AuditRow) -> bool, calls: map<Id, Call>, audit: seq<AuditRow>, signers: seq<Id>, q: Id,
                   next: Call)
    requires Accounted(accounts, calls, audit, signers) && q !in signers && !next.Finished?
    ensures Accounted(accounts, calls[q := next], audit, signers)
  {
    assert forall i | 0 <= i < |signers| :: signers[i] != q;
  }

  lemma {:induction false} RunAudits(c: Config, steps: seq<Step>)
    ensures Run(c, steps).Some? ==> Audited(c, Run(c, steps).value)
  {
    if steps != [] {
      RunAudits(c, steps[..|steps| - 1]);
      if Run(c, steps).Some? {
        var s, step := Run(c, steps[..|steps| - 1]).value, steps[|steps| - 1];
        match step
        case Finish(q, backend) => FinishAudits(c, s, q, backend);
        case _ => OtherAudits(c, s, step);
      }
    }
  }

  /** Audit rows correspond one to one with the calls that wrote them: each carries the digest, grant and
      scope of an authorized request, whose payload parsed as a commit by the grant's committer; every call
      that returned a signature wrote one; and one whose call returned none is one whose insert ran but whose
      answer was lost. */
  lemma SignaturesAndAuditRowsCorrespond(c: Config, steps: seq<Step>, q: Id)
    requires Run(c, steps).Some? && ParsesCommits(c)
    ensures var s := Run(c, steps).value;
            && |s.signers| == |s.audit| && NoDuplicates(s.signers)
            && (forall i | 0 <= i < |s.audit| :: s.signers[i] in s.calls && Explains(c, s.calls[s.signers[i]], s.audit[i]))
            && (q in s.calls && s.calls[q].Finished? && s.calls[q].result.Ok? ==>
                  exists i | 0 <= i < |s.audit| ::
                    s.signers[i] == q && RowTells(s.audit[i], c.crypto, s.calls[q].entry, s.calls[q].req))
  {
    RunAudits(c, steps);
    var s := Run(c, steps).value;
    forall i | 0 <= i < |s.audit| ensures s.signers[i] in s.calls && Explains(c, s.calls[s.signers[i]], s.audit[i]) {
      assert Accountant(c)(s.calls[s.signers[i]], s.audit[i]);
      AccountsExplain(c, s.calls[s.signers[i]], s.audit[i]);
    }
    if q in s.calls && s.calls[q].Finished? && s.calls[q].result.Ok? {
      var i :| 0 <= i < |s.signers| && s.signers[i] == q;
    }
  }

  /** `Accounts`, with the commit parser in place. */
  ghost predicate Explains(c: Config, call: Call, row: AuditRow) {
    && call.Finished? && Authorized(call.entry, call.req, CommitParser.Parsed(call.req.payload))
    && RowTells(row, c.crypto, call.entry, call.req)
    && (call.result == Ok(c.crypto.signature(call.req.payload)) || call.backend.insert == AnswerLost)
  }

  lemma AccountsExplain(c: Config, call: Call, row: AuditRow)
    requires ParsesCommits(c) && Accounts(c, call, row)
    ensures Explains(c, call, row)
  {
    assert c.parse(call.req.payload) == CommitParser.Parsed(call.req.payload);
  }

  // ---------- Revocation ----------

  ghost predicate Unbarred(c: Config, s: State) {
    && CacheProtocol.Run(c.gap, s.cacheSteps) == Some(s.cache)
    && forall q <- s.calls :: s.calls[q].Refused? || s.calls[q].entry.grantId !in s.calls[q].barred
  }

  lemma StepUnbarred(c: Config, s: State, step: Step)
    requires c.gap <= Cache.TOMBSTONE_TTL && Unbarred(c, s) && Enabled(c, s, step)
    ensures Unbarred(c, After(c, s, step))
  {
    match step
    case CacheStep(e) => CacheProtocol.RunSnoc(c.gap, s.cacheSteps, e);
    case Start(q, req, now) => StartIsUnbarred(c, s, req, now);
    case Rate(_, _) =>
    case Finish(_, _) =>
  }

  lemma StartIsUnbarred(c: Config, s: State, req: Request, now: Time)
    requires c.gap <= Cache.TOMBSTONE_TTL && CacheProtocol.Run(c.gap, s.cacheSteps) == Some(s.cache)
    ensures Starts(c, s, req, now).Looked? ==> Starts(c, s, req, now).entry.grantId !in s.cache.removed
  {
    var call := Starts(c, s, req, now);
    if call.Looked? && call.entry.grantId in s.cache.removed {
      CacheProtocol.RemovedIsNeverFound(c.gap, s.cacheSteps, call.entry.grantId, c.hash(req.token), now);
    }
  }

  /** No call starts under a grant on which `Remove` has run: when no reload lags its snapshot by more than
      the tombstone lifetime, the grant of every call was not among those removed when the call started, and
      a call starting now finds none that has been removed by now. */
  lemma {:induction false} NoneStartsAfterRemove(c: Config, steps: seq<Step>, req: Request, now: Time)
    requires c.gap <= 300_000_000_000 && Run(c, steps).Some?
    ensures var s := Run(c, steps).value;
            && CacheProtocol.Run(c.gap, s.cacheSteps) == Some(s.cache)
            && (forall q <- s.calls :: s.calls[q].Refused? || s.calls[q].entry.grantId !in s.calls[q].barred)
            && (Starts(c, s, req, now).Looked? ==> Starts(c, s, req, now).entry.grantId !in s.cache.removed)
  {
    if steps != [] {
      NoneStartsAfterRemove(c, steps[..|steps| - 1], req, now);
      StepUnbarred(c, Run(c, steps[..|steps| - 1]).value, steps[|steps| - 1]);
    }
    StartIsUnbarred(c, Run(c, steps).value, req, now);
  }

  // ---------- Preflight ----------

  /** How a call stands to what preflight would have answered when it started. */
  ghost predicate Foretold(call: Call, asked: Answer) {
    match call
    case Refused(reason) => reason in {NoActiveGrant, TooMany} && (reason == NoActiveGrant <==> asked == Err(NoActiveGrant))
    case Looked(req, entry, _) => asked == PreflightAnswer(Some(entry), req.scope)
    case Admitted(req, entry, _, _) => asked == PreflightAnswer(Some(entry), req.scope)
    case Finished(_, _, _, _, _, result) =>
      && asked != Err(NoActiveGrant) && result != Err(TooMany)
      && if asked.Err? then result == Err(asked.error) && GrantOrScope(asked.error)
         else result.Ok? || !GrantOrScope(result.error)
  }

  lemma FinishForetold(c: Config, call: Call, asked: Answer, backend: Backend)
    requires call.Admitted? && Foretold(call, asked)
    ensures var result := Decide(c.crypto, call.entry, call.req, c.parse(call.req.payload), backend).1;
            Foretold(Finished(call.req, call.entry, call.barred, call.at, backend, result), asked)
  {
    PreflightNeverMisleads(c.crypto, Some(call.entry), call.req, c.parse(call.req.payload), backend,
                           if asked.Err? then asked.error else NoActiveGrant);
  }

  ghost predicate AllForetold(calls: map<Id, Call>, asked: map<Id, Answer>) {
    forall q <- calls :: q in asked && Foretold(calls[q], asked[q])
  }

  lemma StepForetold(c: Config, s: State, step: Step)
    requires AllForetold(s.calls, s.asked) && Enabled(c, s, step)
    ensures var s' := After(c, s, step); AllForetold(s'.calls, s'.asked)
  {
    if !step.CacheStep? && step.call in s.calls {
      assert Foretold(s.calls[step.call], s.asked[step.call]);
    }
    if step.Finish? {
      FinishForetold(c, s.calls[step.call], s.asked[step.call], step.backend);
    }
  }

  lemma {:induction false} RunForetold(c: Config, steps: seq<Step>)
    ensures Run(c, steps).Some? ==> AllForetold(Run(c, steps).value.calls, Run(c, steps).value.asked)
  {
    if steps != [] {
      RunForetold(c, steps[..|steps| - 1]);
      if Run(c, steps).Some? {
        StepForetold(c, Run(c, steps[..|steps| - 1]).value, steps[|steps| - 1]);
      }
    }
  }

  function Outcome(call: Call): Option<Result<string, Reason>> {
    match call
    case Refused(reason) => Some(Err(reason))
    case Finished(_, _, _, _, _, result) => Some(result)
    case _ => None
  }

  predicate EndsAsAsked(call: Call, asked: Answer) {
    match Outcome(call)
    case None => asked != Err(NoActiveGrant)
    case Some(r) =>
      if r == Err(TooMany) then asked != Err(NoActiveGrant)
      else if asked.Err? then r == Err(asked.error) && GrantOrScope(asked.error)
      else r.Ok? || !GrantOrScope(r.error)
  }

  /** However long a call takes and whatever reloads and removals run meanwhile, unless the rate stops it, it
      is refused for its grant or scope exactly when preflight would have refused it as it started, and for
      the same reason; one that preflight would have passed fails for its payload or the backend at most. */
  lemma PreflightForetellsSigning(c: Config, steps: seq<Step>, q: Id)
    requires Run(c, steps).Some? && q in Run(c, steps).value.calls
    ensures var s := Run(c, steps).value;
            q in s.asked && EndsAsAsked(s.calls[q], s.asked[q])
  {
    RunForetold(c, steps);
    var s := Run(c, steps).value;
    assert Foretold(s.calls[q], s.asked[q]);
    ForetoldEnd(s.calls[q], s.asked[q]);
  }

  lemma ForetoldEnd(call: Call, asked: Answer)
    requires Foretold(call, asked)
    ensures EndsAsAsked(call, asked)
  {
  }

  // ---------- A call alone ----------

  /** Run with nothing in between, the steps of a call end it as `Sign` answers: refused without a grant, its
      rate spent, refused when over it, and else decided, with the audit row of that decision. */
  lemma SignAlone(c: Config, s: State, q: Id, req: Request, now: Time, rateAt: Time, backend: Backend)
    requires q !in s.calls && s.clock <= rateAt
    ensures Enabled(c, s, Start(q, req, now))
    ensures var s1 := After(c, s, Start(q, req, now));
            match Cache.Found(s.cache.view, c.hash(req.token), now)
            case None => s1.calls == s.calls[q := Refused(NoActiveGrant)] && s1.rated == s.rated && s1.audit == s.audit
            case Some(entry) =>
              && Enabled(c, s1, Rate(q, rateAt))
              && var s2 := After(c, s1, Rate(q, rateAt));
                 && s2.rated == s.rated + [RateLimiter.Call(entry.grantId, rateAt)]
                 && if !RateLimiter.Allowed(c.limit, c.window, RateLimiter.State(c.limit, c.window, s.rated), entry.grantId, rateAt)
                    then s2.calls == s.calls[q := Refused(TooMany)] && s2.audit == s.audit
                    else EndsWith(c, s, s2, q, entry, req, backend)
  {
    if Cache.Found(s.cache.view, c.hash(req.token), now).Some? {
      var entry := Cache.Found(s.cache.view, c.hash(req.token), now).value;
      var s1 := After(c, s, Start(q, req, now));
      assert s1.calls[q := Refused(TooMany)] == s.calls[q := Refused(TooMany)];
      if RateLimiter.Allowed(c.limit, c.window, RateLimiter.State(c.limit, c.window, s.rated), entry.grantId, rateAt) {
        FinishAlone(c, s, After(c, s1, Rate(q, rateAt)), q, entry, req, rateAt, backend);
      }
    }
  }

  ghost predicate EndsWith(c: Config, s: State, s2: State, q: Id, entry: Cache.Entry, req: Request, backend: Backend) {
    && Enabled(c, s2, Finish(q, backend))
    && var s3, d := After(c, s2, Finish(q, backend)), Decide(c.crypto, entry, req, c.parse(req.payload), backend);
       s3.calls.Keys == s.calls.Keys + {q} && Outcome(s3.calls[q]) == Some(d.1) && s3.audit == s.audit + RowsOf(d.0)
  }

  lemma FinishAlone(c: Config, s: State, s2: State, q: Id, entry: Cache.Entry, req: Request, at: Time, backend: Backend)
    requires q in s2.calls && s2.calls[q].Admitted? && s2.calls[q].entry == entry && s2.calls[q].req == req
    requires s2.calls.Keys == s.calls.Keys + {q} && s2.audit == s.audit
    ensures EndsWith(c, s, s2, q, entry, req, backend)
  {
    assert After(c, s2, Finish(q, backend)).calls.Keys == s2.calls.Keys;
  }

  // ---------- Rate ----------

  function OfKey(key: string): Admission -> bool {
    (a: Admission) => a.key == key
  }

  function Times(admissions: seq<Admission>): seq<Time> {
    seq(|admissions|, i requires 0 <= i < |admissions| => admissions[i].at)
  }

  /** The admissions are those the limiter makes. */
  ghost predicate Matching(c: Config, s: State, key: string) {
    RateLimiter.Admitted(c.limit, c.window, s.rated, key) == Times(Filter(s.admissions, OfKey(key)))
  }

  lemma TimesSnoc(admissions: seq<Admission>, a: Admission)
    ensures Times(admissions + [a]) == Times(admissions) + [a.at]
  {
  }

  /** One call of the limiter extends both accounts of the admissions alike. */
  lemma RateMatches(c: Config, s: State, q: Id, now: Time, key: string)
    requires Enabled(c, s, Rate(q, now)) && Matching(c, s, key)
    ensures Matching(c, After(c, s, Rate(q, now)), key)
  {
    var own := s.calls[q].entry.grantId;
    RateLimiter.StateSnoc(c.limit, c.window, s.rated, RateLimiter.Call(own, now));
    var a := Admission(q, own, now);
    FilterSnoc(s.admissions, a, OfKey(key));
    TimesSnoc(Filter(s.admissions, OfKey(key)), a);
    var times := RateLimiter.Admitted(c.limit, c.window, s.rated, key);
    assert times + [] == times;
    assert Filter(s.admissions, OfKey(key)) + [] == Filter(s.admissions, OfKey(key));
  }

  /** Each admitted or finished call has its own admission. */
  ghost predicate Recorded(s: State) {
    forall q <- s.calls :: s.calls[q].Admitted? || s.calls[q].Finished? ==>
      Admission(q, s.calls[q].entry.grantId, s.calls[q].at) in s.admissions
  }

  ghost predicate InLockOrder(s: State) {
    RateLimiter.Ordered(s.rated) && forall r <- s.rated :: r.now <= s.clock
  }

  lemma StepRecorded(c: Config, s: State, step: Step)
    requires Recorded(s) && Enabled(c, s, step)
    ensures Recorded(After(c, s, step))
  {
  }

  lemma RateInOrder(c: Config, s: State, q: Id, now: Time)
    requires InLockOrder(s) && Enabled(c, s, Rate(q, now))
    ensures InLockOrder(After(c, s, Rate(q, now)))
  {
    var call := RateLimiter.Call(s.calls[q].entry.grantId, now);
    forall i, j | 0 <= i < j < |s.rated + [call]| ensures (s.rated + [call])[i].now <= (s.rated + [call])[j].now {
      assert s.rated[i] in s.rated;
    }
  }

  lemma {:induction false} RunIsPaced(c: Config, steps: seq<Step>, key: string)
    ensures Run(c, steps).Some? ==>
              var s := Run(c, steps).value; InLockOrder(s) && Matching(c, s, key) && Recorded(s)
  {
    if steps != [] {
      RunIsPaced(c, steps[..|steps| - 1], key);
      if Run(c, steps).Some? {
        var s, step := Run(c, steps[..|steps| - 1]).value, steps[|steps| - 1];
        StepRecorded(c, s, step);
        if step.Rate? {
          RateInOrder(c, s, step.call, step.now);
          RateMatches(c, s, step.call, step.now, key);
        }
      }
    } else {
      assert Filter<Admission>([], OfKey(key)) == [];
    }
  }

  function SignedIn(s: State, key: string, x: Time, window: int): Id -> bool {
    (q: Id) => q in s.calls && s.calls[q].Finished? && s.calls[q].entry.grantId == key && x < s.calls[q].at <= x + window
  }

  function AdmittedIn(key: string, x: Time, window: int): Admission -> bool {
    (a: Admission) => a.key == key && x < a.at <= x + window
  }

  /** Ids without repetition, each the call of a listed admission, are no more than those admissions. */
  lemma NoMoreThanAdmissions(ids: seq<Id>, admissions: seq<Admission>)
    requires NoDuplicates(ids)
    requires forall q <- ids :: exists a <- admissions :: a.call == q
    ensures |ids| <= |admissions|
  {
    IdsAsSet(ids);
    var callers := set a | a in admissions :: a.call;
    CallersAreFew(admissions);
    var asked := AsSet(ids);
    forall q | q in asked ensures q in callers {
      var a :| a in admissions && a.call == q;
    }
    SubsetSize(asked, callers);
  }

  function AsSet(ids: seq<Id>): set<Id> {
    set q | q in ids
  }

  lemma {:induction false} IdsAsSet(ids: seq<Id>)
    requires NoDuplicates(ids)
    ensures |AsSet(ids)| == |ids|
  {
    if ids == [] {
      assert AsSet(ids) == {};
    } else {
      var rest, last := ids[..|ids| - 1], ids[|ids| - 1];
      IdsAsSet(rest);
      assert ids == rest + [last] && last !in rest;
      assert AsSet(ids) == AsSet(rest) + {last};
    }
  }

  lemma {:induction false} CallersAreFew(admissions: seq<Admission>)
    ensures |set a | a in admissions :: a.call| <= |admissions|
  {
    if admissions != [] {
      var rest, last := admissions[..|admissions| - 1], admissions[|admissions| - 1];
      CallersAreFew(rest);
      assert admissions == rest + [last];
      assert (set a | a in admissions :: a.call) == (set a | a in rest :: a.call) + {last.call};
    }
  }

  lemma {:induction false} SubsetSize(a: set<Id>, b: set<Id>)
    requires a <= b
    ensures |a| <= |b|
  {
    if a != {} {
      var q :| q in a;
      SubsetSize(a - {q}, b - {q});
    }
  }

  lemma {:induction false} FilteredTimes(admissions: seq<Admission>, key: string, x: Time, window: int)
    ensures |Filter(admissions, AdmittedIn(key, x, window))|
         == |Filter(Times(Filter(admissions, OfKey(key))), RateLimiter.HalfOpenAbove(x, window))|
  {
    if admissions != [] {
      var rest, a := admissions[..|admissions| - 1], admissions[|admissions| - 1];
      assert admissions == rest + [a];
      FilteredTimes(rest, key, x, window);
      FilteredTimesStep(rest, a, key, x, window);
    }
  }

  lemma FilteredTimesStep(rest: seq<Admission>, a: Admission, key: string, x: Time, window: int)
    requires |Filter(rest, AdmittedIn(key, x, window))|
          == |Filter(Times(Filter(rest, OfKey(key))), RateLimiter.HalfOpenAbove(x, window))|
    ensures |Filter(rest + [a], AdmittedIn(key, x, window))|
         == |Filter(Times(Filter(rest + [a], OfKey(key))), RateLimiter.HalfOpenAbove(x, window))|
  {
    FilterSnoc(rest, a, AdmittedIn(key, x, window));
    FilterSnoc(rest, a, OfKey(key));
    var kept := Filter(rest, OfKey(key));
    TimesSnoc(kept, a);
    FilterSnoc(Times(kept), a.at, RateLimiter.HalfOpenAbove(x, window));
    assert kept + [] == kept;
  }

  lemma {:induction false} FilterKeepsDistinct(ids: seq<Id>, keep: Id -> bool)
    requires NoDuplicates(ids)
    ensures NoDuplicates(Filter(ids, keep))
  {
    if ids != [] {
      var rest, last := ids[..|ids| - 1], ids[|ids| - 1];
      assert ids == rest + [last];
      FilterKeepsDistinct(rest, keep);
      FilterSnoc(rest, last, keep);
      assert last !in rest;
    }
  }

  /** In no half-open interval one window long are more than `limit` signatures under one grant admitted,
      whatever the interleaving: among the calls that wrote an audit row, and so among those that returned
      a signature. */
  lemma SignaturesAreRateLimited(c: Config, steps: seq<Step>, key: string, x: Time)
    requires c.limit > 0 && c.window > 0 && Run(c, steps).Some?
    ensures var s := Run(c, steps).value;
            |Filter(s.signers, SignedIn(s, key, x, c.window))| <= c.limit
  {
    RunAudits(c, steps);
    RunIsPaced(c, steps, key);
    var s := Run(c, steps).value;
    var ids := Filter(s.signers, SignedIn(s, key, x, c.window));
    var admitted := Filter(s.admissions, AdmittedIn(key, x, c.window));
    FilterKeepsDistinct(s.signers, SignedIn(s, key, x, c.window));
    forall q <- ids ensures exists a <- admitted :: a.call == q {
      assert Admission(q, key, s.calls[q].at) in admitted;
    }
    NoMoreThanAdmissions(ids, admitted);
    FilteredTimes(s.admissions, key, x, c.window);
    RateLimiter.SlidingWindow(c.limit, c.window, s.rated, key, x);
  }
}
