/** The enrollment gate over whole runs of handlers. */
module EnrollmentRuns {
  import opened Wrappers
  import opened Enrollment

  datatype Event =
    | Boot(id: Id)
    | Mint(caller: Id, name: string, ev: Evidence, now: Time, id: Id)
    | Begin(caller: Id, ev: Evidence, now: Time)
    | Finish(caller: Id, name: string, attested: bool, taken: bool, now: Time, id: Id)
    | Challenge(caller: Id, now: Time)
    | RevokeToken(caller: Id, id: Id)
    | RevokeCredential(caller: Id, id: Id)
    | Guarded(caller: Id, ev: Evidence, now: Time)
    | Recover(deleted: set<Id>)

  /** History beside the rows: token ids ever used, those created without a factor, how many mints have
      succeeded with no factor proven, and for each token the registrations it has begun and finished and
      the assertions it has been challenged to and has passed. */
  datatype State = State(rows: Rows, used: set<Id>, factorless: set<Id>, unproven: nat,
                         begun: multiset<Id>, finished: multiset<Id>,
                         challenged: multiset<Id>, asserted: multiset<Id>)

  const INIT := State(FRESH_INSTALL, {}, {}, 0, multiset{}, multiset{}, multiset{}, multiset{})

  /** New rows get new ids. */
  predicate Enabled(s: State, e: Event) {
    match e
    case Boot(id) => id !in s.used
    case Mint(_, _, _, _, id) => id !in s.used
    case Finish(_, _, _, _, _, id) => id !in s.rows.credentials
    case _ => true
  }

  function Answer(s: State, e: Event): (Rows, Response) {
    match e
    case Boot(id) => (AfterBootstrap(s.rows, id), Done)
    case Mint(caller, name, ev, now, id) => AfterCreateToken(s.rows, caller, name, ev, now, id)
    case Begin(caller, ev, now) => AfterRegisterBegin(s.rows, caller, ev, now)
    case Finish(caller, name, attested, taken, now, id) => AfterRegisterFinish(s.rows, caller, name, attested, taken, now, id)
    case Challenge(caller, now) => AfterAssertBegin(s.rows, caller, now)
    case RevokeToken(caller, t) => AfterRevokeToken(s.rows, caller, t)
    case RevokeCredential(caller, c) => AfterRevokeCredential(s.rows, caller, c)
    case Guarded(caller, ev, now) => AfterStrongFactorRoute(s.rows, caller, ev, now)
    case Recover(deleted) => (AfterRecovery(s.rows, deleted), Done)
  }

  /** A mint that succeeds for a caller whose factor the gate did not check. */
  predicate MintsUnproven(s: State, e: Event) {
    e.Mint? && !GateClosed(s.rows) && Answer(s, e).1 == Done
  }

  /** An event whose handler checks the factor presented; the gate of a mint does so when closed. */
  predicate ChecksFactor(s: State, e: Event) {
    && (e.Mint? || e.Begin? || e.Guarded?) && Authenticated(s.rows, e.caller)
    && (e.Mint? ==> GateClosed(s.rows))
    && (e.Begin? ==> s.rows.tokens[e.caller].totp || HasActiveCredential(s.rows, e.caller))
  }

  /** The factor checked is an assertion, and it passes. */
  predicate PassesAssertion(s: State, e: Event) {
    ChecksFactor(s, e) && e.ev.assertion.Some? && AfterVerify(s.rows, e.caller, e.ev, e.now).1
  }

  function After(s: State, e: Event): State {
    var rows := Answer(s, e).0;
    State(rows,
          s.used + (if e.Boot? || e.Mint? then {e.id} else {}),
          s.factorless + (if e.Boot? && e.id in rows.tokens then {e.id} else {}),
          s.unproven + (if MintsUnproven(s, e) then 1 else 0),
          s.begun + (if e.Begin? && Answer(s, e).1 == Done then multiset{e.caller} else multiset{}),
          s.finished + (if e.Finish? && Answer(s, e).1 == Done then multiset{e.caller} else multiset{}),
          s.challenged + (if e.Challenge? && Answer(s, e).1 == Done then multiset{e.caller} else multiset{}),
          s.asserted + (if PassesAssertion(s, e) then multiset{e.caller} else multiset{}))
  }

  function Run(events: seq<Event>): Option<State> {
    if events == [] then Some(INIT)
    else
      var before, e := Run(events[..|events| - 1]), events[|events| - 1];
      if before.Some? && Enabled(before.value, e) then Some(After(before.value, e)) else None
  }

  // ---------- The invariant ----------

  /** Nothing is enrolled that the latch does not record. */
  predicate Latched(r: Rows) {
    GateClosed(r) ==> r.latch
  }

  /** A token created without a factor has no secret, no passkey and no pending challenge of either kind. */
  predicate Factorless(r: Rows, t: Id) {
    && (t in r.tokens ==> !r.tokens[t].totp)
    && (forall c <- r.credentials :: r.credentials[c].owner != t)
    && (forall k <- r.challenges :: k.0 != t)
  }

  ghost predicate Owned(r: Rows, used: set<Id>) {
    && r.tokens.Keys <= used
    && (forall c <- r.credentials :: r.credentials[c].owner in used)
    && (forall k <- r.challenges :: k.0 in used)
  }

  ghost predicate Inv(s: State) {
    && Latched(s.rows) && Owned(s.rows, s.used) && s.factorless <= s.used
    && (forall t <- s.factorless :: Factorless(s.rows, t))
    && s.unproven <= (if s.rows.latch then 1 else 0)
  }

  lemma VerifyKeeps(r: Rows, t: Id, ev: Evidence, now: Time)
    requires t in r.tokens
    ensures var s := AfterVerify(r, t, ev, now).0;
            && s.tokens == r.tokens && s.latch == r.latch && s.credentials.Keys == r.credentials.Keys
            && (forall c <- r.credentials :: s.credentials[c].owner == r.credentials[c].owner)
            && (forall k <- s.challenges :: k in r.challenges)
            && (Factorless(r, t) ==> !AfterVerify(r, t, ev, now).1)
  {
  }

  /** What a handler leaves of the rows: the latch is never reset, nothing is enrolled without it, and
      nothing is given to a token that had nothing. */
  ghost predicate Proper(r: Rows, s: Rows, minted: set<Id>) {
    && (r.latch ==> s.latch)
    && (Latched(r) ==> Latched(s))
    && s.tokens.Keys <= r.tokens.Keys + minted
    && (forall t | t !in minted && Factorless(r, t) :: Factorless(s, t))
    && (forall c <- s.credentials :: s.credentials[c].owner in r.tokens.Keys || (c in r.credentials && r.credentials[c].owner == s.credentials[c].owner))
    && (forall k <- s.challenges :: k.0 in r.tokens.Keys || k in r.challenges)
  }

  lemma MintIsProper(r: Rows, caller: Id, name: string, ev: Evidence, now: Time, id: Id)
    requires id !in r.tokens
    ensures Proper(r, AfterCreateToken(r, caller, name, ev, now, id).0, {id})
  {
    if caller in r.tokens {
      VerifyKeeps(r, caller, ev, now);
    }
  }

  lemma BeginIsProper(r: Rows, caller: Id, ev: Evidence, now: Time)
    ensures Proper(r, AfterRegisterBegin(r, caller, ev, now).0, {})
  {
    if caller in r.tokens {
      VerifyKeeps(r, caller, ev, now);
    }
  }

  lemma FinishIsProper(r: Rows, caller: Id, name: string, attested: bool, taken: bool, now: Time, id: Id)
    requires id !in r.credentials
    ensures Proper(r, AfterRegisterFinish(r, caller, name, attested, taken, now, id).0, {})
  {
  }

  lemma OtherIsProper(s: State, e: Event)
    requires Enabled(s, e) && !(e.Mint? || e.Begin? || e.Finish?)
    ensures Proper(s.rows, Answer(s, e).0, if e.Boot? then {e.id} else {})
  {
    if e.Guarded? && e.caller in s.rows.tokens {
      VerifyKeeps(s.rows, e.caller, e.ev, e.now);
    }
  }

  lemma NewTokenHasNothing(r: Rows, used: set<Id>, t: Id)
    requires Owned(r, used) && t !in used
    ensures Factorless(r, t)
  {
  }

  lemma StepIsProper(s: State, e: Event)
    requires Enabled(s, e) && s.rows.tokens.Keys <= s.used
    ensures Proper(s.rows, Answer(s, e).0, if e.Boot? || e.Mint? then {e.id} else {})
  {
    match e
    case Mint(caller, name, ev, now, id) => MintIsProper(s.rows, caller, name, ev, now, id);
    case Begin(caller, ev, now) => BeginIsProper(s.rows, caller, ev, now);
    case Finish(caller, name, attested, taken, now, id) =>
      FinishIsProper(s.rows, caller, name, attested, taken, now, id);
    case _ => OtherIsProper(s, e);
  }

  lemma BootGivesNothing(s: State, id: Id)
    requires Owned(s.rows, s.used) && id !in s.used
    ensures Factorless(AfterBootstrap(s.rows, id), id)
  {
    NewTokenHasNothing(s.rows, s.used, id);
  }

  lemma MintLatches(s: State, e: Event)
    requires MintsUnproven(s, e) && Enabled(s, e)
    ensures !s.rows.latch && Answer(s, e).0.latch
  {
  }

  lemma StepKeeps(s: State, e: Event)
    requires Inv(s) && Enabled(s, e)
    ensures Inv(After(s, e)) && (s.rows.latch ==> After(s, e).rows.latch)
  {
    var r, r' := s.rows, Answer(s, e).0;
    StepIsProper(s, e);
    if MintsUnproven(s, e) {
      MintLatches(s, e);
    }
    if e.Boot? {
      BootGivesNothing(s, e.id);
    }
    StepOwned(r, r', s.used, if e.Boot? || e.Mint? then {e.id} else {});
  }

  lemma StepOwned(r: Rows, r': Rows, used: set<Id>, minted: set<Id>)
    requires Owned(r, used) && Proper(r, r', minted)
    ensures Owned(r', used + minted)
  {
  }

  lemma {:induction false} RunInvariant(events: seq<Event>)
    ensures Run(events).Some? ==> Inv(Run(events).value)
  {
    if events != [] {
      RunInvariant(events[..|events| - 1]);
      if Run(events).Some? {
        StepKeeps(Run(events[..|events| - 1]).value, events[|events| - 1]);
      }
    }
  }

  // ---------- What each handler takes and does ----------

  ghost predicate Active(r: Rows, t: Id) {
    t in r.tokens && !r.tokens[t].revoked
  }

  ghost predicate OwnsLivePasskey(r: Rows, t: Id) {
    exists c <- r.credentials :: r.credentials[c].owner == t && !r.credentials[c].revoked
  }

  /** No factor was ever enrolled, as far as rows and latch tell. */
  ghost predicate NeverEnrolled(r: Rows) {
    !r.latch && (forall t <- r.tokens :: !r.tokens[t].totp) && r.credentials.Keys == {}
  }

  ghost predicate Succeeds(r: Rows, e: Event) {
    match e
    case Boot(_) => true
    case Mint(caller, name, ev, now, _) =>
      Active(r, caller) && (NeverEnrolled(r) || Proves(r, caller, ev, now)) && 0 < |name| <= 128
    case Begin(caller, ev, now) => Active(r, caller) && Proves(r, caller, ev, now)
    case Finish(caller, name, attested, taken, now, _) =>
      && Active(r, caller) && (caller, Registration) in r.challenges && now < r.challenges[(caller, Registration)]
      && attested && |name| <= 128 && !taken
    case Challenge(caller, _) => Active(r, caller) && OwnsLivePasskey(r, caller)
    case RevokeToken(caller, t) => Active(r, caller) && Active(r, t)
    case RevokeCredential(caller, c) =>
      Active(r, caller) && c in r.credentials && r.credentials[c].owner == caller && !r.credentials[c].revoked
    case Guarded(caller, ev, now) => Active(r, caller) && Proves(r, caller, ev, now)
    case Recover(_) => true
  }

  /** In every run a handler succeeds just when its caller is active and has what it asks for: a factor of its
      own where one is checked, which for a mint is whenever one was ever enrolled. */
  lemma SucceedsIff(events: seq<Event>, e: Event)
    requires Run(events).Some?
    requires e.Boot? || e.Mint? ==> e.id !in Run(events).value.used
    requires e.Finish? ==> e.id !in Run(events).value.rows.credentials
    ensures Enabled(Run(events).value, e)
    ensures Answer(Run(events).value, e).1 == Done <==> Succeeds(Run(events).value.rows, e)
  {
    var s := Run(events).value;
    if (e.Mint? || e.Begin? || e.Guarded?) && e.caller in s.rows.tokens {
      CheckedSucceedsIff(s, e);
    } else {
      OtherSucceedsIff(s, e);
    }
  }

  lemma CheckedSucceedsIff(s: State, e: Event)
    requires (e.Mint? || e.Begin? || e.Guarded?) && e.caller in s.rows.tokens
    ensures Answer(s, e).1 == Done <==> Succeeds(s.rows, e)
  {
    VerifyMeans(s.rows, e.caller, e.ev, e.now);
    assert GateClosed(s.rows) <==> !NeverEnrolled(s.rows) by {
      assert s.rows.credentials == map[] <==> s.rows.credentials.Keys == {};
    }
    if e.Begin? && Proves(s.rows, e.caller, e.ev, e.now) && e.ev.assertion.Some? {
      var c := e.ev.assertion.value.verifies.value;
      assert s.rows.credentials[c] == Credential(e.caller, false);
    }
  }

  lemma OtherSucceedsIff(s: State, e: Event)
    requires !((e.Mint? || e.Begin? || e.Guarded?) && e.caller in s.rows.tokens)
    ensures Answer(s, e).1 == Done <==> Succeeds(s.rows, e)
  {
    if e.Challenge? {
      assert forall c <- s.rows.credentials ::
          s.rows.credentials[c] == Credential(e.caller, false)
          <==> s.rows.credentials[c].owner == e.caller && !s.rows.credentials[c].revoked;
    }
  }

  /** The whole effect of a handler on the rows. */
  ghost predicate Does(r: Rows, e: Event, r': Rows) {
    var done := Succeeds(r, e);
    match e
    case Boot(id) =>
      && r'.credentials == r.credentials && r'.challenges == r.challenges && r'.latch == r.latch
      && r'.tokens == if exists t :: Active(r, t) then r.tokens else r.tokens[id := Token(false, false)]
    case Mint(caller, _, ev, now, id) =>
      && r'.tokens == (if done then r.tokens[id := Token(true, false)] else r.tokens)
      && r'.latch == (r.latch || done)
      && if Active(r, caller) && !NeverEnrolled(r) then Spends(r, caller, ev, now, r'.credentials, r'.challenges)
         else r'.credentials == r.credentials && r'.challenges == r.challenges
    case Begin(caller, ev, now) =>
      && r'.tokens == r.tokens && r'.latch == r.latch
      && exists left :: Checked(r, e, r'.credentials, left)
                        && r'.challenges == if done then left[(caller, Registration) := now + 300_000_000_000] else left
    case Finish(caller, _, _, _, now, id) =>
      && r'.tokens == r.tokens && r'.latch == (r.latch || done)
      && r'.credentials == (if done then r.credentials[id := Credential(caller, false)] else r.credentials)
      && r'.challenges == if Active(r, caller) && (caller, Registration) in r.challenges
                             && now < r.challenges[(caller, Registration)]
                          then r.challenges - {(caller, Registration)} else r.challenges
    case Challenge(caller, now) =>
      && r'.tokens == r.tokens && r'.credentials == r.credentials && r'.latch == r.latch
      && r'.challenges == if done then r.challenges[(caller, Assertion) := now + 300_000_000_000] else r.challenges
    case RevokeToken(_, t) =>
      && r'.credentials == r.credentials && r'.challenges == r.challenges && r'.latch == r.latch
      && r'.tokens == if done then r.tokens[t := Token(r.tokens[t].totp, true)] else r.tokens
    case RevokeCredential(caller, c) =>
      && r'.tokens == r.tokens && r'.challenges == r.challenges && r'.latch == r.latch
      && r'.credentials == if done then r.credentials[c := Credential(caller, true)] else r.credentials
    case Guarded(caller, ev, now) =>
      && r'.tokens == r.tokens && r'.latch == r.latch
      && if Active(r, caller) then Spends(r, caller, ev, now, r'.credentials, r'.challenges)
         else r'.credentials == r.credentials && r'.challenges == r.challenges
    case Recover(deleted) =>
      && r'.tokens.Keys == r.tokens.Keys - deleted && (forall t <- r'.tokens :: r'.tokens[t] == Token(false, r.tokens[t].revoked))
      && r'.credentials.Keys == {} && r'.latch == r.latch
      && (forall k <- r.challenges :: k.0 !in deleted ==> k in r'.challenges && r'.challenges[k] == r.challenges[k])
      && (forall k <- r'.challenges :: k in r.challenges && k.0 !in deleted)
  }

  ghost predicate Checked(r: Rows, e: Event, credentials: map<Id, Credential>, challenges: Challenges)
    requires e.Begin?
  {
    if Checks(r, e) then Spends(r, e.caller, e.ev, e.now, credentials, challenges)
    else credentials == r.credentials && challenges == r.challenges
  }

  /** A registration is begun by checking a factor only if the caller has one of the kind presented. */
  ghost predicate Checks(r: Rows, e: Event)
    requires e.Begin?
  {
    && Active(r, e.caller) && (r.tokens[e.caller].totp || OwnsLivePasskey(r, e.caller))
    && (e.ev.assertion.Some? || r.tokens[e.caller].totp)
  }

  lemma LivePasskeyIff(r: Rows, t: Id)
    ensures OwnsLivePasskey(r, t) <==> HasActiveCredential(r, t)
  {
    forall c <- r.credentials
      ensures r.credentials[c] == Credential(t, false) <==> r.credentials[c].owner == t && !r.credentials[c].revoked
    {
    }
  }

  lemma MintDoes(s: State, e: Event)
    requires e.Mint?
    ensures Does(s.rows, e, Answer(s, e).0)
  {
    if e.caller in s.rows.tokens {
      VerifyMeans(s.rows, e.caller, e.ev, e.now);
      CheckedSucceedsIff(s, e);
    }
    assert s.rows.credentials == map[] <==> s.rows.credentials.Keys == {};
  }

  lemma BeginDoes(s: State, e: Event)
    requires e.Begin?
    ensures Does(s.rows, e, Answer(s, e).0)
  {
    LivePasskeyIff(s.rows, e.caller);
    if e.caller in s.rows.tokens {
      VerifyMeans(s.rows, e.caller, e.ev, e.now);
      CheckedSucceedsIff(s, e);
    }
    var left := if Checks(s.rows, e) then AfterVerify(s.rows, e.caller, e.ev, e.now).0.challenges else s.rows.challenges;
    assert Checked(s.rows, e, Answer(s, e).0.credentials, left);
    assert Answer(s, e).0.challenges
        == if Succeeds(s.rows, e) then left[(e.caller, Registration) := e.now + 300_000_000_000] else left;
  }

  lemma GuardedDoes(s: State, e: Event)
    requires e.Guarded?
    ensures Does(s.rows, e, Answer(s, e).0)
  {
    if e.caller in s.rows.tokens {
      VerifyMeans(s.rows, e.caller, e.ev, e.now);
    }
  }

  lemma UncheckedDoes(s: State, e: Event)
    requires !e.Mint? && !e.Begin? && !e.Guarded?
    ensures Does(s.rows, e, Answer(s, e).0)
  {
    if e.Challenge? {
      LivePasskeyIff(s.rows, e.caller);
    }
    if t :| t in s.rows.tokens && !s.rows.tokens[t].revoked {
      assert Active(s.rows, t);
    }
  }

  /** In every run a handler changes just what it promises: what a check of a factor spends, and on success
      its own row, challenge or latch. The history records the token that a boot creates with no factor. */
  lemma HandlersDoAsPromised(events: seq<Event>, e: Event)
    requires Run(events).Some? && Enabled(Run(events).value, e)
    ensures Does(Run(events).value.rows, e, After(Run(events).value, e).rows)
    ensures e.Boot? && (forall t :: !Active(Run(events).value.rows, t)) ==> e.id in After(Run(events).value, e).factorless
  {
    match e
    case Mint(_, _, _, _, _) => MintDoes(Run(events).value, e);
    case Begin(_, _, _) => BeginDoes(Run(events).value, e);
    case Guarded(_, _, _) => GuardedDoes(Run(events).value, e);
    case _ => UncheckedDoes(Run(events).value, e);
  }

  // ---------- What every run guarantees ----------

  /** From a fresh install, whatever the handlers and however often factors are cleared, at most one mint
      ever succeeds without a proven factor; and the gate is closed exactly when the latch is set, so
      clearing factors never reopens it. */
  lemma AtMostOneUnprovenMint(events: seq<Event>)
    requires Run(events).Some?
    ensures Run(events).value.unproven <= 1
    ensures GateClosed(Run(events).value.rows) <==> Run(events).value.rows.latch
  {
    RunInvariant(events);
  }

  lemma {:induction false} LatchNeverGoesBack(events: seq<Event>, more: seq<Event>)
    requires Run(events + more).Some?
    ensures Run(events).Some?
    ensures Run(events).value.rows.latch ==> Run(events + more).value.rows.latch
    ensures Run(events).value.rows.latch ==> Run(events + more).value.unproven == Run(events).value.unproven
    ensures Run(events).value.factorless <= Run(events + more).value.factorless
  {
    if more == [] {
      assert events + more == events;
    } else {
      var rest, e := more[..|more| - 1], more[|more| - 1];
      assert (events + more)[..|events + more| - 1] == events + rest;
      LatchNeverGoesBack(events, rest);
      RunInvariant(events + rest);
      StepKeeps(Run(events + rest).value, e);
    }
  }

  /** A token created with no factor never comes to own a passkey or a pending challenge, is refused when it
      starts a registration, and passes no strong-factor gate, at any later point of any run. */
  lemma FactorlessTokensStayPowerless(events: seq<Event>, more: seq<Event>, t: Id, ev: Evidence, now: Time)
    requires Run(events + more).Some? && (Run(events).Some? ==> t in Run(events).value.factorless)
    ensures var s := Run(events + more).value;
            && Factorless(s.rows, t)
            && Answer(s, Begin(t, ev, now)).1 in {Unauthorized, Forbidden}
            && Answer(s, Guarded(t, ev, now)).1 == Unauthorized
            && (forall name, attested, taken, id :: Answer(s, Finish(t, name, attested, taken, now, id)).1 == Unauthorized)
  {
    LatchNeverGoesBack(events, more);
    RunInvariant(events + more);
    var s := Run(events + more).value;
    if t in s.rows.tokens {
      VerifyKeeps(s.rows, t, ev, now);
    }
  }

  /** Nothing reachable over the API lowers what the gate counts: in every run enrolled tokens and passkeys,
      revoked ones included, are never unenrolled or deleted, and revocations stay. */
  lemma EverEnrolledNeverDrops(events: seq<Event>, e: Event)
    requires Run(events).Some? && Enabled(Run(events).value, e) && !e.Recover?
    ensures Retains(Run(events).value.rows, After(Run(events).value, e).rows)
  {
    RunInvariant(events);
    StepRetains(Run(events).value, e);
  }

  predicate Retains(r: Rows, s: Rows) {
    && (forall t <- r.tokens :: t in s.tokens && s.tokens[t].totp == r.tokens[t].totp
                                && (r.tokens[t].revoked ==> s.tokens[t].revoked))
    && (forall c <- r.credentials :: c in s.credentials && s.credentials[c].owner == r.credentials[c].owner
                                     && (r.credentials[c].revoked ==> s.credentials[c].revoked))
  }

  lemma StepRetains(s: State, e: Event)
    requires Enabled(s, e) && !e.Recover? && s.rows.tokens.Keys <= s.used
    ensures Retains(s.rows, Answer(s, e).0)
  {
    if (e.Mint? || e.Begin? || e.Guarded?) && e.caller in s.rows.tokens {
      VerifyRetains(s.rows, e.caller, e.ev, e.now);
    }
  }

  lemma VerifyRetains(r: Rows, t: Id, ev: Evidence, now: Time)
    requires t in r.tokens
    ensures Retains(r, AfterVerify(r, t, ev, now).0)
  {
  }

  // ---------- Challenges ----------

  function Outstanding(r: Rows, t: Id): nat {
    if (t, Registration) in r.challenges then 1 else 0
  }

  /** A pending registration has been begun and not yet spent. */
  ghost predicate Spent(s: State, t: Id) {
    s.finished[t] + Outstanding(s.rows, t) <= s.begun[t]
  }

  lemma VerifyLeavesRegistrations(r: Rows, caller: Id, ev: Evidence, now: Time, t: Id)
    requires caller in r.tokens
    ensures Outstanding(AfterVerify(r, caller, ev, now).0, t) == Outstanding(r, t)
  {
  }

  lemma StepSpends(s: State, e: Event, t: Id)
    requires Enabled(s, e) && Spent(s, t)
    ensures Spent(After(s, e), t)
  {
    if (e.Mint? || e.Begin? || e.Guarded?) && e.caller in s.rows.tokens {
      VerifyLeavesRegistrations(s.rows, e.caller, e.ev, e.now, t);
    }
  }

  /** Every passkey costs its own proof of a factor: in every run a token has finished no more registrations
      than it has begun, each beginning past the factor gate, with those still pending counted in. */
  lemma {:induction false} EachPasskeyCostsAProof(events: seq<Event>, t: Id)
    requires Run(events).Some?
    ensures var s := Run(events).value; s.finished[t] + Outstanding(s.rows, t) <= s.begun[t]
  {
    if events != [] {
      EachPasskeyCostsAProof(events[..|events| - 1], t);
      StepSpends(Run(events[..|events| - 1]).value, events[|events| - 1], t);
    }
  }

  function Challenged(r: Rows, t: Id): nat {
    if (t, Assertion) in r.challenges then 1 else 0
  }

  ghost predicate Used(s: State, t: Id) {
    s.asserted[t] + Challenged(s.rows, t) <= s.challenged[t]
  }

  lemma VerifyUsesChallenge(r: Rows, caller: Id, ev: Evidence, now: Time, t: Id)
    requires caller in r.tokens
    ensures var v := AfterVerify(r, caller, ev, now);
            Challenged(v.0, t) + (if t == caller && ev.assertion.Some? && v.1 then 1 else 0) <= Challenged(r, t)
  {
  }

  lemma StepUses(s: State, e: Event, t: Id)
    requires Enabled(s, e) && Used(s, t)
    ensures Used(After(s, e), t)
  {
    if (e.Mint? || e.Begin? || e.Guarded?) && e.caller in s.rows.tokens {
      CheckingStepUses(s, e, t);
    }
  }

  lemma CheckingStepUses(s: State, e: Event, t: Id)
    requires Enabled(s, e) && Used(s, t) && (e.Mint? || e.Begin? || e.Guarded?) && e.caller in s.rows.tokens
    ensures Used(After(s, e), t)
  {
    VerifyUsesChallenge(s.rows, e.caller, e.ev, e.now, t);
  }

  /** In every run a token has passed no more assertions than it was challenged to, the pending challenge
      counted in; and each one passed had a pending challenge, which it used up, and the caller's own live
      passkey. */
  lemma {:induction false} AssertionsAreSingleUse(events: seq<Event>, t: Id)
    requires Run(events).Some?
    ensures var s := Run(events).value; s.asserted[t] + Challenged(s.rows, t) <= s.challenged[t]
    ensures forall e | Enabled(Run(events).value, e) && PassesAssertion(Run(events).value, e) ::
              AssertsOnce(Run(events).value, e)
  {
    if events != [] {
      AssertionsAreSingleUse(events[..|events| - 1], t);
      StepUses(Run(events[..|events| - 1]).value, events[|events| - 1], t);
    }
    forall e | Enabled(Run(events).value, e) && PassesAssertion(Run(events).value, e)
      ensures AssertsOnce(Run(events).value, e)
    {
      PassingAsserts(Run(events).value, e);
    }
  }

  predicate AssertsOnce(s: State, e: Event)
    requires PassesAssertion(s, e)
  {
    var h := e.ev.assertion.value;
    && Pending(s.rows, e.caller, Assertion, e.now) && (e.caller, Assertion) !in After(s, e).rows.challenges
    && h.verifies.Some? && h.verifies.value in s.rows.credentials
    && s.rows.credentials[h.verifies.value] == Credential(e.caller, false)
  }

  lemma PassingAsserts(s: State, e: Event)
    requires PassesAssertion(s, e)
    ensures AssertsOnce(s, e)
  {
  }
}
