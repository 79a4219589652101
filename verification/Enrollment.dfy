/** Reviewer tokens, their second factors and the gates in front of enrolling more: whole handlers over the
    stored rows. Checking a code or a signature is an oracle carried by the request. */
module Enrollment {
  import opened Wrappers

  type Id = nat
  type Time = int

  /** Five minutes, in nanoseconds. */
  const CHALLENGE_TTL: Time := 5 * 60 * 1_000_000_000
  const MAX_LABEL := 128

  /** `totp` tells whether a secret is stored. */
  datatype Token = Token(totp: bool, revoked: bool)

  datatype Credential = Credential(owner: Id, revoked: bool)

  datatype Purpose = Registration | Assertion

  /** One pending challenge for each token and purpose, with its expiry. */
  type Challenges = map<(Id, Purpose), Time>

  datatype Rows = Rows(tokens: map<Id, Token>, credentials: map<Id, Credential>, challenges: Challenges, latch: bool)

  const FRESH_INSTALL := Rows(map[], map[], map[], false)

  /** An assertion header: whether it decodes, the credential its signature verifies against if any, and
      whether the counter suggests a clone. */
  datatype AssertionHeader = AssertionHeader(decodes: bool, verifies: Option<Id>, clone: bool)

  /** The factor a request presents; a code is valid or not against the caller's stored secret. */
  datatype Evidence = Evidence(assertion: Option<AssertionHeader>, code: Option<bool>)

  datatype Response = Done | Unauthorized | Forbidden | BadRequest | Conflict

  // ---------- What the statements read and write ----------

  predicate Authenticated(r: Rows, t: Id) {
    t in r.tokens && !r.tokens[t].revoked
  }

  predicate HasActiveCredential(r: Rows, t: Id) {
    exists c <- r.credentials :: r.credentials[c] == Credential(t, false)
  }

  /** Any token ever enrolled with a secret or any passkey, revoked ones included, or the latch. */
  predicate GateClosed(r: Rows) {
    r.latch || (exists t <- r.tokens :: r.tokens[t].totp) || r.credentials != map[]
  }

  predicate Pending(r: Rows, t: Id, purpose: Purpose, now: Time) {
    (t, purpose) in r.challenges && r.challenges[(t, purpose)] > now
  }

  function Consumed(r: Rows, t: Id, purpose: Purpose): Rows {
    r.(challenges := r.challenges - {(t, purpose)})
  }

  /** Rows after the check of a second factor, and whether it passed. An assertion header wins over a code;
      a consumed challenge stays consumed whatever comes of it. */
  function AfterVerify(r: Rows, t: Id, ev: Evidence, now: Time): (Rows, bool)
    requires t in r.tokens
  {
    match ev.assertion
    case None => (r, ev.code == Some(true) && r.tokens[t].totp)
    case Some(h) =>
      if !h.decodes || !Pending(r, t, Assertion, now) then (r, false)
      else
        var s := Consumed(r, t, Assertion);
        if h.verifies.None? || h.verifies.value !in s.credentials || s.credentials[h.verifies.value] != Credential(t, false)
        then (s, false)
        else if h.clone then (s.(credentials := s.credentials[h.verifies.value := Credential(t, true)]), false)
        else (s, true)
  }

  /** What it takes to prove a factor of one's own: with no assertion presented, a valid code and a stored
      secret; with one, a pending challenge and the caller's own live passkey, with no sign of a clone. */
  predicate Proves(r: Rows, t: Id, ev: Evidence, now: Time) {
    && t in r.tokens
    && match ev.assertion
       case None => r.tokens[t].totp && ev.code == Some(true)
       case Some(h) =>
         && Answers(r, t, ev, now) && !h.clone && h.verifies.Some? && h.verifies.value in r.credentials
         && r.credentials[h.verifies.value].owner == t && !r.credentials[h.verifies.value].revoked
  }

  /** The assertion presented meets the caller's challenge in time. */
  predicate Answers(r: Rows, t: Id, ev: Evidence, now: Time) {
    && ev.assertion.Some? && ev.assertion.value.decodes
    && (t, Assertion) in r.challenges && now < r.challenges[(t, Assertion)]
  }

  /** What a check of a factor leaves, passed or not: an answered challenge is gone, a passkey of the caller
      that shows a clone is revoked, and nothing else changes. */
  ghost predicate Spends(r: Rows, t: Id, ev: Evidence, now: Time, credentials: map<Id, Credential>, challenges: Challenges) {
    && challenges == (if Answers(r, t, ev, now) then r.challenges - {(t, Assertion)} else r.challenges)
    && credentials.Keys == r.credentials.Keys
    && forall c <- r.credentials ::
         && credentials[c].owner == r.credentials[c].owner
         && credentials[c].revoked == (r.credentials[c].revoked
              || (Answers(r, t, ev, now) && ev.assertion.value.verifies == Some(c) && ev.assertion.value.clone
                  && r.credentials[c].owner == t))
  }

  /** The check passes exactly on a proof, and spends what it must. */
  lemma VerifyMeans(r: Rows, t: Id, ev: Evidence, now: Time)
    requires t in r.tokens
    ensures var v := AfterVerify(r, t, ev, now);
            && (v.1 <==> Proves(r, t, ev, now))
            && v.0.tokens == r.tokens && v.0.latch == r.latch
            && Spends(r, t, ev, now, v.0.credentials, v.0.challenges)
  {
  }

  // ---------- The handlers ----------

  class Server {
    var tokens: map<Id, Token>
    var credentials: map<Id, Credential>
    var challenges: Challenges
    var latch: bool

    ghost function Stored(): Rows
      reads this
    {
      Rows(tokens, credentials, challenges, latch)
    }

    constructor ()
      ensures Stored() == FRESH_INSTALL
    {
      tokens, credentials, challenges, latch := map[], map[], map[], false;
    }

    /** At boot: with no active token, the configured bootstrap token is created without a secret. */
    method Bootstrap(id: Id)
      requires id !in tokens
      modifies this
      ensures Stored() == AfterBootstrap(old(Stored()), id)
    {
      if exists t <- tokens :: !tokens[t].revoked {
        return;
      }
      tokens := tokens[id := Token(false, false)];
    }

    method VerifySecondFactor(t: Id, ev: Evidence, now: Time) returns (ok: bool)
      requires t in tokens
      modifies this
      ensures (Stored(), ok) == AfterVerify(old(Stored()), t, ev, now)
      ensures ok <==> Proves(old(Stored()), t, ev, now)
      ensures tokens == old(tokens) && latch == old(latch)
      ensures Spends(old(Stored()), t, ev, now, credentials, challenges)
    {
      VerifyMeans(Stored(), t, ev, now);
      if ev.assertion.Some? {
        ok := VerifyAssertion(t, ev.assertion.value, now);
        return;
      }
      if ev.code.None? {
        return false;
      }
      ok := tokens[t].totp && ev.code.value;
    }

    method VerifyAssertion(t: Id, h: AssertionHeader, now: Time) returns (ok: bool)
      requires t in tokens
      modifies this
      ensures (Stored(), ok) == AfterVerify(old(Stored()), t, Evidence(Some(h), None), now)
    {
      if !h.decodes {
        return false;
      }
      var found := ConsumeChallenge(t, Assertion, now);
      if !found || h.verifies.None? {
        return false;
      }
      var c := h.verifies.value;
      if c !in credentials || credentials[c].owner != t || credentials[c].revoked {
        return false;
      }
      if h.clone {
        credentials := credentials[c := credentials[c].(revoked := true)];
        return false;
      }
      ok := true;
    }

    method ConsumeChallenge(t: Id, purpose: Purpose, now: Time) returns (found: bool)
      modifies this`challenges
      ensures found == Pending(old(Stored()), t, purpose, now)
      ensures Stored() == if found then Consumed(old(Stored()), t, purpose) else old(Stored())
    {
      found := (t, purpose) in challenges && challenges[(t, purpose)] > now;
      if found {
        challenges := challenges - {(t, purpose)};
      }
    }

    /** The token inserted carries a secret, and the insert and the latch commit together. `name` is the
        label with blanks trimmed. */
    method CreateToken(caller: Id, name: string, ev: Evidence, now: Time, id: Id) returns (r: Response)
      requires id !in tokens
      modifies this
      ensures (Stored(), r) == AfterCreateToken(old(Stored()), caller, name, ev, now, id)
    {
      if caller !in tokens || tokens[caller].revoked {
        return Unauthorized;
      }
      var enrolledTokens := exists t <- tokens :: tokens[t].totp;
      var enrolledCredentials := credentials != map[];
      if latch || enrolledTokens || enrolledCredentials {
        var ok := VerifySecondFactor(caller, ev, now);
        if !ok {
          return Unauthorized;
        }
      }
      if name == "" || |name| > MAX_LABEL {
        return BadRequest;
      }
      tokens, latch := tokens[id := Token(true, false)], true;
      r := Done;
    }

    method RegisterBegin(caller: Id, ev: Evidence, now: Time) returns (r: Response)
      modifies this
      ensures (Stored(), r) == AfterRegisterBegin(old(Stored()), caller, ev, now)
    {
      if caller !in tokens || tokens[caller].revoked {
        return Unauthorized;
      }
      var hasTotp := tokens[caller].totp;
      var hasPasskey := exists c <- credentials :: credentials[c] == Credential(caller, false);
      if !hasTotp && !hasPasskey {
        return Forbidden;
      }
      if ev.assertion.None? && !hasTotp {
        return Unauthorized;
      }
      var ok := VerifySecondFactor(caller, ev, now);
      if !ok {
        return Unauthorized;
      }
      challenges := challenges[(caller, Registration) := now + CHALLENGE_TTL];
      r := Done;
    }

    /** `attested` is the verdict on the registration response, `taken` whether its key is registered already;
        an empty label falls back to a default. */
    method RegisterFinish(caller: Id, name: string, attested: bool, taken: bool, now: Time, id: Id) returns (r: Response)
      requires id !in credentials
      modifies this
      ensures (Stored(), r) == AfterRegisterFinish(old(Stored()), caller, name, attested, taken, now, id)
    {
      if caller !in tokens || tokens[caller].revoked {
        return Unauthorized;
      }
      var found := ConsumeChallenge(caller, Registration, now);
      if !found {
        return Unauthorized;
      }
      if !attested || |name| > MAX_LABEL {
        return BadRequest;
      }
      if taken {
        return Conflict;
      }
      credentials, latch := credentials[id := Credential(caller, false)], true;
      r := Done;
    }

    method AssertBegin(caller: Id, now: Time) returns (r: Response)
      modifies this
      ensures (Stored(), r) == AfterAssertBegin(old(Stored()), caller, now)
    {
      if caller !in tokens || tokens[caller].revoked {
        return Unauthorized;
      }
      if !exists c <- credentials :: credentials[c] == Credential(caller, false) {
        return Conflict;
      }
      challenges := challenges[(caller, Assertion) := now + CHALLENGE_TTL];
      r := Done;
    }

    /** Any active token may revoke any active token; the row and its secret stay. */
    method RevokeToken(caller: Id, t: Id) returns (r: Response)
      modifies this
      ensures (Stored(), r) == AfterRevokeToken(old(Stored()), caller, t)
    {
      if caller !in tokens || tokens[caller].revoked {
        return Unauthorized;
      }
      if t !in tokens || tokens[t].revoked {
        return Conflict;
      }
      tokens := tokens[t := tokens[t].(revoked := true)];
      r := Done;
    }

    method RevokeCredential(caller: Id, c: Id) returns (r: Response)
      modifies this
      ensures (Stored(), r) == AfterRevokeCredential(old(Stored()), caller, c)
    {
      if caller !in tokens || tokens[caller].revoked {
        return Unauthorized;
      }
      if c !in credentials || credentials[c].owner != caller || credentials[c].revoked {
        return Conflict;
      }
      credentials := credentials[c := credentials[c].(revoked := true)];
      r := Done;
    }

    /** Every route behind the strong-factor gate: approving, granting, renewing and the rest. */
    method StrongFactorRoute(caller: Id, ev: Evidence, now: Time) returns (r: Response)
      modifies this
      ensures (Stored(), r) == AfterStrongFactorRoute(old(Stored()), caller, ev, now)
    {
      if caller !in tokens || tokens[caller].revoked {
        return Unauthorized;
      }
      var ok := VerifySecondFactor(caller, ev, now);
      r := if ok then Done else Unauthorized;
    }
  }

  // ---------- What the handlers do to the rows ----------

  function AfterBootstrap(r: Rows, id: Id): Rows {
    if exists t <- r.tokens :: !r.tokens[t].revoked then r else r.(tokens := r.tokens[id := Token(false, false)])
  }

  function AfterCreateToken(r: Rows, caller: Id, name: string, ev: Evidence, now: Time, id: Id): (Rows, Response) {
    if !Authenticated(r, caller) then (r, Unauthorized)
    else
      var v := if GateClosed(r) then AfterVerify(r, caller, ev, now) else (r, true);
      if !v.1 then (v.0, Unauthorized)
      else if name == "" || |name| > MAX_LABEL then (v.0, BadRequest)
      else (v.0.(tokens := v.0.tokens[id := Token(true, false)], latch := true), Done)
  }

  function AfterRegisterBegin(r: Rows, caller: Id, ev: Evidence, now: Time): (Rows, Response) {
    if !Authenticated(r, caller) then (r, Unauthorized)
    else if !r.tokens[caller].totp && !HasActiveCredential(r, caller) then (r, Forbidden)
    else if ev.assertion.None? && !r.tokens[caller].totp then (r, Unauthorized)
    else
      var v := AfterVerify(r, caller, ev, now);
      if !v.1 then (v.0, Unauthorized)
      else (v.0.(challenges := v.0.challenges[(caller, Registration) := now + CHALLENGE_TTL]), Done)
  }

  function AfterRegisterFinish(r: Rows, caller: Id, name: string, attested: bool, taken: bool, now: Time, id: Id): (Rows, Response) {
    if !Authenticated(r, caller) || !Pending(r, caller, Registration, now) then (r, Unauthorized)
    else
      var s := Consumed(r, caller, Registration);
      if !attested || |name| > MAX_LABEL then (s, BadRequest)
      else if taken then (s, Conflict)
      else (s.(credentials := s.credentials[id := Credential(caller, false)], latch := true), Done)
  }

  function AfterAssertBegin(r: Rows, caller: Id, now: Time): (Rows, Response) {
    if !Authenticated(r, caller) then (r, Unauthorized)
    else if !HasActiveCredential(r, caller) then (r, Conflict)
    else (r.(challenges := r.challenges[(caller, Assertion) := now + CHALLENGE_TTL]), Done)
  }

  function AfterRevokeToken(r: Rows, caller: Id, t: Id): (Rows, Response) {
    if !Authenticated(r, caller) then (r, Unauthorized)
    else if !Authenticated(r, t) then (r, Conflict)
    else (r.(tokens := r.tokens[t := r.tokens[t].(revoked := true)]), Done)
  }

  function AfterRevokeCredential(r: Rows, caller: Id, c: Id): (Rows, Response) {
    if !Authenticated(r, caller) then (r, Unauthorized)
    else if c !in r.credentials || r.credentials[c] != Credential(caller, false) then (r, Conflict)
    else (r.(credentials := r.credentials[c := Credential(caller, true)]), Done)
  }

  function AfterStrongFactorRoute(r: Rows, caller: Id, ev: Evidence, now: Time): (Rows, Response) {
    if !Authenticated(r, caller) then (r, Unauthorized)
    else
      var v := AfterVerify(r, caller, ev, now);
      (v.0, if v.1 then Done else Unauthorized)
  }

  /** Break-glass recovery, by hand in the database: some tokens are deleted, taking their passkeys and
      challenges with them, every remaining secret and passkey is cleared, and the latch is left alone. This
      covers more than the documented recovery, which deletes every token. */
  function AfterRecovery(r: Rows, deleted: set<Id>): Rows {
    Rows(map t | t in r.tokens && t !in deleted :: r.tokens[t].(totp := false), map[],
         map k | k in r.challenges && k.0 !in deleted :: r.challenges[k], r.latch)
  }
}
