/** The broker's two operations: asking whether a signature would be authorized, and signing. */
module Broker {
  import opened Wrappers
  import opened Scopes
  import Cache
  import RateLimiter
  import CommitParser

  type Time = int

  const OPERATION: Scope := "git.sign"

  datatype Request = Request(token: string, scope: Scope, payload: string)

  datatype Reason =
    | NoActiveGrant
    | InvalidScope | OtherOperation | NotCovered
    | TooMany
    | MalformedPayload | WrongCommitter
    | NoSigner | SigningFailed | NotAudited

  datatype Code = NoGrant | ScopeDenied | RateLimited | BackendUnreachable

  function CodeOf(reason: Reason): Code {
    match reason
    case NoActiveGrant => NoGrant
    case TooMany => RateLimited
    case NoSigner => BackendUnreachable
    case SigningFailed => BackendUnreachable
    case NotAudited => BackendUnreachable
    case _ => ScopeDenied
  }

  /** A refusal that comes from the grant or its scope, not from the payload, the rate or the backend. */
  predicate GrantOrScope(reason: Reason) {
    reason in {NoActiveGrant, InvalidScope, OtherOperation, NotCovered}
  }

  /** One exercise of authority; the payload appears only as its digest. */
  datatype AuditRow = AuditRow(subject: string, grantId: string, scope: Scope, digest: string, committerEmail: string)

  /** What the key and the database do for one call: an insert can run and its answer be lost. */
  datatype Insert = Stored | Failed | AnswerLost

  datatype Backend = Backend(signerReady: bool, signs: bool, insert: Insert)

  /** The digest, and the armored signature over a payload in the git namespace. */
  datatype Crypto = Crypto(digest: string -> string, signature: string -> string)

  // ---------- Decisions ----------

  /** The gate both operations run. */
  function CheckScope(entry: Cache.Entry, requested: Scope): Option<Reason> {
    if ValidateCapability(requested).Err? then Some(InvalidScope)
    else if Split(requested).op != OPERATION then Some(OtherOperation)
    else if !AnyCovers(entry.scopes, requested) then Some(NotCovered)
    else None
  }

  /** What preflight answers: the expiry of the grant, or why not. */
  function PreflightAnswer(found: Option<Cache.Entry>, requested: Scope): Result<Option<Time>, Reason> {
    match found
    case None => Err(NoActiveGrant)
    case Some(entry) =>
      match CheckScope(entry, requested)
      case Some(reason) => Err(reason)
      case None => Ok(entry.expiresAt)
  }

  type Parsed = Result<CommitParser.Commit, CommitParser.Malformed>

  /** What signing decides once the call is within its rate, of a payload parsed as given; the row is written
      exactly when the insert runs. */
  function Decide(crypto: Crypto, entry: Cache.Entry, req: Request, parsed: Parsed, backend: Backend)
    : (Option<AuditRow>, Result<string, Reason>)
  {
    match CheckScope(entry, req.scope)
    case Some(reason) => (None, Err(reason))
    case None =>
      match parsed
      case Err(_) => (None, Err(MalformedPayload))
      case Ok(c) =>
        if c.committerEmail != entry.committerEmail then (None, Err(WrongCommitter))
        else if !backend.signerReady then (None, Err(NoSigner))
        else if !backend.signs then (None, Err(SigningFailed))
        else
          var row := RowFor(crypto, entry, req);
          match backend.insert
          case Stored => (Some(row), Ok(crypto.signature(req.payload)))
          case Failed => (None, Err(NotAudited))
          case AnswerLost => (Some(row), Err(NotAudited))
  }

  function RowFor(crypto: Crypto, entry: Cache.Entry, req: Request): AuditRow {
    AuditRow(entry.subject, entry.grantId, req.scope, crypto.digest(req.payload), entry.committerEmail)
  }

  function RowsOf(row: Option<AuditRow>): seq<AuditRow> {
    match row case None => [] case Some(r) => [r]
  }

  // ---------- The broker, run alone ----------

  class Broker {
    const cache: Cache.Store
    const rate: RateLimiter.Limiter
    const crypto: Crypto
    var audit: seq<AuditRow>

    constructor (cache: Cache.Store, rate: RateLimiter.Limiter, crypto: Crypto)
      ensures this.cache == cache && this.rate == rate && this.crypto == crypto && audit == []
    {
      this.cache, this.rate, this.crypto, audit := cache, rate, crypto, [];
    }

    /** Consults the cache alone and changes nothing. */
    method Preflight(req: Request, now: Time) returns (r: Result<Option<Time>, Reason>)
      ensures r == PreflightAnswer(Cache.Found(cache.Contents(), cache.hash(req.token), now), req.scope)
    {
      var found := cache.Lookup(req.token, now);
      if found.None? {
        return Err(NoActiveGrant);
      }
      var refusal := CheckScope(found.value, req.scope);
      if refusal.Some? {
        return Err(refusal.value);
      }
      r := Ok(found.value.expiresAt);
    }

    /** `rateAt` is when the limiter reads the clock. The rate is spent before the scope is checked. */
    method Sign(req: Request, now: Time, rateAt: Time, backend: Backend) returns (r: Result<string, Reason>)
      requires rate.Valid()
      modifies this`audit, rate, rate.buffers
      ensures rate.Valid() && cache.Contents() == old(cache.Contents())
      ensures match Cache.Found(cache.Contents(), cache.hash(req.token), now)
              case None => r == Err(NoActiveGrant) && rate.contents == old(rate.contents) && audit == old(audit)
              case Some(entry) =>
                && rate.contents == RateLimiter.AfterCall(rate.limit, rate.window, old(rate.contents), entry.grantId, rateAt)
                && if !RateLimiter.Allowed(rate.limit, rate.window, old(rate.contents), entry.grantId, rateAt)
                   then r == Err(TooMany) && audit == old(audit)
                   else
                     && r == Decide(crypto, entry, req, CommitParser.Parsed(req.payload), backend).1
                     && audit == old(audit) + RowsOf(Decide(crypto, entry, req, CommitParser.Parsed(req.payload), backend).0)
    {
      var found := cache.Lookup(req.token, now);
      if found.None? {
        return Err(NoActiveGrant);
      }
      var entry := found.value;
      var allowed := rate.Allow(entry.grantId, rateAt);
      if !allowed {
        return Err(TooMany);
      }
      r := SignAdmitted(entry, req, backend);
    }

    method SignAdmitted(entry: Cache.Entry, req: Request, backend: Backend) returns (r: Result<string, Reason>)
      modifies this`audit
      ensures r == Decide(crypto, entry, req, CommitParser.Parsed(req.payload), backend).1
      ensures audit == old(audit) + RowsOf(Decide(crypto, entry, req, CommitParser.Parsed(req.payload), backend).0)
    {
      var refusal := CheckScope(entry, req.scope);
      if refusal.Some? {
        return Err(refusal.value);
      }
      var parsed := CommitParser.Parse(req.payload);
      if parsed.Err? {
        return Err(MalformedPayload);
      }
      if parsed.value.committerEmail != entry.committerEmail {
        return Err(WrongCommitter);
      }
      if !backend.signerReady {
        return Err(NoSigner);
      }
      if !backend.signs {
        return Err(SigningFailed);
      }
      var armored := crypto.signature(req.payload);
      var row := AuditRow(entry.subject, entry.grantId, req.scope, crypto.digest(req.payload), parsed.value.committerEmail);
      if backend.insert != Failed {
        audit := audit + [row];
      }
      if backend.insert != Stored {
        return Err(NotAudited);
      }
      r := Ok(armored);
    }
  }

  // ---------- What the decisions mean ----------

  /** A valid, targeted scope of exactly the signing operation that some scope of the grant covers. */
  predicate Asks(entry: Cache.Entry, requested: Scope) {
    && Validate(requested).Ok? && Split(requested).target.Some? && Split(requested).op == "git.sign"
    && exists g <- entry.scopes :: Covers(g, requested)
  }

  ghost predicate RowTells(row: AuditRow, crypto: Crypto, entry: Cache.Entry, req: Request) {
    && row.subject == entry.subject && row.grantId == entry.grantId && row.scope == req.scope
    && row.digest == crypto.digest(req.payload) && row.committerEmail == entry.committerEmail
  }

  /** What the client is told, and what is audited: without a grant in the cache, that there is none; with
      one, a denial exactly when the request is not authorized by it, a backend failure exactly when it is
      but the key or the audit fails, and else the signature; the row is written exactly when the insert of
      an authorized request runs, and tells whose grant, which scope and what payload. */
  lemma AnswersMean(crypto: Crypto, found: Option<Cache.Entry>, req: Request, parsed: Parsed, backend: Backend)
    ensures var asked := PreflightAnswer(found, req.scope);
            if found.None? then asked.Err? && CodeOf(asked.error) == NoGrant
            else if Asks(found.value, req.scope) then asked == Ok(found.value.expiresAt)
            else asked.Err? && CodeOf(asked.error) == ScopeDenied
    ensures found.Some? ==>
              Decided(crypto, found.value, req, Authorized(found.value, req, parsed), backend,
                      Decide(crypto, found.value, req, parsed, backend))
  {
    if found.Some? {
      ScopeMeans(found.value, req.scope);
      DecisionMeans(crypto, found.value, req, parsed, backend);
    }
  }

  lemma ScopeMeans(entry: Cache.Entry, requested: Scope)
    ensures CheckScope(entry, requested) == None <==> Asks(entry, requested)
    ensures CheckScope(entry, requested).Some? ==> CodeOf(CheckScope(entry, requested).value) == ScopeDenied
  {
  }

  lemma DecisionMeans(crypto: Crypto, entry: Cache.Entry, req: Request, parsed: Parsed, backend: Backend)
    requires CheckScope(entry, req.scope) == None <==> Asks(entry, req.scope)
    requires CheckScope(entry, req.scope).Some? ==> CodeOf(CheckScope(entry, req.scope).value) == ScopeDenied
    ensures Decided(crypto, entry, req, Authorized(entry, req, parsed), backend, Decide(crypto, entry, req, parsed, backend))
  {
    var allowed := CheckScope(entry, req.scope) == None && parsed.Ok? && parsed.value.committerEmail == entry.committerEmail;
    DecisionCases(crypto, entry, req, parsed, backend, allowed);
  }

  ghost predicate Decided(crypto: Crypto, entry: Cache.Entry, req: Request, allowed: bool, backend: Backend,
                          d: (Option<AuditRow>, Result<string, Reason>)) {
    && (d.1.Ok? <==> allowed && backend == Backend(true, true, Stored))
    && (d.1.Ok? ==> d.1.value == crypto.signature(req.payload))
    && (d.1.Err? ==> CodeOf(d.1.error) == if allowed then BackendUnreachable else ScopeDenied)
    && (d.0.Some? <==> allowed && backend.signerReady && backend.signs && backend.insert != Failed)
    && (d.0.Some? ==> RowTells(d.0.value, crypto, entry, req))
  }

  lemma DecisionCases(crypto: Crypto, entry: Cache.Entry, req: Request, parsed: Parsed, backend: Backend, allowed: bool)
    requires CheckScope(entry, req.scope).Some? ==> CodeOf(CheckScope(entry, req.scope).value) == ScopeDenied
    requires allowed <==> CheckScope(entry, req.scope) == None && parsed.Ok? && parsed.value.committerEmail == entry.committerEmail
    ensures Decided(crypto, entry, req, allowed, backend, Decide(crypto, entry, req, parsed, backend))
  {
  }

  /** What every audited or returned signature is over: a payload accepted as a commit whose one committer is
      the grant's, under a targeted scope of exactly the signing operation that the grant covers. */
  ghost predicate Authorized(entry: Cache.Entry, req: Request, parsed: Parsed) {
    && Asks(entry, req.scope)
    && parsed.Ok? && parsed.value.committerEmail == entry.committerEmail
  }

  /** A signature is returned exactly when the request is authorized and the backend works, and then its row
      is written; a row without its signature can only mean that the answer of the insert was lost. */
  lemma SignedIffAuthorized(crypto: Crypto, entry: Cache.Entry, req: Request, parsed: Parsed, backend: Backend)
    ensures var d := Decide(crypto, entry, req, parsed, backend);
            && (d.1.Ok? <==> Authorized(entry, req, parsed) && backend == Backend(true, true, Stored))
            && (d.1.Ok? ==> d.0 == Some(RowFor(crypto, entry, req)) && d.1.value == crypto.signature(req.payload))
            && (d.0.Some? ==> d.0.value == RowFor(crypto, entry, req) && Authorized(entry, req, parsed)
                              && (d.1.Ok? || backend.insert == AnswerLost))
  {
  }

  /** In the same cache state and at the same instant, signing within its rate gives a grant or scope refusal
      exactly when preflight gives that same refusal; so a request preflight accepts is never refused for its
      grant or scope, whatever its payload. */
  lemma PreflightNeverMisleads(crypto: Crypto, found: Option<Cache.Entry>, req: Request, parsed: Parsed, backend: Backend,
                               reason: Reason)
    ensures var signed := match found case None => Err(NoActiveGrant) case Some(e) => Decide(crypto, e, req, parsed, backend).1;
            && (GrantOrScope(reason) ==> (signed == Err(reason) <==> PreflightAnswer(found, req.scope) == Err(reason)))
            && (PreflightAnswer(found, req.scope).Ok? ==> signed.Ok? || !GrantOrScope(signed.error))
            && (PreflightAnswer(found, req.scope).Err? ==> GrantOrScope(PreflightAnswer(found, req.scope).error))
            && (PreflightAnswer(found, req.scope).Ok? ==>
                  found.Some? && PreflightAnswer(found, req.scope).value == found.value.expiresAt)
  {
  }
}
