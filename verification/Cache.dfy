/** The broker's in-memory cache of active capability grants. */
module Cache {
  import opened Wrappers
  import opened Scopes

  type Time = int

  /** Five minutes, in nanoseconds. */
  const TOMBSTONE_TTL: Time := 5 * 60 * 1_000_000_000

  /** One row of the query for active, fully provisioned capability grants. */
  datatype Row = Row(id: string, subject: string, committerEmail: string, tokenHash: string,
                     scopes: seq<string>, expiresAt: Option<Time>)

  datatype Entry = Entry(grantId: string, subject: string, committerEmail: string,
                         scopes: seq<Scope>, expiresAt: Option<Time>)

  type ByToken = map<string, Entry>
  type TokenOf = map<string, string>
  type Tombstones = map<string, Time>

  datatype View = View(byToken: ByToken, tokenOf: TokenOf, tombstones: Tombstones)

  const EMPTY := View(map[], map[], map[])

  // ---------- What the operations do to the maps ----------

  predicate Expired(expiresAt: Option<Time>, now: Time) {
    expiresAt.Some? && !(now < expiresAt.value)
  }

  /** A row with an invalid or untargeted scope is skipped, alone. */
  predicate Accepts(r: Row) {
    forall s <- r.scopes :: ValidateCapability(s).Ok?
  }

  function EntryOf(r: Row): Entry {
    Entry(r.id, r.subject, r.committerEmail, r.scopes, r.expiresAt)
  }

  function IndexByToken(rows: seq<Row>): ByToken {
    if rows == [] then map[]
    else
      var m, r := IndexByToken(rows[..|rows| - 1]), rows[|rows| - 1];
      if Accepts(r) then m[r.tokenHash := EntryOf(r)] else m
  }

  function IndexById(rows: seq<Row>): TokenOf {
    if rows == [] then map[]
    else
      var m, r := IndexById(rows[..|rows| - 1]), rows[|rows| - 1];
      if Accepts(r) then m[r.id := r.tokenHash] else m
  }

  function Live(tombstones: Tombstones, now: Time): Tombstones {
    map id | id in tombstones && now - tombstones[id] <= TOMBSTONE_TTL :: tombstones[id]
  }

  function KeysOf(tokenOf: TokenOf, ids: set<string>): set<string> {
    set id | id in ids && id in tokenOf :: tokenOf[id]
  }

  /** The indexes without the given grants. */
  function Without(byToken: ByToken, tokenOf: TokenOf, ids: set<string>): (ByToken, TokenOf) {
    (byToken - KeysOf(tokenOf, ids), tokenOf - ids)
  }

  function Swapped(v: View, rows: seq<Row>, now: Time): View {
    var live := Live(v.tombstones, now);
    var kept := Without(IndexByToken(rows), IndexById(rows), live.Keys);
    View(kept.0, kept.1, live)
  }

  function Removed(v: View, id: string, now: Time): View {
    var kept := Without(v.byToken, v.tokenOf, {id});
    View(kept.0, kept.1, v.tombstones[id := now])
  }

  function Found(v: View, tokenHash: string, now: Time): Option<Entry> {
    if tokenHash in v.byToken && !Expired(v.byToken[tokenHash].expiresAt, now) then Some(v.byToken[tokenHash])
    else None
  }

  // ---------- The class ----------

  class Store {
    const hash: string -> string
    var byToken: ByToken
    var tokenOf: TokenOf
    var tombstones: Tombstones

    ghost function Contents(): View
      reads this
    {
      View(byToken, tokenOf, tombstones)
    }

    constructor (hash: string -> string)
      ensures Contents() == EMPTY && this.hash == hash
    {
      this.hash := hash;
      byToken, tokenOf, tombstones := map[], map[], map[];
    }

    /** Builds the maps from a query snapshot, drops what a live tombstone names, and swaps them in.
        `now` is read before the lock is taken. */
    method Apply(rows: seq<Row>, now: Time)
      modifies this
      ensures Contents() == Swapped(old(Contents()), rows, now)
    {
      var freshByToken, freshTokenOf := BuildIndexes(rows);
      var ids := tombstones.Keys;
      WithoutNone(freshByToken, freshTokenOf);
      ghost var seen: set<string> := {};
      assert seen * Live(tombstones, now).Keys == {};
      while ids != {}
        invariant ids !! seen && ids + seen == old(tombstones).Keys
        invariant tombstones == old(tombstones) - (seen - Live(old(tombstones), now).Keys)
        invariant (freshByToken, freshTokenOf)
               == Without(IndexByToken(rows), IndexById(rows), seen * Live(old(tombstones), now).Keys)
        invariant unchanged(`byToken) && unchanged(`tokenOf)
        decreases ids
      {
        var id :| id in ids;
        WithoutMore(IndexByToken(rows), IndexById(rows), seen * Live(old(tombstones), now).Keys, id);
        ids, seen := ids - {id}, seen + {id};
        if now - tombstones[id] > TOMBSTONE_TTL {
          tombstones := tombstones - {id};
          assert seen * Live(old(tombstones), now).Keys == (seen - {id}) * Live(old(tombstones), now).Keys;
          continue;
        }
        assert seen * Live(old(tombstones), now).Keys == (seen - {id}) * Live(old(tombstones), now).Keys + {id};
        if id in freshTokenOf {
          freshByToken := freshByToken - {freshTokenOf[id]};
          freshTokenOf := freshTokenOf - {id};
        }
      }
      assert seen * Live(old(tombstones), now).Keys == Live(old(tombstones), now).Keys;
      byToken, tokenOf := freshByToken, freshTokenOf;
    }

    /** Tombstones the grant whether or not it is cached, and drops it. */
    method Remove(id: string, now: Time)
      modifies this
      ensures Contents() == Removed(old(Contents()), id, now)
    {
      tombstones := tombstones[id := now];
      if id in tokenOf {
        byToken := byToken - {tokenOf[id]};
        tokenOf := tokenOf - {id};
      }
    }

    method Lookup(plaintext: string, now: Time) returns (e: Option<Entry>)
      ensures e == Found(Contents(), hash(plaintext), now)
      ensures e.Some? <==> hash(plaintext) in byToken
                           && (byToken[hash(plaintext)].expiresAt.None? || now < byToken[hash(plaintext)].expiresAt.value)
      ensures e.Some? ==> e.value == byToken[hash(plaintext)]
    {
      var key := hash(plaintext);
      if key !in byToken {
        return None;
      }
      if Expired(byToken[key].expiresAt, now) {
        return None;
      }
      e := Some(byToken[key]);
    }
  }

  method BuildIndexes(rows: seq<Row>) returns (byToken: ByToken, tokenOf: TokenOf)
    ensures byToken == IndexByToken(rows) && tokenOf == IndexById(rows)
  {
    byToken, tokenOf := map[], map[];
    for i := 0 to |rows|
      invariant byToken == IndexByToken(rows[..i]) && tokenOf == IndexById(rows[..i])
    {
      var r := rows[i];
      IndexSnoc(rows[..i], r);
      assert rows[..i + 1] == rows[..i] + [r];
      var scopes := ParseScopes(r.scopes);
      if scopes.None? {
        continue;
      }
      byToken := byToken[r.tokenHash := Entry(r.id, r.subject, r.committerEmail, scopes.value, r.expiresAt)];
      tokenOf := tokenOf[r.id := r.tokenHash];
    }
    assert rows[..|rows|] == rows;
  }

  method ParseScopes(raw: seq<string>) returns (out: Option<seq<Scope>>)
    ensures out == if forall s <- raw :: ValidateCapability(s).Ok? then Some(raw) else None
  {
    for i := 0 to |raw|
      invariant forall s <- raw[..i] :: ValidateCapability(s).Ok?
    {
      if ValidateCapability(raw[i]).Err? {
        assert raw[i] in raw;
        return None;
      }
    }
    assert raw[..|raw|] == raw;
    out := Some(raw);
  }

  lemma IndexSnoc(rows: seq<Row>, r: Row)
    ensures IndexByToken(rows + [r])
         == if Accepts(r) then IndexByToken(rows)[r.tokenHash := EntryOf(r)] else IndexByToken(rows)
    ensures IndexById(rows + [r]) == if Accepts(r) then IndexById(rows)[r.id := r.tokenHash] else IndexById(rows)
  {
    assert (rows + [r])[..|rows|] == rows;
  }

  lemma WithoutNone(byToken: ByToken, tokenOf: TokenOf)
    ensures Without(byToken, tokenOf, {}) == (byToken, tokenOf)
  {
    assert KeysOf(tokenOf, {}) == {};
    assert byToken - {} == byToken && tokenOf - {} == tokenOf;
  }

  /** Dropping one grant more deletes its own key only, so the order of the deletions is irrelevant. */
  lemma WithoutMore(byToken: ByToken, tokenOf: TokenOf, ids: set<string>, id: string)
    ensures var before, after := Without(byToken, tokenOf, ids), Without(byToken, tokenOf, ids + {id});
            if id in before.1 then after == (before.0 - {before.1[id]}, before.1 - {id}) else after == before
  {
    var before, after := Without(byToken, tokenOf, ids), Without(byToken, tokenOf, ids + {id});
    var fewer := KeysOf(tokenOf, ids);
    var more := KeysOf(tokenOf, ids + {id});
    if id in before.1 {
      assert more == fewer + {tokenOf[id]};
      assert after.0 == before.0 - {tokenOf[id]};
      assert after.1 == before.1 - {id};
    } else {
      assert more == fewer;
      assert after.1 == before.1;
    }
  }
}
