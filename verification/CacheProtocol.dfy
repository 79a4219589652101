/** Reloads racing revocations: every interleaving of database writes, notifications, reloads and lookups. */
module CacheProtocol {
  import opened Wrappers
  import opened Seqs
  import opened Cache
  import Scopes

  // ---------- What one snapshot builds ----------

  /** The key recorded for a grant is the key of every entry that carries it. */
  ghost predicate Consistent(byToken: ByToken, tokenOf: TokenOf) {
    forall k <- byToken :: byToken[k].grantId in tokenOf && tokenOf[byToken[k].grantId] == k
  }

  ghost predicate Absent(byToken: ByToken, id: string) {
    forall k <- byToken :: byToken[k].grantId != id
  }

  predicate DistinctIds(rows: seq<Row>) {
    forall i, j | 0 <= i < j < |rows| && Accepts(rows[i]) && Accepts(rows[j]) :: rows[i].id != rows[j].id
  }

  predicate DistinctHashes(rows: seq<Row>) {
    forall i, j | 0 <= i < j < |rows| && Accepts(rows[i]) && Accepts(rows[j]) :: rows[i].tokenHash != rows[j].tokenHash
  }

  ghost predicate FromRows(byToken: ByToken, tokenOf: TokenOf, rows: seq<Row>) {
    && (forall k <- byToken :: exists r <- rows :: Accepts(r) && r.tokenHash == k && EntryOf(r) == byToken[k])
    && (forall id :: id in tokenOf <==> exists r <- rows :: Accepts(r) && r.id == id)
  }

  lemma {:induction false} IndexFromRows(rows: seq<Row>)
    ensures FromRows(IndexByToken(rows), IndexById(rows), rows)
  {
    if rows != [] {
      var rest, r := rows[..|rows| - 1], rows[|rows| - 1];
      assert rows == rest + [r];
      IndexFromRows(rest);
      FromRowsSnoc(IndexByToken(rest), IndexById(rest), rest, r);
      IndexSnoc(rest, r);
    }
  }

  lemma FromRowsSnoc(byToken: ByToken, tokenOf: TokenOf, rest: seq<Row>, r: Row)
    requires FromRows(byToken, tokenOf, rest)
    ensures !Accepts(r) ==> FromRows(byToken, tokenOf, rest + [r])
    ensures Accepts(r) ==> FromRows(byToken[r.tokenHash := EntryOf(r)], tokenOf[r.id := r.tokenHash], rest + [r])
  {
    assert forall x :: x in rest + [r] <==> x in rest || x == r;
  }

  /** Distinct ids suffice for the index by id to find every entry of a grant, whatever the hashes. */
  lemma {:induction false} IndexConsistent(rows: seq<Row>)
    requires DistinctIds(rows)
    ensures Consistent(IndexByToken(rows), IndexById(rows))
  {
    if rows != [] {
      var rest, r := rows[..|rows| - 1], rows[|rows| - 1];
      assert rows == rest + [r];
      IndexConsistent(rest);
      IndexFromRows(rest);
      IndexSnoc(rest, r);
    }
  }

  /** With distinct hashes the two indexes hold every accepted row, and they are inverse to each other
      exactly when the ids are distinct. */
  lemma {:induction false} IndexHoldsEveryRow(rows: seq<Row>)
    requires DistinctHashes(rows)
    ensures forall r <- rows :: Accepts(r) ==> r.tokenHash in IndexByToken(rows) && IndexByToken(rows)[r.tokenHash] == EntryOf(r)
  {
    if rows != [] {
      var rest, r := rows[..|rows| - 1], rows[|rows| - 1];
      assert rows == rest + [r];
      IndexHoldsEveryRow(rest);
      IndexSnoc(rest, r);
    }
  }

  ghost predicate Inverse(byToken: ByToken, tokenOf: TokenOf) {
    && Consistent(byToken, tokenOf)
    && forall id <- tokenOf :: tokenOf[id] in byToken && byToken[tokenOf[id]].grantId == id
  }

  lemma InverseIffDistinctIds(rows: seq<Row>)
    requires DistinctHashes(rows)
    ensures Inverse(IndexByToken(rows), IndexById(rows)) <==> DistinctIds(rows)
  {
    IndexHoldsEveryRow(rows);
    IndexFromRows(rows);
    var byToken, tokenOf := IndexByToken(rows), IndexById(rows);
    if Inverse(byToken, tokenOf) {
      forall i, j | 0 <= i < j < |rows| && Accepts(rows[i]) && Accepts(rows[j]) ensures rows[i].id != rows[j].id {
        assert rows[i] in rows && rows[j] in rows;
        assert byToken[rows[i].tokenHash].grantId == rows[i].id && byToken[rows[j].tokenHash].grantId == rows[j].id;
      }
    }
    if DistinctIds(rows) {
      IndexConsistent(rows);
      forall id <- tokenOf ensures tokenOf[id] in byToken && byToken[tokenOf[id]].grantId == id {
        var r :| r in rows && Accepts(r) && r.id == id;
        assert byToken[r.tokenHash] == EntryOf(r);
      }
    }
  }

  /** What dropping grants keeps: consistency, and every entry of another grant if hashes are distinct. */
  lemma WithoutKeeps(byToken: ByToken, tokenOf: TokenOf, ids: set<string>)
    requires Consistent(byToken, tokenOf)
    ensures var kept := Without(byToken, tokenOf, ids);
            && Consistent(kept.0, kept.1)
            && (forall id <- ids :: Absent(kept.0, id))
            && (forall k <- kept.0 :: k in byToken && kept.0[k] == byToken[k])
            && (Inverse(byToken, tokenOf) ==>
                  && Inverse(kept.0, kept.1)
                  && forall k <- byToken :: k in kept.0 <==> byToken[k].grantId !in ids)
  {
  }

  /** Two rows for one grant break eviction: the map from grants to keys remembers only the last, and a
      removal leaves the token of the first in place. */
  lemma DuplicateIdSurvivesRemove(g: string, a: string, b: string, now: Time)
    requires a != b
    ensures var rows := [Row(g, "", "", a, [], None), Row(g, "", "", b, [], None)];
            Found(Removed(Swapped(EMPTY, rows, now), g, now), a, now).Some?
  {
    var r, q := Row(g, "", "", a, [], None), Row(g, "", "", b, [], None);
    TwoRowsOfOneGrant(r, q);
    var byToken, tokenOf := IndexByToken([r, q]), IndexById([r, q]);
    SwapKeepsAll([r, q], now);
    assert KeysOf(tokenOf, {g}) == {b};
  }

  /** Two grants sharing a token hash stay safe but are not both found: removing one hides the other. */
  lemma SharedHashHidesTheOther(g: string, k: string, h: string, now: Time)
    requires g != k
    ensures var r, q := Row(g, "", "", h, [], None), Row(k, "", "", h, [], None);
            && Found(Swapped(EMPTY, [r, q], now), h, now) == Some(EntryOf(q))
            && Found(Removed(Swapped(EMPTY, [r, q], now), g, now), h, now) == None
  {
    var r, q := Row(g, "", "", h, [], None), Row(k, "", "", h, [], None);
    assert [r, q] == [r] + [q] && [r] == [] + [r];
    IndexSnoc([r], q);
    IndexSnoc([], r);
    SwapKeepsAll([r, q], now);
    assert KeysOf(IndexById([r, q]), {g}) == {h};
  }

  lemma TwoRowsOfOneGrant(r: Row, q: Row)
    requires r.id == q.id && r.tokenHash != q.tokenHash && r.scopes == q.scopes == []
    ensures IndexByToken([r, q]) == map[r.tokenHash := EntryOf(r), q.tokenHash := EntryOf(q)]
    ensures IndexById([r, q]) == map[r.id := q.tokenHash]
  {
    assert [r, q] == [r] + [q] && [r] == [] + [r];
    IndexSnoc([r], q);
    IndexSnoc([], r);
  }

  /** With no tombstone a swap installs the whole index. */
  lemma SwapKeepsAll(rows: seq<Row>, now: Time)
    ensures Swapped(EMPTY, rows, now) == View(IndexByToken(rows), IndexById(rows), map[])
  {
    assert Live(map[], now) == map[];
    assert Live(map[], now).Keys == {};
    WithoutNone(IndexByToken(rows), IndexById(rows));
  }

  // ---------- The protocol ----------

  /** A reload in flight; the load mutex allows one. `knows` are the grants already revoked when its
      snapshot was taken. */
  datatype Reload = Reload(rows: seq<Row>, takenAt: Time, knows: set<string>, clock: Option<Time>)

  /** `db` are the provisioned capability grants, `unheard` the notifications sent and not yet delivered.
      The last four are history: grants `Remove` has run on, grants some swapped reload knew to be
      revoked, the last snapshot swapped in, and the grants dropped from it. */
  datatype State = State(
    now: Time, db: set<Row>, revoked: set<string>, unheard: set<string>, view: View, reload: Option<Reload>,
    removed: set<string>, cleared: set<string>, applied: seq<Row>, gone: set<string>)

  const INIT := State(0, {}, {}, {}, EMPTY, None, {}, {}, [], {})

  datatype Step =
    | Wait(until: Time)
    | Provision(row: Row)
    | Revoke(id: string)
    | LoseNotification(id: string)
    | Deliver(id: string)
    | Snapshot(rows: seq<Row>)
    | LoadFails
    | ReadClock
    | Swap

  /** What the query returns: the unrevoked, unexpired grants, each once, in any order. */
  ghost predicate Lists(s: State, rows: seq<Row>) {
    && NoDuplicates(rows)
    && forall r :: r in rows <==> r in s.db && r.id !in s.revoked && !Expired(r.expiresAt, s.now)
  }

  /** `gap` bounds the time from a snapshot to the clock reading of its swap. A grant has one row:
      its identity and its token are keyed by its id. */
  ghost predicate Enabled(gap: Time, s: State, step: Step) {
    match step
    case Wait(until) => s.now <= until
    case Provision(row) => forall r <- s.db :: r.id != row.id
    case Revoke(id) => id !in s.revoked
    case LoseNotification(id) => id in s.unheard
    case Deliver(id) => id in s.unheard
    case Snapshot(rows) => s.reload.None? && Lists(s, rows)
    case LoadFails => s.reload.Some?
    case ReadClock => s.reload.Some? && s.reload.value.clock.None?
    case Swap => s.reload.Some? && s.reload.value.clock.Some? && s.reload.value.clock.value - s.reload.value.takenAt <= gap
  }

  ghost function After(gap: Time, s: State, step: Step): State
    requires Enabled(gap, s, step)
  {
    match step
    case Wait(until) => s.(now := until)
    case Provision(row) => s.(db := s.db + {row})
    case Revoke(id) => s.(revoked := s.revoked + {id}, unheard := s.unheard + {id})
    case LoseNotification(id) => s.(unheard := s.unheard - {id})
    case Deliver(id) =>
      s.(unheard := s.unheard - {id}, view := Removed(s.view, id, s.now),
         removed := s.removed + {id}, gone := s.gone + {id})
    case Snapshot(rows) => s.(reload := Some(Reload(rows, s.now, s.revoked, None)))
    case LoadFails => s.(reload := None)
    case ReadClock => s.(reload := Some(s.reload.value.(clock := Some(s.now))))
    case Swap =>
      var load := s.reload.value;
      s.(view := Swapped(s.view, load.rows, load.clock.value), reload := None,
         cleared := s.cleared + load.knows, applied := load.rows,
         gone := Live(s.view.tombstones, load.clock.value).Keys)
  }

  /** The state a run of steps reaches, if every step is enabled in turn. */
  ghost function Run(gap: Time, steps: seq<Step>): Option<State> {
    if steps == [] then Some(INIT)
    else
      var before, step := Run(gap, steps[..|steps| - 1]), steps[|steps| - 1];
      if before.Some? && Enabled(gap, before.value, step) then Some(After(gap, before.value, step)) else None
  }

  // ---------- Invariants ----------

  /** What holds whatever the gap. */
  ghost predicate Sound(s: State) {
    && Consistent(s.view.byToken, s.view.tokenOf)
    && s.removed <= s.revoked && s.cleared <= s.revoked
    && (forall r, q | r in s.db && q in s.db && r.id == q.id :: r == q)
    && (forall id <- s.view.tombstones :: id in s.removed && s.view.tombstones[id] <= s.now)
    && (forall id <- s.cleared :: Absent(s.view.byToken, id))
    && (s.reload.Some? ==> SoundReload(s, s.reload.value))
  }

  ghost predicate SoundReload(s: State, load: Reload) {
    && load.takenAt <= s.now && (load.clock.Some? ==> load.takenAt <= load.clock.value)
    && DistinctIds(load.rows)
    && s.cleared <= load.knows <= s.revoked
    && (forall r <- load.rows :: r in s.db && r.id !in load.knows)
  }

  /** What the bound on the gap adds: no token maps to a removed grant, and a removed grant in the snapshot
      of a reload in flight was tombstoned after the snapshot was taken. */
  ghost predicate Safe(s: State) {
    && (forall id <- s.removed :: Absent(s.view.byToken, id))
    && (s.reload.Some? ==>
          forall r <- s.reload.value.rows ::
            r.id in s.removed ==> r.id in s.view.tombstones && s.reload.value.takenAt <= s.view.tombstones[r.id])
  }

  lemma ListedIdsAreDistinct(s: State, rows: seq<Row>)
    requires Lists(s, rows) && forall r, q | r in s.db && q in s.db && r.id == q.id :: r == q
    ensures DistinctIds(rows)
  {
    forall i, j | 0 <= i < j < |rows| ensures rows[i].id != rows[j].id {
      assert rows[i] in rows && rows[j] in rows;
    }
  }

  lemma SwapStep(gap: Time, s: State)
    requires Sound(s) && Enabled(gap, s, Swap)
    ensures Sound(After(gap, s, Swap))
    ensures gap <= TOMBSTONE_TTL && Safe(s) ==> Safe(After(gap, s, Swap))
  {
    var load := s.reload.value;
    var byToken, tokenOf := IndexByToken(load.rows), IndexById(load.rows);
    var live := Live(s.view.tombstones, load.clock.value);
    IndexConsistent(load.rows);
    IndexFromRows(load.rows);
    WithoutKeeps(byToken, tokenOf, live.Keys);
    var kept := Without(byToken, tokenOf, live.Keys);
    forall id | id in s.cleared + load.knows ensures Absent(kept.0, id) {
      assert Absent(byToken, id);
    }
    if gap <= TOMBSTONE_TTL && Safe(s) {
      forall id <- s.removed ensures Absent(kept.0, id) {
        if id !in live {
          assert forall r <- load.rows :: r.id != id;
          assert Absent(byToken, id);
        }
      }
    }
  }

  lemma DeliverStep(gap: Time, s: State, id: string)
    requires Sound(s) && id in s.revoked && Enabled(gap, s, Deliver(id))
    ensures Sound(After(gap, s, Deliver(id)))
    ensures Safe(s) ==> Safe(After(gap, s, Deliver(id)))
  {
    WithoutKeeps(s.view.byToken, s.view.tokenOf, {id});
  }

  lemma QuietStep(gap: Time, s: State, step: Step)
    requires Sound(s) && s.unheard <= s.revoked && Enabled(gap, s, step) && !step.Swap? && !step.Deliver?
    ensures Sound(After(gap, s, step)) && After(gap, s, step).unheard <= After(gap, s, step).revoked
    ensures Safe(s) ==> Safe(After(gap, s, step))
  {
    if step.Snapshot? {
      ListedIdsAreDistinct(s, step.rows);
    }
  }

  lemma {:induction false} RunIsSound(gap: Time, steps: seq<Step>)
    ensures var end := Run(gap, steps);
            end.Some? ==> && Sound(end.value) && end.value.unheard <= end.value.revoked
                          && (gap <= TOMBSTONE_TTL ==> Safe(end.value))
  {
    if steps != [] {
      var rest, step := steps[..|steps| - 1], steps[|steps| - 1];
      RunIsSound(gap, rest);
      if Run(gap, steps).Some? {
        var s := Run(gap, rest).value;
        match step
        case Swap => SwapStep(gap, s);
        case Deliver(id) => DeliverStep(gap, s, id);
        case _ => QuietStep(gap, s, step);
      }
    }
  }

  // ---------- Revocation is final ----------

  /** Safety: when no swap lags its snapshot by more than the tombstone lifetime, a grant that `Remove`
      has run on is never found again, under any token, at any time, whatever the interleaving. */
  lemma RemovedIsNeverFound(gap: Time, steps: seq<Step>, g: string, tokenHash: string, now: Time)
    requires gap <= 300_000_000_000 && Run(gap, steps).Some? && g in Run(gap, steps).value.removed
    ensures var e := Found(Run(gap, steps).value.view, tokenHash, now);
            e.Some? ==> e.value.grantId != g
  {
    RunIsSound(gap, steps);
  }

  function Resurrection(gap: Time, row: Row): seq<Step> {
    [Provision(row), Snapshot([row]), Revoke(row.id), Deliver(row.id), Wait(gap), ReadClock, Swap]
  }

  lemma RunSnoc(gap: Time, steps: seq<Step>, step: Step)
    ensures Run(gap, steps + [step])
         == var before := Run(gap, steps);
            if before.Some? && Enabled(gap, before.value, step) then Some(After(gap, before.value, step)) else None
  {
    assert (steps + [step])[..|steps|] == steps;
  }

  ghost predicate Steps(gap: Time, from: State, step: Step, to: State) {
    Enabled(gap, from, step) && to == After(gap, from, step)
  }

  /** The snapshot is taken, the grant revoked and removed, and the swap comes after the tombstone's life. */
  lemma ResurrectionStates(gap: Time, row: Row) returns (s: seq<State>)
    requires gap > TOMBSTONE_TTL && row.scopes == [] && row.expiresAt == None
    ensures |s| == 8 && s[0] == INIT
    ensures forall i | 0 <= i < 7 :: Steps(gap, s[i], Resurrection(gap, row)[i], s[i + 1])
    ensures row.id in s[7].removed && s[7].view == Swapped(EMPTY, [row], gap)
  {
    var s1 := After(gap, INIT, Provision(row));
    assert Lists(s1, [row]);
    var s2 := After(gap, s1, Snapshot([row]));
    var s3 := After(gap, s2, Revoke(row.id));
    var s4 := After(gap, s3, Deliver(row.id));
    var s5 := After(gap, s4, Wait(gap));
    var s6 := After(gap, s5, ReadClock);
    var s7 := After(gap, s6, Swap);
    assert Live(s6.view.tombstones, gap) == map[] == Live(map[], gap);
    s := [INIT, s1, s2, s3, s4, s5, s6, s7];
  }

  lemma {:induction false} FollowsStates(gap: Time, run: seq<Step>, s: seq<State>, n: nat)
    requires n <= |run| && |s| == |run| + 1 && s[0] == INIT
    requires forall i | 0 <= i < |run| :: Steps(gap, s[i], run[i], s[i + 1])
    ensures Run(gap, run[..n]) == Some(s[n])
  {
    if n > 0 {
      FollowsStates(gap, run, s, n - 1);
      assert run[..n] == run[..n - 1] + [run[n - 1]];
      RunSnoc(gap, run[..n - 1], run[n - 1]);
      assert Steps(gap, s[n - 1], run[n - 1], s[n - 1 + 1]);
    }
  }

  lemma ResurrectionRuns(gap: Time, row: Row)
    requires gap > TOMBSTONE_TTL && row.scopes == [] && row.expiresAt == None
    ensures var end := Run(gap, Resurrection(gap, row));
            end.Some? && row.id in end.value.removed && end.value.view == Swapped(EMPTY, [row], gap)
  {
    var s := ResurrectionStates(gap, row);
    var run := Resurrection(gap, row);
    FollowsStates(gap, run, s, 7);
    assert run[..7] == run;
  }

  ghost predicate NeverFoundAgain(gap: Time) {
    forall steps, g, tokenHash, now |
      Run(gap, steps).Some? && g in Run(gap, steps).value.removed
      && Found(Run(gap, steps).value.view, tokenHash, now).Some? ::
      Found(Run(gap, steps).value.view, tokenHash, now).value.grantId != g
  }

  /** The side condition is exact: safety holds for a bound on the gap if and only if that bound is no
      more than the lifetime of a tombstone. */
  lemma SafeIffGapWithinTombstoneLife(gap: Time)
    ensures NeverFoundAgain(gap) <==> gap <= 300_000_000_000
  {
    if gap <= TOMBSTONE_TTL {
      forall steps, g, tokenHash, now |
        Run(gap, steps).Some? && g in Run(gap, steps).value.removed
        && Found(Run(gap, steps).value.view, tokenHash, now).Some?
        ensures Found(Run(gap, steps).value.view, tokenHash, now).value.grantId != g
      {
        RemovedIsNeverFound(gap, steps, g, tokenHash, now);
      }
    } else {
      var row := Row("g", "", "", "h", [], None);
      ResurrectionRuns(gap, row);
      assert [row] == [] + [row];
      IndexSnoc([], row);
      SwapKeepsAll([row], gap);
      assert Found(Swapped(EMPTY, [row], gap), "h", 0) == Some(EntryOf(row));
    }
  }

  /** A run can only be extended; revocations and what reloads have cleared only grow. */
  lemma {:induction false} RunGrows(gap: Time, a: seq<Step>, b: seq<Step>)
    requires Run(gap, a + b).Some?
    ensures Run(gap, a).Some?
    ensures Run(gap, a).value.cleared <= Run(gap, a + b).value.cleared
    ensures Run(gap, a).value.db <= Run(gap, a + b).value.db
  {
    if b == [] {
      assert a + b == a;
    } else {
      var rest, step := b[..|b| - 1], b[|b| - 1];
      assert a + b == (a + rest) + [step];
      RunSnoc(gap, a + rest, step);
      RunGrows(gap, a, rest);
    }
  }

  predicate KeepsReload(steps: seq<Step>) {
    forall step <- steps :: !step.Swap? && !step.LoadFails?
  }

  lemma {:induction false} ReloadRemembers(gap: Time, a: seq<Step>, b: seq<Step>, g: string)
    requires KeepsReload(b) && Run(gap, a + b).Some?
    requires Run(gap, a).Some? ==> Run(gap, a).value.reload.Some? && g in Run(gap, a).value.reload.value.knows
    ensures Run(gap, a + b).value.reload.Some? && g in Run(gap, a + b).value.reload.value.knows
  {
    if b == [] {
      assert a + b == a;
    } else {
      var rest, step := b[..|b| - 1], b[|b| - 1];
      assert b == rest + [step] && a + b == (a + rest) + [step];
      RunSnoc(gap, a + rest, step);
      assert step in b && KeepsReload(rest);
      ReloadRemembers(gap, a, rest, g);
      StepRemembers(gap, Run(gap, a + rest).value, step, g);
    }
  }

  lemma StepRemembers(gap: Time, s: State, step: Step, g: string)
    requires Enabled(gap, s, step) && !step.Swap? && !step.LoadFails?
    requires s.reload.Some? && g in s.reload.value.knows
    ensures After(gap, s, step).reload.Some? && g in After(gap, s, step).reload.value.knows
  {
  }

  /** Lost notifications: once any reload begun after the revocation has swapped in, the grant is absent
      for good, however late the swap and whichever notifications were lost. */
  lemma ReloadAfterRevocationClears(gap: Time, before: seq<Step>, rows: seq<Row>, during: seq<Step>, later: seq<Step>, g: string)
    requires KeepsReload(during)
    requires Run(gap, before + [Snapshot(rows)] + during + [Swap] + later).Some?
    requires Run(gap, before).Some? ==> g in Run(gap, before).value.revoked
    ensures Absent(Run(gap, before + [Snapshot(rows)] + during + [Swap] + later).value.view.byToken, g)
  {
    var begun := before + [Snapshot(rows)];
    var ready := begun + during;
    var swapped := ready + [Swap];
    RunGrows(gap, swapped, later);
    RunSnoc(gap, ready, Swap);
    RunGrows(gap, begun, during);
    RunSnoc(gap, before, Snapshot(rows));
    ReloadRemembers(gap, begun, during, g);
    RunIsSound(gap, swapped + later);
  }

  // ---------- The cache refines the query ----------

  ghost predicate HashesIdentify(db: set<Row>) {
    forall r, q | r in db && q in db && r.tokenHash == q.tokenHash :: r == q
  }

  /** The maps are inverse to each other and hold exactly the accepted rows of the last snapshot swapped
      in, less those dropped since. */
  ghost predicate Exact(s: State) {
    && (forall r <- s.applied :: r in s.db)
    && s.gone <= s.removed
    && Inverse(s.view.byToken, s.view.tokenOf)
    && (forall k <- s.view.byToken :: s.view.byToken[k].grantId !in s.gone
          && exists r <- s.applied :: Accepts(r) && r.tokenHash == k && EntryOf(r) == s.view.byToken[k])
    && (forall r <- s.applied :: Accepts(r) && r.id !in s.gone ==>
          r.tokenHash in s.view.byToken && s.view.byToken[r.tokenHash] == EntryOf(r))
  }

  lemma ExactSwap(gap: Time, s: State)
    requires Sound(s) && Exact(s) && HashesIdentify(s.db) && Enabled(gap, s, Swap)
    requires NoDuplicates(s.reload.value.rows)
    ensures Exact(After(gap, s, Swap))
  {
    var rows := s.reload.value.rows;
    forall i, j | 0 <= i < j < |rows| ensures rows[i].tokenHash != rows[j].tokenHash {
      assert rows[i] in rows && rows[j] in rows;
    }
    InverseIffDistinctIds(rows);
    IndexHoldsEveryRow(rows);
    IndexFromRows(rows);
    WithoutKeeps(IndexByToken(rows), IndexById(rows), Live(s.view.tombstones, s.reload.value.clock.value).Keys);
  }

  lemma ExactDeliver(gap: Time, s: State, id: string)
    requires Sound(s) && Exact(s) && Enabled(gap, s, Deliver(id))
    ensures Exact(After(gap, s, Deliver(id)))
  {
    WithoutKeeps(s.view.byToken, s.view.tokenOf, {id});
  }

  lemma {:induction false} RunIsExact(gap: Time, steps: seq<Step>)
    requires Run(gap, steps).Some? && HashesIdentify(Run(gap, steps).value.db)
    ensures Exact(Run(gap, steps).value)
    ensures var load := Run(gap, steps).value.reload; load.Some? ==> NoDuplicates(load.value.rows)
  {
    if steps != [] {
      var rest, step := steps[..|steps| - 1], steps[|steps| - 1];
      assert rest + [step] == steps;
      RunGrows(gap, rest, [step]);
      RunIsExact(gap, rest);
      RunIsSound(gap, rest);
      var s := Run(gap, rest).value;
      match step
      case Swap => ExactSwap(gap, s);
      case Deliver(id) => ExactDeliver(gap, s, id);
      case _ =>
    }
  }

  /** A row in force: all its scopes are valid and targeted, and its expiry, if any, is still to come. */
  predicate InForce(r: Row, now: Time) {
    && (forall s <- r.scopes :: Scopes.Validate(s).Ok? && Scopes.Split(s).target.Some?)
    && (r.expiresAt.None? || now < r.expiresAt.value)
  }

  predicate Carries(e: Entry, r: Row) {
    && e.grantId == r.id && e.subject == r.subject && e.committerEmail == r.committerEmail
    && e.scopes == r.scopes && e.expiresAt == r.expiresAt
  }

  /** In every reachable state with distinct token hashes, a token finds an entry exactly when a row of the
      last applied snapshot carries it, is in force and has not been dropped, and then the entry has the
      fields of that row; only revoked grants are ever dropped, so an unrevoked one is found until it
      expires. */
  lemma LookupRefinesSnapshot(gap: Time, steps: seq<Step>, tokenHash: string, now: Time, r: Row)
    requires Run(gap, steps).Some? && HashesIdentify(Run(gap, steps).value.db)
    ensures var s := Run(gap, steps).value;
            var found := Found(s.view, tokenHash, now);
            && Inverse(s.view.byToken, s.view.tokenOf)
            && s.gone <= s.revoked
            && (found.Some? <==> exists q <- s.applied :: q.tokenHash == tokenHash && q.id !in s.gone && InForce(q, now))
            && (found.Some? ==> exists q <- s.applied :: q.tokenHash == tokenHash && InForce(q, now) && Carries(found.value, q))
            && (r in s.applied && r.tokenHash == tokenHash && r.id !in s.revoked && InForce(r, now) ==>
                  found.Some? && Carries(found.value, r))
  {
    RunIsExact(gap, steps);
    RunIsSound(gap, steps);
    var s := Run(gap, steps).value;
    if Found(s.view, tokenHash, now).Some? {
      var q :| q in s.applied && Accepts(q) && q.tokenHash == tokenHash && EntryOf(q) == s.view.byToken[tokenHash];
      InForceIff(q, now);
      assert q.id !in s.gone && Carries(s.view.byToken[tokenHash], q);
    }
    forall q <- s.applied | q.tokenHash == tokenHash && q.id !in s.gone && InForce(q, now)
      ensures Found(s.view, tokenHash, now) == Some(EntryOf(q))
    {
      InForceIff(q, now);
    }
  }

  lemma InForceIff(r: Row, now: Time)
    ensures InForce(r, now) <==> Accepts(r) && !Expired(r.expiresAt, now)
  {
  }
}
