/** One connection's poll loop, and the approver's queue as a replica of what it has announced. */
module EventStream {
  import opened Wrappers
  import opened Seqs
  import opened ApproverModel

  // ---------- One listing, turned into deltas ----------

  /** One pass over one kind: the pending rows listed, and for the ids gone from the listing the rows that
      could be fetched, in the order they were announced. */
  datatype Pass = Pass(listing: seq<Item>, resolved: seq<Item>)

  function Ids(items: seq<Item>): set<Id> {
    set i | 0 <= i < |items| :: items[i].id
  }

  function NewTo(seen: set<Id>): Item -> bool {
    (item: Item) => item.id !in seen
  }

  function AddedFrames(items: seq<Item>): seq<Frame> {
    seq(|items|, i requires 0 <= i < |items| => Added(items[i]))
  }

  function ResolvedFrames(items: seq<Item>): seq<Frame> {
    seq(|items|, i requires 0 <= i < |items| => Resolved(items[i]))
  }

  predicate DistinctIds(items: seq<Item>) {
    forall i, j | 0 <= i < j < |items| :: items[i].id != items[j].id
  }

  /** Listed rows have distinct ids, and what is announced resolved was seen and is listed no more. */
  predicate Fits(seen: set<Id>, p: Pass) {
    && DistinctIds(p.listing) && DistinctIds(p.resolved)
    && Ids(p.resolved) <= seen - Ids(p.listing)
  }

  function FramesOf(seen: set<Id>, p: Pass): seq<Frame> {
    AddedFrames(Filter(p.listing, NewTo(seen))) + ResolvedFrames(p.resolved)
  }

  /** Everything listed, and whatever has left the listing without being announced. */
  function SeenAfter(seen: set<Id>, p: Pass): set<Id> {
    Ids(p.listing) + (seen - Ids(p.resolved))
  }

  class Stream {
    var seenDiffs: set<Id>
    var seenRequests: set<Id>
    var warnedGrants: set<string>

    constructor ()
      ensures seenDiffs == {} && seenRequests == {} && warnedGrants == {}
    {
      seenDiffs, seenRequests, warnedGrants := {}, {}, {};
    }

    /** A listing that fails ends the poll, and with it the connection; a row that cannot be fetched keeps
        its id, to be tried again. `fetched` holds the rows that can be. */
    method Poll(diffs: Option<seq<Item>>, fetchedDiffs: map<Id, Item>, requests: Option<seq<Item>>,
                fetchedRequests: map<Id, Item>, expiring: Option<seq<string>>)
      returns (ok: bool, frames: seq<Frame>, ghost d: Pass, ghost r: Pass)
      requires diffs.Some? ==> DistinctIds(diffs.value)
      requires requests.Some? ==> DistinctIds(requests.value)
      requires forall id <- fetchedDiffs :: fetchedDiffs[id].id == id
      requires forall id <- fetchedRequests :: fetchedRequests[id].id == id
      modifies this
      ensures ok <==> diffs.Some? && requests.Some? && expiring.Some?
      ensures ok ==>
                && d.listing == diffs.value && Fits(old(seenDiffs), d)
                && Ids(d.resolved) == (old(seenDiffs) - Ids(diffs.value)) * fetchedDiffs.Keys
                && r.listing == requests.value && Fits(old(seenRequests), r)
                && Ids(r.resolved) == (old(seenRequests) - Ids(requests.value)) * fetchedRequests.Keys
                && seenDiffs == SeenAfter(old(seenDiffs), d) && seenRequests == SeenAfter(old(seenRequests), r)
                && frames == FramesOf(old(seenDiffs), d) + FramesOf(old(seenRequests), r)
                             + Warnings(old(warnedGrants), expiring.value)
                && warnedGrants == old(warnedGrants) + (set k | k in expiring.value)
    {
      ok, frames, d, r := false, [], Pass([], []), Pass([], []);
      if diffs.None? {
        return;
      }
      var sent, current, gone := PollKind(seenDiffs, diffs.value, fetchedDiffs);
      frames, d, seenDiffs := sent, gone, current;
      if requests.None? {
        return;
      }
      sent, current, gone := PollKind(seenRequests, requests.value, fetchedRequests);
      frames, r, seenRequests := frames + sent, gone, current;
      if expiring.None? {
        return;
      }
      ghost var before, warned := frames, warnedGrants;
      assert expiring.value[..0] == [] && before == before + Warnings(warned, []);
      for i := 0 to |expiring.value|
        invariant frames == before + Warnings(warned, expiring.value[..i])
        invariant warnedGrants == warned + (set k | k in expiring.value[..i])
        invariant seenDiffs == SeenAfter(old(seenDiffs), d) && seenRequests == SeenAfter(old(seenRequests), r)
      {
        var key := expiring.value[i];
        WarningsSnoc(warned, expiring.value[..i], key);
        assert expiring.value[..i + 1] == expiring.value[..i] + [key];
        if key !in warnedGrants {
          warnedGrants := warnedGrants + {key};
          frames := frames + [Expiring(key)];
        }
      }
      assert expiring.value[..|expiring.value|] == expiring.value;
      ok := true;
    }
  }

  /** Each key once, in order of first appearance, unless this connection has warned of it before. */
  function Warnings(warned: set<string>, keys: seq<string>): seq<Frame> {
    if keys == [] then []
    else
      var rest, key := keys[..|keys| - 1], keys[|keys| - 1];
      Warnings(warned, rest) + if key in warned || key in rest then [] else [Expiring(key)]
  }

  lemma WarningsSnoc(warned: set<string>, keys: seq<string>, key: string)
    ensures Warnings(warned, keys + [key]) == Warnings(warned, keys) + if key in warned || key in keys then [] else [Expiring(key)]
  {
    assert (keys + [key])[..|keys|] == keys;
  }

  method PollKind(seen: set<Id>, listing: seq<Item>, fetched: map<Id, Item>)
    returns (frames: seq<Frame>, current: set<Id>, ghost p: Pass)
    requires DistinctIds(listing) && forall id <- fetched :: fetched[id].id == id
    ensures p.listing == listing && Fits(seen, p)
    ensures Ids(p.resolved) == (seen - Ids(listing)) * fetched.Keys
    ensures frames == FramesOf(seen, p)
    ensures current == SeenAfter(seen, p)
  {
    var added, listed := AnnounceNew(seen, listing);
    var gone, kept, resolved := AnnounceGone(seen, listed, fetched);
    frames, current := added + gone, kept;
    p := Pass(listing, resolved);
  }

  method AnnounceNew(seen: set<Id>, listing: seq<Item>) returns (frames: seq<Frame>, current: set<Id>)
    ensures frames == AddedFrames(Filter(listing, NewTo(seen)))
    ensures current == Ids(listing)
  {
    frames, current := [], {};
    for i := 0 to |listing|
      invariant frames == AddedFrames(Filter(listing[..i], NewTo(seen)))
      invariant current == Ids(listing[..i])
    {
      var item := listing[i];
      FilterSnoc(listing[..i], item, NewTo(seen));
      assert listing[..i + 1] == listing[..i] + [item];
      IdsSnoc(listing[..i], item);
      current := current + {item.id};
      if item.id !in seen {
        frames := frames + [Added(item)];
      }
    }
    assert listing[..|listing|] == listing;
  }

  /** The seen ids no longer listed, in whatever order the map yields them. */
  method AnnounceGone(seen: set<Id>, listed: set<Id>, fetched: map<Id, Item>)
    returns (frames: seq<Frame>, current: set<Id>, ghost resolved: seq<Item>)
    requires forall id <- fetched :: fetched[id].id == id
    ensures DistinctIds(resolved) && Ids(resolved) == (seen - listed) * fetched.Keys
    ensures frames == ResolvedFrames(resolved)
    ensures current == listed + (seen - Ids(resolved))
  {
    frames, current, resolved := [], listed, [];
    var left := seen;
    while left != {}
      invariant left <= seen
      invariant DistinctIds(resolved)
      invariant Ids(resolved) == (seen - left - listed) * fetched.Keys
      invariant current == listed + (seen - left - Ids(resolved))
      invariant frames == ResolvedFrames(resolved)
      decreases left
    {
      var id :| id in left;
      left := left - {id};
      if id in current {
        continue;
      }
      if id !in fetched {
        current := current + {id};
        continue;
      }
      ResolvedSnoc(resolved, fetched[id]);
      frames := frames + [Resolved(fetched[id])];
      resolved := resolved + [fetched[id]];
    }
  }

  lemma ResolvedSnoc(resolved: seq<Item>, item: Item)
    requires DistinctIds(resolved) && item.id !in Ids(resolved)
    ensures DistinctIds(resolved + [item]) && Ids(resolved + [item]) == Ids(resolved) + {item.id}
    ensures ResolvedFrames(resolved + [item]) == ResolvedFrames(resolved) + [Resolved(item)]
  {
    IdsSnoc(resolved, item);
    forall i | 0 <= i < |resolved| ensures resolved[i].id != item.id {
      assert resolved[i].id in Ids(resolved);
    }
  }

  lemma IdsSnoc(items: seq<Item>, item: Item)
    ensures Ids(items + [item]) == Ids(items) + {item.id}
  {
    var longer := items + [item];
    forall id | id in Ids(items) ensures id in Ids(longer) {
      var i :| 0 <= i < |items| && items[i].id == id;
      assert longer[i].id == id;
    }
    assert longer[|items|].id == item.id;
  }
}
