/** The approver's queue follows the server: what folding a connection's frames leaves in it. */
module Replica {
  import opened Wrappers
  import opened Seqs
  import opened ApproverModel
  import opened EventStream

  // ---------- Rounds of one connection ----------

  datatype Round = Round(diffs: Pass, requests: Pass, expiring: seq<string>)

  datatype Conn = Conn(seenDiffs: set<Id>, seenRequests: set<Id>, warned: set<string>, frames: seq<Frame>)

  /** A connection after its completed polls: nothing seen at first, and a ready frame after the first poll. */
  function After(rounds: seq<Round>): Conn {
    if rounds == [] then Conn({}, {}, {}, [])
    else
      var c, r := After(rounds[..|rounds| - 1]), rounds[|rounds| - 1];
      Conn(SeenAfter(c.seenDiffs, r.diffs), SeenAfter(c.seenRequests, r.requests), c.warned + (set k | k in r.expiring),
           c.frames + FramesOf(c.seenDiffs, r.diffs) + FramesOf(c.seenRequests, r.requests)
             + Tail(c, r, |rounds| == 1))
  }

  /** Diffs and requests never share an id. */
  predicate AllOfKind(kindOf: Id -> Kind, ids: set<Id>, kind: Kind) {
    forall id <- ids :: kindOf(id) == kind
  }

  /** Every poll is one the loop can make. */
  predicate Possible(kindOf: Id -> Kind, rounds: seq<Round>) {
    rounds == []
    || (var c, r := After(rounds[..|rounds| - 1]), rounds[|rounds| - 1];
        && Possible(kindOf, rounds[..|rounds| - 1])
        && Fits(c.seenDiffs, r.diffs) && Fits(c.seenRequests, r.requests)
        && AllOfKind(kindOf, Ids(r.diffs.listing), Diff) && AllOfKind(kindOf, Ids(r.requests.listing), Request))
  }

  // ---------- Folding frames into a queue ----------

  function Keys(q: Queue): set<Id> {
    q.items.Keys
  }

  lemma {:induction false} FoldAdded(q: Queue, items: seq<Item>)
    requires Valid(q)
    ensures Keys(Folded(q, AddedFrames(items))) == Keys(q) + Ids(items)
  {
    var frames := AddedFrames(items);
    if items != [] {
      var rest, item := items[..|items| - 1], items[|items| - 1];
      assert frames[..|frames| - 1] == AddedFrames(rest) && items == rest + [item];
      FoldAdded(q, rest);
      AddKeepsQueue(Folded(q, AddedFrames(rest)), item);
      IdsSnoc(rest, item);
    }
  }

  lemma {:induction false} FoldResolved(q: Queue, items: seq<Item>)
    requires Valid(q)
    ensures Keys(Folded(q, ResolvedFrames(items))) == Keys(q) - Ids(items)
  {
    var frames := ResolvedFrames(items);
    if items != [] {
      var rest, item := items[..|items| - 1], items[|items| - 1];
      assert frames[..|frames| - 1] == ResolvedFrames(rest) && items == rest + [item];
      FoldResolved(q, rest);
      RemoveKeepsQueue(Folded(q, ResolvedFrames(rest)), item.id);
      IdsSnoc(rest, item);
    }
  }

  lemma {:induction false} FoldOther(q: Queue, frames: seq<Frame>)
    requires Valid(q) && forall f <- frames :: f.Expiring? || f.Ready?
    ensures Folded(q, frames) == q
  {
    if frames != [] {
      FoldOther(q, frames[..|frames| - 1]);
      assert frames[|frames| - 1] in frames;
    }
  }

  lemma {:induction false} WarningsAreWarnings(warned: set<string>, keys: seq<string>)
    ensures forall f <- Warnings(warned, keys) :: f.Expiring?
  {
    if keys != [] {
      WarningsAreWarnings(warned, keys[..|keys| - 1]);
    }
  }

  lemma NewIds(listing: seq<Item>, seen: set<Id>)
    ensures Ids(Filter(listing, NewTo(seen))) == Ids(listing) - seen
  {
    var unseen := Filter(listing, NewTo(seen));
    forall id | id in Ids(listing) - seen ensures id in Ids(unseen) {
      var i :| 0 <= i < |listing| && listing[i].id == id;
      assert listing[i] in listing && listing[i] in unseen;
    }
    forall id | id in Ids(unseen) ensures id in Ids(listing) - seen {
      var i :| 0 <= i < |unseen| && unseen[i].id == id;
      assert unseen[i] in unseen;
    }
  }

  /** One pass moves the queue by exactly the difference it moves the seen set. */
  lemma FoldPass(q: Queue, seen: set<Id>, p: Pass)
    requires Valid(q) && Fits(seen, p)
    ensures Keys(Folded(q, FramesOf(seen, p))) == Keys(q) + (Ids(p.listing) - seen) - Ids(p.resolved)
  {
    var unseen := Filter(p.listing, NewTo(seen));
    FoldedAppend(q, AddedFrames(unseen), ResolvedFrames(p.resolved));
    FoldAdded(q, unseen);
    NewIds(p.listing, seen);
    FoldResolved(Folded(q, AddedFrames(unseen)), p.resolved);
  }

  /** One round, on a queue that holds at least what was seen. */
  lemma FoldRound(q: Queue, c: Conn, r: Round, tail: seq<Frame>)
    requires Valid(q) && Fits(c.seenDiffs, r.diffs) && Fits(c.seenRequests, r.requests)
    requires c.seenDiffs !! c.seenRequests && Ids(r.diffs.listing) !! c.seenRequests && Ids(r.requests.listing) !! c.seenDiffs
    requires Ids(r.diffs.listing) !! Ids(r.requests.listing)
    requires forall f <- tail :: f.Expiring? || f.Ready?
    requires c.seenDiffs + c.seenRequests <= Keys(q)
    ensures var r1 := Folded(q, FramesOf(c.seenDiffs, r.diffs) + FramesOf(c.seenRequests, r.requests) + tail);
            && SeenAfter(c.seenDiffs, r.diffs) + SeenAfter(c.seenRequests, r.requests) <= Keys(r1)
            && (Keys(q) == c.seenDiffs + c.seenRequests ==>
                  Keys(r1) == SeenAfter(c.seenDiffs, r.diffs) + SeenAfter(c.seenRequests, r.requests))
  {
    FoldPasses(q, c.seenDiffs, r.diffs, c.seenRequests, r.requests, tail);
    RoundSets(Keys(q), c.seenDiffs, Ids(r.diffs.listing), Ids(r.diffs.resolved),
              c.seenRequests, Ids(r.requests.listing), Ids(r.requests.resolved));
  }

  lemma FoldPasses(q: Queue, seen: set<Id>, p: Pass, others: set<Id>, o: Pass, tail: seq<Frame>)
    requires Valid(q) && Fits(seen, p) && Fits(others, o) && forall f <- tail :: f.Expiring? || f.Ready?
    ensures Keys(Folded(q, FramesOf(seen, p) + FramesOf(others, o) + tail))
         == Keys(q) + (Ids(p.listing) - seen) - Ids(p.resolved) + (Ids(o.listing) - others) - Ids(o.resolved)
  {
    var d, e := FramesOf(seen, p), FramesOf(others, o);
    FoldedAppend(q, d + e, tail);
    FoldedAppend(q, d, e);
    FoldPass(q, seen, p);
    FoldPass(Folded(q, d), others, o);
    FoldOther(Folded(q, d + e), tail);
  }

  lemma RoundSets(keys: set<Id>, seen: set<Id>, listed: set<Id>, gone: set<Id>, others: set<Id>, listed': set<Id>, gone': set<Id>)
    requires seen !! others && listed !! others && listed' !! seen && listed !! listed'
    requires gone <= seen - listed && gone' <= others - listed' && seen + others <= keys
    ensures var after := keys + (listed - seen) - gone + (listed' - others) - gone';
            && (listed + (seen - gone)) + (listed' + (others - gone')) <= after
            && (keys == seen + others ==> after == (listed + (seen - gone)) + (listed' + (others - gone')))
  {
  }

  lemma {:induction false} SeenAreSorted(kindOf: Id -> Kind, rounds: seq<Round>)
    requires Possible(kindOf, rounds)
    ensures AllOfKind(kindOf, After(rounds).seenDiffs, Diff) && AllOfKind(kindOf, After(rounds).seenRequests, Request)
  {
    if rounds != [] {
      SeenAreSorted(kindOf, rounds[..|rounds| - 1]);
    }
  }

  function Tail(c: Conn, r: Round, first: bool): seq<Frame> {
    Warnings(c.warned, r.expiring) + if first then [Ready] else []
  }

  lemma TailIsOther(c: Conn, r: Round, first: bool)
    ensures forall f <- Tail(c, r, first) :: f.Expiring? || f.Ready?
  {
    WarningsAreWarnings(c.warned, r.expiring);
  }

  lemma RoundStep(q: Queue, c: Conn, r: Round, tail: seq<Frame>)
    requires Valid(q) && Fits(c.seenDiffs, r.diffs) && Fits(c.seenRequests, r.requests)
    requires c.seenDiffs !! c.seenRequests && Ids(r.diffs.listing) !! c.seenRequests && Ids(r.requests.listing) !! c.seenDiffs
    requires Ids(r.diffs.listing) !! Ids(r.requests.listing)
    requires forall f <- tail :: f.Expiring? || f.Ready?
    requires c.seenDiffs + c.seenRequests <= Keys(Folded(q, c.frames))
    ensures var keys := Keys(Folded(q, c.frames + FramesOf(c.seenDiffs, r.diffs) + FramesOf(c.seenRequests, r.requests) + tail));
            && SeenAfter(c.seenDiffs, r.diffs) + SeenAfter(c.seenRequests, r.requests) <= keys
            && (Keys(Folded(q, c.frames)) == c.seenDiffs + c.seenRequests ==>
                  keys == SeenAfter(c.seenDiffs, r.diffs) + SeenAfter(c.seenRequests, r.requests))
  {
    var d, e := FramesOf(c.seenDiffs, r.diffs), FramesOf(c.seenRequests, r.requests);
    var base := Folded(q, c.frames);
    FoldRound(base, c, r, tail);
    FoldedAppend(q, c.frames, d + e + tail);
    Regroup(c.frames, d, e, tail);
  }

  lemma Regroup(a: seq<Frame>, b: seq<Frame>, c: seq<Frame>, d: seq<Frame>)
    ensures a + b + c + d == a + (b + c + d)
  {
  }

  /** After every completed poll, folding all frames of the connection so far into an empty queue leaves
      exactly the ids in the seen sets: the listed pending ids and those whose row could not be fetched.
      Into a queue left by earlier connections it leaves at least those. */
  lemma {:induction false} ReplicaAgrees(kindOf: Id -> Kind, q: Queue, rounds: seq<Round>)
    requires Possible(kindOf, rounds) && Valid(q)
    ensures After(rounds).seenDiffs + After(rounds).seenRequests <= Keys(Folded(q, After(rounds).frames))
    ensures q == EMPTY ==> Keys(Folded(q, After(rounds).frames)) == After(rounds).seenDiffs + After(rounds).seenRequests
  {
    if rounds != [] {
      var rest, r := rounds[..|rounds| - 1], rounds[|rounds| - 1];
      ReplicaAgrees(kindOf, q, rest);
      SeenAreSorted(kindOf, rest);
      Disjoint(kindOf, After(rest), r);
      TailIsOther(After(rest), r, |rounds| == 1);
      RoundStep(q, After(rest), r, Tail(After(rest), r, |rounds| == 1));
    }
  }

  lemma Disjoint(kindOf: Id -> Kind, c: Conn, r: Round)
    requires AllOfKind(kindOf, c.seenDiffs, Diff) && AllOfKind(kindOf, c.seenRequests, Request)
    requires AllOfKind(kindOf, Ids(r.diffs.listing), Diff) && AllOfKind(kindOf, Ids(r.requests.listing), Request)
    ensures c.seenDiffs !! c.seenRequests && Ids(r.diffs.listing) !! c.seenRequests && Ids(r.requests.listing) !! c.seenDiffs
    ensures Ids(r.diffs.listing) !! Ids(r.requests.listing)
  {
  }

  // ---------- Added and resolved alternate ----------

  /** Reads one id's frames as an alternation that starts with added: whether the id is announced at the
      end, or nothing if the alternation was broken. */
  function Announced(frames: seq<Frame>, id: Id): Option<bool> {
    if frames == [] then Some(false)
    else
      var before, f := Announced(frames[..|frames| - 1], id), frames[|frames| - 1];
      match f
      case Added(item) => if item.id != id then before else if before == Some(false) then Some(true) else None
      case Resolved(item) => if item.id != id then before else if before == Some(true) then Some(false) else None
      case _ => before
  }

  lemma AnnouncedSnoc(frames: seq<Frame>, f: Frame, id: Id)
    ensures Announced(frames + [f], id)
         == match f
            case Added(item) =>
              if item.id != id then Announced(frames, id) else if Announced(frames, id) == Some(false) then Some(true) else None
            case Resolved(item) =>
              if item.id != id then Announced(frames, id) else if Announced(frames, id) == Some(true) then Some(false) else None
            case _ => Announced(frames, id)
  {
    assert (frames + [f])[..|frames|] == frames;
  }

  lemma {:induction false} AnnounceAll(frames: seq<Frame>, items: seq<Item>, id: Id)
    requires DistinctIds(items) && (id in Ids(items) ==> Announced(frames, id) == Some(false))
    ensures Announced(frames + AddedFrames(items), id) == if id in Ids(items) then Some(true) else Announced(frames, id)
  {
    if items == [] {
      assert frames + AddedFrames(items) == frames;
    } else {
      var rest, item := items[..|items| - 1], items[|items| - 1];
      assert items == rest + [item];
      IdsSnoc(rest, item);
      LastIsNew(rest, item);
      AnnounceAll(frames, rest, id);
      assert frames + AddedFrames(items) == (frames + AddedFrames(rest)) + [Added(item)];
      AnnouncedSnoc(frames + AddedFrames(rest), Added(item), id);
    }
  }

  lemma LastIsNew(rest: seq<Item>, item: Item)
    requires DistinctIds(rest + [item])
    ensures DistinctIds(rest) && item.id !in Ids(rest)
  {
    var all := rest + [item];
    forall i | 0 <= i < |rest| ensures rest[i].id != item.id {
      assert all[i].id != all[|rest|].id;
    }
    forall i, j | 0 <= i < j < |rest| ensures rest[i].id != rest[j].id {
      assert all[i].id != all[j].id;
    }
  }

  lemma {:induction false} ResolveAll(frames: seq<Frame>, items: seq<Item>, id: Id)
    requires DistinctIds(items) && (id in Ids(items) ==> Announced(frames, id) == Some(true))
    ensures Announced(frames + ResolvedFrames(items), id) == if id in Ids(items) then Some(false) else Announced(frames, id)
  {
    if items == [] {
      assert frames + ResolvedFrames(items) == frames;
    } else {
      var rest, item := items[..|items| - 1], items[|items| - 1];
      assert items == rest + [item];
      IdsSnoc(rest, item);
      LastIsNew(rest, item);
      ResolveAll(frames, rest, id);
      assert frames + ResolvedFrames(items) == (frames + ResolvedFrames(rest)) + [Resolved(item)];
      AnnouncedSnoc(frames + ResolvedFrames(rest), Resolved(item), id);
    }
  }

  lemma {:induction false} OthersAnnounceNothing(frames: seq<Frame>, tail: seq<Frame>, id: Id)
    requires forall f <- tail :: f.Expiring? || f.Ready?
    ensures Announced(frames + tail, id) == Announced(frames, id)
  {
    if tail == [] {
      assert frames + tail == frames;
    } else {
      var rest, f := tail[..|tail| - 1], tail[|tail| - 1];
      assert f in tail;
      OthersAnnounceNothing(frames, rest, id);
      assert frames + tail == (frames + rest) + [f];
      AnnouncedSnoc(frames + rest, f, id);
    }
  }

  lemma {:induction false} FilterStaysDistinct(items: seq<Item>, keep: Item -> bool)
    requires DistinctIds(items)
    ensures DistinctIds(Filter(items, keep)) && Ids(Filter(items, keep)) <= Ids(items)
  {
    if items != [] {
      var rest, item := items[..|items| - 1], items[|items| - 1];
      assert items == rest + [item];
      LastIsNew(rest, item);
      IdsSnoc(rest, item);
      FilterStaysDistinct(rest, keep);
      FilterSnoc(rest, item, keep);
      var kept := Filter(rest, keep);
      forall i | 0 <= i < |kept| ensures kept[i].id != item.id {
        assert kept[i].id in Ids(kept);
      }
      IdsSnoc(kept, item);
      assert kept + [] == kept;
    }
  }

  /** One pass over one kind: an id of the other kind is not mentioned. */
  lemma PassAlternates(frames: seq<Frame>, seen: set<Id>, p: Pass, id: Id)
    requires Fits(seen, p)
    requires id in Ids(p.listing) + seen ==> Announced(frames, id) == Some(id in seen)
    ensures Announced(frames + FramesOf(seen, p), id)
         == if id in Ids(p.listing) + seen then Some(id in SeenAfter(seen, p)) else Announced(frames, id)
  {
    var unseen := Filter(p.listing, NewTo(seen));
    NewIds(p.listing, seen);
    FilterStaysDistinct(p.listing, NewTo(seen));
    AnnounceAll(frames, unseen, id);
    ResolveAll(frames + AddedFrames(unseen), p.resolved, id);
    assert frames + FramesOf(seen, p) == (frames + AddedFrames(unseen)) + ResolvedFrames(p.resolved);
  }

  /** On one connection each id's frames strictly alternate added, resolved, added, and so on, and the last
      was added exactly for the ids still in the seen sets. */
  lemma {:induction false} AddedAndResolvedAlternate(kindOf: Id -> Kind, rounds: seq<Round>, id: Id)
    requires Possible(kindOf, rounds)
    ensures Announced(After(rounds).frames, id) == Some(id in After(rounds).seenDiffs + After(rounds).seenRequests)
  {
    if rounds != [] {
      var rest, r := rounds[..|rounds| - 1], rounds[|rounds| - 1];
      AddedAndResolvedAlternate(kindOf, rest, id);
      SeenAreSorted(kindOf, rest);
      RoundAlternates(kindOf, After(rest), r, |rounds| == 1, id);
    }
  }

  lemma RoundAlternates(kindOf: Id -> Kind, c: Conn, r: Round, first: bool, id: Id)
    requires Fits(c.seenDiffs, r.diffs) && Fits(c.seenRequests, r.requests)
    requires AllOfKind(kindOf, c.seenDiffs, Diff) && AllOfKind(kindOf, c.seenRequests, Request)
    requires AllOfKind(kindOf, Ids(r.diffs.listing), Diff) && AllOfKind(kindOf, Ids(r.requests.listing), Request)
    requires Announced(c.frames, id) == Some(id in c.seenDiffs + c.seenRequests)
    ensures Announced(c.frames + FramesOf(c.seenDiffs, r.diffs) + FramesOf(c.seenRequests, r.requests) + Tail(c, r, first), id)
         == Some(id in SeenAfter(c.seenDiffs, r.diffs) + SeenAfter(c.seenRequests, r.requests))
  {
    Disjoint(kindOf, c, r);
    PassAlternates(c.frames, c.seenDiffs, r.diffs, id);
    PassAlternates(c.frames + FramesOf(c.seenDiffs, r.diffs), c.seenRequests, r.requests, id);
    TailIsOther(c, r, first);
    OthersAnnounceNothing(c.frames + FramesOf(c.seenDiffs, r.diffs) + FramesOf(c.seenRequests, r.requests), Tail(c, r, first), id);
  }

  // ---------- Warnings ----------

  function WarnsOf(key: string): Frame -> bool {
    (f: Frame) => f == Expiring(key)
  }

  lemma {:induction false} WarningsCount(warned: set<string>, keys: seq<string>, key: string)
    ensures |Filter(Warnings(warned, keys), WarnsOf(key))| == if key in keys && key !in warned then 1 else 0
  {
    if keys == [] {
      assert Filter<Frame>([], WarnsOf(key)) == [];
    } else {
      var rest, last := keys[..|keys| - 1], keys[|keys| - 1];
      WarningsCount(warned, rest, key);
      assert keys == rest + [last];
      if !(last in warned || last in rest) {
        FilterSnoc(Warnings(warned, rest), Expiring(last), WarnsOf(key));
      } else {
        assert Warnings(warned, rest) + [] == Warnings(warned, rest);
      }
    }
  }

  lemma QuietFrames(frames: seq<Frame>, key: string)
    requires forall f <- frames :: !f.Expiring?
    ensures Filter(frames, WarnsOf(key)) == []
  {
    FilterNone(frames, WarnsOf(key));
  }

  /** One connection warns of each grant and expiry at most once, and of each that a completed poll listed. */
  lemma {:induction false} EachExpiryWarnedOnce(rounds: seq<Round>, key: string)
    ensures |Filter(After(rounds).frames, WarnsOf(key))| == if key in After(rounds).warned then 1 else 0
  {
    if rounds == [] {
      assert Filter<Frame>([], WarnsOf(key)) == [];
    } else {
      var c, r := After(rounds[..|rounds| - 1]), rounds[|rounds| - 1];
      EachExpiryWarnedOnce(rounds[..|rounds| - 1], key);
      WarnedInRound(c.frames, FramesOf(c.seenDiffs, r.diffs), FramesOf(c.seenRequests, r.requests),
                    Warnings(c.warned, r.expiring), if |rounds| == 1 then [Ready] else [], key);
      WarningsCount(c.warned, r.expiring, key);
    }
  }

  lemma WarnedInRound(before: seq<Frame>, d: seq<Frame>, e: seq<Frame>, warnings: seq<Frame>, tail: seq<Frame>, key: string)
    requires forall f <- d + e + tail :: !f.Expiring?
    ensures |Filter(before + d + e + (warnings + tail), WarnsOf(key))|
         == |Filter(before, WarnsOf(key))| + |Filter(warnings, WarnsOf(key))|
  {
    forall f | f in d || f in e || f in tail ensures !f.Expiring? {
      assert f in d + e + tail;
    }
    QuietFrames(d, key);
    QuietFrames(e, key);
    QuietFrames(tail, key);
    FilterAppend(before + d + e, warnings + tail, WarnsOf(key));
    FilterAppend(warnings, tail, WarnsOf(key));
    FilterAppend(before + d, e, WarnsOf(key));
    FilterAppend(before, d, WarnsOf(key));
  }
}
