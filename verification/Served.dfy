/** The handler that polls and sends, and what the approver is shown of it. */
module Served {
  import opened Wrappers
  import opened Seqs
  import opened ApproverModel
  import opened EventStream
  import opened Replica

  /** What the database answers the statements of one poll. */
  datatype Answers = Answers(diffs: Option<seq<Item>>, fetchedDiffs: map<Id, Item>, requests: Option<seq<Item>>,
                             fetchedRequests: map<Id, Item>, expiring: Option<seq<string>>)

  predicate Completes(a: Answers) {
    a.diffs.Some? && a.requests.Some? && a.expiring.Some?
  }

  /** A listing has each row once and rows of its kind alone; a row is fetched by its id. */
  predicate Plausible(kindOf: Id -> Kind, a: Answers) {
    && (a.diffs.Some? ==> DistinctIds(a.diffs.value) && AllOfKind(kindOf, Ids(a.diffs.value), Diff))
    && (a.requests.Some? ==> DistinctIds(a.requests.value) && AllOfKind(kindOf, Ids(a.requests.value), Request))
    && (forall id <- a.fetchedDiffs :: a.fetchedDiffs[id].id == id)
    && (forall id <- a.fetchedRequests :: a.fetchedRequests[id].id == id)
  }

  predicate Answered(r: Round, a: Answers) {
    && Completes(a)
    && r.diffs.listing == a.diffs.value && r.requests.listing == a.requests.value && r.expiring == a.expiring.value
  }

  ghost predicate Tracks(stream: Stream, c: Conn)
    reads stream
  {
    stream.seenDiffs == c.seenDiffs && stream.seenRequests == c.seenRequests && stream.warnedGrants == c.warned
  }

  ghost function Following(c: Conn, r: Round, first: bool): Conn {
    Conn(SeenAfter(c.seenDiffs, r.diffs), SeenAfter(c.seenRequests, r.requests), c.warned + (set k | k in r.expiring),
         c.frames + (FramesOf(c.seenDiffs, r.diffs) + FramesOf(c.seenRequests, r.requests) + Warnings(c.warned, r.expiring))
           + (if first then [Ready] else []))
  }

  lemma AfterSnoc(kindOf: Id -> Kind, rounds: seq<Round>, r: Round)
    requires Possible(kindOf, rounds)
    requires Fits(After(rounds).seenDiffs, r.diffs) && Fits(After(rounds).seenRequests, r.requests)
    requires AllOfKind(kindOf, Ids(r.diffs.listing), Diff) && AllOfKind(kindOf, Ids(r.requests.listing), Request)
    ensures Possible(kindOf, rounds + [r])
    ensures After(rounds + [r]) == Following(After(rounds), r, rounds == [])
  {
    assert (rounds + [r])[..|rounds|] == rounds;
    var c := After(rounds);
    RegroupTail(c.frames, FramesOf(c.seenDiffs, r.diffs), FramesOf(c.seenRequests, r.requests),
                Warnings(c.warned, r.expiring), if rounds == [] then [Ready] else []);
  }

  lemma RegroupTail(a: seq<Frame>, b: seq<Frame>, c: seq<Frame>, d: seq<Frame>, e: seq<Frame>)
    ensures a + b + c + (d + e) == a + (b + c + d) + e
  {
  }

  /** The frames sent in completed polls are those of a possible connection, whose rounds answer the polls
      in turn. */
  ghost predicate Sent(kindOf: Id -> Kind, polls: seq<Answers>, frames: seq<Frame>, rounds: seq<Round>) {
    Possible(kindOf, rounds) && frames == After(rounds).frames && InTurn(polls, rounds)
  }

  predicate InTurn(polls: seq<Answers>, rounds: seq<Round>) {
    |rounds| <= |polls| && forall i | 0 <= i < |rounds| :: Answered(rounds[i], polls[i])
  }

  lemma InTurnSnoc(polls: seq<Answers>, rounds: seq<Round>, r: Round)
    requires InTurn(polls, rounds) && |rounds| < |polls| && Answered(r, polls[|rounds|])
    ensures InTurn(polls, rounds + [r])
  {
  }

  lemma SentSnoc(kindOf: Id -> Kind, polls: seq<Answers>, before: seq<Frame>, rounds: seq<Round>, r: Round)
    requires Sent(kindOf, polls, before, rounds) && |rounds| < |polls| && Answered(r, polls[|rounds|])
    requires Plausible(kindOf, polls[|rounds|])
    requires Fits(After(rounds).seenDiffs, r.diffs) && Fits(After(rounds).seenRequests, r.requests)
    ensures After(rounds + [r]) == Following(After(rounds), r, rounds == [])
    ensures Sent(kindOf, polls, After(rounds + [r]).frames, rounds + [r])
  {
    AfterSnoc(kindOf, rounds, r);
    InTurnSnoc(polls, rounds, r);
  }

  /** One poll, as one more round of the connection; the first is followed by the ready frame. */
  method Next(ghost kindOf: Id -> Kind, stream: Stream, polls: seq<Answers>, i: nat, before: seq<Frame>,
              ghost rounds: seq<Round>)
    returns (ok: bool, frames: seq<Frame>, ghost more: seq<Round>)
    requires Sent(kindOf, polls, before, rounds) && Tracks(stream, After(rounds))
    requires i == |rounds| < |polls| && Plausible(kindOf, polls[i])
    modifies stream
    ensures ok <==> Completes(polls[i])
    ensures ok ==> |more| == i + 1 && Sent(kindOf, polls, frames, more) && Tracks(stream, After(more))
  {
    var a := polls[i];
    ghost var d, r;
    ok, frames, d, r := stream.Poll(a.diffs, a.fetchedDiffs, a.requests, a.fetchedRequests, a.expiring);
    more := rounds;
    if ok {
      ghost var done := Round(d, r, a.expiring.value);
      SentSnoc(kindOf, polls, before, rounds, done);
      frames, more := before + frames + (if i == 0 then [Ready] else []), rounds + [done];
    }
  }

  /** The handler polls, says it is ready after its first poll, and polls on until a listing fails. By then it
      has sent in completed polls the frames of a possible connection, so what is proved of those holds of it. */
  method Serve(ghost kindOf: Id -> Kind, polls: seq<Answers>)
    returns (stream: Stream, frames: seq<Frame>, ghost rounds: seq<Round>)
    requires forall a <- polls :: Plausible(kindOf, a)
    ensures Sent(kindOf, polls, frames, rounds)
    ensures |rounds| < |polls| ==> !Completes(polls[|rounds|])
    ensures |rounds| == |polls| ==> Tracks(stream, After(rounds))
  {
    frames, rounds := [], [];
    stream := new Stream();
    for i := 0 to |polls|
      invariant fresh(stream) && |rounds| == i && Sent(kindOf, polls, frames, rounds) && Tracks(stream, After(rounds))
    {
      var ok, sent, more := Next(kindOf, stream, polls, i, frames, rounds);
      if !ok {
        return;
      }
      frames, rounds := sent, more;
    }
  }

  // ---------- What is shown ----------

  function Shown(q: Queue, id: Id): Option<Item> {
    if id in q.items then Some(q.items[id]) else None
  }

  predicate Silent(frames: seq<Frame>, id: Id) {
    forall f <- frames :: f.Added? || f.Resolved? ==> f.item.id != id
  }

  lemma {:induction false} SilentShows(q: Queue, frames: seq<Frame>, id: Id)
    requires Valid(q) && Silent(frames, id)
    ensures Shown(Folded(q, frames), id) == Shown(q, id)
  {
    if frames != [] {
      var rest, f := frames[..|frames| - 1], frames[|frames| - 1];
      assert f in frames;
      SilentShows(q, rest, id);
    }
  }

  /** The frames of a pass say nothing of an id that is neither newly listed nor resolved. */
  lemma SilentPass(seen: set<Id>, p: Pass, id: Id)
    requires Fits(seen, p) && id !in Ids(p.listing) - seen && id !in Ids(p.resolved)
    ensures Silent(FramesOf(seen, p), id)
  {
    var unseen := Filter(p.listing, NewTo(seen));
    NewIds(p.listing, seen);
    forall f <- FramesOf(seen, p) ensures f.item.id != id {
      if i :| 0 <= i < |unseen| && f == Added(unseen[i]) {
        assert unseen[i].id in Ids(unseen);
      } else {
        var j :| 0 <= j < |p.resolved| && f == Resolved(p.resolved[j]);
        assert p.resolved[j].id in Ids(p.resolved);
      }
    }
  }

  lemma {:induction false} AddedShows(q: Queue, items: seq<Item>, i: nat)
    requires Valid(q) && DistinctIds(items) && i < |items|
    ensures Shown(Folded(q, AddedFrames(items)), items[i].id) == Some(items[i])
  {
    var rest, last := items[..|items| - 1], items[|items| - 1];
    AddedSnoc(q, rest, last);
    assert items == rest + [last];
    if i < |rest| {
      assert rest[i] == items[i] && items[i].id != last.id;
      LastIsNew(rest, last);
      AddedShows(q, rest, i);
    }
  }

  lemma AddedSnoc(q: Queue, rest: seq<Item>, last: Item)
    requires Valid(q)
    ensures Folded(q, AddedFrames(rest + [last])) == Upserted(Folded(q, AddedFrames(rest)), last)
  {
    var frames := AddedFrames(rest + [last]);
    assert frames[..|frames| - 1] == AddedFrames(rest);
  }

  /** A newly listed row is shown as listed. */
  lemma NewRowShows(q: Queue, seen: set<Id>, p: Pass, id: Id) returns (item: Item)
    requires Valid(q) && Fits(seen, p) && id in Ids(p.listing) - seen
    ensures item in p.listing && item.id == id && Shown(Folded(q, FramesOf(seen, p)), id) == Some(item)
  {
    var unseen := Filter(p.listing, NewTo(seen));
    NewIds(p.listing, seen);
    FilterStaysDistinct(p.listing, NewTo(seen));
    var i :| 0 <= i < |unseen| && unseen[i].id == id;
    item := unseen[i];
    assert item in unseen;
    AddedShows(q, unseen, i);
    FoldedAppend(q, AddedFrames(unseen), ResolvedFrames(p.resolved));
    SilentShows(Folded(q, AddedFrames(unseen)), ResolvedFrames(p.resolved), id);
  }

  function Seen(c: Conn): set<Id> {
    c.seenDiffs + c.seenRequests
  }

  predicate Listed(r: Round, item: Item) {
    item in r.diffs.listing || item in r.requests.listing
  }

  /** The item shown for an id is the row as the poll listed it that last found the id unseen. */
  ghost predicate ShownAsListed(rounds: seq<Round>, id: Id, k: nat, item: Item) {
    && k < |rounds| && Listed(rounds[k], item) && item.id == id && id !in Seen(After(rounds[..k]))
    && forall j | k < j <= |rounds| :: id in Seen(After(rounds[..j]))
  }

  lemma ShownLater(rest: seq<Round>, r: Round, id: Id, k: nat, item: Item)
    requires ShownAsListed(rest, id, k, item) && id in Seen(After(rest + [r]))
    ensures ShownAsListed(rest + [r], id, k, item)
  {
    var rounds := rest + [r];
    assert rounds[..k] == rest[..k];
    forall j | k < j <= |rounds| ensures id in Seen(After(rounds[..j])) {
      if j <= |rest| {
        assert rounds[..j] == rest[..j];
      } else {
        assert rounds[..j] == rounds;
      }
    }
  }

  lemma ShownNow(rounds: seq<Round>, id: Id, k: nat, item: Item)
    requires |rounds| == k + 1 && Listed(rounds[k], item) && item.id == id
    requires id !in Seen(After(rounds[..k])) && id in Seen(After(rounds))
    ensures ShownAsListed(rounds, id, k, item)
  {
    assert rounds[..k + 1] == rounds;
  }

  /** One round: an id seen before and after shows the same item, one newly seen the row just listed. */
  lemma RoundShows(kindOf: Id -> Kind, q: Queue, c: Conn, r: Round, tail: seq<Frame>, id: Id) returns (item: Option<Item>)
    requires Valid(q) && Fits(c.seenDiffs, r.diffs) && Fits(c.seenRequests, r.requests)
    requires AllOfKind(kindOf, c.seenDiffs, Diff) && AllOfKind(kindOf, c.seenRequests, Request)
    requires AllOfKind(kindOf, Ids(r.diffs.listing), Diff) && AllOfKind(kindOf, Ids(r.requests.listing), Request)
    requires forall f <- tail :: f.Expiring? || f.Ready?
    requires id in SeenAfter(c.seenDiffs, r.diffs) + SeenAfter(c.seenRequests, r.requests)
    ensures Shown(Folded(q, FramesOf(c.seenDiffs, r.diffs) + FramesOf(c.seenRequests, r.requests) + tail), id) == item
    ensures id in Seen(c) ==> item == Shown(q, id)
    ensures id !in Seen(c) ==> item.Some? && Listed(r, item.value) && item.value.id == id
  {
    var d, e := FramesOf(c.seenDiffs, r.diffs), FramesOf(c.seenRequests, r.requests);
    Disjoint(kindOf, c, r);
    FoldedAppend(q, d + e, tail);
    FoldedAppend(q, d, e);
    FoldOther(Folded(q, d + e), tail);
    item := Shown(Folded(Folded(q, d), e), id);
    if id in Ids(r.diffs.listing) - c.seenDiffs {
      var row := NewRowShows(q, c.seenDiffs, r.diffs, id);
      SilentPass(c.seenRequests, r.requests, id);
      SilentShows(Folded(q, d), e, id);
    } else {
      SilentPass(c.seenDiffs, r.diffs, id);
      SilentShows(q, d, id);
      if id in Ids(r.requests.listing) - c.seenRequests {
        var row := NewRowShows(Folded(q, d), c.seenRequests, r.requests, id);
      } else {
        SilentPass(c.seenRequests, r.requests, id);
        SilentShows(Folded(q, d), e, id);
      }
    }
  }

  lemma FoldedRound(c: Conn, d: seq<Frame>, e: seq<Frame>, tail: seq<Frame>)
    ensures Folded(EMPTY, c.frames + d + e + tail) == Folded(Folded(EMPTY, c.frames), d + e + tail)
  {
    FoldedAppend(EMPTY, c.frames, d + e + tail);
    Regroup(c.frames, d, e, tail);
  }

  /** After every completed poll the approver shows, for each id the connection has announced and not
      resolved, the row as it was listed by the poll that last found it unseen. */
  lemma {:induction false} ItemsAreShownAsListed(kindOf: Id -> Kind, rounds: seq<Round>, id: Id)
    requires Possible(kindOf, rounds) && id in Folded(EMPTY, After(rounds).frames).items
    ensures exists k :: ShownAsListed(rounds, id, k, Folded(EMPTY, After(rounds).frames).items[id])
  {
    ReplicaAgrees(kindOf, EMPTY, rounds);
    if rounds != [] {
      var rest, r := rounds[..|rounds| - 1], rounds[|rounds| - 1];
      var c := After(rest);
      var q, tail := Folded(EMPTY, c.frames), Tail(c, r, |rounds| == 1);
      SeenAreSorted(kindOf, rest);
      TailIsOther(c, r, |rounds| == 1);
      var item := RoundShows(kindOf, q, c, r, tail, id);
      FoldedRound(c, FramesOf(c.seenDiffs, r.diffs), FramesOf(c.seenRequests, r.requests), tail);
      assert rounds == rest + [r];
      if id in Seen(c) {
        ItemsAreShownAsListed(kindOf, rest, id);
        var k :| ShownAsListed(rest, id, k, q.items[id]);
        ShownLater(rest, r, id, k, q.items[id]);
      } else {
        ShownNow(rounds, id, |rest|, item.value);
      }
    }
  }
}
