/** The broker's per-grant sliding window: the in-place limiter, and its law over whole runs. */
module RateLimiter {
  import opened Seqs

  type Time = int

  // ---------- One call ----------

  function After(cutoff: Time): Time -> bool {
    t => t > cutoff
  }

  function Recent(times: seq<Time>, cutoff: Time): seq<Time> {
    Filter(times, After(cutoff))
  }

  type Events = map<string, seq<Time>>

  function TimesOf(events: Events, key: string): seq<Time> {
    if key in events then events[key] else []
  }

  function Allowed(limit: int, window: int, events: Events, key: string, now: Time): bool {
    limit <= 0 || window <= 0 || |Recent(TimesOf(events, key), now - window)| < limit
  }

  function AfterCall(limit: int, window: int, events: Events, key: string, now: Time): Events {
    if limit <= 0 || window <= 0 then events
    else
      var kept := Recent(TimesOf(events, key), now - window);
      events[key := if |kept| < limit then kept + [now] else kept]
  }

  /** A slice: a backing array and how much of it is in use. */
  datatype Slice = Slice(buf: array<Time>, len: nat)

  class Limiter {
    const limit: int
    const window: int
    var slices: map<string, Slice>
    ghost var contents: Events
    ghost var buffers: set<array<Time>>

    /** `contents` is what the slices hold, and no two keys share a backing array. */
    ghost predicate Valid()
      reads this, buffers
    {
      && slices.Keys == contents.Keys
      && (forall k <- slices :: Holds(k))
      && (forall j, k | j in slices && k in slices && j != k :: slices[j].buf != slices[k].buf)
    }

    ghost predicate Holds(key: string)
      requires key in slices && key in contents
      reads this, buffers
    {
      && slices[key].buf in buffers
      && slices[key].len <= slices[key].buf.Length
      && slices[key].buf[..slices[key].len] == contents[key]
    }

    constructor (limit: int, window: int)
      ensures Valid() && contents == map[]
      ensures this.limit == limit && this.window == window
    {
      this.limit := limit;
      this.window := window;
      slices := map[];
      contents := map[];
      buffers := {};
    }

    method Allow(key: string, now: Time) returns (ok: bool)
      requires Valid()
      modifies this, buffers
      ensures Valid() && fresh(buffers - old(buffers))
      ensures ok == Allowed(limit, window, old(contents), key, now)
      ensures contents == AfterCall(limit, window, old(contents), key, now)
    {
      if limit <= 0 || window <= 0 {
        return true;
      }
      ghost var kept := Recent(TimesOf(contents, key), now - window);
      AfterPruning(limit, window, contents, key, now);
      var s;
      if key in slices {
        s := slices[key];
      } else {
        var none := new Time[0];
        s := Slice(none, 0);
      }
      var n := Compact(s.buf, s.len, now - window);
      ok := Admit(key, Slice(s.buf, n), now, kept);
    }

    /** The compacted list goes back, with the call appended if there is room. */
    method Admit(key: string, s: Slice, now: Time, ghost kept: seq<Time>) returns (ok: bool)
      requires Storable(key, s, kept)
      modifies this, s.buf
      ensures Valid() && fresh(buffers - old(buffers) - {s.buf})
      ensures ok == (|kept| < limit)
      ensures contents == old(contents)[key := if |kept| < limit then kept + [now] else kept]
    {
      if s.len >= limit {
        Store(key, s, kept);
        return false;
      }
      var grown := Append(s, now);
      Store(key, grown, kept + [now]);
      ok := true;
    }

    /** `s` holds `times` and is free to be stored under the key: no other key uses its array. */
    ghost predicate Storable(key: string, s: Slice, times: seq<Time>)
      reads this, buffers, s.buf
    {
      && slices.Keys == contents.Keys
      && (forall k <- slices :: k != key ==> Holds(k) && slices[k].buf != s.buf)
      && (forall j, k | j in slices && k in slices && j != k :: slices[j].buf != slices[k].buf)
      && s.len <= s.buf.Length && s.buf[..s.len] == times
    }

    /** `events[key] = s`, where every other key still holds what it held. */
    method Store(key: string, s: Slice, ghost times: seq<Time>)
      requires Storable(key, s, times)
      modifies this
      ensures Valid() && contents == old(contents)[key := times]
      ensures slices == old(slices)[key := s] && buffers == old(buffers) + {s.buf}
    {
      slices := slices[key := s];
      contents := contents[key := times];
      buffers := buffers + {s.buf};
    }
  }

  /** A call is a pruning and then, if there is room, an append. */
  lemma AfterPruning(limit: int, window: int, events: Events, key: string, now: Time)
    requires limit > 0 && window > 0
    ensures var kept := Recent(TimesOf(events, key), now - window);
            && Allowed(limit, window, events, key, now) == (|kept| < limit)
            && AfterCall(limit, window, events, key, now)
               == events[key := if |kept| < limit then kept + [now] else kept]
  {
  }

  /** `kept := s[:0]` and the loop that appends to it: survivors are moved down within the same array. */
  method Compact(buf: array<Time>, len: nat, cutoff: Time) returns (kept: nat)
    requires len <= buf.Length
    modifies buf
    ensures kept <= len
    ensures buf[..kept] == Recent(old(buf[..len]), cutoff)
  {
    ghost var was := buf[..len];
    kept := 0;
    for i := 0 to len
      invariant kept <= i
      invariant buf[..kept] == Recent(was[..i], cutoff)
      invariant forall j | i <= j < len :: buf[j] == was[j]
    {
      var t := buf[i];
      ghost var front := buf[..kept];
      RecentStep(was, i, cutoff);
      if t > cutoff {
        buf[kept] := t;
        assert buf[..kept] == front;
        kept := kept + 1;
        assert buf[..kept] == front + [t];
      }
    }
    assert was[..len] == was;
  }

  lemma RecentStep(times: seq<Time>, i: nat, cutoff: Time)
    requires i < |times|
    ensures Recent(times[..i + 1], cutoff) == Recent(times[..i], cutoff) + if times[i] > cutoff then [times[i]] else []
  {
    assert times[..i + 1] == times[..i] + [times[i]];
    FilterSnoc(times[..i], times[i], After(cutoff));
  }

  /** Go's append: in place while the capacity lasts, else into a larger copy. */
  method Append(s: Slice, x: Time) returns (r: Slice)
    requires s.len <= s.buf.Length
    modifies s.buf
    ensures r.len == s.len + 1 <= r.buf.Length
    ensures r.buf[..r.len] == old(s.buf[..s.len]) + [x]
    ensures r.buf == s.buf || fresh(r.buf)
  {
    if s.len < s.buf.Length {
      s.buf[s.len] := x;
      r := Slice(s.buf, s.len + 1);
      assert r.buf[..r.len] == old(s.buf[..s.len]) + [x];
      return;
    }
    ghost var was := s.buf[..s.len];
    var bigger := new Time[2 * s.len + 1];
    for i := 0 to s.len
      invariant forall j | 0 <= j < s.len :: s.buf[j] == was[j]
      invariant forall j | 0 <= j < i :: bigger[j] == was[j]
    {
      bigger[i] := s.buf[i];
    }
    bigger[s.len] := x;
    r := Slice(bigger, s.len + 1);
    assert bigger[..s.len] == was;
    assert r.buf[..r.len] == bigger[..s.len] + [x];
  }

  // ---------- Whole runs ----------

  datatype Call = Call(key: string, now: Time)

  function State(limit: int, window: int, calls: seq<Call>): Events {
    if calls == [] then map[]
    else
      var c := calls[|calls| - 1];
      AfterCall(limit, window, State(limit, window, calls[..|calls| - 1]), c.key, c.now)
  }

  /** The times at which a key was admitted, in order. */
  function Admitted(limit: int, window: int, calls: seq<Call>, key: string): seq<Time> {
    if calls == [] then []
    else
      var rest, c := calls[..|calls| - 1], calls[|calls| - 1];
      Admitted(limit, window, rest, key)
        + if c.key == key && Allowed(limit, window, State(limit, window, rest), key, c.now) then [c.now] else []
  }

  predicate Ordered(calls: seq<Call>) {
    forall i, j | 0 <= i < j < |calls| :: calls[i].now <= calls[j].now
  }

  /** At each admission, it and the admissions in the window before it number at most `limit`. */
  predicate Paced(limit: int, window: int, times: seq<Time>) {
    times == []
    || (var rest := times[..|times| - 1];
        Paced(limit, window, rest) && |Recent(rest, times[|times| - 1] - window)| < limit)
  }

  lemma PacedSnoc(limit: int, window: int, times: seq<Time>, now: Time)
    ensures Paced(limit, window, times + [now])
       <==> Paced(limit, window, times) && |Recent(times, now - window)| < limit
  {
    assert (times + [now])[..|times|] == times;
  }

  lemma StateSnoc(limit: int, window: int, calls: seq<Call>, c: Call)
    ensures State(limit, window, calls + [c]) == AfterCall(limit, window, State(limit, window, calls), c.key, c.now)
    ensures forall key :: Admitted(limit, window, calls + [c], key) == Admitted(limit, window, calls, key)
              + if c.key == key && Allowed(limit, window, State(limit, window, calls), key, c.now) then [c.now] else []
  {
    assert (calls + [c])[..|calls|] == calls;
  }

  /** What is stored is the part of the admissions after some cutoff no later than the next window's start. */
  ghost predicate StoresRecent(stored: seq<Time>, times: seq<Time>, latest: Time) {
    exists cutoff :: cutoff <= latest && stored == Recent(times, cutoff)
  }

  ghost predicate Inv(limit: int, window: int, times: seq<Time>, stored: seq<Time>, now: Time) {
    && Paced(limit, window, times)
    && (forall t <- times :: t <= now)
    && |stored| <= limit
    && StoresRecent(stored, times, now - window)
  }

  /** The invariant of every run: the stored list is the recent part of the admissions, never longer than
      the limit, and the admissions are paced. */
  lemma {:induction false} RunInvariant(limit: int, window: int, calls: seq<Call>, key: string, now: Time)
    requires limit > 0 && window > 0 && Ordered(calls)
    requires forall c <- calls :: c.now <= now
    ensures Inv(limit, window, Admitted(limit, window, calls, key), TimesOf(State(limit, window, calls), key), now)
  {
    if calls == [] {
      assert [] == Recent([], now - window);
    } else {
      var rest, c := calls[..|calls| - 1], calls[|calls| - 1];
      assert rest + [c] == calls;
      RunInvariant(limit, window, rest, key, c.now);
      StepForKey(limit, window, rest, c, key);
      StepInvariant(limit, window, Admitted(limit, window, rest, key), TimesOf(State(limit, window, rest), key),
                    c.key == key, c.now, now);
    }
  }

  /** One call, seen from one key: what it stores and admits. */
  function Stored(limit: int, window: int, stored: seq<Time>, own: bool, now: Time): seq<Time> {
    var kept := Recent(stored, now - window);
    if !own then stored else if |kept| < limit then kept + [now] else kept
  }

  function Grown(limit: int, window: int, times: seq<Time>, stored: seq<Time>, own: bool, now: Time): seq<Time> {
    if own && |Recent(stored, now - window)| < limit then times + [now] else times
  }

  lemma StepForKey(limit: int, window: int, calls: seq<Call>, c: Call, key: string)
    requires limit > 0 && window > 0
    ensures var stored := TimesOf(State(limit, window, calls), key);
            && TimesOf(State(limit, window, calls + [c]), key) == Stored(limit, window, stored, c.key == key, c.now)
            && Admitted(limit, window, calls + [c], key)
               == Grown(limit, window, Admitted(limit, window, calls, key), stored, c.key == key, c.now)
  {
    if c.key == key {
      StateSnoc(limit, window, calls, c);
      var times := Admitted(limit, window, calls, key);
      assert times + [] == times;
    } else {
      OtherLeaves(limit, window, calls, c, key);
    }
  }

  lemma StepInvariant(limit: int, window: int, times: seq<Time>, stored: seq<Time>, own: bool, at: Time, now: Time)
    requires limit > 0 && window > 0 && at <= now
    requires Inv(limit, window, times, stored, at)
    ensures Inv(limit, window, Grown(limit, window, times, stored, own, at), Stored(limit, window, stored, own, at), now)
  {
    var cutoff :| cutoff <= at - window && stored == Recent(times, cutoff);
    if own {
      FilterTwice(times, After(cutoff), After(at - window));
      OwnCall(limit, window, times, at, now);
    } else {
      InvLater(limit, window, times, stored, cutoff, at, now);
    }
  }

  lemma InvLater(limit: int, window: int, times: seq<Time>, stored: seq<Time>, cutoff: Time, at: Time, now: Time)
    requires Paced(limit, window, times) && |stored| <= limit
    requires stored == Recent(times, cutoff)
    requires cutoff <= at - window && at <= now && forall t <- times :: t <= at
    ensures Inv(limit, window, times, stored, now)
  {
  }

  lemma OwnCall(limit: int, window: int, times: seq<Time>, at: Time, now: Time)
    requires limit > 0 && window > 0 && at <= now
    requires Paced(limit, window, times) && forall t <- times :: t <= at
    ensures var kept := Recent(times, at - window);
            if |kept| < limit then Inv(limit, window, times + [at], kept + [at], now)
            else |kept| <= limit ==> Inv(limit, window, times, kept, now)
  {
    var cutoff := at - window;
    var kept := Recent(times, cutoff);
    if |kept| < limit {
      PacedSnoc(limit, window, times, at);
      FilterSnoc(times, at, After(cutoff));
      InvLater(limit, window, times + [at], kept + [at], cutoff, at, now);
    } else if |kept| <= limit {
      InvLater(limit, window, times, kept, cutoff, at, now);
    }
  }

  function HalfOpenAbove(x: Time, window: int): Time -> bool {
    t => x < t <= x + window
  }

  function HalfOpenBelow(x: Time, window: int): Time -> bool {
    t => x <= t < x + window
  }

  /** Over any run with non-decreasing times, no half-open interval one window long ever holds
      more than `limit` admissions of a key, and no stored list is ever longer than `limit`. */
  lemma SlidingWindow(limit: int, window: int, calls: seq<Call>, key: string, x: Time)
    requires limit > 0 && window > 0 && Ordered(calls)
    ensures var times := Admitted(limit, window, calls, key);
            && |Filter(times, HalfOpenAbove(x, window))| <= limit
            && |Filter(times, HalfOpenBelow(x, window))| <= limit
    ensures |TimesOf(State(limit, window, calls), key)| <= limit
  {
    RunInvariant(limit, window, calls, key, if calls == [] then 0 else calls[|calls| - 1].now);
    var times := Admitted(limit, window, calls, key);
    WindowHoldsFew(limit, window, times, HalfOpenAbove(x, window));
    WindowHoldsFew(limit, window, times, HalfOpenBelow(x, window));
  }

  /** In a paced list, a set of times spanning less than a window holds at most `limit` entries. */
  lemma {:induction false} WindowHoldsFew(limit: int, window: int, times: seq<Time>, within: Time -> bool)
    requires limit > 0 && Paced(limit, window, times)
    requires forall s, t :: within(s) && within(t) ==> t - s < window
    ensures |Filter(times, within)| <= limit
  {
    if times != [] {
      var rest, last := times[..|times| - 1], times[|times| - 1];
      assert rest + [last] == times;
      PacedSnoc(limit, window, rest, last);
      WindowHoldsFew(limit, window, rest, within);
      FilterSnoc(rest, last, within);
      if within(last) {
        FilterShrinks(rest, within, After(last - window));
      }
    }
  }

  /** A call is refused exactly when the limiter is on and `limit` admissions of its key already lie in the
      window ending now. */
  lemma RefusalIff(limit: int, window: int, calls: seq<Call>, key: string, now: Time)
    requires Ordered(calls) && forall c <- calls :: c.now <= now
    ensures var recent := Filter(Admitted(limit, window, calls, key), HalfOpenAbove(now - window, window));
            !Allowed(limit, window, State(limit, window, calls), key, now) <==> limit > 0 && window > 0 && |recent| == limit
  {
    if limit > 0 && window > 0 {
      RefusalWhenOn(limit, window, calls, key, now);
    }
  }

  lemma RefusalWhenOn(limit: int, window: int, calls: seq<Call>, key: string, now: Time)
    requires limit > 0 && window > 0 && Ordered(calls) && forall c <- calls :: c.now <= now
    ensures var recent := Filter(Admitted(limit, window, calls, key), HalfOpenAbove(now - window, window));
            !Allowed(limit, window, State(limit, window, calls), key, now) <==> |recent| == limit
  {
    RunInvariant(limit, window, calls, key, now);
    var times, stored := Admitted(limit, window, calls, key), TimesOf(State(limit, window, calls), key);
    var cutoff :| cutoff <= now - window && stored == Recent(times, cutoff);
    FilterTwice(times, After(cutoff), After(now - window));
    FilterSame(times, After(now - window), HalfOpenAbove(now - window, window));
    SlidingWindow(limit, window, calls, key, now - window);
  }

  function Own(key: string): Call -> bool {
    (c: Call) => c.key == key
  }

  ghost predicate SameForKey(limit: int, window: int, a: seq<Call>, b: seq<Call>, key: string) {
    && TimesOf(State(limit, window, a), key) == TimesOf(State(limit, window, b), key)
    && Admitted(limit, window, a, key) == Admitted(limit, window, b, key)
  }

  /** Keys do not affect each other: a key's stored list and admissions are those of its own calls alone. */
  lemma {:induction false} KeysAreIndependent(limit: int, window: int, calls: seq<Call>, key: string)
    ensures SameForKey(limit, window, calls, Filter(calls, Own(key)), key)
  {
    if calls == [] {
      assert Filter(calls, Own(key)) == [];
    } else {
      var rest, c := calls[..|calls| - 1], calls[|calls| - 1];
      KeysAreIndependent(limit, window, rest, key);
      var own := Filter(rest, Own(key));
      FilterSnoc(rest, c, Own(key));
      Extended(limit, window, calls, rest, c, own, key);
    }
  }

  lemma Extended(limit: int, window: int, calls: seq<Call>, rest: seq<Call>, c: Call, own: seq<Call>, key: string)
    requires calls == rest + [c] && SameForKey(limit, window, rest, own, key)
    requires Filter(rest + [c], Own(key)) == own + if Own(key)(c) then [c] else []
    ensures SameForKey(limit, window, calls, Filter(calls, Own(key)), key)
  {
    assert own + [] == own;
    if c.key == key {
      OwnExtends(limit, window, rest, own, c, key);
    } else {
      OtherLeaves(limit, window, rest, c, key);
    }
  }

  lemma OwnExtends(limit: int, window: int, rest: seq<Call>, own: seq<Call>, c: Call, key: string)
    requires SameForKey(limit, window, rest, own, key) && c.key == key
    ensures SameForKey(limit, window, rest + [c], own + [c], key)
  {
    StateSnoc(limit, window, rest, c);
    StateSnoc(limit, window, own, c);
    CallIsLocal(limit, window, State(limit, window, rest), State(limit, window, own), c, key);
  }

  lemma OtherLeaves(limit: int, window: int, rest: seq<Call>, c: Call, key: string)
    requires c.key != key
    ensures SameForKey(limit, window, rest + [c], rest, key)
  {
    StateSnoc(limit, window, rest, c);
    var times := Admitted(limit, window, rest, key);
    assert times + [] == times;
  }

  lemma CallIsLocal(limit: int, window: int, a: Events, b: Events, c: Call, key: string)
    requires TimesOf(a, key) == TimesOf(b, key)
    ensures c.key != key ==> TimesOf(AfterCall(limit, window, a, c.key, c.now), key) == TimesOf(b, key)
    ensures c.key == key ==>
              && Allowed(limit, window, a, key, c.now) == Allowed(limit, window, b, key, c.now)
              && TimesOf(AfterCall(limit, window, a, key, c.now), key)
                 == TimesOf(AfterCall(limit, window, b, key, c.now), key)
  {
  }
}
