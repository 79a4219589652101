/** The proposal tripwire: one stored counter per subject and fixed window, incremented by an atomic upsert.
    The clock counts microseconds, the resolution of the stored window start. */
module FixedWindow {
  import opened Seqs

  const MAX_INT32 := 0x7fff_ffff

  datatype Outcome = Admitted | RateLimited | Failed

  /** What becomes of the statement: it answers, it never ran, or it ran and the answer was lost. */
  datatype Database = Answers | Unreachable | AnswerLost

  datatype Call = Call(subject: string, now: int, db: Database)

  type Key = (string, int)

  type Counts = map<Key, nat>

  function Start(window: int, now: int): (start: int)
    requires window > 0
    ensures start <= now < start + window
  {
    now / window * window
  }

  function KeyOf(window: int, c: Call): Key
    requires window > 0
  {
    (c.subject, Start(window, c.now))
  }

  function CountOf(counts: Counts, key: Key): nat {
    if key in counts then counts[key] else 0
  }

  function Least(a: int, b: int): int {
    if a < b then a else b
  }

  predicate Configured(limit: int, window: int) {
    limit > 0 && window > 0
  }

  /** The counter column is 32 bits wide: the increment past its maximum is an error that changes nothing. */
  predicate Increments(window: int, counts: Counts, c: Call)
    requires window > 0
  {
    c.db != Unreachable && CountOf(counts, KeyOf(window, c)) < MAX_INT32
  }

  function AfterCall(limit: int, window: int, counts: Counts, c: Call): Counts {
    if !Configured(limit, window) || !Increments(window, counts, c) then counts
    else counts[KeyOf(window, c) := CountOf(counts, KeyOf(window, c)) + 1]
  }

  function Answer(limit: int, window: int, counts: Counts, c: Call): Outcome {
    if !Configured(limit, window) || !Increments(window, counts, c) || c.db == AnswerLost then Failed
    else if CountOf(counts, KeyOf(window, c)) + 1 > limit then RateLimited
    else Admitted
  }

  class Store {
    var counts: Counts

    constructor ()
      ensures counts == map[]
    {
      counts := map[];
    }

    method CheckProposeWriteRateLimit(subject: string, limit: int, window: int, now: int, db: Database)
      returns (r: Outcome)
      modifies this
      ensures counts == AfterCall(limit, window, old(counts), Call(subject, now, db))
      ensures r == Answer(limit, window, old(counts), Call(subject, now, db))
    {
      if limit <= 0 {
        return Failed;
      }
      if window <= 0 {
        return Failed;
      }
      var count := Increment(subject, Start(window, now), db);
      if count < 0 {
        return Failed;
      }
      if count > limit {
        return RateLimited;
      }
      r := Admitted;
    }

    /** The upsert; a negative result stands for an error. */
    method Increment(subject: string, start: int, db: Database) returns (count: int)
      modifies this
      ensures db == Unreachable || CountOf(old(counts), (subject, start)) >= MAX_INT32 ==> counts == old(counts) && count < 0
      ensures db != Unreachable && CountOf(old(counts), (subject, start)) < MAX_INT32 ==>
                && counts == old(counts)[(subject, start) := CountOf(old(counts), (subject, start)) + 1]
                && (if db == AnswerLost then count < 0 else count == counts[(subject, start)])
      ensures count < 0 || count == CountOf(old(counts), (subject, start)) + 1
    {
      if db == Unreachable {
        return -1;
      }
      var key := (subject, start);
      var next := CountOf(counts, key) + 1;
      if next > MAX_INT32 {
        return -1;
      }
      counts := counts[key := next];
      count := if db == AnswerLost then -1 else next;
    }
  }

  // ---------- Whole runs, in any interleaving of the atomic increments ----------

  function State(limit: int, window: int, calls: seq<Call>): Counts {
    if calls == [] then map[]
    else AfterCall(limit, window, State(limit, window, calls[..|calls| - 1]), calls[|calls| - 1])
  }

  /** The admitted calls, in order. */
  function Admissions(limit: int, window: int, calls: seq<Call>): seq<Call> {
    if calls == [] then []
    else
      var rest, c := calls[..|calls| - 1], calls[|calls| - 1];
      Admissions(limit, window, rest)
        + if Answer(limit, window, State(limit, window, rest), c) == Admitted then [c] else []
  }

  lemma StateSnoc(limit: int, window: int, calls: seq<Call>, c: Call)
    ensures State(limit, window, calls + [c]) == AfterCall(limit, window, State(limit, window, calls), c)
    ensures Admissions(limit, window, calls + [c]) == Admissions(limit, window, calls)
              + if Answer(limit, window, State(limit, window, calls), c) == Admitted then [c] else []
  {
    assert (calls + [c])[..|calls|] == calls;
  }

  function InWindow(window: int, key: Key): Call -> bool
    requires window > 0
  {
    (c: Call) => KeyOf(window, c) == key
  }

  function Ran(window: int, key: Key): Call -> bool
    requires window > 0
  {
    (c: Call) => KeyOf(window, c) == key && c.db != Unreachable
  }

  function Heard(window: int, key: Key): Call -> bool
    requires window > 0
  {
    (c: Call) => KeyOf(window, c) == key && c.db == Answers
  }

  /** One call, counted: whether it is one of those a filter keeps. */
  lemma CountSnoc(calls: seq<Call>, c: Call, keep: Call -> bool)
    ensures |Filter(calls + [c], keep)| == |Filter(calls, keep)| + if keep(c) then 1 else 0
  {
    FilterSnoc(calls, c, keep);
  }

  lemma CallOnKey(limit: int, window: int, counts: Counts, c: Call, key: Key)
    requires Configured(limit, window)
    ensures var n := CountOf(counts, key);
            var runs := KeyOf(window, c) == key && c.db != Unreachable && n < MAX_INT32;
            && CountOf(AfterCall(limit, window, counts, c), key) == n + (if runs then 1 else 0)
            && (KeyOf(window, c) == key ==>
                  (Answer(limit, window, counts, c) == Admitted <==> runs && c.db == Answers && n < limit))
  {
  }

  lemma CounterStep(limit: int, window: int, calls: seq<Call>, c: Call, key: Key)
    requires Configured(limit, window)
    ensures var n := CountOf(State(limit, window, calls), key);
            var runs := KeyOf(window, c) == key && c.db != Unreachable && n < MAX_INT32;
            && CountOf(State(limit, window, calls + [c]), key) == n + (if runs then 1 else 0)
            && |Filter(Admissions(limit, window, calls + [c]), InWindow(window, key))|
               == |Filter(Admissions(limit, window, calls), InWindow(window, key))|
                  + (if runs && c.db == Answers && n < limit then 1 else 0)
  {
    StateSnoc(limit, window, calls, c);
    CallOnKey(limit, window, State(limit, window, calls), c, key);
    var before := Admissions(limit, window, calls);
    if Answer(limit, window, State(limit, window, calls), c) == Admitted {
      CountSnoc(before, c, InWindow(window, key));
    } else {
      assert before + [] == before;
    }
  }

  /** A counter holds the number of increments that ran on it, up to the width of its column, and no
      more calls are admitted than it counts, nor than the limit; all of them when every answer arrives. */
  lemma {:induction false} CounterInvariant(limit: int, window: int, calls: seq<Call>, key: Key)
    requires Configured(limit, window)
    ensures CountOf(State(limit, window, calls), key) == Least(|Filter(calls, Ran(window, key))|, MAX_INT32)
    ensures |Filter(Admissions(limit, window, calls), InWindow(window, key))|
         <= Least(|Filter(calls, Ran(window, key))|, Least(limit, MAX_INT32))
    ensures |Filter(calls, Heard(window, key))| <= |Filter(calls, Ran(window, key))|
    ensures |Filter(calls, Heard(window, key))| == |Filter(calls, Ran(window, key))| ==>
              |Filter(Admissions(limit, window, calls), InWindow(window, key))|
              == Least(|Filter(calls, Ran(window, key))|, Least(limit, MAX_INT32))
  {
    if calls != [] {
      var rest, c := calls[..|calls| - 1], calls[|calls| - 1];
      assert rest + [c] == calls;
      CounterInvariant(limit, window, rest, key);
      CounterStep(limit, window, rest, c, key);
      CountSnoc(rest, c, Ran(window, key));
      CountSnoc(rest, c, Heard(window, key));
    }
  }

  /** Each subject and window admits exactly the first `limit` calls, whatever the interleaving:
      the number of calls, capped by the limit and by the width of the counter. */
  lemma WindowAdmitsExactly(limit: int, window: int, calls: seq<Call>, key: Key)
    requires Configured(limit, window)
    requires forall c <- calls :: c.db == Answers
    ensures |Filter(Admissions(limit, window, calls), InWindow(window, key))|
         == Least(|Filter(calls, InWindow(window, key))|, Least(limit, MAX_INT32))
  {
    CounterInvariant(limit, window, calls, key);
    FilterSame(calls, Ran(window, key), InWindow(window, key));
    FilterSame(calls, Heard(window, key), InWindow(window, key));
  }

  /** A call of the same subject in the same multiple of the window that reached the database. */
  function Beside(window: int, c: Call): Call -> bool
    requires window > 0
  {
    (other: Call) => other.subject == c.subject && other.now / window == c.now / window && other.db != Unreachable
  }

  lemma SameMultiple(window: int, a: int, b: int)
    requires window > 0
    ensures a / window * window == b / window * window <==> a / window == b / window
  {
    var m, n := a / window, b / window;
    assert m * window - n * window == (m - n) * window;
  }

  /** What a call is told, by the number of calls of its subject before it in its window that reached the
      database: admitted while they are fewer than the limit, limited from then on, and failed whenever the limit is not
      configured, the database does not answer, or the counter is full. */
  lemma AnswerIff(limit: int, window: int, calls: seq<Call>, c: Call)
    ensures var told := Answer(limit, window, State(limit, window, calls), c);
            if limit <= 0 || window <= 0 || c.db != Answers then told == Failed
            else
              var before := |Filter(calls, Beside(window, c))|;
              told == if before >= 2147483647 then Failed else if before < limit then Admitted else RateLimited
  {
    if Configured(limit, window) {
      CounterInvariant(limit, window, calls, KeyOf(window, c));
      forall other <- calls ensures Ran(window, KeyOf(window, c))(other) == Beside(window, c)(other) {
        SameMultiple(window, other.now, c.now);
      }
      FilterSame(calls, Ran(window, KeyOf(window, c)), Beside(window, c));
    }
  }

  function During(subject: string, from: int, to: int): Call -> bool {
    (c: Call) => c.subject == subject && from <= c.now <= to
  }

  function Either(p: Call -> bool, q: Call -> bool): Call -> bool {
    (c: Call) => p(c) || q(c)
  }

  lemma {:induction false} FilterUnion(s: seq<Call>, p: Call -> bool, q: Call -> bool)
    requires forall c <- s :: !(p(c) && q(c))
    ensures |Filter(s, Either(p, q))| == |Filter(s, p)| + |Filter(s, q)|
  {
    if s != [] {
      FilterUnion(s[1..], p, q);
    }
  }

  lemma MultiplesKeepOrder(a: int, b: int, window: int)
    requires window > 0
    ensures a <= b ==> a * window <= b * window
    ensures (a + 1) * window == a * window + window && (a + 2) * window == a * window + 2 * window
  {
  }

  lemma NextStart(window: int, x: int, now: int)
    requires window > 0 && x <= now <= x + window
    ensures Start(window, now) == Start(window, x) || Start(window, now) == Start(window, x) + window
  {
    var a, b := x / window, now / window;
    MultiplesKeepOrder(a, b, window);
    MultiplesKeepOrder(b + 1, a, window);
    MultiplesKeepOrder(a + 2, b, window);
    MultiplesKeepOrder(b, b, window);
  }

  /** Whatever other subjects do and however answers are lost, no interval at most one window long ever
      holds more than twice the limit for one subject. */
  lemma AtMostTwiceTheLimit(limit: int, window: int, calls: seq<Call>, subject: string, from: int, to: int)
    requires Configured(limit, window) && to <= from + window
    ensures |Filter(Admissions(limit, window, calls), During(subject, from, to))| <= 2 * limit
  {
    var first, second := (subject, Start(window, from)), (subject, Start(window, from) + window);
    var p, q := InWindow(window, first), InWindow(window, second);
    var admitted := Admissions(limit, window, calls);
    forall c | c in admitted && During(subject, from, to)(c) ensures Either(p, q)(c) {
      NextStart(window, from, c.now);
    }
    FilterShrinks(admitted, During(subject, from, to), Either(p, q));
    FilterUnion(admitted, p, q);
    CounterInvariant(limit, window, calls, first);
    CounterInvariant(limit, window, calls, second);
  }

  function Repeat(c: Call, n: nat): seq<Call> {
    if n == 0 then [] else Repeat(c, n - 1) + [c]
  }

  lemma {:induction false} RepeatAll(c: Call, n: nat, keep: Call -> bool)
    ensures |Filter(Repeat(c, n), keep)| == if keep(c) then n else 0
    ensures forall d <- Repeat(c, n) :: d == c
  {
    if n > 0 {
      RepeatAll(c, n - 1, keep);
      FilterSnoc(Repeat(c, n - 1), c, keep);
    }
  }

  function Burst(subject: string, limit: nat, window: int): seq<Call> {
    Repeat(Call(subject, window - 1, Answers), limit) + Repeat(Call(subject, window, Answers), limit)
  }

  lemma BurstCount(subject: string, limit: nat, window: int, keep: Call -> bool)
    ensures |Filter(Burst(subject, limit, window), keep)|
         == (if keep(Call(subject, window - 1, Answers)) then limit else 0)
          + (if keep(Call(subject, window, Answers)) then limit else 0)
    ensures forall c <- Burst(subject, limit, window) ::
              c == Call(subject, window - 1, Answers) || c == Call(subject, window, Answers)
  {
    var early, late := Call(subject, window - 1, Answers), Call(subject, window, Answers);
    RepeatAll(early, limit, keep);
    RepeatAll(late, limit, keep);
    FilterAppend(Repeat(early, limit), Repeat(late, limit), keep);
  }

  lemma BurstKeys(subject: string, limit: nat, window: int)
    requires window > 0
    ensures var burst := Burst(subject, limit, window);
            && |Filter(burst, InWindow(window, (subject, 0)))| == limit
            && |Filter(burst, InWindow(window, (subject, window)))| == limit
            && (forall c <- burst :: c.db == Answers && During(subject, window - 1, window)(c))
            && (forall c <- burst :: Either(InWindow(window, (subject, 0)), InWindow(window, (subject, window)))(c))
  {
    assert Start(window, window - 1) == 0 && Start(window, window) == window;
    BurstCount(subject, limit, window, InWindow(window, (subject, 0)));
    BurstCount(subject, limit, window, InWindow(window, (subject, window)));
  }

  /** The bound is attained: for every limit the counter can hold, a burst on each side of a window
      boundary gets twice the limit through within two ticks of the clock. */
  lemma TwiceTheLimitIsReached(limit: int, window: int, subject: string)
    requires Configured(limit, window) && limit <= MAX_INT32
    ensures |Filter(Admissions(limit, window, Burst(subject, limit, window)), During(subject, window - 1, window))|
         == 2 * limit
  {
    var burst := Burst(subject, limit, window);
    var p, q := InWindow(window, (subject, 0)), InWindow(window, (subject, window));
    BurstKeys(subject, limit, window);
    WindowAdmitsExactly(limit, window, burst, (subject, 0));
    WindowAdmitsExactly(limit, window, burst, (subject, window));
    var admitted := Admissions(limit, window, burst);
    FilterUnion(admitted, p, q);
    AdmissionsAreCalls(limit, window, burst);
    FilterSame(admitted, During(subject, window - 1, window), Either(p, q));
  }

  lemma {:induction false} AdmissionsAreCalls(limit: int, window: int, calls: seq<Call>)
    ensures forall c <- Admissions(limit, window, calls) :: c in calls
  {
    if calls != [] {
      AdmissionsAreCalls(limit, window, calls[..|calls| - 1]);
    }
  }

  function Own(subject: string): Call -> bool {
    (c: Call) => c.subject == subject
  }

  /** One subject's burst cannot throttle another: a subject's admissions are those of its own calls alone. */
  lemma {:induction false} SubjectsAreIndependent(limit: int, window: int, calls: seq<Call>, subject: string)
    requires Configured(limit, window)
    ensures var own := Filter(calls, Own(subject));
            && Filter(Admissions(limit, window, calls), Own(subject)) == Admissions(limit, window, own)
            && SameCounts(State(limit, window, calls), State(limit, window, own), subject)
  {
    if calls != [] {
      var rest, c := calls[..|calls| - 1], calls[|calls| - 1];
      assert rest + [c] == calls;
      SubjectsAreIndependent(limit, window, rest, subject);
      FilterSnoc(rest, c, Own(subject));
      IndependentStep(limit, window, rest, Filter(rest, Own(subject)), c, subject);
    }
  }

  predicate SameCounts(a: Counts, b: Counts, subject: string) {
    forall key | key in a.Keys + b.Keys && key.0 == subject :: CountOf(a, key) == CountOf(b, key)
  }

  lemma CallIsLocal(limit: int, window: int, a: Counts, b: Counts, c: Call, subject: string)
    requires Configured(limit, window) && SameCounts(a, b, subject)
    ensures c.subject != subject ==> SameCounts(AfterCall(limit, window, a, c), b, subject)
    ensures c.subject == subject ==>
              && SameCounts(AfterCall(limit, window, a, c), AfterCall(limit, window, b, c), subject)
              && Answer(limit, window, a, c) == Answer(limit, window, b, c)
  {
  }

  lemma IndependentStep(limit: int, window: int, calls: seq<Call>, own: seq<Call>, c: Call, subject: string)
    requires Configured(limit, window)
    requires Filter(Admissions(limit, window, calls), Own(subject)) == Admissions(limit, window, own)
    requires SameCounts(State(limit, window, calls), State(limit, window, own), subject)
    ensures var own' := own + if c.subject == subject then [c] else [];
            && Filter(Admissions(limit, window, calls + [c]), Own(subject)) == Admissions(limit, window, own')
            && SameCounts(State(limit, window, calls + [c]), State(limit, window, own'), subject)
  {
    StateSnoc(limit, window, calls, c);
    CallIsLocal(limit, window, State(limit, window, calls), State(limit, window, own), c, subject);
    AdmittedOf(Admissions(limit, window, calls), c, subject);
    if c.subject == subject {
      StateSnoc(limit, window, own, c);
    } else {
      assert own + [] == own;
    }
  }

  lemma AdmittedOf(admitted: seq<Call>, c: Call, subject: string)
    ensures Filter(admitted + [c], Own(subject))
         == Filter(admitted, Own(subject)) + if c.subject == subject then [c] else []
    ensures admitted + [] == admitted
    ensures Filter(admitted, Own(subject)) + [] == Filter(admitted, Own(subject))
  {
    FilterSnoc(admitted, c, Own(subject));
  }
}
