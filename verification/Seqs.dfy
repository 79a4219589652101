/** Sequence facts shared by the string algorithms: splitting, joining, filtering, counting. */
module Seqs {

  /** `strings.Split` / `bytes.Split` on a one-element separator: always at least one part. */
  function SplitOn<T(==)>(s: seq<T>, sep: T): (parts: seq<seq<T>>)
    ensures |parts| > 0
    ensures forall p <- parts :: sep !in p
    ensures Join(parts, sep) == s
  {
    if s == [] then [[]]
    else
      var rest := SplitOn(s[1..], sep);
      if s[0] == sep then
        assert ([[]] + rest)[1..] == rest;
        [[]] + rest
      else
        var parts := [[s[0]] + rest[0]] + rest[1..];
        assert parts[1..] == rest[1..];
        JoinCons(s[0], rest, sep);
        parts
  }

  /** `strings.Join` with a one-element separator. */
  function Join<T>(parts: seq<seq<T>>, sep: T): seq<T>
  {
    if |parts| == 0 then []
    else if |parts| == 1 then parts[0]
    else parts[0] + [sep] + Join(parts[1..], sep)
  }

  lemma {:induction false} JoinCons<T>(x: T, parts: seq<seq<T>>, sep: T)
    requires |parts| > 0
    ensures Join([[x] + parts[0]] + parts[1..], sep) == [x] + Join(parts, sep)
  {
    var longer := [[x] + parts[0]] + parts[1..];
    if |parts| > 1 {
      var rest := Join(parts[1..], sep);
      assert longer[1..] == parts[1..];
      assert Join(longer, sep) == longer[0] + [sep] + rest;
      assert ([x] + parts[0]) + [sep] + rest == [x] + (parts[0] + [sep] + rest);
    }
  }

  lemma {:induction false} JoinAppend<T>(a: seq<seq<T>>, b: seq<seq<T>>, sep: T)
    requires |a| > 0 && |b| > 0
    ensures Join(a + b, sep) == Join(a, sep) + [sep] + Join(b, sep)
  {
    if |a| == 1 {
      assert (a + b)[1..] == b;
    } else {
      assert (a + b)[1..] == a[1..] + b;
      JoinAppend(a[1..], b, sep);
    }
  }

  /** Splitting at a separator is a homomorphism. */
  lemma {:induction false} SplitAppend<T>(a: seq<T>, b: seq<T>, sep: T)
    ensures SplitOn(a + [sep] + b, sep) == SplitOn(a, sep) + SplitOn(b, sep)
  {
    var whole := a + [sep] + b;
    if a == [] {
      assert whole[1..] == b;
    } else {
      assert whole[1..] == a[1..] + [sep] + b;
      SplitAppend(a[1..], b, sep);
    }
  }

  lemma {:induction false} SplitNone<T>(a: seq<T>, sep: T)
    requires sep !in a
    ensures SplitOn(a, sep) == [a]
  {
    if a != [] {
      SplitNone(a[1..], sep);
    }
  }

  lemma SplitTwo<T>(a: seq<T>, sep: T, b: seq<T>)
    requires sep !in a && sep !in b
    ensures SplitOn(a + [sep] + b, sep) == [a, b]
  {
    SplitNone(a, sep);
    SplitNone(b, sep);
    SplitAppend(a, b, sep);
  }

  /** Two parts read back as one string around a single separator. */
  lemma JoinTwo<T>(s: seq<T>, sep: T)
    requires |SplitOn(s, sep)| == 2
    ensures var parts := SplitOn(s, sep); s == parts[0] + [sep] + parts[1]
  {
    var parts := SplitOn(s, sep);
    assert parts[1..] == [parts[1]] && Join(parts, sep) == s;
  }

  /** Parts without the separator are recovered from their join. */
  lemma {:induction false} SplitJoin<T>(parts: seq<seq<T>>, sep: T)
    requires |parts| > 0
    requires forall p <- parts :: sep !in p
    ensures SplitOn(Join(parts, sep), sep) == parts
  {
    SplitNone(parts[0], sep);
    if |parts| > 1 {
      SplitJoin(parts[1..], sep);
      SplitAppend(parts[0], Join(parts[1..], sep), sep);
    }
  }

  /** The elements of `s` that satisfy `keep`, in order. */
  function Filter<T(!new)>(s: seq<T>, keep: T -> bool): (r: seq<T>)
    ensures |r| <= |s|
    ensures forall x :: x in r <==> x in s && keep(x)
  {
    if s == [] then []
    else if keep(s[0]) then [s[0]] + Filter(s[1..], keep)
    else Filter(s[1..], keep)
  }

  lemma {:induction false} FilterAppend<T(!new)>(a: seq<T>, b: seq<T>, keep: T -> bool)
    ensures Filter(a + b, keep) == Filter(a, keep) + Filter(b, keep)
  {
    if a == [] {
      assert a + b == b;
    } else {
      assert (a + b)[1..] == a[1..] + b;
      FilterAppend(a[1..], b, keep);
    }
  }

  lemma FilterSnoc<T(!new)>(s: seq<T>, x: T, keep: T -> bool)
    ensures Filter(s + [x], keep) == Filter(s, keep) + if keep(x) then [x] else []
  {
    FilterAppend(s, [x], keep);
  }

  /** Filtering by a stronger condition afterwards is filtering by the stronger condition alone. */
  lemma {:induction false} FilterTwice<T(!new)>(s: seq<T>, weak: T -> bool, strong: T -> bool)
    requires forall x <- s :: strong(x) ==> weak(x)
    ensures Filter(Filter(s, weak), strong) == Filter(s, strong)
  {
    if s != [] {
      FilterTwice(s[1..], weak, strong);
    }
  }

  lemma {:induction false} FilterShrinks<T(!new)>(s: seq<T>, strong: T -> bool, weak: T -> bool)
    requires forall x <- s :: strong(x) ==> weak(x)
    ensures |Filter(s, strong)| <= |Filter(s, weak)|
  {
    if s != [] {
      FilterShrinks(s[1..], strong, weak);
    }
  }

  lemma {:induction false} FilterAll<T(!new)>(s: seq<T>, keep: T -> bool)
    requires forall x <- s :: keep(x)
    ensures Filter(s, keep) == s
  {
    if s != [] {
      FilterAll(s[1..], keep);
    }
  }

  lemma {:induction false} FilterSame<T(!new)>(s: seq<T>, a: T -> bool, b: T -> bool)
    requires forall x <- s :: a(x) == b(x)
    ensures Filter(s, a) == Filter(s, b)
  {
    if s != [] {
      FilterSame(s[1..], a, b);
    }
  }

  lemma FilterNone<T(!new)>(s: seq<T>, keep: T -> bool)
    requires forall i | 0 <= i < |s| :: !keep(s[i])
    ensures Filter(s, keep) == []
  {
  }

  /** First-appearance order with exact duplicates dropped. */
  function Distinct<T(==,!new)>(s: seq<T>): (r: seq<T>)
    ensures forall x :: x in r <==> x in s
    ensures NoDuplicates(r)
  {
    if s == [] then []
    else
      var front := Distinct(s[..|s| - 1]);
      if s[|s| - 1] in front then front else front + [s[|s| - 1]]
  }

  predicate NoDuplicates<T(==)>(s: seq<T>) {
    forall i, j :: 0 <= i < j < |s| ==> s[i] != s[j]
  }

  /** A condition that holds at first, and passes each step exactly when the step is harmless, holds all
      along exactly when all steps are harmless. */
  lemma {:induction false} HoldsThroughoutIff(holds: nat -> bool, harmless: nat -> bool, n: nat)
    requires holds(0) && forall k | 0 <= k < n :: holds(k) ==> (holds(k + 1) <==> harmless(k))
    ensures (forall k | 0 <= k <= n :: holds(k)) <==> (forall k | 0 <= k < n :: harmless(k))
  {
    if n > 0 {
      HoldsThroughoutIff(holds, harmless, n - 1);
      assert holds(n - 1) ==> (holds(n - 1 + 1) <==> harmless(n - 1));
    }
  }
}
