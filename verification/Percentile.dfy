/** Benchmark samples: nearest-rank percentiles and the verdict on the p99. */
module Percentile {
  import opened Options

  /** How many samples are at or below `v`. */
  function Count(s: seq<nat>, v: nat): (r: nat)
    ensures r <= |s|
  {
    if s == [] then 0 else Count(s[..|s| - 1], v) + if s[|s| - 1] <= v then 1 else 0
  }

  ghost predicate Sorted(s: seq<nat>) {
    forall i, j :: 0 <= i < j < |s| ==> s[i] <= s[j]
  }

  /** `sort_unstable`; what follows uses only that the result is sorted and
      holds the same samples. */
  method Sort(raw: seq<nat>) returns (s: seq<nat>)
    ensures Sorted(s) && multiset(s) == multiset(raw)
  {
    s := [];
    for n := 0 to |raw|
      invariant Sorted(s) && multiset(s) == multiset(raw[..n])
    {
      assert raw[..n + 1] == raw[..n] + [raw[n]];
      s := Insert(s, raw[n]);
    }
    assert raw[..|raw|] == raw;
  }

  method Insert(s: seq<nat>, v: nat) returns (r: seq<nat>)
    requires Sorted(s)
    ensures Sorted(r) && multiset(r) == multiset(s) + multiset{v}
  {
    var k := 0;
    while k < |s| && s[k] <= v
      invariant 0 <= k <= |s| && forall i :: 0 <= i < k ==> s[i] <= v
    {
      k := k + 1;
    }
    r := s[..k] + [v] + s[k..];
    InsertedSorted(s, v, k);
    InsertedHolds(s, v, k);
  }

  lemma InsertedSorted(s: seq<nat>, v: nat, k: nat)
    requires Sorted(s) && k <= |s| && (forall i :: 0 <= i < k ==> s[i] <= v) && (k < |s| ==> v < s[k])
    ensures Sorted(s[..k] + [v] + s[k..])
  {
    var r := s[..k] + [v] + s[k..];
    forall i, j | 0 <= i < j < |r| ensures r[i] <= r[j] {
      var x, y := if i < k then i else i - 1, if j < k then j else j - 1;
      assert i != k ==> r[i] == s[x];
      assert j != k ==> r[j] == s[y];
    }
  }

  lemma InsertedHolds(s: seq<nat>, v: nat, k: nat)
    requires k <= |s|
    ensures multiset(s[..k] + [v] + s[k..]) == multiset(s) + multiset{v}
  {
    assert s == s[..k] + s[k..];
    assert multiset(s) == multiset(s[..k]) + multiset(s[k..]);
  }

  // -------------------------------------------------------------- counting

  lemma {:induction false} CountSplit(a: seq<nat>, b: seq<nat>, v: nat)
    ensures Count(a + b, v) == Count(a, v) + Count(b, v)
    decreases |b|
  {
    if b == [] {
      assert a + b == a;
    } else {
      assert (a + b)[..|a| + |b| - 1] == a + b[..|b| - 1];
      CountSplit(a, b[..|b| - 1], v);
    }
  }

  lemma WithoutOne(rest: seq<nat>, left: seq<nat>, right: seq<nat>, x: nat)
    requires multiset(rest + [x]) == multiset(left + ([x] + right))
    ensures multiset(rest) == multiset(left + right)
  {
    assert multiset(rest) + multiset{x} == multiset(left) + (multiset{x} + multiset(right));
    assert multiset(rest) == (multiset(rest) + multiset{x}) - multiset{x};
    assert multiset(left) + multiset(right) == (multiset(left) + (multiset{x} + multiset(right))) - multiset{x};
  }

  lemma {:induction false} CountPermuted(a: seq<nat>, b: seq<nat>, v: nat)
    requires multiset(a) == multiset(b)
    ensures Count(a, v) == Count(b, v)
    decreases |a|
  {
    assert |multiset(a)| == |a| && |multiset(b)| == |b|;
    if a != [] {
      var x, rest := a[|a| - 1], a[..|a| - 1];
      assert a == rest + [x];
      assert x in multiset(b);
      var i :| 0 <= i < |b| && b[i] == x;
      var left, right := b[..i], b[i + 1..];
      assert b == left + ([x] + right);
      WithoutOne(rest, left, right, x);
      CountPermuted(rest, left + right, v);
      CountSplit(left, right, v);
      CountSplit(left, [x] + right, v);
      CountSplit([x], right, v);
      CountSplit(rest, [x], v);
    }
  }

  lemma {:induction false} CountAll(s: seq<nat>, v: nat)
    ensures (forall i :: 0 <= i < |s| ==> s[i] <= v) ==> Count(s, v) == |s|
    ensures (forall i :: 0 <= i < |s| ==> v < s[i]) ==> Count(s, v) == 0
    decreases |s|
  {
    if s != [] {
      CountAll(s[..|s| - 1], v);
    }
  }

  /** In a sorted list the first `i + 1` samples are at or below the one at
      `i`, and no more than `i` are below it. */
  lemma {:induction false} CountSorted(s: seq<nat>, i: nat, v: nat)
    requires Sorted(s) && i < |s|
    ensures s[i] <= v ==> Count(s, v) >= i + 1
    ensures v < s[i] ==> Count(s, v) <= i
  {
    assert s == s[..i] + s[i..] && s == s[..i + 1] + s[i + 1..];
    if s[i] <= v {
      CountSplit(s[..i + 1], s[i + 1..], v);
      CountAll(s[..i + 1], v);
    } else {
      CountSplit(s[..i], s[i..], v);
      CountAll(s[i..], v);
    }
  }

  // ------------------------------------------------------------ percentile

  function Ceil(x: real): (n: int)
    ensures x <= n as real < x + 1.0
  {
    -((-x).Floor)
  }

  function Rank(p: real, n: nat): int {
    Ceil(p * n as real)
  }

  function Index(p: real, n: nat): (i: nat)
    requires 0.0 <= p && n > 0
    ensures i < n
  {
    var rank := Rank(p, n);
    var below := if rank < 1 then 0 else rank - 1;
    if below < n - 1 then below else n - 1
  }

  /** The timings, sorted, and the row they are judged against. */
  datatype Samples = Samples(budget: Budget, nanos: seq<nat>)

  function Percentile(s: Samples, p: real): nat
    requires 0.0 <= p <= 1.0
  {
    if s.nanos == [] then 0 else s.nanos[Index(p, |s.nanos|)]
  }

  lemma NotNegative(x: real, y: real)
    requires x >= 0.0 && y >= 0.0
    ensures x * y >= 0.0
  {
  }

  lemma RankWithin(p: real, n: nat)
    requires 0.0 <= p <= 1.0
    ensures 0 <= Rank(p, n) <= n
  {
    NotNegative(p, n as real);
    NotNegative(1.0 - p, n as real);
    assert (1.0 - p) * n as real == n as real - p * n as real;
  }

  /** Nearest rank: the smallest sample with the share `p` of all samples at or
      below it; for no share the smallest there is, and of no samples zero. */
  lemma NearestRank(s: Samples, p: real)
    requires Sorted(s.nanos) && 0.0 <= p <= 1.0
    ensures s.nanos == [] ==> Percentile(s, p) == 0
    ensures s.nanos != [] ==>
              var v := Percentile(s, p);
              && v in s.nanos && Count(s.nanos, v) as real >= p * |s.nanos| as real
              && forall w :: w in s.nanos && w < v ==>
                   0 < Count(s.nanos, w) && Count(s.nanos, w) as real < p * |s.nanos| as real
  {
    hide Count;
    if s.nanos != [] {
      var i, v := Index(p, |s.nanos|), Percentile(s, p);
      RankWithin(p, |s.nanos|);
      CountSorted(s.nanos, i, v);
      forall w | w in s.nanos && w < v
        ensures 0 < Count(s.nanos, w) && Count(s.nanos, w) as real < p * |s.nanos| as real
      {
        var k :| 0 <= k < |s.nanos| && s.nanos[k] == w;
        CountSorted(s.nanos, i, w);
        CountSorted(s.nanos, k, w);
      }
    }
  }

  /** A percentile is within a limit exactly when that share of the samples is. */
  lemma WithinLimit(s: Samples, p: real, limit: nat)
    requires Sorted(s.nanos) && s.nanos != [] && 0.0 < p <= 1.0
    ensures Percentile(s, p) <= limit <==> Count(s.nanos, limit) as real >= p * |s.nanos| as real
  {
    hide Count;
    var i := Index(p, |s.nanos|);
    RankWithin(p, |s.nanos|);
    assert p * |s.nanos| as real > 0.0;
    CountSorted(s.nanos, i, limit);
  }

  lemma RankGrows(p: real, q: real, n: nat)
    requires 0.0 <= p <= q
    ensures Rank(p, n) <= Rank(q, n)
  {
    NotNegative(q - p, n as real);
    assert (q - p) * n as real == q * n as real - p * n as real;
  }

  lemma MonotoneInP(s: Samples, p: real, q: real)
    requires Sorted(s.nanos) && 0.0 <= p <= q <= 1.0
    ensures Percentile(s, p) <= Percentile(s, q)
  {
    hide Rank;
    RankGrows(p, q, |s.nanos|);
  }

  // ------------------------------------------------------------ slower runs

  ghost predicate Slower(a: seq<nat>, b: seq<nat>) {
    |a| == |b| && forall i :: 0 <= i < |a| ==> a[i] <= b[i]
  }

  lemma {:induction false} SlowerCounts(a: seq<nat>, b: seq<nat>, v: nat)
    requires Slower(a, b)
    ensures Count(b, v) <= Count(a, v)
    decreases |a|
  {
    if a != [] {
      SlowerCounts(a[..|a| - 1], b[..|b| - 1], v);
    }
  }

  /** Sorting keeps one run slower than another, sample by sample. */
  lemma SortedStaysSlower(a: seq<nat>, b: seq<nat>, s: seq<nat>, t: seq<nat>)
    requires Slower(a, b) && Sorted(s) && Sorted(t) && multiset(s) == multiset(a) && multiset(t) == multiset(b)
    ensures Slower(s, t)
  {
    assert |s| == |multiset(s)| == |multiset(a)| == |a| && |t| == |multiset(t)| == |multiset(b)| == |b|;
    forall i | 0 <= i < |s| ensures s[i] <= t[i] {
      var v := t[i];
      CountSorted(t, i, v);
      CountSorted(s, i, v);
      CountPermuted(s, a, v);
      CountPermuted(t, b, v);
      SlowerCounts(a, b, v);
    }
  }

  // --------------------------------------------------------------- verdicts

  datatype Verdict = Pass | Over | Fail

  /** A row of the budget table; some rows allow a grace up to a hard limit. */
  datatype Budget = Budget(target: nat, hardFail: Option<nat>)

  function Judge(b: Budget, p99: nat): Verdict {
    if p99 <= b.target then Pass
    else if b.hardFail.Some? && p99 <= b.hardFail.value then Over
    else Fail
  }

  function Severity(v: Verdict): nat {
    match v
    case Pass => 0
    case Over => 1
    case Fail => 2
  }

  const P99 := 0.99

  function VerdictOf(s: Samples): Verdict {
    Judge(s.budget, Percentile(s, P99))
  }

  /** A run passes exactly when 99 of 100 calls kept to the target, fails exactly
      when fewer kept to what the row still allows, and is over between. */
  lemma VerdictSays(s: Samples)
    requires Sorted(s.nanos) && s.nanos != []
    ensures var b, share := s.budget, 0.99 * |s.nanos| as real;
            var allowed := if b.hardFail.Some? && b.hardFail.value > b.target then b.hardFail.value else b.target;
            && (VerdictOf(s) == Pass <==> Count(s.nanos, b.target) as real >= share)
            && (VerdictOf(s) == Fail <==> (Count(s.nanos, allowed) as real) < share)
  {
    hide Count, Index;
    WithinLimit(s, 0.99, s.budget.target);
    if s.budget.hardFail.Some? {
      WithinLimit(s, 0.99, s.budget.hardFail.value);
    }
  }

  /** `measure`, from the time each call took. */
  method Measure(budget: Budget, elapsed: seq<nat>) returns (s: Samples)
    ensures s.budget == budget && Sorted(s.nanos) && multiset(s.nanos) == multiset(elapsed)
  {
    var nanos: seq<nat> := [];
    for i := 0 to |elapsed|
      invariant nanos == elapsed[..i]
    {
      nanos := nanos + [elapsed[i]];
    }
    assert elapsed[..|elapsed|] == elapsed;
    nanos := Sort(nanos);
    s := Samples(budget, nanos);
  }

  /** A run slower call by call has no lower percentile and no better verdict. */
  method MeasureBoth(budget: Budget, quick: seq<nat>, slow: seq<nat>, p: real) returns (s: Samples, t: Samples)
    requires Slower(quick, slow) && 0.0 <= p <= 1.0
    ensures s.budget == t.budget == budget && multiset(s.nanos) == multiset(quick)
    ensures multiset(t.nanos) == multiset(slow)
    ensures Percentile(s, p) <= Percentile(t, p) && Severity(VerdictOf(s)) <= Severity(VerdictOf(t))
  {
    s := Measure(budget, quick);
    t := Measure(budget, slow);
    SlowerIsNoBetter(s, t, quick, slow, p);
  }

  lemma SlowerIsNoBetter(s: Samples, t: Samples, quick: seq<nat>, slow: seq<nat>, p: real)
    requires Slower(quick, slow) && 0.0 <= p <= 1.0 && s.budget == t.budget
    requires Sorted(s.nanos) && multiset(s.nanos) == multiset(quick) && Sorted(t.nanos)
    requires multiset(t.nanos) == multiset(slow)
    ensures Percentile(s, p) <= Percentile(t, p) && Severity(VerdictOf(s)) <= Severity(VerdictOf(t))
  {
    hide Rank;
    SortedStaysSlower(quick, slow, s.nanos, t.nanos);
  }
}
