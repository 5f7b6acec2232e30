/** The did-you-mean distance: two rows of the Levenshtein table. */
module EditDistance {
  import opened Options

  function Min(x: nat, y: nat): nat {
    if y < x then y else x
  }

  /** Levenshtein distance, by the last characters. */
  function Lev(a: string, b: string): nat
    decreases |a| + |b|
  {
    if a == "" then |b|
    else if b == "" then |a|
    else
      var a', b' := a[..|a| - 1], b[..|b| - 1];
      Min(Min(Lev(a', b') + Cost(a[|a| - 1], b[|b| - 1]), Lev(a', b) + 1), Lev(a, b') + 1)
  }

  function Cost(x: char, y: char): nat {
    if x == y then 0 else 1
  }

  lemma LevPrefixes(a: string, b: string, i: nat, j: nat)
    requires i < |a| && j < |b|
    ensures Lev(a[..i + 1], b[..j + 1]) ==
            Min(Min(Lev(a[..i], b[..j]) + Cost(a[i], b[j]), Lev(a[..i], b[..j + 1]) + 1), Lev(a[..i + 1], b[..j]) + 1)
  {
    assert a[..i + 1][..i] == a[..i] && b[..j + 1][..j] == b[..j];
  }

  /** Entry `j` of row `i` of the table. */
  function Entry(a: string, b: string, i: nat, j: nat): nat
    requires i <= |a| && j <= |b|
  {
    Lev(a[..i], b[..j])
  }

  lemma EntryEdges(a: string, b: string)
    ensures forall k :: 0 <= k <= |b| ==> Entry(a, b, 0, k) == k
    ensures forall i :: 0 <= i <= |a| ==> Entry(a, b, i, 0) == i
    ensures Entry(a, b, |a|, |b|) == Lev(a, b)
  {
    assert a[..|a|] == a && b[..|b|] == b;
  }

  lemma EntryStep(a: string, b: string, i: nat, j: nat)
    requires i < |a| && j < |b|
    ensures Entry(a, b, i + 1, j + 1)
            == Min(Min(Entry(a, b, i, j) + Cost(a[i], b[j]), Entry(a, b, i, j + 1) + 1), Entry(a, b, i + 1, j) + 1)
  {
    hide Lev;
    LevPrefixes(a, b, i, j);
  }

  method EditDistance(a: string, b: string) returns (d: nat)
    ensures d == Lev(a, b)
  {
    hide Entry, Lev;
    EntryEdges(a, b);
    var prev := new nat[|b| + 1](j => j);
    var cur := new nat[|b| + 1](_ => 0);
    for i := 0 to |a|
      invariant prev != cur && prev.Length == cur.Length == |b| + 1
      invariant fresh(prev) && fresh(cur)
      invariant forall k :: 0 <= k <= |b| ==> prev[k] == Entry(a, b, i, k)
    {
      cur[0] := i + 1;
      for j := 0 to |b|
        invariant forall k :: 0 <= k <= |b| ==> prev[k] == Entry(a, b, i, k)
        invariant forall k :: 0 <= k <= j ==> cur[k] == Entry(a, b, i + 1, k)
      {
        EntryStep(a, b, i, j);
        cur[j + 1] := Min(Min(prev[j] + Cost(a[i], b[j]), prev[j + 1] + 1), cur[j] + 1);
      }
      prev, cur := cur, prev;
    }
    d := prev[|b|];
  }

  // ---------------------------------------------------------- a metric

  /** The three ways the last column can be aligned. */
  lemma LevStep(a: string, b: string)
    requires a != "" && b != ""
    ensures var a', b' := a[..|a| - 1], b[..|b| - 1];
            && Lev(a, b) <= Lev(a', b') + Cost(a[|a| - 1], b[|b| - 1])
            && Lev(a, b) <= Lev(a', b) + 1 && Lev(a, b) <= Lev(a, b') + 1
            && (Lev(a, b) == Lev(a', b') + Cost(a[|a| - 1], b[|b| - 1])
                || Lev(a, b) == Lev(a', b) + 1 || Lev(a, b) == Lev(a, b') + 1)
  {
  }

  lemma {:induction false} LevSymmetric(a: string, b: string)
    ensures Lev(a, b) == Lev(b, a)
    decreases |a| + |b|
  {
    if a != "" && b != "" {
      var a', b' := a[..|a| - 1], b[..|b| - 1];
      LevSymmetric(a', b');
      LevSymmetric(a', b);
      LevSymmetric(a, b');
    }
  }

  lemma {:induction false} LevLength(a: string, b: string)
    ensures |a| <= |b| + Lev(a, b) && |b| <= |a| + Lev(a, b)
    ensures Lev(a, b) <= |a| + |b|
    decreases |a| + |b|
  {
    if a != "" && b != "" {
      var a', b' := a[..|a| - 1], b[..|b| - 1];
      LevLength(a', b');
      LevLength(a', b);
      LevLength(a, b');
    }
  }

  lemma {:induction false} LevZero(a: string, b: string)
    ensures Lev(a, b) == 0 <==> a == b
    decreases |a| + |b|
  {
    if a != "" && b != "" {
      var a', b' := a[..|a| - 1], b[..|b| - 1];
      LevZero(a', b');
      LevStep(a, b);
      assert a == a' + [a[|a| - 1]] && b == b' + [b[|b| - 1]];
    }
  }

  lemma {:induction false} LevTriangle(a: string, b: string, c: string)
    ensures Lev(a, c) <= Lev(a, b) + Lev(b, c)
    decreases |a| + |b| + |c|
  {
    if a == "" || c == "" || b == "" {
      LevLength(a, b);
      LevLength(b, c);
      LevLength(a, c);
    } else {
      var a', b', c' := a[..|a| - 1], b[..|b| - 1], c[..|c| - 1];
      LevStep(a, b);
      LevStep(b, c);
      LevStep(a, c);
      LevTriangle(a', b, c);
      LevTriangle(a, b, c');
      LevTriangle(a', b', c');
      LevTriangle(a', b', c);
      LevTriangle(a, b', c');
      LevTriangle(a, b', c);
    }
  }

  // ------------------------------------------------ the fewest single edits

  /** One character inserted, deleted or replaced. */
  ghost predicate OneEdit(a: string, b: string) {
    exists k: nat, c: char :: EditAt(a, b, k, c) || EditAt(b, a, k, c) || ReplacedAt(a, b, k, c)
  }

  /** `b` is `a` with `c` inserted at `k`. */
  ghost predicate EditAt(a: string, b: string, k: nat, c: char) {
    k <= |a| && b == a[..k] + [c] + a[k..]
  }

  ghost predicate ReplacedAt(a: string, b: string, k: nat, c: char) {
    k < |a| && b == a[k := c]
  }

  /** `b` can be made from `a` by `n` single edits. */
  ghost predicate Reachable(a: string, b: string, n: nat)
    decreases n
  {
    if n == 0 then a == b else exists m :: Reachable(a, m, n - 1) && OneEdit(m, b)
  }

  lemma {:induction false} LevAppendBoth(a: string, b: string, s: string)
    ensures Lev(a + s, b + s) <= Lev(a, b)
    decreases |s|
  {
    if s == "" {
      assert a + s == a && b + s == b;
    } else {
      var x, y, s' := a + s, b + s, s[..|s| - 1];
      LevAppendBoth(a, b, s');
      assert x[..|x| - 1] == a + s' && y[..|y| - 1] == b + s';
      LevStep(x, y);
    }
  }

  lemma OneEditCostsOne(a: string, b: string)
    requires OneEdit(a, b)
    ensures Lev(a, b) <= 1
  {
    var k: nat, c: char :| EditAt(a, b, k, c) || EditAt(b, a, k, c) || ReplacedAt(a, b, k, c);
    if EditAt(a, b, k, c) {
      InsertCostsOne(a, b, k, c);
    } else if EditAt(b, a, k, c) {
      InsertCostsOne(b, a, k, c);
      LevSymmetric(a, b);
    } else {
      ReplaceCostsOne(a, b, k, c);
    }
  }

  lemma SnocCosts(p: string, x: char, y: char)
    ensures Lev(p, p + [y]) <= 1 && Lev(p + [x], p + [y]) <= 1
  {
    assert (p + [x])[..|p|] == p && (p + [y])[..|p|] == p;
    LevZero(p, p);
    LevStep(p + [x], p + [y]);
    if p != "" {
      LevStep(p, p + [y]);
    }
  }

  lemma ReplaceCostsOne(a: string, b: string, k: nat, c: char)
    requires ReplacedAt(a, b, k, c)
    ensures Lev(a, b) <= 1
  {
    hide Lev;
    var p, s := a[..k], a[k + 1..];
    SnocCosts(p, a[k], c);
    LevAppendBoth(p + [a[k]], p + [c], s);
    assert a == p + [a[k]] + s && b == p + [c] + s;
  }

  lemma InsertCostsOne(a: string, b: string, k: nat, c: char)
    requires EditAt(a, b, k, c)
    ensures Lev(a, b) <= 1
  {
    var p, s := a[..k], a[k..];
    SnocCosts(p, c, c);
    LevAppendBoth(p, p + [c], s);
    assert a == p + s;
  }

  lemma {:induction false} ReachableCosts(a: string, b: string, n: nat)
    requires Reachable(a, b, n)
    ensures Lev(a, b) <= n
    decreases n
  {
    if n == 0 {
      LevZero(a, b);
    } else {
      hide Lev, OneEdit;
      var m :| Reachable(a, m, n - 1) && OneEdit(m, b);
      ReachableCosts(a, m, n - 1);
      OneEditCostsOne(m, b);
      LevTriangle(a, m, b);
    }
  }

  lemma OneEditAppend(a: string, b: string, x: char)
    requires OneEdit(a, b)
    ensures OneEdit(a + [x], b + [x])
  {
    var k: nat, c: char :| EditAt(a, b, k, c) || EditAt(b, a, k, c) || ReplacedAt(a, b, k, c);
    if EditAt(a, b, k, c) {
      assert EditAt(a + [x], b + [x], k, c) by { InsertAppend(a, k, c, x); }
    } else if EditAt(b, a, k, c) {
      assert EditAt(b + [x], a + [x], k, c) by { InsertAppend(b, k, c, x); }
    } else {
      assert ReplacedAt(a + [x], b + [x], k, c);
    }
  }

  lemma InsertAppend(a: string, k: nat, c: char, x: char)
    requires k <= |a|
    ensures a[..k] + [c] + a[k..] + [x] == (a + [x])[..k] + [c] + (a + [x])[k..]
  {
    assert (a + [x])[..k] == a[..k] && (a + [x])[k..] == a[k..] + [x];
  }

  lemma {:induction false} ReachableAppend(a: string, b: string, n: nat, x: char)
    requires Reachable(a, b, n)
    ensures Reachable(a + [x], b + [x], n)
    decreases n
  {
    if n > 0 {
      var m :| Reachable(a, m, n - 1) && OneEdit(m, b);
      ReachableAppend(a, m, n - 1, x);
      OneEditAppend(m, b, x);
    }
  }

  lemma {:induction false} ReachableAfter(a: string, m: string, b: string, n: nat)
    requires OneEdit(a, m) && Reachable(m, b, n)
    ensures Reachable(a, b, n + 1)
    decreases n
  {
    if n == 0 {
      assert Reachable(a, a, 0);
    } else {
      var l :| Reachable(m, l, n - 1) && OneEdit(l, b);
      ReachableAfter(a, m, l, n - 1);
    }
  }

  lemma {:induction false} LevReachable(a: string, b: string)
    ensures Reachable(a, b, Lev(a, b))
    decreases |a| + |b|, 1
  {
    if a == "" && b == "" {
      assert Reachable("", "", 0);
    } else if a == "" || (b != "" && Lev(a, b) == Lev(a, b[..|b| - 1]) + 1) {
      InsertLast(a, b);
    } else if b == "" || Lev(a, b) == Lev(a[..|a| - 1], b) + 1 {
      DeleteLast(a, b);
    } else {
      ReplaceLast(a, b);
    }
  }

  lemma {:induction false} InsertLast(a: string, b: string)
    requires b != "" && Lev(a, b) == Lev(a, b[..|b| - 1]) + 1
    ensures Reachable(a, b, Lev(a, b))
    decreases |a| + |b|, 0
  {
    hide *;
    var b' := b[..|b| - 1];
    LevReachable(a, b');
    InsertAppended(a, b', b[|b| - 1], Lev(a, b'));
    assert b == b' + [b[|b| - 1]];
  }

  lemma InsertAppended(a: string, b: string, y: char, n: nat)
    requires Reachable(a, b, n)
    ensures Reachable(a, b + [y], n + 1)
  {
    assert EditAt(b, b + [y], |b|, y);
    ReachableThen(a, b, b + [y], n);
  }

  lemma {:induction false} DeleteLast(a: string, b: string)
    requires a != "" && Lev(a, b) == Lev(a[..|a| - 1], b) + 1
    ensures Reachable(a, b, Lev(a, b))
    decreases |a| + |b|, 0
  {
    hide *;
    var a' := a[..|a| - 1];
    LevReachable(a', b);
    DeleteFirst(a', a[|a| - 1], b, Lev(a', b));
    assert a == a' + [a[|a| - 1]];
  }

  lemma DeleteFirst(a: string, x: char, b: string, n: nat)
    requires Reachable(a, b, n)
    ensures Reachable(a + [x], b, n + 1)
  {
    assert EditAt(a, a + [x], |a|, x);
    ReachableAfter(a + [x], a, b, n);
  }

  lemma {:induction false} ReplaceLast(a: string, b: string)
    requires a != "" && b != ""
    requires Lev(a, b) == Lev(a[..|a| - 1], b[..|b| - 1]) + Cost(a[|a| - 1], b[|b| - 1])
    ensures Reachable(a, b, Lev(a, b))
    decreases |a| + |b|, 0
  {
    hide *;
    var a', b', x, y := a[..|a| - 1], b[..|b| - 1], a[|a| - 1], b[|b| - 1];
    LevReachable(a', b');
    assert a == a' + [x] && b == b' + [y];
    ReplaceAppended(a', b', x, y, Lev(a', b'));
  }

  lemma ReplaceAppended(a: string, b: string, x: char, y: char, n: nat)
    requires Reachable(a, b, n)
    ensures Reachable(a + [x], b + [y], n + Cost(x, y))
  {
    hide Reachable;
    ReachableAppend(a, b, n, x);
    if x != y {
      assert ReplacedAt(b + [x], b + [y], |b|, y);
      ReachableThen(a + [x], b + [x], b + [y], n);
    }
  }

  lemma ReachableThen(a: string, m: string, b: string, n: nat)
    requires Reachable(a, m, n) && OneEdit(m, b)
    ensures Reachable(a, b, n + 1)
  {
  }

  /** The distance is the least number of single-character edits. */
  lemma LevIsFewestEdits(a: string, b: string, n: nat)
    ensures Reachable(a, b, Lev(a, b))
    ensures Reachable(a, b, n) ==> Lev(a, b) <= n
  {
    LevReachable(a, b);
    if Reachable(a, b, n) {
      ReachableCosts(a, b, n);
    }
  }

  // ------------------------------------------------------- did you mean

  /** How many code points `k` bytes of UTF-8 can tell apart: one byte has seven
      bits for it, more have five each and one (section 3 of RFC 3629). */
  ghost function CodePoints(k: nat): nat {
    if k <= 1 then 128 else if k == 2 then 2 * 32 * 32 else 32 * CodePoints(k - 1)
  }

  /** The bytes a character takes in UTF-8: as few as can hold it. */
  function Utf8Size(c: char): (k: nat)
    ensures k >= 1 && c as int < CodePoints(k) && (k > 1 ==> CodePoints(k - 1) <= c as int)
  {
    var n := c as int;
    if n < 0x80 then 1 else if n < 0x800 then 2 else if n < 0x1_0000 then 3 else 4
  }

  function Utf8Len(s: string): nat {
    if s == "" then 0 else Utf8Size(s[0]) + Utf8Len(s[1..])
  }

  /** A third of the word's length in bytes, at least one. */
  function Budget(word: string): (r: nat)
    ensures r >= 1 && (r > 1 ==> 3 * r <= Utf8Len(word)) && Utf8Len(word) < 3 * (r + 1)
  {
    if Utf8Len(word) / 3 > 1 then Utf8Len(word) / 3 else 1
  }

  function Distances(word: string, candidates: seq<string>): (r: seq<nat>)
    ensures |r| == |candidates|
    ensures forall i :: 0 <= i < |r| ==> r[i] == Lev(word, candidates[i])
  {
    seq(|candidates|, i requires 0 <= i < |candidates| => Lev(word, candidates[i]))
  }

  /** The position `filter(d <= budget).min_by_key(d)` picks. */
  function Pick(ds: seq<nat>, budget: nat): (r: Option<nat>)
    ensures r.Some? ==> r.value < |ds|
  {
    if ds == [] then None
    else
      var n := |ds| - 1;
      var best := Pick(ds[..n], budget);
      if ds[n] > budget || (best.Some? && ds[best.value] <= ds[n]) then best else Some(n)
  }

  /** Nothing is picked exactly when all are over the budget; otherwise it is
      the first of the least. */
  lemma {:induction false} PickIsFirstLeast(ds: seq<nat>, budget: nat)
    ensures Pick(ds, budget) == None <==> forall i :: 0 <= i < |ds| ==> ds[i] > budget
    ensures Pick(ds, budget).Some? ==>
              var k := Pick(ds, budget).value;
              && ds[k] <= budget
              && (forall i :: 0 <= i < |ds| ==> ds[k] <= ds[i])
              && (forall i :: 0 <= i < k ==> ds[k] < ds[i])
  {
    if ds != [] {
      var n := |ds| - 1;
      PickIsFirstLeast(ds[..n], budget);
      assert forall i :: 0 <= i < n ==> ds[i] == ds[..n][i];
    }
  }

  /** The candidate suggested for `word`. */
  function Nearest(word: string, candidates: seq<string>): Option<string> {
    match Pick(Distances(word, candidates), Budget(word))
    case None => None
    case Some(k) => Some(candidates[k])
  }

  /** A suggestion is a candidate within the budget that no candidate needs
      fewer edits than; none is made only when there is no such candidate. */
  lemma NearestIsLeast(word: string, candidates: seq<string>)
    ensures Nearest(word, candidates) == None <==> forall c :: c in candidates ==> Lev(word, c) > Budget(word)
    ensures Nearest(word, candidates).Some? ==>
              var r := Nearest(word, candidates).value;
              && r in candidates && Lev(word, r) <= Budget(word)
              && forall c :: c in candidates ==> Lev(word, r) <= Lev(word, c)
  {
    var ds := Distances(word, candidates);
    PickIsFirstLeast(ds, Budget(word));
    if Nearest(word, candidates) == None {
      forall c | c in candidates ensures Lev(word, c) > Budget(word) {
        var i :| 0 <= i < |candidates| && candidates[i] == c;
        assert ds[i] == Lev(word, c);
      }
    } else {
      assert Nearest(word, candidates).value in candidates;
      forall c | c in candidates ensures Lev(word, Nearest(word, candidates).value) <= Lev(word, c) {
        var i :| 0 <= i < |candidates| && candidates[i] == c;
        assert ds[i] == Lev(word, c);
      }
    }
  }
}
