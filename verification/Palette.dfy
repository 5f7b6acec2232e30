/** The GIF palette: median cut over a sample of every frame, and the table
    that remembers the nearest entry of a coarse colour. */
module Palette {
  import opened Bytes
  import Png

  datatype Colour = Colour(r: byte, g: byte, b: byte) {
    /** Channel 0, 1 or 2. */
    function Ch(c: nat): byte {
      if c == 0 then r else if c == 1 then g else b
    }
  }

  const ENTRIES := 256

  /** The pixels a frame gives to the sample: every fifth, from the first. */
  function Sampled(px: seq<byte>): (r: seq<Colour>)
    ensures |r| == (|px| + 16) / 20
    ensures forall k :: 0 <= k < |r| ==> r[k] == Colour(px[20 * k], px[20 * k + 1], px[20 * k + 2])
  {
    if |px| < 4 then []
    else [Colour(px[0], px[1], px[2])] + if |px| < 20 then [] else Sampled(px[20..])
  }

  function Samples(frames: seq<Png.Image>): seq<Colour> {
    if frames == [] then [] else Samples(frames[..|frames| - 1]) + Sampled(frames[|frames| - 1].px)
  }

  /** Every frame gives its own, in order. */
  lemma {:induction false} SamplesAppend(a: seq<Png.Image>, b: seq<Png.Image>)
    ensures Samples(a + b) == Samples(a) + Samples(b)
    ensures |a| == 1 ==> Samples(a) == Sampled(a[0].px)
    decreases |b|
  {
    hide Sampled;
    assert |a| == 1 ==> a[..0] == [] && Samples([]) == [];
    if b == [] {
      assert a + b == a;
    } else {
      assert (a + b)[..|a| + |b| - 1] == a + b[..|b| - 1];
      SamplesAppend(a, b[..|b| - 1]);
    }
  }

  // ----------------------------------------------------------------- boxes

  function Least(b: seq<Colour>, c: nat): (r: byte)
    ensures forall i :: 0 <= i < |b| ==> r <= b[i].Ch(c)
    ensures b != [] ==> exists i :: 0 <= i < |b| && b[i].Ch(c) == r
  {
    if b == [] then 255
    else
      var n, m := |b| - 1, Least(b[..|b| - 1], c);
      assert b[n].Ch(c) == b[n].Ch(c);
      assert forall i :: 0 <= i < n ==> b[..n][i] == b[i];
      if b[n].Ch(c) < m then b[n].Ch(c) else m
  }

  function Greatest(b: seq<Colour>, c: nat): (r: byte)
    ensures forall i :: 0 <= i < |b| ==> b[i].Ch(c) <= r
    ensures b != [] ==> exists i :: 0 <= i < |b| && b[i].Ch(c) == r
  {
    if b == [] then 0
    else
      var n, m := |b| - 1, Greatest(b[..|b| - 1], c);
      assert b[n].Ch(c) == b[n].Ch(c);
      assert forall i :: 0 <= i < n ==> b[..n][i] == b[i];
      if b[n].Ch(c) > m then b[n].Ch(c) else m
  }

  function Range(b: seq<Colour>, c: nat): nat
    requires b != []
  {
    assert Least(b, c) <= b[0].Ch(c) <= Greatest(b, c);
    Greatest(b, c) - Least(b, c)
  }

  /** The range of a channel is the greatest difference between two colours. */
  lemma RangeIs(b: seq<Colour>, c: nat)
    requires b != []
    ensures forall p, q :: p in b && q in b ==> p.Ch(c) - q.Ch(c) <= Range(b, c)
    ensures exists p, q :: p in b && q in b && p.Ch(c) - q.Ch(c) == Range(b, c)
  {
    hide Least, Greatest;
    var i :| 0 <= i < |b| && b[i].Ch(c) == Least(b, c);
    var j :| 0 <= j < |b| && b[j].Ch(c) == Greatest(b, c);
    assert b[j].Ch(c) - b[i].Ch(c) == Range(b, c);
    forall p, q | p in b && q in b ensures p.Ch(c) - q.Ch(c) <= Range(b, c) {
      var k :| 0 <= k < |b| && b[k] == p;
      var l :| 0 <= l < |b| && b[l] == q;
    }
  }

  /** The widest channel; the last of equals. */
  function Widest(b: seq<Colour>): (c: nat)
    requires b != []
    ensures c < 3 && forall k :: 0 <= k < 3 ==> Range(b, k) <= Range(b, c)
    ensures forall k :: c < k < 3 ==> Range(b, k) < Range(b, c)
  {
    var first := if Range(b, 1) >= Range(b, 0) then 1 else 0;
    if Range(b, 2) >= Range(b, first) then 2 else first
  }

  function Spread(b: seq<Colour>): nat
    requires b != []
  {
    Range(b, Widest(b))
  }

  /** All of a box is one colour. */
  ghost predicate Plain(b: seq<Colour>) {
    forall i :: 0 <= i < |b| ==> b[i] == b[0]
  }

  lemma NarrowIsPlain(b: seq<Colour>)
    requires b != [] && Spread(b) == 0
    ensures Plain(b)
  {
    forall i | 0 <= i < |b| ensures b[i] == b[0] {
      forall c | 0 <= c < 3 ensures b[i].Ch(c) == b[0].Ch(c) {
        assert Range(b, c) == 0;
      }
      assert b[i].Ch(0) == b[0].Ch(0) && b[i].Ch(1) == b[0].Ch(1) && b[i].Ch(2) == b[0].Ch(2);
    }
  }

  ghost function Contents(boxes: seq<seq<Colour>>): multiset<Colour> {
    if boxes == [] then multiset{} else Contents(boxes[..|boxes| - 1]) + multiset(boxes[|boxes| - 1])
  }

  lemma {:induction false} ContentsUpdate(boxes: seq<seq<Colour>>, i: nat, b: seq<Colour>)
    requires i < |boxes|
    ensures Contents(boxes[i := b]) + multiset(boxes[i]) == Contents(boxes) + multiset(b)
    decreases |boxes|
  {
    var n := |boxes| - 1;
    if i == n {
      assert boxes[i := b][..n] == boxes[..n];
    } else {
      assert boxes[i := b][..n] == boxes[..n][i := b];
      ContentsUpdate(boxes[..n], i, b);
      AddToBoth(Contents(boxes[..n][i := b]), multiset(boxes[i]), Contents(boxes[..n]), multiset(b),
        multiset(boxes[n]));
    }
  }

  lemma AddToBoth(a: multiset<Colour>, x: multiset<Colour>, b: multiset<Colour>, y: multiset<Colour>,
                  m: multiset<Colour>)
    requires a + x == b + y
    ensures (a + m) + x == (b + m) + y
  {
    assert (a + m) + x == (a + x) + m && (b + m) + y == (b + y) + m;
  }

  lemma TakeFromBoth(a: multiset<Colour>, x: multiset<Colour>, b: multiset<Colour>, m: multiset<Colour>)
    requires (a + m) + x == b + m
    ensures a + x == b
  {
    assert (a + m) + x == (a + x) + m;
    assert a + x == ((a + x) + m) - m == (b + m) - m == b;
  }

  /** `swap_remove`: the last box takes the place of the one taken out. */
  function SwapRemove(boxes: seq<seq<Colour>>, i: nat): (r: seq<seq<Colour>>)
    requires i < |boxes|
    ensures |r| == |boxes| - 1
    ensures forall k :: 0 <= k < |r| ==> r[k] == if k == i then boxes[|boxes| - 1] else boxes[k]
  {
    boxes[i := boxes[|boxes| - 1]][..|boxes| - 1]
  }

  lemma {:induction false} SwapRemoveContents(boxes: seq<seq<Colour>>, i: nat)
    requires i < |boxes|
    ensures Contents(SwapRemove(boxes, i)) + multiset(boxes[i]) == Contents(boxes)
  {
    var n := |boxes| - 1;
    var swapped := boxes[i := boxes[n]];
    ContentsUpdate(boxes, i, boxes[n]);
    assert Contents(swapped) == Contents(swapped[..n]) + multiset(boxes[n]);
    TakeFromBoth(Contents(swapped[..n]), multiset(boxes[i]), Contents(boxes), multiset(boxes[n]));
  }

  lemma PushContents(boxes: seq<seq<Colour>>, b: seq<Colour>)
    ensures Contents(boxes + [b]) == Contents(boxes) + multiset(b)
  {
    assert (boxes + [b])[..|boxes|] == boxes;
  }

  lemma HalvesContents(b: seq<Colour>, k: nat)
    requires k <= |b|
    ensures multiset(b) == multiset(b[..k]) + multiset(b[k..])
  {
    assert b == b[..k] + b[k..];
  }

  ghost predicate Sorted(b: seq<Colour>, c: nat) {
    forall i, j :: 0 <= i < j < |b| ==> b[i].Ch(c) <= b[j].Ch(c)
  }

  /** A sort by one channel. What follows uses only that the result is sorted
      and holds the same colours. */
  method SortBy(b: seq<Colour>, c: nat) returns (s: seq<Colour>)
    ensures multiset(s) == multiset(b) && |s| == |b| && Sorted(s, c)
  {
    s := [];
    for n := 0 to |b|
      invariant multiset(s) == multiset(b[..n]) && |s| == n && Sorted(s, c)
    {
      assert b[..n + 1] == b[..n] + [b[n]];
      s := Insert(s, b[n], c);
    }
    assert b[..|b|] == b;
  }

  method Insert(s: seq<Colour>, p: Colour, c: nat) returns (r: seq<Colour>)
    requires Sorted(s, c)
    ensures multiset(r) == multiset(s) + multiset{p} && |r| == |s| + 1 && Sorted(r, c)
  {
    var k := 0;
    while k < |s| && s[k].Ch(c) <= p.Ch(c)
      invariant 0 <= k <= |s| && forall i :: 0 <= i < k ==> s[i].Ch(c) <= p.Ch(c)
    {
      k := k + 1;
    }
    r := s[..k] + [p] + s[k..];
    assert s == s[..k] + s[k..];
    InsertedSorted(s, p, c, k);
  }

  lemma InsertedSorted(s: seq<Colour>, p: Colour, c: nat, k: nat)
    requires Sorted(s, c) && k <= |s| && forall i :: 0 <= i < k ==> s[i].Ch(c) <= p.Ch(c)
    requires k < |s| ==> p.Ch(c) < s[k].Ch(c)
    ensures Sorted(s[..k] + [p] + s[k..], c)
  {
    var r := s[..k] + [p] + s[k..];
    forall i, j | 0 <= i < j < |r| ensures r[i].Ch(c) <= r[j].Ch(c) {
      var x, y := if i < k then i else i - 1, if j < k then j else j - 1;
      assert i != k ==> r[i] == s[x];
      assert j != k ==> r[j] == s[y];
      assert r[k] == p;
    }
  }

  /** The box to split: the widest of those with two colours or more, the last
      of equals. */
  method Pick(boxes: seq<seq<Colour>>) returns (found: bool, i: nat)
    ensures found <==> exists j :: 0 <= j < |boxes| && |boxes[j]| > 1
    ensures found ==> i < |boxes| && |boxes[i]| > 1
    ensures found ==> forall j :: 0 <= j < |boxes| && |boxes[j]| > 1 ==> Spread(boxes[j]) <= Spread(boxes[i])
    ensures found ==> forall j :: i < j < |boxes| && |boxes[j]| > 1 ==> Spread(boxes[j]) < Spread(boxes[i])
  {
    hide Spread;
    found, i := false, 0;
    for k := 0 to |boxes|
      invariant found <==> exists j :: 0 <= j < k && |boxes[j]| > 1
      invariant found ==> i < k && |boxes[i]| > 1
      invariant found ==> forall j :: 0 <= j < k && |boxes[j]| > 1 ==> Spread(boxes[j]) <= Spread(boxes[i])
      invariant found ==> forall j :: i < j < k && |boxes[j]| > 1 ==> Spread(boxes[j]) < Spread(boxes[i])
    {
      if |boxes[k]| > 1 && (!found || Spread(boxes[k]) >= Spread(boxes[i])) {
        found, i := true, k;
      }
    }
  }

  ghost predicate NoneEmpty(boxes: seq<seq<Colour>>) {
    forall i :: 0 <= i < |boxes| ==> boxes[i] != []
  }

  /** The box to split has two colours or more, of the widest spread there is,
      and is the last of those. */
  ghost predicate Chosen(boxes: seq<seq<Colour>>, i: nat) {
    && i < |boxes| && |boxes[i]| > 1 && Spread(boxes[i]) > 0
    && (forall j :: 0 <= j < |boxes| && |boxes[j]| > 1 ==> Spread(boxes[j]) <= Spread(boxes[i]))
    && (forall j :: i < j < |boxes| && |boxes[j]| > 1 ==> Spread(boxes[j]) < Spread(boxes[i]))
  }

  /** One split: the box chosen, sorted as `b` by its widest channel, goes and
      its halves on both sides of the median come. */
  ghost predicate Splits(before: seq<seq<Colour>>, after: seq<seq<Colour>>, i: nat, b: seq<Colour>) {
    && Chosen(before, i) && multiset(b) == multiset(before[i]) && Sorted(b, Widest(before[i]))
    && after == SwapRemove(before, i) + [b[..|b| / 2]] + [b[|b| / 2..]]
  }

  ghost predicate Split(before: seq<seq<Colour>>, after: seq<seq<Colour>>) {
    exists i, b :: Splits(before, after, i, b)
  }

  /** A run of splits, from the whole sample in one box. */
  ghost predicate Splitting(run: seq<seq<seq<Colour>>>, colours: seq<Colour>) {
    && run != [] && run[0] == [colours]
    && forall k, l :: 0 <= k < l < |run| && l == k + 1 ==> Split(run[k], run[l])
  }

  /** The boxes the cut ends with: what a run of splits comes to when there are
      256 boxes or nothing is left to split. Every colour of the sample is in
      them, as often as it is there. */
  ghost predicate Cut(boxes: seq<seq<Colour>>, colours: seq<Colour>) {
    && 1 <= |boxes| <= 256 && Contents(boxes) == multiset(colours)
    && (colours != [] ==> NoneEmpty(boxes))
    && (|boxes| < 256 ==> forall i :: 0 <= i < |boxes| ==> Plain(boxes[i]))
    && exists run :: Splitting(run, colours) && |run| == |boxes| && run[|run| - 1] == boxes
  }

  method MedianCut(colours: seq<Colour>) returns (boxes: seq<seq<Colour>>)
    ensures Cut(boxes, colours)
  {
    hide Spread, Widest, Sorted, Splitting, Splits, Contents;
    boxes := [colours];
    ghost var run := [boxes];
    FirstBox(colours);
    while |boxes| < ENTRIES
      invariant 1 <= |boxes| <= ENTRIES && Contents(boxes) == multiset(colours)
      invariant colours != [] ==> NoneEmpty(boxes)
      invariant Splitting(run, colours) && |run| == |boxes| && run[|run| - 1] == boxes
      decreases ENTRIES - |boxes|
    {
      var found, i := Pick(boxes);
      if !found || Spread(boxes[i]) == 0 {
        NothingToSplit(boxes, found, i);
        return;
      }
      var b := SortBy(boxes[i], Widest(boxes[i]));
      var half := |b| / 2;
      SplitKeeps(boxes, i, b, half);
      IsSplit(boxes, i, b);
      boxes := SwapRemove(boxes, i);
      boxes := boxes + [b[..half]];
      boxes := boxes + [b[half..]];
      SplitAgain(run, colours, boxes, i, b);
      run := run + [boxes];
    }
  }

  lemma FirstBox(colours: seq<Colour>)
    ensures Splitting([[colours]], colours) && Contents([colours]) == multiset(colours)
  {
    assert [colours][..0] == [];
    assert Contents([]) == multiset{};
  }

  lemma IsSplit(boxes: seq<seq<Colour>>, i: nat, b: seq<Colour>)
    requires Chosen(boxes, i) && multiset(b) == multiset(boxes[i]) && Sorted(b, Widest(boxes[i]))
    ensures Splits(boxes, SwapRemove(boxes, i) + [b[..|b| / 2]] + [b[|b| / 2..]], i, b)
  {
  }

  lemma SplitAgain(run: seq<seq<seq<Colour>>>, colours: seq<Colour>, after: seq<seq<Colour>>, i: nat, b: seq<Colour>)
    requires Splitting(run, colours) && Splits(run[|run| - 1], after, i, b)
    ensures Splitting(run + [after], colours)
  {
    hide Splits;
    var more := run + [after];
    assert Split(run[|run| - 1], after);
    forall k, l | 0 <= k < l < |more| && l == k + 1 ensures Split(more[k], more[l]) {
      if l < |run| {
        assert Split(run[k], run[l]);
      }
    }
  }

  lemma SplitKeeps(boxes: seq<seq<Colour>>, i: nat, b: seq<Colour>, half: nat)
    requires i < |boxes| && multiset(b) == multiset(boxes[i]) && 0 < half < |b|
    ensures var after := SwapRemove(boxes, i) + [b[..half]] + [b[half..]];
            Contents(after) == Contents(boxes) && |after| == |boxes| + 1 && (NoneEmpty(boxes) ==> NoneEmpty(after))
  {
    hide Contents;
    SwapRemoveContents(boxes, i);
    HalvesContents(b, half);
    var others := SwapRemove(boxes, i);
    PushContents(others, b[..half]);
    PushContents(others + [b[..half]], b[half..]);
  }

  lemma NothingToSplit(boxes: seq<seq<Colour>>, found: bool, i: nat)
    requires found <==> exists j :: 0 <= j < |boxes| && |boxes[j]| > 1
    requires found ==> i < |boxes| && |boxes[i]| > 1 && Spread(boxes[i]) == 0
    requires found ==> forall j :: 0 <= j < |boxes| && |boxes[j]| > 1 ==> Spread(boxes[j]) <= Spread(boxes[i])
    ensures forall j :: 0 <= j < |boxes| ==> Plain(boxes[j])
  {
    hide Spread;
    forall j | 0 <= j < |boxes| ensures Plain(boxes[j]) {
      if |boxes[j]| > 1 {
        assert Spread(boxes[j]) == 0;
        NarrowIsPlain(boxes[j]);
      }
    }
  }

  // --------------------------------------------------------------- entries

  function Sum(b: seq<Colour>, c: nat): nat {
    if b == [] then 0 else Sum(b[..|b| - 1], c) + b[|b| - 1].Ch(c)
  }

  lemma {:induction false} SumAppend(a: seq<Colour>, b: seq<Colour>, c: nat)
    ensures Sum(a + b, c) == Sum(a, c) + Sum(b, c)
    ensures |a| == 1 ==> Sum(a, c) == a[0].Ch(c)
    decreases |b|
  {
    assert |a| == 1 ==> a[..0] == [];
    if b == [] {
      assert a + b == a;
    } else {
      assert (a + b)[..|a| + |b| - 1] == a + b[..|b| - 1];
      SumAppend(a, b[..|b| - 1], c);
    }
  }

  lemma {:induction false} SumBetween(b: seq<Colour>, c: nat, lo: nat, hi: nat)
    requires forall i :: 0 <= i < |b| ==> lo <= b[i].Ch(c) <= hi
    ensures lo * |b| <= Sum(b, c) <= hi * |b|
    decreases |b|
  {
    if b != [] {
      SumBetween(b[..|b| - 1], c, lo, hi);
      assert lo * |b| == lo * (|b| - 1) + lo && hi * |b| == hi * (|b| - 1) + hi;
    }
  }

  lemma QuotientBetween(s: nat, n: nat, lo: nat, hi: nat)
    requires n > 0 && lo * n <= s <= hi * n
    ensures lo <= s / n <= hi
  {
    var q := s / n;
    assert q * n <= s < (q + 1) * n;
    Cancel(lo, q + 1, n);
    Cancel(q, hi + 1, n);
  }

  lemma Cancel(a: nat, b: nat, n: nat)
    requires a * n < b * n
    ensures a < b
  {
  }

  /** A channel's mean, summed in 32 bits. */
  function Mean(b: seq<Colour>, c: nat): byte {
    Low8(Sum(b, c) % 0x1_0000_0000 / if |b| > 0 then |b| else 1)
  }

  function Entry(b: seq<Colour>): Colour {
    Colour(Mean(b, 0), Mean(b, 1), Mean(b, 2))
  }

  ghost predicate Inside(p: Colour, b: seq<Colour>) {
    forall c :: 0 <= c < 3 ==> Least(b, c) <= p.Ch(c) <= Greatest(b, c)
  }

  /** No channel's sum overflows. */
  ghost predicate SumsFit(b: seq<Colour>) {
    forall c :: 0 <= c < 3 ==> Sum(b, c) < 0x1_0000_0000
  }

  lemma FewFit(b: seq<Colour>)
    requires 255 * |b| < 0x1_0000_0000
    ensures SumsFit(b)
  {
    hide Sum;
    forall c | 0 <= c < 3 ensures Sum(b, c) < 0x1_0000_0000 {
      SumBetween(b, c, 0, 255);
    }
  }

  /** The most samples whose sums always fit. */
  const MOST := 16_843_009

  /** The wrapped sum of each channel is one of a mean within the box. */
  ghost predicate WrapsInside(b: seq<Colour>) {
    forall c :: 0 <= c < 3 ==>
      Least(b, c) as nat * |b| <= Sum(b, c) % 0x1_0000_0000 < (Greatest(b, c) as nat + 1) * |b|
  }

  /** A wrapped sum is no more than the sum, so its quotient is a byte. */
  lemma MeanIs(b: seq<Colour>, c: nat)
    requires b != []
    ensures Mean(b, c) as nat == Sum(b, c) % 0x1_0000_0000 / |b|
  {
    hide Sum;
    SumBetween(b, c, 0, 255);
    QuotientBetween(Sum(b, c) % 0x1_0000_0000, |b|, 0, 255);
    Wraps(Sum(b, c) % 0x1_0000_0000 / |b|, 256);
  }

  lemma QuotientIn(s: nat, n: nat, lo: nat, hi: nat)
    requires n > 0
    ensures lo <= s / n <= hi <==> lo * n <= s < (hi + 1) * n
  {
    var q := s / n;
    assert q * n <= s < (q + 1) * n;
    if lo <= q <= hi {
      Times(lo, q, n);
      Times(q + 1, hi + 1, n);
    }
    if lo * n <= s < (hi + 1) * n {
      Cancel(lo, q + 1, n);
      Cancel(q, hi + 1, n);
    }
  }

  lemma Times(a: nat, b: nat, n: nat)
    requires a <= b
    ensures a * n <= b * n
  {
  }

  lemma Wraps(s: nat, m: nat)
    requires s < m
    ensures s % m == s
  {
  }

  /** An entry lies within its box exactly when the wrapped sums are those of
      colours within it; and so it does when no sum overflows. */
  lemma EntryInside(b: seq<Colour>)
    requires b != []
    ensures Inside(Entry(b), b) <==> WrapsInside(b)
    ensures SumsFit(b) ==> Inside(Entry(b), b)
  {
    hide Mean, Least, Greatest, Sum;
    var p := Entry(b);
    forall c | 0 <= c < 3
      ensures Least(b, c) <= p.Ch(c) <= Greatest(b, c) <==>
                Least(b, c) as nat * |b| <= Sum(b, c) % 0x1_0000_0000 < (Greatest(b, c) as nat + 1) * |b|
      ensures Sum(b, c) < 0x1_0000_0000 ==> Least(b, c) <= p.Ch(c) <= Greatest(b, c)
    {
      MeanIs(b, c);
      assert p.Ch(c) == Mean(b, c);
      QuotientIn(Sum(b, c) % 0x1_0000_0000, |b|, Least(b, c) as nat, Greatest(b, c) as nat);
      SumBetween(b, c, Least(b, c) as nat, Greatest(b, c) as nat);
      QuotientBetween(Sum(b, c), |b|, Least(b, c) as nat, Greatest(b, c) as nat);
    }
  }

  /** Of a box of one colour the entry is that colour exactly when no sum
      overflows, and else lies outside. */
  lemma PlainEntry(b: seq<Colour>)
    requires b != [] && Plain(b)
    ensures Inside(Entry(b), b) <==> SumsFit(b)
    ensures Entry(b) == b[0] <==> SumsFit(b)
  {
    hide Mean, Least, Greatest, Sum;
    var p := Entry(b);
    forall c | 0 <= c < 3
      ensures Least(b, c) == Greatest(b, c) == b[0].Ch(c)
      ensures p.Ch(c) == b[0].Ch(c) <==> Sum(b, c) < 0x1_0000_0000
    {
      PlainChannel(b, c);
      PlainMean(b, c);
      assert p.Ch(c) == Mean(b, c);
    }
    assert p == b[0] <==> p.Ch(0) == b[0].Ch(0) && p.Ch(1) == b[0].Ch(1) && p.Ch(2) == b[0].Ch(2);
  }

  lemma PlainChannel(b: seq<Colour>, c: nat)
    requires b != [] && Plain(b)
    ensures Least(b, c) == Greatest(b, c) == b[0].Ch(c)
  {
    hide Least, Greatest;
    var i :| 0 <= i < |b| && b[i].Ch(c) == Least(b, c);
    var j :| 0 <= j < |b| && b[j].Ch(c) == Greatest(b, c);
    assert b[i] == b[0] && b[j] == b[0];
  }

  lemma PlainMean(b: seq<Colour>, c: nat)
    requires b != [] && Plain(b)
    ensures Mean(b, c) == b[0].Ch(c) <==> Sum(b, c) < 0x1_0000_0000
  {
    hide Mean, Sum;
    var v, s := b[0].Ch(c) as nat, Sum(b, c);
    SumBetween(b, c, v, v);
    MeanIs(b, c);
    QuotientIn(s % 0x1_0000_0000, |b|, v, v);
    if s < 0x1_0000_0000 {
      Wraps(s, 0x1_0000_0000);
      assert (v + 1) * |b| == v * |b| + |b|;
    }
  }

  ghost predicate AlwaysInside(n: nat) {
    forall b: seq<Colour> :: |b| == n ==> Inside(Entry(b), b)
  }

  function White(n: nat): seq<Colour> {
    seq(n, _ => Colour(255, 255, 255))
  }

  lemma WhiteFits(n: nat)
    requires n > 0
    ensures Plain(White(n)) && White(n)[0] == Colour(255, 255, 255)
    ensures SumsFit(White(n)) <==> n <= MOST
  {
    hide Sum;
    forall c | 0 <= c < 3 ensures Sum(White(n), c) == 255 * n {
      SumBetween(White(n), c, 255, 255);
    }
    assert Sum(White(n), 0) == 255 * n;
  }

  /** Every box of a size holds its entry exactly when 255 a sample fit the sum. */
  lemma SizeDecides(n: nat)
    requires n > 0
    ensures AlwaysInside(n) <==> n <= MOST
  {
    hide Entry, Inside, SumsFit;
    if n <= MOST {
      forall b: seq<Colour> | |b| == n ensures Inside(Entry(b), b) {
        FewFit(b);
        EntryInside(b);
      }
    } else {
      WhiteFits(n);
      PlainEntry(White(n));
      assert |White(n)| == n;
    }
  }

  lemma {:induction false} ContentsSize(boxes: seq<seq<Colour>>, i: nat)
    requires i < |boxes|
    ensures |boxes[i]| <= |Contents(boxes)|
    ensures forall p :: p in boxes[i] ==> p in Contents(boxes)
    decreases |boxes|
  {
    assert |Contents(boxes)| == |Contents(boxes[..|boxes| - 1])| + |multiset(boxes[|boxes| - 1])|;
    if i < |boxes| - 1 {
      ContentsSize(boxes[..|boxes| - 1], i);
      assert boxes[..|boxes| - 1][i] == boxes[i];
    }
  }

  lemma {:induction false} HasBox(boxes: seq<seq<Colour>>, p: Colour) returns (i: nat)
    requires p in Contents(boxes)
    ensures i < |boxes| && p in boxes[i]
    decreases |boxes|
  {
    i := |boxes| - 1;
    if p !in boxes[i] {
      assert p !in multiset(boxes[i]);
      i := HasBox(boxes[..i], p);
    }
  }

  /** The palette of the boxes: for each the truncated mean of its colours,
      which lies within it unless the sum overflows, and black for the rest. */
  ghost predicate Summarises(pal: seq<Colour>, boxes: seq<seq<Colour>>) {
    && |boxes| <= |pal| == 256
    && (forall i :: 0 <= i < |boxes| ==> pal[i] == Entry(boxes[i]))
    && (forall i :: 0 <= i < |boxes| && boxes[i] != [] && SumsFit(boxes[i]) ==> Inside(pal[i], boxes[i]))
    && (forall i :: |boxes| <= i < 256 ==> pal[i] == Colour(0, 0, 0))
  }

  ghost predicate IsPalette(pal: seq<Colour>, colours: seq<Colour>) {
    exists boxes :: Cut(boxes, colours) && Summarises(pal, boxes)
  }

  /** `palette` */
  method Palette(frames: seq<Png.Image>) returns (pal: seq<Colour>)
    ensures |pal| == 256 && IsPalette(pal, Samples(frames))
  {
    hide Cut, Entry, Inside;
    var colours: seq<Colour> := [];
    for n := 0 to |frames|
      invariant colours == Samples(frames[..n])
    {
      assert frames[..n + 1][..n] == frames[..n];
      colours := colours + Sampled(frames[n].px);
    }
    assert frames[..|frames|] == frames;
    var boxes := MedianCut(colours);
    assert |boxes| <= ENTRIES by { CutSize(boxes, colours); }
    pal := [];
    for i := 0 to |boxes|
      invariant |pal| == i && forall k :: 0 <= k < i ==> pal[k] == Entry(boxes[k])
    {
      pal := pal + [Entry(boxes[i])];
    }
    while |pal| < ENTRIES
      invariant |boxes| <= |pal| <= ENTRIES
      invariant forall k :: 0 <= k < |boxes| ==> pal[k] == Entry(boxes[k])
      invariant forall k :: |boxes| <= k < |pal| ==> pal[k] == Colour(0, 0, 0)
    {
      pal := pal + [Colour(0, 0, 0)];
    }
    EntriesSummarise(pal, boxes);
  }

  lemma CutSize(boxes: seq<seq<Colour>>, colours: seq<Colour>)
    requires Cut(boxes, colours)
    ensures |boxes| <= ENTRIES
  {
  }

  lemma EntriesSummarise(pal: seq<Colour>, boxes: seq<seq<Colour>>)
    requires |boxes| <= |pal| == ENTRIES
    requires forall i :: 0 <= i < |boxes| ==> pal[i] == Entry(boxes[i])
    requires forall i :: |boxes| <= i < ENTRIES ==> pal[i] == Colour(0, 0, 0)
    ensures Summarises(pal, boxes)
  {
    hide Entry, Inside;
    forall i | 0 <= i < |boxes| && boxes[i] != [] && SumsFit(boxes[i]) ensures Inside(pal[i], boxes[i]) {
      EntryInside(boxes[i]);
    }
  }

  /** A sample of no more than 256 pixels loses nothing: each of its colours is
      an entry. */
  lemma FewAreKept(pal: seq<Colour>, colours: seq<Colour>)
    requires IsPalette(pal, colours) && 0 < |colours| <= ENTRIES
    ensures forall p :: p in colours ==> p in pal
  {
    hide Entry, Inside;
    var boxes :| Cut(boxes, colours) && Summarises(pal, boxes);
    assert |multiset(colours)| == |colours|;
    NoneEmptySize(boxes);
    forall p | p in colours ensures p in pal {
      assert p in multiset(colours);
      var i := HasBox(boxes, p);
      ContentsSize(boxes, i);
      if |boxes| == ENTRIES {
        OthersHoldOne(boxes, i);
      }
      assert Plain(boxes[i]);
      FewFit(boxes[i]);
      PlainEntry(boxes[i]);
    }
  }

  /** A sample of one colour stays in one box, so the palette begins with that
      colour exactly when no sum overflows. */
  lemma PlainSample(pal: seq<Colour>, colours: seq<Colour>)
    requires IsPalette(pal, colours) && colours != [] && Plain(colours)
    ensures |pal| == ENTRIES && pal[0] == Entry(colours)
    ensures pal[0] == colours[0] <==> SumsFit(colours)
  {
    hide Entry, Inside, SumsFit;
    var boxes :| Cut(boxes, colours) && Summarises(pal, boxes);
    OneBox(boxes, colours);
    PlainEntry(colours);
  }

  /** So it is with frames that give `n` white samples: the first entry is white
      up to 16 843 009 of them, and another colour from there on. */
  lemma WhiteSample(frames: seq<Png.Image>, pal: seq<Colour>, n: nat)
    requires n > 0 && Samples(frames) == White(n) && IsPalette(pal, Samples(frames))
    ensures |pal| == ENTRIES && (pal[0] == Colour(255, 255, 255) <==> n <= MOST)
  {
    hide Entry, SumsFit, IsPalette;
    WhiteFits(n);
    PlainSample(pal, White(n));
  }

  /** There are such frames: one row of five times as many white pixels. */
  lemma WhiteFrame(n: nat)
    requires n > 0
    ensures var frame := Png.Image(5 * n, 1, seq(20 * n, _ => 255));
            && (20 * n < 0x8000_0000 ==> frame.Valid())
            && Samples([frame]) == White(n)
  {
    var px: seq<byte> := seq(20 * n, _ => 255);
    var frame := Png.Image(5 * n, 1, px);
    WhitePixels(px, n);
    assert [frame][..0] == [];
    assert Samples([]) == [];
  }

  lemma {:induction false} WhitePixels(px: seq<byte>, n: nat)
    requires |px| == 20 * n && forall i :: 0 <= i < |px| ==> px[i] == 255
    ensures Sampled(px) == White(n)
    decreases n
  {
    if n > 0 {
      WhitePixels(px[20..], n - 1);
      assert [Colour(255, 255, 255)] + White(n - 1) == White(n);
    }
  }

  lemma OneBox(boxes: seq<seq<Colour>>, colours: seq<Colour>)
    requires Cut(boxes, colours) && colours != [] && Plain(colours)
    ensures boxes == [colours]
  {
    hide Spread, Splits;
    var run :| Splitting(run, colours) && |run| == |boxes| && run[|run| - 1] == boxes;
    if |run| > 1 {
      assert Split(run[0], run[1]);
      var i, b :| Splits(run[0], run[1], i, b);
      assert Chosen(run[0], i) by { SplitsChosen(run[0], run[1], i, b); }
      PlainIsNarrow(colours);
    }
  }

  lemma SplitsChosen(before: seq<seq<Colour>>, after: seq<seq<Colour>>, i: nat, b: seq<Colour>)
    requires Splits(before, after, i, b)
    ensures Chosen(before, i)
  {
  }

  lemma PlainIsNarrow(b: seq<Colour>)
    requires b != [] && Plain(b)
    ensures Spread(b) == 0
  {
    hide Least, Greatest;
    PlainChannel(b, Widest(b));
  }

  /** Every entry lies in the box it was made of. */
  ghost predicate EntriesInside(pal: seq<Colour>, colours: seq<Colour>) {
    exists boxes :: Cut(boxes, colours) && Summarises(pal, boxes)
      && forall i :: 0 <= i < |boxes| ==> Inside(pal[i], boxes[i])
  }

  /** From samples of a size every palette has its entries in their boxes exactly
      when 255 a sample fit the sum. */
  lemma SampleSizeDecides(n: nat)
    requires n > 0
    ensures n <= MOST <==>
              forall pal, colours: seq<Colour> :: |colours| == n && IsPalette(pal, colours) ==>
                EntriesInside(pal, colours)
  {
    hide Entry, Inside, SumsFit, Cut, Summarises;
    if n <= MOST {
      forall pal, colours: seq<Colour> | |colours| == n && IsPalette(pal, colours)
        ensures EntriesInside(pal, colours)
      {
        FewStayInside(pal, colours);
      }
    } else {
      var pal := WhitePalette(n);
      assert |White(n)| == n;
      assert IsPalette(pal, White(n)) && !EntriesInside(pal, White(n));
    }
  }

  lemma FewStayInside(pal: seq<Colour>, colours: seq<Colour>)
    requires IsPalette(pal, colours) && 0 < |colours| <= MOST
    ensures EntriesInside(pal, colours)
  {
    hide Entry, Inside, SumsFit;
    var boxes :| Cut(boxes, colours) && Summarises(pal, boxes);
    assert |multiset(colours)| == |colours|;
    forall i | 0 <= i < |boxes| ensures Inside(pal[i], boxes[i]) {
      ContentsSize(boxes, i);
      FewFit(boxes[i]);
      EntryInside(boxes[i]);
    }
  }

  lemma WhitePalette(n: nat) returns (pal: seq<Colour>)
    requires n > MOST
    ensures IsPalette(pal, White(n)) && !EntriesInside(pal, White(n))
  {
    hide Entry, Inside, SumsFit;
    var colours := White(n);
    WhiteFits(n);
    PlainEntry(colours);
    FirstBox(colours);
    pal := [Entry(colours)] + seq(ENTRIES - 1, _ => Colour(0, 0, 0));
    assert Cut([colours], colours) by {
      var run := [[colours]];
      assert Splitting(run, colours) && |run| == |[colours]| && run[|run| - 1] == [colours];
    }
    EntriesSummarise(pal, [colours]);
    assert IsPalette(pal, colours);
    forall boxes | Cut(boxes, colours) && Summarises(pal, boxes) ensures !Inside(pal[0], boxes[0]) {
      OneBox(boxes, colours);
    }
  }

  lemma {:induction false} NoneEmptySize(boxes: seq<seq<Colour>>)
    requires NoneEmpty(boxes)
    ensures |boxes| <= |Contents(boxes)|
    decreases |boxes|
  {
    if boxes != [] {
      NoneEmptySize(boxes[..|boxes| - 1]);
      assert |Contents(boxes)| == |Contents(boxes[..|boxes| - 1])| + |multiset(boxes[|boxes| - 1])|;
    }
  }

  lemma {:induction false} OthersHoldOne(boxes: seq<seq<Colour>>, i: nat)
    requires NoneEmpty(boxes) && i < |boxes|
    ensures |boxes[i]| + |boxes| - 1 <= |Contents(boxes)|
    decreases |boxes|
  {
    var n := |boxes| - 1;
    assert |Contents(boxes)| == |Contents(boxes[..n])| + |multiset(boxes[n])|;
    if i < n {
      OthersHoldOne(boxes[..n], i);
    } else {
      NoneEmptySize(boxes[..n]);
    }
  }

  // ------------------------------------------------------ nearest entries

  /** The 5-5-5 key of a colour, and the colour it stands for. */
  function Key(p: Colour): (k: nat)
    ensures k < 32768
  {
    (p.r as nat) / 8 * 1024 + (p.g as nat) / 8 * 32 + (p.b as nat) / 8
  }

  /** A pixel with each channel at the middle of its eighth. */
  ghost function Middle(pixel: seq<byte>): Colour
    requires |pixel| == 3
  {
    Colour(pixel[0] - pixel[0] % 8 + 4, pixel[1] - pixel[1] % 8 + 4, pixel[2] - pixel[2] % 8 + 4)
  }

  function Coarse(p: Colour): (q: Colour)
    ensures q.Ch(0) == p.r - p.r % 8 + 4 && q.Ch(1) == p.g - p.g % 8 + 4 && q.Ch(2) == p.b - p.b % 8 + 4
  {
    Colour(p.r - p.r % 8 + 4, p.g - p.g % 8 + 4, p.b - p.b % 8 + 4)
  }

  lemma KeyCoarse(p: Colour, q: Colour)
    requires Key(p) == Key(q)
    ensures Coarse(p) == Coarse(q)
  {
    Digits((p.r as nat) / 8, (p.g as nat) / 8, (p.b as nat) / 8, (q.r as nat) / 8, (q.g as nat) / 8, (q.b as nat) / 8);
    Eighths(p.r);
    Eighths(p.g);
    Eighths(p.b);
    Eighths(q.r);
    Eighths(q.g);
    Eighths(q.b);
  }

  lemma Digits(a: nat, b: nat, c: nat, x: nat, y: nat, z: nat)
    requires b < 32 && c < 32 && y < 32 && z < 32 && a * 1024 + b * 32 + c == x * 1024 + y * 32 + z
    ensures a == x && b == y && c == z
  {
  }

  lemma Eighths(v: nat)
    ensures v - v % 8 == v / 8 * 8
  {
  }

  function Square(d: int): nat {
    d * d
  }

  function Distance(p: Colour, q: Colour): nat {
    Square(p.r - q.r) + Square(p.g - q.g) + Square(p.b - q.b)
  }

  /** How far apart two colours are, all three channels squared. */
  ghost function Apart(p: Colour, q: Colour): int {
    (p.r - q.r) * (p.r - q.r) + (p.g - q.g) * (p.g - q.g) + (p.b - q.b) * (p.b - q.b)
  }

  lemma DistanceIsApart(p: Colour, q: Colour)
    ensures Distance(p, q) == Apart(p, q)
  {
  }

  /** The first entry at the least distance. */
  ghost predicate IsNearest(pal: seq<Colour>, p: Colour, i: nat) {
    && i < |pal|
    && (forall j :: 0 <= j < |pal| ==> Apart(pal[i], p) <= Apart(pal[j], p))
    && (forall j :: 0 <= j < i ==> Apart(pal[i], p) < Apart(pal[j], p))
  }

  lemma NearestUnique(pal: seq<Colour>, p: Colour, i: nat, j: nat)
    requires IsNearest(pal, p, i) && IsNearest(pal, p, j)
    ensures i == j
  {
    hide Apart;
    var di, dj := Apart(pal[i], p), Apart(pal[j], p);
  }

  method Search(pal: seq<Colour>, p: Colour) returns (i: nat)
    requires pal != []
    ensures IsNearest(pal, p, i)
  {
    hide Distance, Apart;
    i := 0;
    for n := 1 to |pal|
      invariant i < n && (forall j :: 0 <= j < n ==> Apart(pal[i], p) <= Apart(pal[j], p))
      invariant forall j :: 0 <= j < i ==> Apart(pal[i], p) < Apart(pal[j], p)
    {
      DistanceIsApart(pal[n], p);
      DistanceIsApart(pal[i], p);
      if Distance(pal[n], p) < Distance(pal[i], p) {
        i := n;
      }
    }
  }

  const UNKNOWN := 65535

  /** The table filled as colours come up, kept from one frame to the next. */
  class Lut {
    const pal: seq<Colour>
    const lut: array<nat>

    ghost predicate Valid()
      reads this, lut
    {
      && 0 < |pal| <= ENTRIES && lut.Length == 32768
      && forall p: Colour :: lut[Key(p)] == UNKNOWN || IsNearest(pal, Coarse(p), lut[Key(p)])
    }

    constructor (pal: seq<Colour>)
      requires 0 < |pal| <= ENTRIES
      ensures Valid() && this.pal == pal && fresh(lut)
    {
      this.pal := pal;
      lut := new nat[32768](_ => UNKNOWN);
    }

    /** The entry for a pixel is what a search would give, remembered or not. */
    method Index(p: Colour) returns (i: byte)
      requires Valid()
      modifies lut
      ensures Valid() && IsNearest(pal, Coarse(p), i)
    {
      hide IsNearest, Key, Coarse;
      var key := Key(p);
      if lut[key] == UNKNOWN {
        var found := Search(pal, Coarse(p));
        lut[key] := found;
        forall q: Colour ensures lut[Key(q)] == UNKNOWN || IsNearest(pal, Coarse(q), lut[Key(q)]) {
          if Key(q) == key {
            KeyCoarse(p, q);
          }
        }
      }
      assert lut[key] != UNKNOWN ==> IsNearest(pal, Coarse(p), lut[key]);
      NearestBelow(pal, Coarse(p), lut[key]);
      i := lut[key];
    }
  }

  lemma NearestBelow(pal: seq<Colour>, p: Colour, i: nat)
    requires IsNearest(pal, p, i)
    ensures i < |pal|
  {
  }
}
