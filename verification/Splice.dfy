/** Byte splices: a set of edits applied to a text in place, last first. */
module Splice {
  import opened Options
  import opened Kdl
  import opened Bytes

  /** Edits of `text[a..b]` in order, at different places, none reaching into
      the next. */
  ghost predicate Fits(es: seq<Edit>, a: nat, b: nat)
    decreases |es|
  {
    if es == [] then a <= b
    else
      && a <= es[0].start <= es[0].stop
      && (|es| > 1 ==> es[0].start < es[1].start)
      && Fits(es[1..], es[0].stop, b)
  }

  lemma {:induction false} FitsBounds(es: seq<Edit>, a: nat, b: nat)
    requires Fits(es, a, b)
    ensures a <= b
    ensures forall i :: 0 <= i < |es| ==> a <= es[i].start <= es[i].stop <= b
    decreases |es|
  {
    if es != [] {
      FitsBounds(es[1..], es[0].stop, b);
    }
  }

  /** `text[a..b]` with the edits made, rebuilt once from left to right. */
  ghost function Rebuild(text: string, a: nat, b: nat, es: seq<Edit>): string
    requires b <= |text| && Fits(es, a, b)
    decreases |es|
  {
    if es == [] then text[a..b]
    else
      FitsBounds(es, a, b);
      text[a..es[0].start] + es[0].with + Rebuild(text, es[0].stop, b, es[1..])
  }

  lemma {:induction false} FitsAppend(es: seq<Edit>, fs: seq<Edit>, a: nat, b: nat, c: nat)
    requires Fits(es, a, b) && Fits(fs, b, c)
    requires es != [] && fs != [] ==> es[|es| - 1].start < fs[0].start
    ensures Fits(es + fs, a, c)
    decreases |es|
  {
    FitsBounds(es, a, b);
    if es == [] {
      assert es + fs == fs;
      FitsLower(fs, a, b, c);
    } else {
      assert (es + fs)[1..] == es[1..] + fs;
      FitsAppend(es[1..], fs, es[0].stop, b, c);
    }
  }

  lemma FitsLower(es: seq<Edit>, a: nat, b: nat, c: nat)
    requires a <= b && Fits(es, b, c)
    ensures Fits(es, a, c)
  {
  }

  lemma {:induction false} RebuildAppend(text: string, a: nat, b: nat, c: nat, es: seq<Edit>, fs: seq<Edit>)
    requires c <= |text| && Fits(es, a, b) && Fits(fs, b, c) && Fits(es + fs, a, c)
    ensures b <= c
    ensures Rebuild(text, a, c, es + fs) == Rebuild(text, a, b, es) + Rebuild(text, b, c, fs)
    decreases |es|
  {
    FitsBounds(es, a, b);
    FitsBounds(fs, b, c);
    if es == [] {
      assert es + fs == fs;
      RebuildLower(text, a, b, c, fs);
    } else {
      assert (es + fs)[1..] == es[1..] + fs;
      RebuildAppend(text, es[0].stop, b, c, es[1..], fs);
      Regroup(text[a..es[0].start] + es[0].with, Rebuild(text, es[0].stop, b, es[1..]), Rebuild(text, b, c, fs));
    }
  }

  lemma RebuildLower(text: string, a: nat, b: nat, c: nat, es: seq<Edit>)
    requires c <= |text| && a <= b && Fits(es, b, c)
    ensures b <= c && Fits(es, a, c)
    ensures Rebuild(text, a, c, es) == text[a..b] + Rebuild(text, b, c, es)
  {
    FitsBounds(es, b, c);
    FitsLower(es, a, b, c);
    if es == [] {
      assert text[a..c] == text[a..b] + text[b..c];
    } else {
      var x, y, z := text[a..b], text[b..es[0].start], Rebuild(text, es[0].stop, c, es[1..]);
      assert text[a..es[0].start] == x + y;
      Regroup(x, y, es[0].with);
      Regroup(x, y + es[0].with, z);
    }
  }

  /** One edit made in place: `replace_range`. */
  function Replace(text: string, e: Edit): string
    requires e.start <= e.stop <= |text|
  {
    text[..e.start] + e.with + text[e.stop..]
  }

  /** A rebuild depends only on the text it covers. */
  lemma {:induction false} RebuildLocal(t: string, u: string, a: nat, b: nat, es: seq<Edit>)
    requires b <= |t| && b <= |u| && t[..b] == u[..b] && Fits(es, a, b)
    ensures Rebuild(t, a, b, es) == Rebuild(u, a, b, es)
    decreases |es|
  {
    FitsBounds(es, a, b);
    if es == [] {
      assert t[a..b] == t[..b][a..b] == u[a..b];
    } else {
      assert t[a..es[0].start] == t[..b][a..es[0].start] == u[a..es[0].start];
      RebuildLocal(t, u, es[0].stop, b, es[1..]);
    }
  }

  lemma {:induction false} FitsSplit(es: seq<Edit>, l: Edit, a: nat, b: nat)
    requires Fits(es + [l], a, b)
    ensures a <= l.start <= l.stop <= b && Fits(es, a, l.start) && Fits([l], l.start, b)
    ensures es != [] ==> es[|es| - 1].start < l.start
    decreases |es|
  {
    FitsBounds(es + [l], a, b);
    if es == [] {
      assert [] + [l] == [l];
    } else {
      assert (es + [l])[1..] == es[1..] + [l] && (es + [l])[0] == es[0];
      FitsSplit(es[1..], l, es[0].stop, b);
    }
  }

  /** Making the last edit first and rebuilding with the others is the rebuild
      with all of them. */
  lemma LastFirst(text: string, es: seq<Edit>, l: Edit) returns (u: string)
    requires Fits(es + [l], 0, |text|)
    ensures l.start <= l.stop <= |text| && u == Replace(text, l)
    ensures Fits(es, 0, |u|) && Rebuild(text, 0, |text|, es + [l]) == Rebuild(u, 0, |u|, es)
  {
    FitsSplit(es, l, 0, |text|);
    u := Replace(text, l);
    RebuildAppend(text, 0, l.start, |text|, es, [l]);
    OneEdit(text, l);
    assert u[l.start..] == l.with + text[l.stop..];
    FitsBounds(es, 0, l.start);
    FitsUpper(es, 0, l.start, |u|);
    RebuildUpper(u, 0, l.start, |u|, es);
    RebuildLocal(text, u, 0, l.start, es);
  }

  lemma {:induction false} OneEdit(text: string, l: Edit)
    requires l.start <= l.stop <= |text|
    ensures Fits([l], l.start, |text|) && Rebuild(text, l.start, |text|, [l]) == l.with + text[l.stop..]
  {
    assert [l][1..] == [];
    assert Fits([], l.stop, |text|);
    assert Rebuild(text, l.stop, |text|, []) == text[l.stop..];
    assert text[l.start..l.start] == "";
  }

  lemma {:induction false} FitsUpper(es: seq<Edit>, a: nat, b: nat, c: nat)
    requires b <= c && Fits(es, a, b)
    ensures Fits(es, a, c)
    decreases |es|
  {
    if es != [] {
      FitsUpper(es[1..], es[0].stop, b, c);
    }
  }

  lemma {:induction false} RebuildUpper(text: string, a: nat, b: nat, c: nat, es: seq<Edit>)
    requires b <= c <= |text| && Fits(es, a, b)
    ensures Fits(es, a, c) && Rebuild(text, a, c, es) == Rebuild(text, a, b, es) + text[b..c]
    decreases |es|
  {
    FitsUpper(es, a, b, c);
    FitsBounds(es, a, b);
    if es == [] {
      assert text[a..c] == text[a..b] + text[b..c];
    } else {
      RebuildUpper(text, es[0].stop, b, c, es[1..]);
      Regroup(text[a..es[0].start] + es[0].with, Rebuild(text, es[0].stop, b, es[1..]), text[b..c]);
    }
  }

  /** Edits inside `text[b..t]` and edits after it. */
  lemma RebuildInner(text: string, a: nat, b: nat, t: nat, e: nat, c: nat, es: seq<Edit>, fs: seq<Edit>)
    requires a <= b && t < e && c <= |text| && Fits(es, b, t) && Fits(fs, e, c)
    ensures b <= t && e <= c && Fits(es + fs, a, c)
    ensures Rebuild(text, a, c, es + fs) == text[a..b] + Rebuild(text, b, t, es) + text[t..e] + Rebuild(text, e, c, fs)
  {
    FitsBounds(es, b, t);
    FitsBounds(fs, e, c);
    FitsUpper(es, b, t, e);
    RebuildUpper(text, b, t, e, es);
    FitsLower(es, a, b, e);
    RebuildLower(text, a, b, e, es);
    FitsAppend(es, fs, a, e, c);
    RebuildAppend(text, a, e, c, es, fs);
    Regroup(text[a..b], Rebuild(text, b, t, es), text[t..e]);
  }

  /** One deletion and edits after it. */
  lemma RebuildDeleted(text: string, a: nat, b: nat, e: nat, c: nat, fs: seq<Edit>)
    requires a <= b < e && c <= |text| && Fits(fs, e, c)
    ensures e <= c && Fits([Edit(b, e, "")] + fs, a, c)
    ensures Rebuild(text, a, c, [Edit(b, e, "")] + fs) == text[a..b] + Rebuild(text, e, c, fs)
  {
    FitsBounds(fs, e, c);
    var es := [Edit(b, e, "")] + fs;
    assert es[1..] == fs;
    assert text[a..b] + "" == text[a..b];
  }

  // ------------------------------------------------------------- the sort

  /** Insertion keeping the order of equal starts: the stable sort by the
      starts reversed. */
  function Insert(e: Edit, es: seq<Edit>): (r: seq<Edit>)
    ensures multiset(r) == multiset([e] + es)
  {
    if es == [] || e.start >= es[0].start then [e] + es
    else
      assert [e] + es == [e] + ([es[0]] + es[1..]);
      assert multiset(Insert(e, es[1..])) == multiset([e] + es[1..]);
      [es[0]] + Insert(e, es[1..])
  }

  function SortDescending(es: seq<Edit>): (r: seq<Edit>)
    ensures multiset(r) == multiset(es)
  {
    if es == [] then []
    else
      assert es == [es[0]] + es[1..];
      Insert(es[0], SortDescending(es[1..]))
  }

  ghost predicate Descending(es: seq<Edit>) {
    forall i, j :: 0 <= i < j < |es| ==> es[i].start >= es[j].start
  }

  lemma {:induction false} InsertKeepsOrder(e: Edit, es: seq<Edit>)
    requires Descending(es)
    ensures Descending(Insert(e, es))
    decreases |es|
  {
    if es == [] || e.start >= es[0].start {
      FirstDescends(e, es);
    } else {
      assert Descending(es[1..]);
      InsertKeepsOrder(e, es[1..]);
      var r := Insert(e, es[1..]);
      forall x | x in r ensures x.start <= es[0].start {
        assert x in multiset(r);
        assert x in [e] + es[1..];
      }
      FirstDescends(es[0], r);
    }
  }

  lemma FirstDescends(e: Edit, es: seq<Edit>)
    requires Descending(es) && forall x :: x in es ==> x.start <= e.start
    ensures Descending([e] + es)
  {
    var r := [e] + es;
    forall i, j | 0 <= i < j < |r| ensures r[i].start >= r[j].start {
      assert r[j] == es[j - 1];
    }
  }

  lemma {:induction false} SortSorts(es: seq<Edit>)
    ensures Descending(SortDescending(es))
    decreases |es|
  {
    if es != [] {
      SortSorts(es[1..]);
      InsertKeepsOrder(es[0], SortDescending(es[1..]));
    }
  }

  lemma LastIsGreatest(es: seq<Edit>, l: Edit, a: nat, b: nat, e: Edit)
    requires Fits(es + [l], a, b) && e in es + [l]
    ensures e.start <= l.start && (e.start == l.start ==> e == l)
    decreases |es|
  {
    FitsSplit(es, l, a, b);
    FitsBounds(es, a, l.start);
    if e != l {
      var i :| 0 <= i < |es| && es[i] == e;
      StartsRise(es, a, l.start, i);
    }
  }

  lemma {:induction false} StartsRise(es: seq<Edit>, a: nat, b: nat, i: nat)
    requires Fits(es, a, b) && i < |es|
    ensures es[i].start <= es[|es| - 1].start
    decreases |es|
  {
    if i == 0 && |es| > 1 {
      StartsRise(es[1..], es[0].stop, b, 0);
    } else if i > 0 {
      StartsRise(es[1..], es[0].stop, b, i - 1);
    }
  }

  /** The greatest start of a descending list is its first. */
  lemma FirstIsLast(d: seq<Edit>, es: seq<Edit>, l: Edit, b: nat)
    requires Descending(d) && multiset(d) == multiset(es + [l]) && Fits(es + [l], 0, b)
    ensures d != [] && d[0] == l && multiset(d[1..]) == multiset(es)
  {
    var all := es + [l];
    assert all[|es|] in multiset(all);
    assert l in d;
    var i :| 0 <= i < |d| && d[i] == l;
    assert d[0] in multiset(all);
    LastIsGreatest(es, l, 0, b, d[0]);
    TakeOut(d, es, l);
  }

  lemma TakeOut(d: seq<Edit>, es: seq<Edit>, l: Edit)
    requires d != [] && d[0] == l && multiset(d) == multiset(es + [l])
    ensures multiset(d[1..]) == multiset(es)
  {
    assert d == [l] + d[1..];
    assert multiset(d) == multiset{l} + multiset(d[1..]);
    assert multiset(es + [l]) == multiset{l} + multiset(es);
    assert multiset(d[1..]) == multiset(d) - multiset{l} == multiset(es);
  }

  // ------------------------------------------------------------- in place

  /** Edits made in place, one after the other; `None` when one reaches past
      the text there is by then, where `replace_range` panics. */
  function InPlace(text: string, es: seq<Edit>): Option<string>
    decreases |es|
  {
    if es == [] then Some(text)
    else if es[0].start <= es[0].stop <= |text| then InPlace(Replace(text, es[0]), es[1..])
    else None
  }

  /** `splice_all`: the edits are made from the last to the first, in whatever
      order they come. */
  function AllMade(text: string, edits: seq<Edit>): Option<string> {
    InPlace(text, SortDescending(edits))
  }

  method SpliceAll(text: string, edits: seq<Edit>) returns (out: Option<string>)
    ensures out == AllMade(text, edits)
    ensures forall ordered :: multiset(edits) == multiset(ordered) && Fits(ordered, 0, |text|) ==>
              out == Some(Rebuild(text, 0, |text|, ordered))
  {
    var sorted := SortDescending(edits);
    var made := text;
    assert sorted[0..] == sorted;
    for i := 0 to |sorted|
      invariant AllMade(text, edits) == InPlace(made, sorted[i..])
    {
      assert sorted[i..][0] == sorted[i] && sorted[i..][1..] == sorted[i + 1..];
      if !(sorted[i].start <= sorted[i].stop <= |made|) {
        FitsAreMade(text, edits);
        return None;
      }
      made := Replace(made, sorted[i]);
    }
    assert sorted[|sorted|..] == [];
    FitsAreMade(text, edits);
    out := Some(made);
  }

  lemma FitsAreMade(text: string, edits: seq<Edit>)
    ensures forall ordered :: multiset(edits) == multiset(ordered) && Fits(ordered, 0, |text|) ==>
              AllMade(text, edits) == Some(Rebuild(text, 0, |text|, ordered))
  {
    hide Fits, Rebuild, AllMade;
    forall ordered | multiset(edits) == multiset(ordered) && Fits(ordered, 0, |text|)
      ensures AllMade(text, edits) == Some(Rebuild(text, 0, |text|, ordered))
    {
      MadeIsRebuilt(text, edits, ordered);
    }
  }

  /** For disjoint edits that is the one left-to-right rebuild. */
  lemma MadeIsRebuilt(text: string, edits: seq<Edit>, ordered: seq<Edit>)
    requires multiset(edits) == multiset(ordered) && Fits(ordered, 0, |text|)
    ensures AllMade(text, edits) == Some(Rebuild(text, 0, |text|, ordered))
  {
    hide InPlace;
    SortSorts(edits);
    DescendingMade(text, SortDescending(edits), ordered);
  }

  lemma {:induction false} DescendingMade(text: string, sorted: seq<Edit>, ordered: seq<Edit>)
    requires Descending(sorted) && multiset(sorted) == multiset(ordered) && Fits(ordered, 0, |text|)
    ensures InPlace(text, sorted) == Some(Rebuild(text, 0, |text|, ordered))
    decreases |sorted|
  {
    hide Fits, Rebuild;
    if sorted == [] {
      NothingLeft(ordered);
      NothingRebuilt(text);
    } else {
      assert sorted[0..] == sorted;
      var rest := Round(sorted, 0, ordered, text);
      DescendingMade(Replace(text, sorted[0]), sorted[1..], rest);
    }
  }

  lemma NothingRebuilt(text: string)
    ensures Fits([], 0, |text|) && Rebuild(text, 0, |text|, []) == text
  {
    assert text[0..|text|] == text;
  }

  /** One round of the loop: the edit made is the last of those left. */
  lemma Round(sorted: seq<Edit>, i: nat, left: seq<Edit>, out: string) returns (es: seq<Edit>)
    requires i < |sorted| && Descending(sorted) && multiset(sorted[i..]) == multiset(left) && Fits(left, 0, |out|)
    ensures sorted[i].start <= sorted[i].stop <= |out| && multiset(sorted[i + 1..]) == multiset(es)
    ensures var u := Replace(out, sorted[i]);
            Fits(es, 0, |u|) && Rebuild(u, 0, |u|, es) == Rebuild(out, 0, |out|, left)
  {
    var d := sorted[i..];
    assert d[0] == sorted[i] && d[1..] == sorted[i + 1..];
    assert |multiset(left)| == |multiset(d)| == |d| > 0;
    es := left[..|left| - 1];
    var l := left[|left| - 1];
    assert left == es + [l];
    FirstIsLast(d, es, l, |out|);
    var u := LastFirst(out, es, l);
  }

  lemma NothingLeft(es: seq<Edit>)
    requires multiset(es) == multiset{}
    ensures es == []
  {
    assert |multiset(es)| == |es|;
  }

  // ------------------------------------------------------ how much is taken

  /** How many characters fewer the edits leave. */
  function Taken(es: seq<Edit>): int {
    if es == [] then 0 else es[0].stop - es[0].start - |es[0].with| + Taken(es[1..])
  }

  lemma {:induction false} TakenAppend(es: seq<Edit>, fs: seq<Edit>)
    ensures Taken(es + fs) == Taken(es) + Taken(fs)
  {
    if es == [] {
      assert es + fs == fs;
    } else {
      assert (es + fs)[1..] == es[1..] + fs;
      TakenAppend(es[1..], fs);
    }
  }

  lemma WithoutOne(rest: seq<Edit>, left: seq<Edit>, right: seq<Edit>, e: Edit)
    requires multiset([e] + rest) == multiset(left + ([e] + right))
    ensures multiset(rest) == multiset(left + right)
  {
    assert multiset{e} + multiset(rest) == multiset(left) + (multiset{e} + multiset(right));
    assert multiset(rest) == (multiset{e} + multiset(rest)) - multiset{e};
    assert multiset(left) + multiset(right) == (multiset(left) + (multiset{e} + multiset(right))) - multiset{e};
  }

  lemma {:induction false} TakenPermuted(es: seq<Edit>, fs: seq<Edit>)
    requires multiset(es) == multiset(fs)
    ensures Taken(es) == Taken(fs)
    decreases |es|
  {
    if es == [] {
      NothingLeft(fs);
    } else {
      hide Taken;
      var e, rest := es[0], es[1..];
      assert es == [e] + rest;
      assert e in multiset(fs);
      var i :| 0 <= i < |fs| && fs[i] == e;
      var before, after := fs[..i], fs[i + 1..];
      assert fs == before + ([e] + after);
      WithoutOne(rest, before, after, e);
      TakenPermuted(rest, before + after);
      TakenAppend(before, after);
      TakenAppend(before, [e] + after);
      TakenFirst(e, after);
      TakenFirst(e, rest);
    }
  }

  lemma TakenFirst(e: Edit, rest: seq<Edit>)
    ensures Taken([e] + rest) == e.stop - e.start - |e.with| + Taken(rest)
  {
    assert ([e] + rest)[1..] == rest;
  }

  /** The size of the text the edits leave, also when their ranges overlap. */
  lemma {:induction false} MadeSize(text: string, es: seq<Edit>)
    requires InPlace(text, es).Some?
    ensures |InPlace(text, es).value| == |text| - Taken(es)
    decreases |es|
  {
    if es != [] {
      MadeSize(Replace(text, es[0]), es[1..]);
    }
  }

  lemma AllMadeSize(text: string, es: seq<Edit>)
    requires AllMade(text, es).Some?
    ensures |AllMade(text, es).value| == |text| - Taken(es)
  {
    hide InPlace;
    var sorted := SortDescending(es);
    MadeSize(text, sorted);
    TakenPermuted(es, sorted);
  }
}
