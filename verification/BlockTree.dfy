/** Named blocks, `bar { widget "name" { … } }`, as a list in document order,
    and what an edit of the tree does to the list. */
module BlockTree {
  import opened Options
  import opened Bytes
  import opened Kdl
  import opened Prune
  import opened Remove

  /** Every block of a kind, whatever its name. */
  function KindLevels(parent: string, kind: string): seq<Level> {
    [Level({parent}, None), Level({kind}, None)]
  }

  /** `b` leads wherever `l` does, and to the nodes `l` wants by another title
      too. */
  ghost predicate Widens(b: seq<Level>, l: seq<Level>) {
    && |b| == |l| > 0
    && if |l| == 1 then b[0] == Level(l[0].names, None) else b[0] == l[0] && Widens(b[1..], l[1..])
  }

  function Last(l: seq<Level>): Level
    requires l != []
  {
    l[|l| - 1]
  }

  lemma WidensStep(b: seq<Level>, l: seq<Level>)
    requires Widens(b, l)
    ensures b != [] && l != []
    ensures |l| > 1 ==> b[0] == l[0] && Widens(b[1..], l[1..]) && Last(l[1..]) == Last(l)
    ensures |l| == 1 ==> Last(l) == l[0] && |b| == 1 && b[0] == Level(l[0].names, None)
  {
  }

  // ----------------------------------------------------------------- lists

  function Wanted(bs: seq<Node>, l: Level): seq<Node> {
    if bs == [] then [] else (if Matches(l, bs[0]) then [bs[0]] else []) + Wanted(bs[1..], l)
  }

  function Others(bs: seq<Node>, l: Level): seq<Node> {
    if bs == [] then [] else (if Matches(l, bs[0]) then [] else [bs[0]]) + Others(bs[1..], l)
  }

  /** `m` in place of the last block that is wanted. */
  function ReplaceLast(bs: seq<Node>, l: Level, m: Node): seq<Node> {
    if bs == [] then []
    else if Wanted(bs[1..], l) != [] then [bs[0]] + ReplaceLast(bs[1..], l, m)
    else if Matches(l, bs[0]) then [m] + bs[1..]
    else bs
  }

  lemma {:induction false} WantedAppend(a: seq<Node>, b: seq<Node>, l: Level)
    ensures Wanted(a + b, l) == Wanted(a, l) + Wanted(b, l)
    ensures Others(a + b, l) == Others(a, l) + Others(b, l)
  {
    if a == [] {
      assert a + b == b;
    } else {
      assert (a + b)[1..] == a[1..] + b;
      WantedAppend(a[1..], b, l);
    }
  }

  lemma {:induction false} ReplaceAppend(a: seq<Node>, b: seq<Node>, l: Level, m: Node)
    ensures ReplaceLast(a + b, l, m) == if Wanted(b, l) != [] then a + ReplaceLast(b, l, m)
            else ReplaceLast(a, l, m) + b
  {
    hide Wanted, Matches;
    if a == [] {
      assert a + b == b;
      NoneToReplace(b, l, m);
    } else {
      var h, rest := a[0], a[1..];
      assert (a + b)[0] == h && (a + b)[1..] == rest + b;
      WantedAppend(rest, b, l);
      ReplaceAppend(rest, b, l, m);
      assert a == [h] + rest;
      Regroup([h], rest, ReplaceLast(b, l, m));
      Regroup([h], ReplaceLast(rest, l, m), b);
      Regroup([m], rest, b);
    }
  }

  lemma NoneToReplace(bs: seq<Node>, l: Level, m: Node)
    ensures Wanted(bs, l) == [] ==> ReplaceLast(bs, l, m) == bs
  {
  }

  // ------------------------------------------------------ lists of the tree

  lemma {:induction false} WantedNodes(items: seq<Item>, l: seq<Level>, b: seq<Level>)
    requires Widens(b, l)
    ensures l != [] && b != [] && NodesAt(items, l) == Wanted(NodesAt(items, b), Last(l))
    decreases items, 1
  {
    hide Hits, Widens, Wanted, Matches;
    WidensStep(b, l);
    if items == [] {
      assert Wanted([], Last(l)) == [] by { NoneWanted(Last(l)); }
    } else {
      WantedHits(items[0].node, l, b);
      WantedNodes(items[1..], l, b);
      WantedAppend(Hits(items[0].node, b), NodesAt(items[1..], b), Last(l));
    }
  }

  lemma NoneWanted(l: Level)
    ensures Wanted([], l) == [] && Others([], l) == []
  {
  }

  lemma OneWanted(n: Node, l: Level)
    ensures Wanted([n], l) == if Matches(l, n) then [n] else []
    ensures Others([n], l) == if Matches(l, n) then [] else [n]
  {
    assert [n][1..] == [];
  }

  lemma {:induction false} WantedHits(n: Node, l: seq<Level>, b: seq<Level>)
    requires Widens(b, l)
    ensures l != [] && b != [] && Hits(n, l) == Wanted(Hits(n, b), Last(l))
    decreases n, 0
  {
    hide NodesAt, Widens, Wanted;
    WidensStep(b, l);
    NoneWanted(Last(l));
    OneWanted(n, Last(l));
    if |l| > 1 && n.body.Some? {
      WantedNodes(n.body.value.items, l[1..], b[1..]);
    }
  }

  /** Removing the wanted blocks leaves the others, in order. */
  lemma {:induction false} CutLeavesOthers(items: seq<Item>, end: string, l: seq<Level>, b: seq<Level>, top: bool,
                                           first: bool, carry: string, skip: nat)
    requires Widens(b, l) && skip <= |NextGap(items, end)|
    ensures l != [] && b != []
    ensures NodesAt(Cut(items, end, l, top, false, first, carry, skip).items, b) == Others(NodesAt(items, b), Last(l))
    decreases items, 1
  {
    hide Hits, NodesAt, Widens, Others, Matches, CutBefore, CutAfter, Goes, Stays;
    WidensStep(b, l);
    var c := Cut(items, end, l, top, false, first, carry, skip);
    if items == [] {
      NoItems(b);
      NoneWanted(Last(l));
    } else {
      var n, rest := items[0].node, items[1..];
      FirstHits(items, b);
      WantedAppend(Hits(n, b), NodesAt(rest, b), Last(l));
      if Goes(n, l, top, false) {
        var last := top && rest == [];
        var g, h := items[0].gap, NextGap(rest, end);
        var stop := CutBefore(g, h, first, last);
        CutLeavesOthers(rest, end, l, b, top, false, carry + g[skip..if stop < skip then skip else stop],
          CutAfter(g, h, first, last));
        GoneIsWanted(n, l, b, top);
      } else {
        CutLeavesOthers(rest, end, l, b, top, false, "", 0);
        StaysOthers(n, l, b, top);
        FirstHits(c.items, b);
        assert c.items[1..] == Cut(rest, end, l, top, false, false, "", 0).items;
      }
    }
  }

  lemma GoneIsWanted(n: Node, l: seq<Level>, b: seq<Level>, top: bool)
    requires Widens(b, l) && l != [] && Goes(n, l, top, false)
    ensures b != [] && Others(Hits(n, b), Last(l)) == []
  {
    hide Others;
    WidensStep(b, l);
    OneWanted(n, Last(l));
  }

  lemma {:induction false} StaysOthers(n: Node, l: seq<Level>, b: seq<Level>, top: bool)
    requires Widens(b, l) && l != [] && !Goes(n, l, top, false)
    ensures b != [] && Hits(Stays(n, l, false), b) == Others(Hits(n, b), Last(l))
    decreases n, 0
  {
    hide NodesAt, Widens, Others, Cut;
    WidensStep(b, l);
    OneWanted(n, Last(l));
    NoneWanted(Last(l));
    if Enters(l, n) {
      CutLeavesOthers(n.body.value.items, n.body.value.end, l[1..], b[1..], false, false, "", 0);
    }
  }

  // ------------------------------------------------------- the last of them

  /** The tree with `m` in place of the last node the levels lead to. */
  function SetLast(items: seq<Item>, l: seq<Level>, m: Node): (r: seq<Item>)
    requires l != []
    ensures |r| == |items| && forall i :: 0 <= i < |r| ==> r[i].gap == items[i].gap
    decreases items, 1
  {
    if items == [] then []
    else if NodesAt(items[1..], l) != [] then [items[0]] + SetLast(items[1..], l, m)
    else [Item(items[0].gap, SetLastNode(items[0].node, l, m))] + items[1..]
  }

  function SetLastNode(n: Node, l: seq<Level>, m: Node): Node
    requires l != []
    decreases n, 0
  {
    if !Matches(l[0], n) then n
    else if |l| == 1 then m
    else if n.body.Some? then n.(body := Some(Doc(SetLast(n.body.value.items, l[1..], m), n.body.value.end)))
    else n
  }

  lemma SetLastIs(items: seq<Item>, l: seq<Level>, m: Node)
    requires l != [] && items != []
    ensures var c := SetLast(items, l, m);
            && c != []
            && c[0] == (if NodesAt(items[1..], l) != [] then items[0]
              else Item(items[0].gap, SetLastNode(items[0].node, l, m)))
            && c[1..] == if NodesAt(items[1..], l) != [] then SetLast(items[1..], l, m) else items[1..]
  {
    hide NodesAt, SetLastNode;
  }

  lemma {:induction false} SetLastReplaces(items: seq<Item>, l: seq<Level>, b: seq<Level>, m: Node)
    requires Widens(b, l) && l != [] && b != [] && Matches(Last(b), m)
    ensures NodesAt(SetLast(items, l, m), b) == ReplaceLast(NodesAt(items, b), Last(l), m)
    decreases items, 1
  {
    hide Hits, NodesAt, Widens, ReplaceLast, Matches, SetLastNode, Wanted;
    if items == [] {
      NoItems(b);
      NoneWanted(Last(l));
      NoneToReplace([], Last(l), m);
    } else {
      var n, rest := items[0].node, items[1..];
      var c := SetLast(items, l, m);
      WantedNodes(rest, l, b);
      FirstHits(items, b);
      FirstHits(c, b);
      ReplaceAppend(Hits(n, b), NodesAt(rest, b), Last(l), m);
      if NodesAt(rest, l) != [] {
        SetLastReplaces(rest, l, b, m);
        assert c[1..] == SetLast(rest, l, m);
      } else {
        assert c[1..] == rest;
        NodeReplaces(n, l, b, m);
      }
    }
  }

  lemma {:induction false} NodeReplaces(n: Node, l: seq<Level>, b: seq<Level>, m: Node)
    requires Widens(b, l) && l != [] && b != [] && Matches(Last(b), m)
    ensures Hits(SetLastNode(n, l, m), b) == ReplaceLast(Hits(n, b), Last(l), m)
    decreases n, 0
  {
    hide NodesAt, Widens, SetLast, Wanted;
    WidensStep(b, l);
    OneWanted(n, Last(l));
    NoneWanted(Last(l));
    if |l| == 1 {
      assert [n][1..] == [] && [m] + [] == [m];
    } else if Matches(l[0], n) && n.body.Some? {
      assert Last(b[1..]) == Last(b);
      SetLastReplaces(n.body.value.items, l[1..], b[1..], m);
    }
  }

  // ------------------------------------------------------------- one of each

  /** What an edit that leaves one block of a name leaves of the list: `m` where
      the last was, and none of the others of that name. */
  function Settled(bs: seq<Node>, l: Level, m: Node): seq<Node> {
    if bs == [] then []
    else if Wanted(bs[1..], l) != [] then (if Matches(l, bs[0]) then [] else [bs[0]]) + Settled(bs[1..], l, m)
    else if Matches(l, bs[0]) then [m] + bs[1..]
    else bs
  }

  lemma {:induction false} SettledIsReplaced(bs: seq<Node>, l: Level, m: Node)
    requires !Matches(l, m)
    ensures Others(ReplaceLast(bs, l, m), l) == Settled(bs, l, m)
  {
    if bs != [] {
      SettledIsReplaced(bs[1..], l, m);
      var r := ReplaceLast(bs, l, m);
      if Wanted(bs[1..], l) != [] {
        assert r[1..] == ReplaceLast(bs[1..], l, m);
      } else {
        NoneAreOthers(bs[1..], l);
        assert r[1..] == bs[1..];
      }
    }
  }

  lemma {:induction false} NoneAreOthers(bs: seq<Node>, l: Level)
    ensures Wanted(bs, l) == [] ==> Others(bs, l) == bs
  {
    if bs != [] {
      NoneAreOthers(bs[1..], l);
    }
  }

  /** The other blocks keep their bytes and their order around the one of the
      name, which stands where the last of them stood. */
  lemma {:induction false} SettledKeeps(bs: seq<Node>, l: Level, m: Node, q: Level)
    requires Excludes(l, q) && Wanted(bs, l) != []
    ensures !Matches(q, m) ==> Wanted(Settled(bs, l, m), q) == Wanted(bs, q)
    ensures Matches(l, m) ==> Wanted(Settled(bs, l, m), l) == [m]
    ensures !Matches(l, m) ==> Wanted(Settled(bs, l, m), l) == []
  {
    var s, rest := Settled(bs, l, m), bs[1..];
    if Wanted(rest, l) != [] {
      SettledKeeps(rest, l, m, q);
      var head := if Matches(l, bs[0]) then [] else [bs[0]];
      WantedAppend(head, Settled(rest, l, m), q);
      WantedAppend(head, Settled(rest, l, m), l);
      OneWanted(bs[0], q);
      OneWanted(bs[0], l);
      NoneWanted(q);
      NoneWanted(l);
    } else {
      assert s[1..] == rest;
    }
  }
}
