/** Named blocks on the text: the edits of an operation, and the tree whose text
    they leave. */
module BlockText {
  import opened Options
  import opened Kdl
  import opened Splice
  import opened Prune
  import opened Remove
  import opened SetTree
  import opened SetText
  import opened BlockTree

  // ------------------------------------------ removals, told from the gaps

  lemma {:induction false} RemovalsWhenFound(pos: nat, items: seq<Item>, end: string, l: seq<Level>, top: bool,
                                             first: bool)
    requires l != []
    ensures GapRemovals(pos, items, end, l, top, false, first) == [] <==> NodesAt(items, l) == []
    decreases items, 1
  {
    hide NodeText, Hits, NodeGapRemovals;
    if items != [] {
      var g, h, n, s := items[0].gap, NextGap(items[1..], end), items[0].node, pos + |items[0].gap|;
      NodeRemovalsWhenFound(pos, s, n, g, h, l, top, first, top && items[1..] == []);
      RemovalsWhenFound(s + |NodeText(n)|, items[1..], end, l, top, false);
    }
  }

  lemma {:induction false} NodeRemovalsWhenFound(pos: nat, s: nat, n: Node, g: string, h: string, l: seq<Level>,
                                                 top: bool, first: bool, last: bool)
    requires l != []
    ensures NodeGapRemovals(pos, s, n, g, h, l, top, false, first, last) == [] <==> Hits(n, l) == []
    decreases n, 0
  {
    hide NodeText, GapRemovals, NodesAt, CutBefore, CutAfter;
    if |l| > 1 && Matches(l[0], n) && n.body.Some? {
      RemovalsWhenFound(s + BodyAt(n), n.body.value.items, n.body.value.end, l[1..], false, false);
    }
  }

  // ------------------------------------------------------- the last of them

  /** Where the last node the levels lead to starts. */
  function LastHitAt(pos: nat, items: seq<Item>, l: seq<Level>): nat
    requires l != [] && NodesAt(items, l) != []
    decreases items, 1
  {
    var n, s := items[0].node, pos + |items[0].gap|;
    if NodesAt(items[1..], l) != [] then LastHitAt(s + |NodeText(n)|, items[1..], l) else NodeHitAt(s, n, l)
  }

  function NodeHitAt(s: nat, n: Node, l: seq<Level>): nat
    requires l != [] && Hits(n, l) != []
    decreases n, 0
  {
    if |l| == 1 then s else LastHitAt(s + BodyAt(n), n.body.value.items, l[1..])
  }

  function LastOf(ns: seq<Node>): Node
    requires ns != []
  {
    ns[|ns| - 1]
  }

  function ButLast<T>(s: seq<T>): seq<T>
    requires s != []
  {
    s[..|s| - 1]
  }

  /** With another node, one not wanted, in place of the last, the removals are
      those of the ones before it; and the last removal started no later than
      the node did. */
  lemma {:induction false} SetLastRemovals(pos: nat, items: seq<Item>, end: string, l: seq<Level>, top: bool,
                                           first: bool, m: Node)
    requires l != [] && NodesAt(items, l) != [] && !Matches(Last(l), m)
    ensures var all := GapRemovals(pos, items, end, l, top, false, first);
            && all != []
            && GapRemovals(pos, SetLast(items, l, m), end, l, top, false, first) == ButLast(all)
            && all[|all| - 1].start <= LastHitAt(pos, items, l)
    decreases items, 1
  {
    hide *;
    assert items != [] by { NoItems(l); }
    var g, h, n, s := items[0].gap, NextGap(items[1..], end), items[0].node, pos + |items[0].gap|;
    var last := top && items[1..] == [];
    var rest, x := items[1..], SetLastNode(items[0].node, l, m);
    FirstHits(items, l);
    FirstGaps(pos, items, end, l, top, false, first);
    FirstGaps(pos, SetLast(items, l, m), end, l, top, false, first);
    SetLastGap(items, end, l, m);
    SetLastIs(items, l, m);
    LastHitIs(pos, items, l);
    RemovalsWhenFound(s + |NodeText(n)|, rest, end, l, top, false);
    var own := NodeGapRemovals(pos, s, n, g, h, l, top, false, first, last);
    var later := GapRemovals(s + |NodeText(n)|, rest, end, l, top, false, false);
    if NodesAt(rest, l) != [] {
      SetLastRemovals(s + |NodeText(n)|, rest, end, l, top, false, m);
      ButLastLater(own, later);
    } else {
      SetNodeRemovals(pos, s, n, g, h, l, top, first, last, m);
      RestUnmoved(s + |NodeText(x)|, rest, end, l, top);
      ButLastOwn(own);
    }
  }

  lemma ButLastLater(own: seq<Edit>, later: seq<Edit>)
    requires later != []
    ensures own + later != [] && ButLast(own + later) == own + ButLast(later)
    ensures (own + later)[|own + later| - 1] == later[|later| - 1]
  {
  }

  lemma ButLastOwn(own: seq<Edit>)
    requires own != []
    ensures own + [] == own && ButLast(own) + [] == ButLast(own)
  {
  }

  lemma LastHitIs(pos: nat, items: seq<Item>, l: seq<Level>)
    requires l != [] && items != [] && NodesAt(items, l) != []
    ensures NodesAt(items[1..], l) == [] ==> Hits(items[0].node, l) != []
    ensures var n, s := items[0].node, pos + |items[0].gap|;
            LastHitAt(pos, items, l) == if NodesAt(items[1..], l) != [] then LastHitAt(s + |NodeText(n)|, items[1..], l)
                                        else NodeHitAt(s, n, l)
  {
    hide NodeText, NodeHitAt, NodesAt, Hits;
    FirstHits(items, l);
  }

  lemma SetLastGap(items: seq<Item>, end: string, l: seq<Level>, m: Node)
    requires l != [] && items != []
    ensures var c := SetLast(items, l, m);
            && c != [] && c[0].gap == items[0].gap && NextGap(c[1..], end) == NextGap(items[1..], end)
            && (c[1..] == [] <==> items[1..] == [])
  {
    hide NodesAt, SetLastNode;
  }

  lemma RestUnmoved(pos: nat, rest: seq<Item>, end: string, l: seq<Level>, top: bool)
    requires l != [] && NodesAt(rest, l) == []
    ensures GapRemovals(pos, rest, end, l, top, false, false) == []
  {
    RemovalsWhenFound(pos, rest, end, l, top, false);
  }

  lemma {:induction false} SetNodeRemovals(pos: nat, s: nat, n: Node, g: string, h: string, l: seq<Level>, top: bool,
                                           first: bool, last: bool, m: Node)
    requires l != [] && Hits(n, l) != [] && !Matches(Last(l), m) && s == pos + |g|
    ensures var own := NodeGapRemovals(pos, s, n, g, h, l, top, false, first, last);
            && own != []
            && NodeGapRemovals(pos, s, SetLastNode(n, l, m), g, h, l, top, false, first, last) == ButLast(own)
            && own[|own| - 1].start <= NodeHitAt(s, n, l)
    decreases n, 0
  {
    hide NodeText, GapRemovals, NodesAt, CutAfter, SetLast, LastHitAt;
    if |l| > 1 {
      var d := n.body.value;
      SetLastRemovals(s + BodyAt(n), d.items, d.end, l[1..], false, false, m);
      assert Last(l[1..]) == Last(l);
      SameHead(n, Some(Doc(SetLast(d.items, l[1..], m), d.end)));
    }
  }

  lemma SameHead(n: Node, body: Option<Doc>)
    ensures BodyAt(n.(body := body)) == BodyAt(n)
  {
  }

  // ------------------------------------------------- its text

  /** Where the last node sits. */
  lemma {:induction false} LastHitSits(text: string, pos: nat, stop: nat, items: seq<Item>, end: string, l: seq<Level>)
    requires l != [] && NodesAt(items, l) != [] && Sits(text, pos, stop, items, end) && ItemsOk(items)
    ensures var s, n := LastHitAt(pos, items, l), LastOf(NodesAt(items, l));
            && NodeOk(n) && s + |NodeText(n)| <= stop <= |text| && text[s..s + |NodeText(n)|] == NodeText(n)
    decreases items, 1
  {
    hide NodeText, ItemsText, Hits, NodesAt, NodeOk, NodeHitAt, Sits;
    assert items != [] by { NoItems(l); }
    var n, s := items[0].node, pos + |items[0].gap|;
    var t := s + |NodeText(n)|;
    FirstHits(items, l);
    FirstSits(text, pos, stop, items, end);
    SitsWithin(text, pos, stop, items, end);
    FirstOk(items, end);
    if NodesAt(items[1..], l) != [] {
      LastHitSits(text, t, stop, items[1..], end, l);
    } else {
      NodeHitSits(text, s, t, n, l);
    }
  }

  lemma {:induction false} NodeHitSits(text: string, s: nat, t: nat, n: Node, l: seq<Level>)
    requires l != [] && Hits(n, l) != [] && NodeOk(n) && s <= t <= |text| && t == s + |NodeText(n)|
    requires text[s..t] == NodeText(n)
    ensures var a, m := NodeHitAt(s, n, l), LastOf(Hits(n, l));
            && NodeOk(m) && a + |NodeText(m)| <= t && text[a..a + |NodeText(m)|] == NodeText(m)
    decreases n, 0
  {
    hide NodeText, ItemsText, NodesAt, NodeOk, LastHitAt, Sits;
    if |l| > 1 {
      BodySits(text, s, t, n);
      BodyItemsOk(n);
      LastHitSits(text, s + BodyAt(n), t - 1, n.body.value.items, n.body.value.end, l[1..]);
    }
  }

  lemma BodyItemsOk(n: Node)
    requires NodeOk(n) && n.body.Some?
    ensures ItemsOk(n.body.value.items)
  {
  }

  /** A change of the last node's bytes is the change of the tree. */
  lemma {:induction false} SetLastText(text: string, pos: nat, stop: nat, items: seq<Item>, end: string,
                                       l: seq<Level>, m: Node, e: Edit)
    requires l != [] && NodesAt(items, l) != [] && Sits(text, pos, stop, items, end)
    requires Changes(text, LastHitAt(pos, items, l), LastOf(NodesAt(items, l)), m, e)
    ensures Leaves(text, pos, stop, Some(e), Some(Doc(SetLast(items, l, m), end)))
    decreases items, 1
  {
    hide NodeText, ItemsText, Hits, NodesAt, NodeHitAt, Sits, SetLastNode, Leaves, Changes;
    assert items != [] by { NoItems(l); }
    var n, s := items[0].node, pos + |items[0].gap|;
    var t := s + |NodeText(n)|;
    FirstHits(items, l);
    FirstSits(text, pos, stop, items, end);
    if NodesAt(items[1..], l) != [] {
      SetLastText(text, t, stop, items[1..], end, l, m, e);
      LaterLeaves(text, pos, s, t, stop, items, end, SetLast(items[1..], l, m), e);
    } else {
      SetNodeText(text, s, t, n, l, m, e);
      var x := SetLastNode(n, l, m);
      FirstLeaves(text, pos, stop, items, end, x, e);
    }
  }

  /** A change of the first node's bytes is a change of the list. */
  lemma FirstLeaves(text: string, pos: nat, stop: nat, items: seq<Item>, end: string, x: Node, e: Edit)
    requires items != [] && Sits(text, pos, stop, items, end)
    requires Changes(text, pos + |items[0].gap|, items[0].node, x, e)
    ensures Leaves(text, pos, stop, Some(e), Some(Doc([Item(items[0].gap, x)] + items[1..], end)))
  {
    hide *;
    FirstSits(text, pos, stop, items, end);
    ChangesIs(text, pos + |items[0].gap|, items[0].node, x, e);
    FirstItemAt(pos, items);
    SitsWithin(text, pos, stop, items, end);
    ItemEdit(text, pos, stop, items, end, 0, x, e);
    assert items[0 := Item(items[0].gap, x)] == [Item(items[0].gap, x)] + items[1..];
  }

  /** An edit of a node's bytes that makes it `m`. */
  ghost predicate Changes(text: string, s: nat, n: Node, m: Node, e: Edit) {
    var t := s + |NodeText(n)|;
    s <= e.start <= e.stop <= t <= |text| && text[s..e.start] + e.with + text[e.stop..t] == NodeText(m)
  }

  lemma ChangesIs(text: string, s: nat, n: Node, m: Node, e: Edit)
    requires Changes(text, s, n, m, e)
    ensures var t := s + |NodeText(n)|;
            s <= e.start <= e.stop <= t <= |text| && text[s..e.start] + e.with + text[e.stop..t] == NodeText(m)
  {
  }

  lemma FirstItemAt(pos: nat, items: seq<Item>)
    requires items != []
    ensures ItemAt(pos, items, 0) == pos + |items[0].gap|
  {
    assert items[..0] == [];
  }

  lemma LaterLeaves(text: string, pos: nat, s: nat, t: nat, stop: nat, items: seq<Item>, end: string, rest: seq<Item>,
                    e: Edit)
    requires items != [] && s == pos + |items[0].gap| && t == s + |NodeText(items[0].node)| && t <= stop <= |text|
    requires text[pos..s] == items[0].gap && text[s..t] == NodeText(items[0].node)
    requires Leaves(text, t, stop, Some(e), Some(Doc(rest, end)))
    ensures Leaves(text, pos, stop, Some(e), Some(Doc([items[0]] + rest, end)))
  {
    hide NodeText;
    var g, c := items[0].gap, NodeText(items[0].node);
    assert text[pos..e.start] == text[pos..s] + text[s..t] + text[t..e.start];
    ItemsParts([items[0]] + rest, end);
    assert ([items[0]] + rest)[1..] == rest;
    SixPieces(g, c, text[t..e.start], e.with, text[e.stop..stop]);
  }

  lemma SixPieces(a: string, b: string, c: string, d: string, e: string)
    ensures (a + b + c) + d + e == a + (b + (c + d + e))
  {
  }

  lemma {:induction false} SetNodeText(text: string, s: nat, t: nat, n: Node, l: seq<Level>, m: Node, e: Edit)
    requires l != [] && Hits(n, l) != [] && s <= t <= |text| && t == s + |NodeText(n)| && text[s..t] == NodeText(n)
    requires Changes(text, NodeHitAt(s, n, l), LastOf(Hits(n, l)), m, e)
    ensures Changes(text, s, n, SetLastNode(n, l, m), e)
    decreases n, 0
  {
    hide NodeText, ItemsText, NodesAt, Sits, LastHitAt, SetLast, Leaves;
    if |l| > 1 {
      var d := n.body.value;
      BodySits(text, s, t, n);
      hide Changes;
      SetLastText(text, s + BodyAt(n), t - 1, d.items, d.end, l[1..], m, e);
      BlockLeaves(text, s, t, n, e, Some(Doc(SetLast(d.items, l[1..], m), d.end)));
      IsChange(text, s, n, SetLastNode(n, l, m), e);
    }
  }

  lemma IsChange(text: string, s: nat, n: Node, m: Node, e: Edit)
    requires var t := s + |NodeText(n)|;
             s <= e.start <= e.stop <= t <= |text| && text[s..e.start] + e.with + text[e.stop..t] == NodeText(m)
    ensures Changes(text, s, n, m, e)
  {
  }

  lemma {:induction false} SetLastOk(items: seq<Item>, l: seq<Level>, m: Node)
    requires l != [] && ItemsOk(items) && NodeOk(m)
    ensures ItemsOk(SetLast(items, l, m))
    decreases items, 1
  {
    hide NodeOk, NodesAt, SetLastNode;
    if items != [] {
      var c := SetLast(items, l, m);
      if NodesAt(items[1..], l) != [] {
        SetLastOk(items[1..], l, m);
        assert c[1..] == SetLast(items[1..], l, m);
      } else {
        SetNodeOk(items[0].node, l, m);
        assert c[1..] == items[1..];
      }
    }
  }

  lemma {:induction false} SetNodeOk(n: Node, l: seq<Level>, m: Node)
    requires l != [] && NodeOk(n) && NodeOk(m)
    ensures NodeOk(SetLastNode(n, l, m))
    decreases n, 0
  {
    hide SetLast, DocText, NodesAt;
    if |l| > 1 && Matches(l[0], n) && n.body.Some? {
      var d := n.body.value;
      SetLastOk(d.items, l[1..], m);
      assert !White('}');
    }
  }

  lemma {:induction false} SetLastSameText(items: seq<Item>, l: seq<Level>, m: Node)
    requires l != [] && (NodesAt(items, l) != [] ==> NodeText(LastOf(NodesAt(items, l))) == NodeText(m))
    ensures ItemsText(SetLast(items, l, m)) == ItemsText(items)
    decreases items, 1
  {
    hide NodeText, Hits, NodesAt, SetLastNode;
    if items != [] {
      FirstHits(items, l);
      var c := SetLast(items, l, m);
      if NodesAt(items[1..], l) != [] {
        SetLastSameText(items[1..], l, m);
        assert c[1..] == SetLast(items[1..], l, m);
      } else {
        SetNodeSameText(items[0].node, l, m);
        assert c[1..] == items[1..];
      }
    }
  }

  lemma {:induction false} SetNodeSameText(n: Node, l: seq<Level>, m: Node)
    requires l != [] && (Hits(n, l) != [] ==> NodeText(LastOf(Hits(n, l))) == NodeText(m))
    ensures NodeText(SetLastNode(n, l, m)) == NodeText(n)
    decreases n, 0
  {
    hide ItemsText, NodesAt, SetLast;
    if |l| > 1 && Matches(l[0], n) && n.body.Some? {
      SetLastSameText(n.body.value.items, l[1..], m);
    }
  }

  // ------------------------------------------- the removals before the last

  /** The removals of all but the last of the nodes the levels lead to are safe. */
  predicate EarlierSafe(items: seq<Item>, end: string, l: seq<Level>, top: bool, first: bool)
    requires l != []
    decreases items, 1
  {
    items == [] ||
    if NodesAt(items[1..], l) != [] then
      NodeSafe(items[0].node, items[0].gap, NextGap(items[1..], end), l, top, false, first, top && items[1..] == [])
      && EarlierSafe(items[1..], end, l, top, false)
    else EarlierNodeSafe(items[0].node, l)
  }

  predicate EarlierNodeSafe(n: Node, l: seq<Level>)
    requires l != []
    decreases n, 0
  {
    Enters(l, n) ==> EarlierSafe(n.body.value.items, n.body.value.end, l[1..], false, false)
  }

  predicate EarlierSafeDoc(d: Doc, l: seq<Level>)
    requires l != []
  {
    EarlierSafe(d.items, d.end, l, true, true)
  }

  lemma {:induction false} SafeIsEarlierSafe(items: seq<Item>, end: string, l: seq<Level>, top: bool, first: bool)
    requires l != [] && Safe(items, end, l, top, false, first)
    ensures EarlierSafe(items, end, l, top, first)
    decreases items, 1
  {
    hide NodeSafe, EarlierNodeSafe, NodesAt;
    if items != [] {
      SafeIsEarlierSafe(items[1..], end, l, top, false);
      SafeNodeIsEarlierSafe(items[0].node, items[0].gap, NextGap(items[1..], end), l, top, first,
                            top && items[1..] == []);
    }
  }

  lemma {:induction false} SafeNodeIsEarlierSafe(n: Node, g: string, h: string, l: seq<Level>, top: bool, first: bool,
                                                 last: bool)
    requires l != [] && NodeSafe(n, g, h, l, top, false, first, last)
    ensures EarlierNodeSafe(n, l)
    decreases n, 0
  {
    hide EarlierSafe, Safe, Fine;
    if Enters(l, n) {
      SafeIsEarlierSafe(n.body.value.items, n.body.value.end, l[1..], false, false);
    }
  }

  /** The editor's removals before the last are the gaps' exactly when they are
      safe; else they remove more. */
  lemma {:induction false} EarlierByGaps(text: string, pos: nat, stop: nat, items: seq<Item>, end: string,
                                         l: seq<Level>, top: bool, first: bool)
    requires l != [] && NodesAt(items, l) != [] && Sits(text, pos, stop, items, end) && ItemsOk(items)
    requires Framed(text, pos, stop, end, top, first)
    ensures pos + |ItemsText(items)| <= |text|
    ensures var all, gaps := Removals(text, pos, items, l, top, false).1,
            GapRemovals(pos, items, end, l, top, false, first);
            && all != [] && gaps != []
            && Overtakes(ButLast(all), ButLast(gaps), EarlierSafe(items, end, l, top, first))
    decreases items, 2
  {
    hide *;
    assert items != [] by { NoItems(l); }
    SitsWithin(text, pos, stop, items, end);
    var g, h, n, rest := items[0].gap, NextGap(items[1..], end), items[0].node, items[1..];
    var last := top && rest == [];
    var s := pos + |g|;
    var e := s + |NodeText(n)|;
    FirstOk(items, end);
    NodeFills(text, pos, stop, items, end, s, e);
    RestFramed(text, pos, stop, items, end, top, first);
    FirstHits(items, l);
    OneMore(text, pos, items, l, top, false);
    FirstGaps(pos, items, end, l, top, false, first);
    FirstEarlier(items, end, l, top, first);
    EditsWhenFound(text, pos, items, l, top, false);
    RemovalsWhenFound(pos, items, end, l, top, first);
    EditsWhenFound(text, e, rest, l, top, false);
    RemovalsWhenFound(e, rest, end, l, top, false);
    var own, ownGaps := NodeRemovals(text, s, n, l, top, false).1,
      NodeGapRemovals(pos, s, n, g, h, l, top, false, first, last);
    var later, laterGaps := Removals(text, e, rest, l, top, false).1, GapRemovals(e, rest, end, l, top, false, false);
    if NodesAt(rest, l) != [] {
      FirstRemoval(text, pos, stop, items, end, top, first, last, g, h, s, e);
      NodeByGaps(text, pos, s, e, items, n, g, h, l, top, false, first, last);
      EarlierByGaps(text, e, stop, rest, end, l, top, false);
      ButLastLater(own, later);
      ButLastLater(ownGaps, laterGaps);
      OvertakesBoth(own, ownGaps, NodeSafe(n, g, h, l, top, false, first, last), ButLast(later), ButLast(laterGaps),
                    EarlierSafe(rest, end, l, top, false));
    } else {
      ButLastOwn(own);
      ButLastOwn(ownGaps);
      EarlierNodeByGaps(text, pos, s, e, items, n, g, h, l, top, first, last);
    }
  }

  lemma FirstEarlier(items: seq<Item>, end: string, l: seq<Level>, top: bool, first: bool)
    requires l != [] && items != []
    ensures EarlierSafe(items, end, l, top, first) <==>
              if NodesAt(items[1..], l) != [] then
                && NodeSafe(items[0].node, items[0].gap, NextGap(items[1..], end), l, top, false, first,
                            top && items[1..] == [])
                && EarlierSafe(items[1..], end, l, top, false)
              else EarlierNodeSafe(items[0].node, l)
  {
    hide NodeSafe, EarlierNodeSafe, NodesAt, NextGap;
  }

  lemma {:induction false} EarlierNodeByGaps(text: string, pos: nat, s: nat, e: nat, items: seq<Item>, n: Node,
                                             g: string, h: string, l: seq<Level>, top: bool, first: bool, last: bool)
    requires l != [] && items != [] && n == items[0].node && NodeOk(n) && Hits(n, l) != []
    requires s <= e <= |text| && e == s + |NodeText(n)| && text[s..e] == NodeText(n)
    ensures var own, gaps := NodeRemovals(text, s, n, l, top, false).1,
            NodeGapRemovals(pos, s, n, g, h, l, top, false, first, last);
            && own != [] && gaps != [] && Overtakes(ButLast(own), ButLast(gaps), EarlierNodeSafe(n, l))
    decreases items, 1
  {
    hide *;
    NodeCounts(text, s, n, l, top, false);
    NodeGaps(pos, s, n, g, h, l, top, false, first, last);
    HitEnters(n, l, top);
    if |l| == 1 {
      ButLastOfOne(Removal(text, s, e));
      ButLastOfOne(NodeGapRemovals(pos, s, n, g, h, l, top, false, first, last)[0]);
      NothingOvertakes();
    } else {
      var d := n.body.value;
      BodySits(text, s, e, n);
      BodyOk(n);
      BodyFramed(text, s + BodyAt(n), e - 1, d);
      EarlierByGaps(text, s + BodyAt(n), e - 1, d.items, d.end, l[1..], false, false);
    }
  }

  lemma ButLastOfOne(e: Edit)
    ensures [e] != [] && ButLast([e]) == []
  {
  }

  lemma HitEnters(n: Node, l: seq<Level>, top: bool)
    requires l != [] && Hits(n, l) != []
    ensures |l| == 1 ==> Goes(n, l, top, false) && EarlierNodeSafe(n, l)
    ensures |l| > 1 ==>
              && Enters(l, n) && !Goes(n, l, top, false) && n.body.Some? && NodesAt(n.body.value.items, l[1..]) != []
              && (EarlierNodeSafe(n, l) <==> EarlierSafe(n.body.value.items, n.body.value.end, l[1..], false, false))
  {
    hide NodesAt, EarlierSafe;
  }

  // ------------------------------------------------ one block left of a name

  /** The edit of the last block and the removals of those before it, made in
      place, give the text of the tree with the last block changed and the others
      of the name gone, exactly when the removals are safe. */
  lemma SettledExactly(text: string, d: Doc, l: seq<Level>, m: Node, e: Edit)
    requires l != [] && text == DocText(d) && DocOk(d) && NodesAt(d.items, l) != [] && !Matches(Last(l), m) && NodeOk(m)
    requires Changes(text, LastHitAt(0, d.items, l), LastOf(NodesAt(d.items, l)), m, e)
    ensures FileRemovals(text, d, l, false) != []
    ensures AllMade(text, [e] + ButLast(FileRemovals(text, d, l, false)))
            == Some(DocText(CutDoc(Doc(SetLast(d.items, l, m), d.end), l, false)))
            <==> EarlierSafeDoc(d, l)
  {
    hide *;
    WholeSits(text, d);
    EarlierByGaps(text, 0, |text|, d.items, d.end, l, true, true);
    FileEarlier(text, d, l);
    var all, gaps := FileRemovals(text, d, l, false), GapRemovals(0, d.items, d.end, l, true, false, true);
    var earlier, kept := ButLast(all), ButLast(gaps);
    SettleText(text, d, l, m, e);
    assert multiset([e] + kept) == multiset(kept + [e]);
    MadeIsRebuilt(text, [e] + kept, kept + [e]);
    if EarlierSafeDoc(d, l) {
      SameEdits(earlier, kept);
    } else {
      MoreTaken(earlier, kept);
      TakenFirst(e, earlier);
      TakenFirst(e, kept);
      AllMadeSize(text, [e] + kept);
      if AllMade(text, [e] + earlier).Some? {
        AllMadeSize(text, [e] + earlier);
      }
    }
  }

  lemma FileEarlier(text: string, d: Doc, l: seq<Level>)
    requires l != [] && text == DocText(d) && |ItemsText(d.items)| <= |text|
    ensures FileRemovals(text, d, l, false) == Removals(text, 0, d.items, l, true, false).1
    ensures EarlierSafeDoc(d, l) <==> EarlierSafe(d.items, d.end, l, true, true)
  {
  }

  /** The same of the edits kept within the gaps. */
  lemma SettleText(text: string, d: Doc, l: seq<Level>, m: Node, e: Edit)
    requires l != [] && text == DocText(d) && DocOk(d) && NodesAt(d.items, l) != [] && !Matches(Last(l), m) && NodeOk(m)
    requires Changes(text, LastHitAt(0, d.items, l), LastOf(NodesAt(d.items, l)), m, e)
    ensures GapRemovals(0, d.items, d.end, l, true, false, true) != []
    ensures var edits := ButLast(GapRemovals(0, d.items, d.end, l, true, false, true)) + [e];
            Fits(edits, 0, |text|) &&
              Rebuild(text, 0, |text|, edits) == DocText(CutDoc(Doc(SetLast(d.items, l, m), d.end), l, false))
  {
    hide *;
    var left := Doc(SetLast(d.items, l, m), d.end);
    WholeSits(text, d);
    FileText(text, d, l, false);
    var all := GapRemovals(0, d.items, d.end, l, true, false, true);
    SetLastRemovals(0, d.items, d.end, l, true, true, m);
    SetLastText(text, 0, |text|, d.items, d.end, l, m, e);
    ChangesIs(text, LastHitAt(0, d.items, l), LastOf(NodesAt(d.items, l)), m, e);
    LeavesWhole(text, e, left);
    var u := Replace(text, e);
    SetLastOk(d.items, l, m);
    LeftOk(d, left);
    FileText(u, left, l, false);
    var es := all[..|all| - 1];
    ButLastIs(all);
    SettleFits(all, es, all[|all| - 1], e, |text|);
    var v := LastFirst(text, es, e);
  }

  lemma ButLastIs(all: seq<Edit>)
    requires all != []
    ensures ButLast(all) == all[..|all| - 1]
  {
  }

  lemma WholeSits(text: string, d: Doc)
    requires text == DocText(d) && DocOk(d)
    ensures Sits(text, 0, |text|, d.items, d.end) && ItemsOk(d.items) && Framed(text, 0, |text|, d.end, true, true)
    ensures |ItemsText(d.items)| <= |text|
  {
    hide ItemsText;
    assert text[0..|text|] == text;
  }

  lemma LeftOk(d: Doc, left: Doc)
    requires ItemsOk(left.items)
    ensures DocOk(left)
  {
  }

  lemma LeavesWhole(text: string, e: Edit, left: Doc)
    requires Leaves(text, 0, |text|, Some(e), Some(left))
    ensures e.start <= e.stop <= |text| && Replace(text, e) == DocText(left)
  {
    hide DocText;
  }

  lemma SettleFits(all: seq<Edit>, es: seq<Edit>, l: Edit, e: Edit, n: nat)
    requires all != [] && es == all[..|all| - 1] && l == all[|all| - 1] && Fits(all, 0, n)
    requires l.start <= e.start <= e.stop <= n
    ensures Fits(es + [e], 0, n)
  {
    hide Fits;
    assert all == es + [l];
    FitsSplit(es, l, 0, n);
    OneFits(l.start, e, n);
    FitsAppend(es, [e], 0, l.start, n);
  }

  lemma OneFits(a: nat, e: Edit, n: nat)
    requires a <= e.start <= e.stop <= n
    ensures Fits([e], a, n)
  {
    assert [e][1..] == [];
  }
}
