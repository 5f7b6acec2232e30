/** A new block beside another: before it, or after it on a line of its own. */
module BlockInsert {
  import opened Options
  import opened Bytes
  import opened Kdl
  import opened Splice
  import opened Prune
  import opened Remove
  import opened SetTree
  import opened SetText
  import opened BlockText

  /** Where the `k`-th node the levels lead to starts. */
  function HitAt(pos: nat, items: seq<Item>, l: seq<Level>, k: nat): nat
    requires l != [] && k < |NodesAt(items, l)|
    decreases items, 1
  {
    var n, s := items[0].node, pos + |items[0].gap|;
    if k < |Hits(n, l)| then NodeKthAt(s, n, l, k) else HitAt(s + |NodeText(n)|, items[1..], l, k - |Hits(n, l)|)
  }

  function NodeKthAt(s: nat, n: Node, l: seq<Level>, k: nat): nat
    requires l != [] && k < |Hits(n, l)|
    decreases n, 0
  {
    if |l| == 1 then s else HitAt(s + BodyAt(n), n.body.value.items, l[1..], k)
  }

  lemma HitAtIs(pos: nat, items: seq<Item>, l: seq<Level>, k: nat)
    requires l != [] && k < |NodesAt(items, l)|
    ensures items != [] && NodesAt(items, l) == Hits(items[0].node, l) + NodesAt(items[1..], l)
    ensures var n, s := items[0].node, pos + |items[0].gap|;
            HitAt(pos, items, l, k) == if k < |Hits(n, l)| then NodeKthAt(s, n, l, k)
                                       else HitAt(s + |NodeText(n)|, items[1..], l, k - |Hits(n, l)|)
  {
    hide NodeText, NodeKthAt, Hits;
  }

  /** Where the `k`-th node sits. */
  lemma {:induction false} HitSits(text: string, pos: nat, stop: nat, items: seq<Item>, end: string, l: seq<Level>,
                                   k: nat)
    requires l != [] && k < |NodesAt(items, l)| && Sits(text, pos, stop, items, end)
    ensures var s, n := HitAt(pos, items, l, k), NodesAt(items, l)[k];
            pos <= s && s + |NodeText(n)| <= stop <= |text| && text[s..s + |NodeText(n)|] == NodeText(n)
    decreases items, 1
  {
    hide *;
    HitAtIs(pos, items, l, k);
    var n, s := items[0].node, pos + |items[0].gap|;
    var t := s + |NodeText(n)|;
    FirstSits(text, pos, stop, items, end);
    SitsWithin(text, pos, stop, items, end);
    if k < |Hits(n, l)| {
      NodeKthSits(text, s, t, n, l, k);
    } else {
      HitSits(text, t, stop, items[1..], end, l, k - |Hits(n, l)|);
    }
  }

  lemma {:induction false} NodeKthSits(text: string, s: nat, t: nat, n: Node, l: seq<Level>, k: nat)
    requires l != [] && k < |Hits(n, l)| && s <= t <= |text| && t == s + |NodeText(n)| && text[s..t] == NodeText(n)
    ensures var a, m := NodeKthAt(s, n, l, k), Hits(n, l)[k];
            s <= a && a + |NodeText(m)| <= t && text[a..a + |NodeText(m)|] == NodeText(m)
    decreases n, 0
  {
    hide NodeText, ItemsText, NodesAt, HitAt, Sits;
    if |l| > 1 {
      BodySits(text, s, t, n);
      HitSits(text, s + BodyAt(n), t - 1, n.body.value.items, n.body.value.end, l[1..], k);
    }
  }

  // ---------------------------------------------------------------- before

  /** `m` in the place of the `k`-th node, which follows on a line of its own. */
  function InsertBefore(items: seq<Item>, l: seq<Level>, k: nat, m: Node, indent: string): seq<Item>
    requires l != []
    decreases items, 1
  {
    if items == [] then []
    else
      var n := items[0].node;
      if k >= |Hits(n, l)| then [items[0]] + InsertBefore(items[1..], l, k - |Hits(n, l)|, m, indent)
      else if |l| == 1 then [Item(items[0].gap, m), Item("\n" + indent, n)] + items[1..]
      else [Item(items[0].gap, NodeBefore(n, l, k, m, indent))] + items[1..]
  }

  function NodeBefore(n: Node, l: seq<Level>, k: nat, m: Node, indent: string): Node
    requires |l| > 1
    decreases n, 0
  {
    if n.body.Some?
      then n.(body := Some(Doc(InsertBefore(n.body.value.items, l[1..], k, m, indent), n.body.value.end))) else n
  }

  lemma BeforeIs(items: seq<Item>, l: seq<Level>, k: nat, m: Node, indent: string)
    requires l != [] && items != []
    ensures var n := items[0].node;
            InsertBefore(items, l, k, m, indent)
            == if k >= |Hits(n, l)| then [items[0]] + InsertBefore(items[1..], l, k - |Hits(n, l)|, m, indent)
               else if |l| == 1 then [Item(items[0].gap, m), Item("\n" + indent, n)] + items[1..]
               else [Item(items[0].gap, NodeBefore(n, l, k, m, indent))] + items[1..]
  {
    hide Hits, NodeBefore;
  }

  lemma {:induction false} BeforeText(text: string, pos: nat, stop: nat, items: seq<Item>, end: string, l: seq<Level>,
                                      k: nat, m: Node, indent: string, e: Edit)
    requires l != [] && k < |NodesAt(items, l)| && Sits(text, pos, stop, items, end)
    requires e == Edit(HitAt(pos, items, l, k), HitAt(pos, items, l, k), NodeText(m) + "\n" + indent)
    ensures Leaves(text, pos, stop, Some(e), Some(Doc(InsertBefore(items, l, k, m, indent), end)))
    decreases items, 1
  {
    hide *;
    HitAtIs(pos, items, l, k);
    BeforeIs(items, l, k, m, indent);
    var n, s := items[0].node, pos + |items[0].gap|;
    var t := s + |NodeText(n)|;
    FirstSits(text, pos, stop, items, end);
    SitsWithin(text, pos, stop, items, end);
    if k >= |Hits(n, l)| {
      BeforeText(text, t, stop, items[1..], end, l, k - |Hits(n, l)|, m, indent, e);
      LaterLeaves(text, pos, s, t, stop, items, end, InsertBefore(items[1..], l, k - |Hits(n, l)|, m, indent), e);
    } else if |l| == 1 {
      assert NodeKthAt(s, n, l, k) == s by { LeafAt(s, n, l, k); }
      OwnBefore(text, pos, s, t, stop, items, end, m, indent, e);
    } else {
      NodeBeforeText(text, s, t, n, l, k, m, indent, e);
      var x := NodeBefore(n, l, k, m, indent);
      FirstLeaves(text, pos, stop, items, end, x, e);
    }
  }

  lemma LeafAt(s: nat, n: Node, l: seq<Level>, k: nat)
    requires |l| == 1 && k < |Hits(n, l)|
    ensures NodeKthAt(s, n, l, k) == s
  {
  }

  lemma OwnBefore(text: string, pos: nat, s: nat, t: nat, stop: nat, items: seq<Item>, end: string, m: Node,
                  indent: string, e: Edit)
    requires items != [] && s == pos + |items[0].gap| && t == s + |NodeText(items[0].node)| && t <= stop <= |text|
    requires text[pos..s] == items[0].gap && text[s..t] == NodeText(items[0].node)
    requires Sits(text, t, stop, items[1..], end)
    requires e == Edit(s, s, NodeText(m) + "\n" + indent)
    ensures Leaves(text, pos, stop, Some(e),
            Some(Doc([Item(items[0].gap, m), Item("\n" + indent, items[0].node)] + items[1..], end)))
  {
    hide NodeText;
    var n, rest := items[0].node, items[1..];
    var two := [Item(items[0].gap, m), Item("\n" + indent, n)] + rest;
    ItemsParts(two, end);
    ItemsParts(two[1..], end);
    assert two[1..][1..] == rest && two[1..][0] == Item("\n" + indent, n);
    assert text[s..stop] == text[s..t] + text[t..stop];
    Around(items[0].gap, NodeText(m), "\n", indent, NodeText(n), ItemsText(rest) + end);
  }

  lemma Around(g: string, m: string, nl: string, indent: string, n: string, z: string)
    ensures g + (m + nl + indent) + (n + z) == g + (m + ((nl + indent) + (n + z)))
  {
  }

  lemma {:induction false} NodeBeforeText(text: string, s: nat, t: nat, n: Node, l: seq<Level>, k: nat, m: Node,
                                          indent: string, e: Edit)
    requires |l| > 1 && k < |Hits(n, l)| && s <= t <= |text| && t == s + |NodeText(n)| && text[s..t] == NodeText(n)
    requires var a := NodeKthAt(s, n, l, k); e == Edit(a, a, NodeText(m) + "\n" + indent)
    ensures Changes(text, s, n, NodeBefore(n, l, k, m, indent), e)
    decreases n, 0
  {
    hide NodeText, ItemsText, NodesAt, HitAt, Sits, Leaves, Changes, InsertBefore;
    var d := n.body.value;
    BodySits(text, s, t, n);
    BeforeText(text, s + BodyAt(n), t - 1, d.items, d.end, l[1..], k, m, indent, e);
    BlockLeaves(text, s, t, n, e, Some(Doc(InsertBefore(d.items, l[1..], k, m, indent), d.end)));
    IsChange(text, s, n, NodeBefore(n, l, k, m, indent), e);
  }

  /** The new block stands where the `k`-th was, in the list too. */
  lemma {:induction false} BeforeList(items: seq<Item>, l: seq<Level>, k: nat, m: Node, indent: string)
    requires l != [] && k < |NodesAt(items, l)| && Matches(l[|l| - 1], m)
    ensures NodesAt(InsertBefore(items, l, k, m, indent), l) == NodesAt(items, l)[..k] + [m] + NodesAt(items, l)[k..]
    decreases items, 1
  {
    hide *;
    HitAtIs(0, items, l, k);
    BeforeIs(items, l, k, m, indent);
    var n, rest := items[0].node, items[1..];
    var c := InsertBefore(items, l, k, m, indent);
    var a, b := Hits(n, l), NodesAt(rest, l);
    FirstHits(c, l);
    if k >= |a| {
      BeforeList(rest, l, k - |a|, m, indent);
      assert c[1..] == InsertBefore(rest, l, k - |a|, m, indent);
      PartLater(a, b, k, m);
    } else if |l| == 1 {
      assert c[1..] == [Item("\n" + indent, n)] + rest;
      FirstHits(c[1..], l);
      assert c[1..][1..] == rest;
      OwnHits(n, l);
      OwnHits(m, l);
      PartEarlier(a, b, k, m);
      assert a[..0] == [] && a[0..] == a;
    } else {
      assert c[1..] == rest;
      NodeBeforeList(n, l, k, m, indent);
      PartEarlier(a, b, k, m);
    }
  }

  lemma PartLater(a: seq<Node>, b: seq<Node>, j: nat, m: Node)
    requires |a| <= j <= |a| + |b|
    ensures (a + b)[..j] + [m] + (a + b)[j..] == a + (b[..j - |a|] + [m] + b[j - |a|..])
  {
    assert (a + b)[..j] == a + b[..j - |a|] && (a + b)[j..] == b[j - |a|..];
  }

  lemma PartEarlier(a: seq<Node>, b: seq<Node>, j: nat, m: Node)
    requires j <= |a|
    ensures (a + b)[..j] + [m] + (a + b)[j..] == (a[..j] + [m] + a[j..]) + b
  {
    assert (a + b)[..j] == a[..j] && (a + b)[j..] == a[j..] + b;
  }

  lemma OwnHits(n: Node, l: seq<Level>)
    requires |l| == 1
    ensures Hits(n, l) == if Matches(l[0], n) then [n] else []
  {
  }

  lemma {:induction false} NodeBeforeList(n: Node, l: seq<Level>, k: nat, m: Node, indent: string)
    requires |l| > 1 && k < |Hits(n, l)| && Matches(l[|l| - 1], m)
    ensures Hits(NodeBefore(n, l, k, m, indent), l) == Hits(n, l)[..k] + [m] + Hits(n, l)[k..]
    decreases n, 0
  {
    hide NodesAt, InsertBefore;
    BeforeList(n.body.value.items, l[1..], k, m, indent);
  }

  // ----------------------------------------------------------------- after

  /** Where in the gap after a node its new sibling goes. */
  function AfterPlace(h: string, indent: string, eof: bool): (p: Place)
    ensures p.cut <= |h|
  {
    if TailTrivial(h, eof) then
      if HasLine(h) then Place(FirstLine(h) + 1, indent, "\n", indent) else Place(|h|, "\n" + indent, "", indent)
    else Place(0, "\n" + indent, "", indent)
  }

  /** The rest of a list with another gap before it. */
  function Regap(gap: string, rest: seq<Item>, end: string): Doc {
    if rest == [] then Doc([], gap) else Doc([Item(gap, rest[0].node)] + rest[1..], end)
  }

  function InsertAfter(items: seq<Item>, end: string, l: seq<Level>, k: nat, m: Node, indent: string, top: bool): Doc
    requires l != []
    decreases items, 1
  {
    if items == [] then Doc([], end)
    else
      var n, rest := items[0].node, items[1..];
      if k >= |Hits(n, l)| then
        var d := InsertAfter(rest, end, l, k - |Hits(n, l)|, m, indent, top);
        Doc([items[0]] + d.items, d.end)
      else if |l| == 1 then
        var h := NextGap(rest, end);
        var p := AfterPlace(h, indent, top && rest == []);
        var d := Regap(p.tail + h[p.cut..], rest, end);
        Doc([items[0], Item(h[..p.cut] + p.lead, m)] + d.items, d.end)
      else Doc([Item(items[0].gap, NodeAfter(n, l, k, m, indent))] + rest, end)
  }

  function NodeAfter(n: Node, l: seq<Level>, k: nat, m: Node, indent: string): Node
    requires |l| > 1
    decreases n, 0
  {
    if n.body.Some?
      then n.(body := Some(InsertAfter(n.body.value.items, n.body.value.end, l[1..], k, m, indent, false))) else n
  }

  lemma AfterIs(items: seq<Item>, end: string, l: seq<Level>, k: nat, m: Node, indent: string, top: bool)
    requires l != [] && items != []
    ensures var n, rest := items[0].node, items[1..];
            var c := InsertAfter(items, end, l, k, m, indent, top);
            && (k >= |Hits(n, l)| ==>
                  var d := InsertAfter(rest, end, l, k - |Hits(n, l)|, m, indent, top);
                  c == Doc([items[0]] + d.items, d.end))
            && (k < |Hits(n, l)| && |l| == 1 ==> c == OwnAfter(items, end, m, indent, top))
            && (k < |Hits(n, l)| && |l| > 1 ==>
              c == Doc([Item(items[0].gap, NodeAfter(n, l, k, m, indent))] + rest, end))
  {
    hide Hits, NodeAfter, AfterPlace, Regap;
  }

  function OwnAfter(items: seq<Item>, end: string, m: Node, indent: string, top: bool): Doc
    requires items != []
  {
    var h := NextGap(items[1..], end);
    var p := AfterPlace(h, indent, top && items[1..] == []);
    var d := Regap(p.tail + h[p.cut..], items[1..], end);
    Doc([items[0], Item(h[..p.cut] + p.lead, m)] + d.items, d.end)
  }

  /** `insert_after`, at the bytes of a node. */
  function InsertAfterEdit(text: string, s: nat, e: nat, rendered: string): (r: Edit)
    requires s <= e <= |text|
    ensures r.start <= r.stop <= |text|
  {
    var indent := LeadingIndent(text, s);
    if TailIsTrivial(text, e) then
      var le := LineStop(text, e);
      if le < |text| then Edit(le + 1, le + 1, indent + rendered + "\n")
        else Edit(|text|, |text|, "\n" + indent + rendered)
    else Edit(e, e, "\n" + indent + rendered)
  }

  /** The gap behind the `k`-th node is not exposed. */
  predicate ClearAfter(items: seq<Item>, end: string, l: seq<Level>, k: nat, top: bool)
    requires l != []
    decreases items, 1
  {
    items == [] ||
    var n, rest := items[0].node, items[1..];
    if k >= |Hits(n, l)| then ClearAfter(rest, end, l, k - |Hits(n, l)|, top)
    else if |l| == 1 then !Exposed(NextGap(rest, end), top && rest == [])
    else n.body.Some? ==> ClearAfter(n.body.value.items, n.body.value.end, l[1..], k, false)
  }

  /** In a file that ends all its lines with `\n` it never is. */
  lemma {:induction false} LinedIsClear(items: seq<Item>, end: string, l: seq<Level>, k: nat, top: bool)
    requires l != [] && ItemsLined(items) && !Exposed(end, top)
    ensures ClearAfter(items, end, l, k, top)
    decreases items, 1
  {
    hide Exposed, Hits;
    if items != [] {
      var n, rest := items[0].node, items[1..];
      StillExposed(NextGap(rest, end), top && rest == []);
      if k >= |Hits(n, l)| {
        LinedIsClear(rest, end, l, k - |Hits(n, l)|, top);
      } else if |l| > 1 && n.body.Some? {
        assert NodeLined(n) && Lined(n.body.value, false);
        LinedIsClear(n.body.value.items, n.body.value.end, l[1..], k, false);
      }
    }
  }

  /** The edit made is the right one, or it is astray of it. */
  ghost predicate Meets(text: string, e: Edit, g: Edit, well: bool) {
    if well then e == g else Astray(text, e, g)
  }

  lemma AfterEditIs(text: string, s: nat, e: nat, y: nat, h: string, rendered: string, eof: bool)
    requires s <= e <= y <= |text| && text[e..y] == h && Follows(text, y) && (eof <==> y == |text|)
    ensures var p := AfterPlace(h, LeadingIndent(text, s), eof);
            Meets(text, InsertAfterEdit(text, s, e, rendered), Edit(e + p.cut, e + p.cut, p.lead + rendered + p.tail),
                  !Exposed(h, eof))
  {
    hide TailIsTrivial, TailTrivial, LeadingIndent, Starter, White, Exposed;
    TailInText(text, e, y, h);
    TrivialOrExposed(h, eof);
    var indent := LeadingIndent(text, s);
    assert "\n" + indent + rendered + "" == "\n" + indent + rendered;
    if TailTrivial(h, eof) {
      if HasLine(h) {
        LineStopIs(text, e, e + FirstLine(h)) by {
          assert forall i :: e <= i < y ==> text[i] == h[i - e];
          assert forall i :: 0 <= i < FirstLine(h) ==> h[i] == h[..FirstLine(h)][i];
        }
      } else {
        TrivialAtEnd(h, eof);
        assert forall i :: e <= i < y ==> text[i] == h[i - e];
        LineStopIs(text, e, y);
      }
    } else if Exposed(h, eof) {
      ExposedStarts(h, eof);
      assert text[e] == h[0];
    }
  }

  lemma ExposedStarts(h: string, eof: bool)
    requires Exposed(h, eof)
    ensures h != "" && h[0] != '\n'
  {
    SemiBeforeComment(h);
  }

  lemma TrivialAtEnd(h: string, eof: bool)
    requires TailTrivial(h, eof) && !HasLine(h)
    ensures eof
  {
  }

  /** Written after the `k`-th node it is a sibling behind it, exactly where the
      gap there is not exposed: else it lands behind what follows. */
  lemma {:induction false} AfterText(text: string, pos: nat, stop: nat, items: seq<Item>, end: string, l: seq<Level>,
                                     k: nat, m: Node, indent: string, top: bool, first: bool, e: Edit) returns (g: Edit)
    requires l != [] && k < |NodesAt(items, l)| && Sits(text, pos, stop, items, end) && ItemsOk(items)
    requires Framed(text, pos, stop, end, top, first)
    requires var s := HitAt(pos, items, l, k);
             var t := s + |NodeText(NodesAt(items, l)[k])|;
             t <= |text| && indent == LeadingIndent(text, s) && e == InsertAfterEdit(text, s, t, NodeText(m))
    ensures Leaves(text, pos, stop, Some(g), Some(InsertAfter(items, end, l, k, m, indent, top)))
    ensures Meets(text, e, g, ClearAfter(items, end, l, k, top))
    decreases items, 1
  {
    hide *;
    HitAtIs(pos, items, l, k);
    AfterIs(items, end, l, k, m, indent, top);
    ClearAfterIs(items, end, l, k, top);
    var n, s := items[0].node, pos + |items[0].gap|;
    var t := s + |NodeText(n)|;
    FirstSits(text, pos, stop, items, end);
    SitsWithin(text, pos, stop, items, end);
    RestFramed(text, pos, stop, items, end, top, first);
    FirstOk(items, end);
    if k >= |Hits(n, l)| {
      g := AfterText(text, t, stop, items[1..], end, l, k - |Hits(n, l)|, m, indent, top, false, e);
      LaterLeavesDoc(text, pos, s, t, stop, items, end,
        InsertAfter(items[1..], end, l, k - |Hits(n, l)|, m, indent, top), g);
    } else if |l| == 1 {
      LeafIs1(s, n, l, k);
      g := OwnAfterText(text, pos, s, t, stop, items, end, m, indent, top, e);
    } else {
      HasBody(n, l, k);
      g := NodeAfterText(text, s, t, n, l, k, m, indent, e);
      var x := NodeAfter(n, l, k, m, indent);
      FirstLeaves(text, pos, stop, items, end, x, g);
    }
  }

  lemma MeetsExactly(text: string, e: Edit, g: Edit, well: bool, d: Doc)
    requires e.start <= e.stop <= |text| && Meets(text, e, g, well) && Leaves(text, 0, |text|, Some(g), Some(d))
    ensures Replace(text, e) == DocText(d) <==> well
  {
    hide DocText;
    LeavesWhole(text, g, d);
    if !well {
      AstrayDiffers(text, e, g, d);
    }
  }

  lemma ClearAfterIs(items: seq<Item>, end: string, l: seq<Level>, k: nat, top: bool)
    requires l != [] && items != []
    ensures var n, rest := items[0].node, items[1..];
            && (k >= |Hits(n, l)| ==>
              (ClearAfter(items, end, l, k, top) <==> ClearAfter(rest, end, l, k - |Hits(n, l)|, top)))
            && (k < |Hits(n, l)| && |l| == 1 ==>
                  (ClearAfter(items, end, l, k, top) <==> !Exposed(NextGap(rest, end), top && rest == [])))
            && (k < |Hits(n, l)| && |l| > 1 && n.body.Some? ==>
                  (ClearAfter(items, end, l, k, top) <==>
                    ClearAfter(n.body.value.items, n.body.value.end, l[1..], k, false)))
  {
    hide Hits, Exposed, NextGap;
  }

  lemma HasBody(n: Node, l: seq<Level>, k: nat)
    requires |l| > 1 && k < |Hits(n, l)|
    ensures n.body.Some?
  {
  }

  lemma LeafIs1(s: nat, n: Node, l: seq<Level>, k: nat)
    requires |l| == 1 && k < |Hits(n, l)|
    ensures NodeKthAt(s, n, l, k) == s && k == 0 && Hits(n, l)[0] == n
  {
  }

  lemma LaterLeavesDoc(text: string, pos: nat, s: nat, t: nat, stop: nat, items: seq<Item>, end: string, d: Doc,
                       e: Edit)
    requires items != [] && s == pos + |items[0].gap| && t == s + |NodeText(items[0].node)| && t <= stop <= |text|
    requires text[pos..s] == items[0].gap && text[s..t] == NodeText(items[0].node)
    requires Leaves(text, t, stop, Some(e), Some(d))
    ensures Leaves(text, pos, stop, Some(e), Some(Doc([items[0]] + d.items, d.end)))
  {
    hide Leaves;
    assert Doc(d.items, d.end) == d;
    LaterLeaves(text, pos, s, t, stop, items, d.end, d.items, e);
  }

  lemma OwnAfterText(text: string, pos: nat, s: nat, t: nat, stop: nat, items: seq<Item>, end: string, m: Node,
                     indent: string, top: bool, e: Edit) returns (w: Edit)
    requires items != [] && s == pos + |items[0].gap| && t == s + |NodeText(items[0].node)| && t <= stop <= |text|
    requires text[pos..s] == items[0].gap && text[s..t] == NodeText(items[0].node)
    requires Sits(text, t, stop, items[1..], end) && ItemsOk(items[1..]) && Framed(text, t, stop, end, top, false)
    requires indent == LeadingIndent(text, s) && e == InsertAfterEdit(text, s, t, NodeText(m))
    ensures Leaves(text, pos, stop, Some(w), Some(OwnAfter(items, end, m, indent, top)))
    ensures Meets(text, e, w, !Exposed(NextGap(items[1..], end), top && items[1..] == []))
  {
    hide *;
    var rest, h := items[1..], NextGap(items[1..], end);
    var eof := top && rest == [];
    GapSits(text, t, stop, rest, end);
    GapFollowed(text, t, stop, rest, end, top, false);
    AfterEditIs(text, s, t, t + |h|, h, NodeText(m), eof);
    var p := AfterPlace(h, indent, eof);
    w := Edit(t + p.cut, t + p.cut, p.lead + NodeText(m) + p.tail);
    RegapText(text, t, stop, rest, end, h, p, m, w);
    var d := Regap(p.tail + h[p.cut..], rest, end);
    LaterLeavesDoc(text, pos, s, t, stop, items, end, Doc([Item(h[..p.cut] + p.lead, m)] + d.items, d.end), w);
    OwnAfterIs(items, end, m, indent, top, h, p, d);
  }

  lemma OwnAfterIs(items: seq<Item>, end: string, m: Node, indent: string, top: bool, h: string, p: Place, d: Doc)
    requires items != [] && h == NextGap(items[1..], end) && p == AfterPlace(h, indent, top && items[1..] == [])
    requires d == Regap(p.tail + h[p.cut..], items[1..], end)
    ensures OwnAfter(items, end, m, indent, top) == Doc([items[0]] + ([Item(h[..p.cut] + p.lead, m)] + d.items), d.end)
  {
    hide AfterPlace, Regap, NextGap;
    assert [items[0]] + ([Item(h[..p.cut] + p.lead, m)] + d.items)
      == [items[0], Item(h[..p.cut] + p.lead, m)] + d.items;
  }

  lemma RegapText(text: string, t: nat, stop: nat, rest: seq<Item>, end: string, h: string, p: Place, m: Node,
                  e: Edit)
    requires Sits(text, t, stop, rest, end) && h == NextGap(rest, end) && p.cut <= |h| && t + |h| <= stop <= |text|
    requires text[t..t + |h|] == h
    requires e == Edit(t + p.cut, t + p.cut, p.lead + NodeText(m) + p.tail)
    ensures var d := Regap(p.tail + h[p.cut..], rest, end);
            Leaves(text, t, stop, Some(e), Some(Doc([Item(h[..p.cut] + p.lead, m)] + d.items, d.end)))
  {
    hide *;
    var d := Regap(p.tail + h[p.cut..], rest, end);
    var c := [Item(h[..p.cut] + p.lead, m)] + d.items;
    var z := if rest == [] then "" else NodeText(rest[0].node) + (ItemsText(rest[1..]) + end);
    RegapIs(p.tail, h, p.cut, rest, end, d, z);
    SitsIs(text, t, stop, rest, end);
    ItemsParts(c, d.end);
    assert c[0] == Item(h[..p.cut] + p.lead, m) && c[1..] == d.items;
    Parted(text, t, stop, h, z, p.cut, p.lead, NodeText(m), p.tail);
    LeavesIs(text, t, stop, e, Doc(c, d.end));
  }

  lemma LeavesIs(text: string, pos: nat, stop: nat, e: Edit, d: Doc)
    requires pos <= e.start <= e.stop <= stop <= |text|
    requires text[pos..e.start] + e.with + text[e.stop..stop] == ItemsText(d.items) + d.end
    ensures Leaves(text, pos, stop, Some(e), Some(d))
  {
    hide ItemsText;
  }

  /** A gap parted at `cut` and something written there. */
  lemma Parted(text: string, t: nat, stop: nat, h: string, z: string, cut: nat, lead: string, m: string, tail: string)
    requires t <= stop <= |text| && text[t..stop] == h + z && cut <= |h|
    ensures t + cut <= stop
    ensures text[t..t + cut] + (lead + m + tail) + text[t + cut..stop]
            == (h[..cut] + lead) + (m + ((tail + h[cut..]) + z))
  {
    SliceParts(text, t, stop, h, z);
    SubSlice(text, t, t + |h|, 0, cut);
    SubSlice(text, t, t + |h|, cut, |h|);
    assert text[t + cut..stop] == text[t + cut..t + |h|] + text[t + |h|..stop];
    Pieces(h[..cut], lead, m, tail, h[cut..], z);
  }

  lemma SitsIs(text: string, pos: nat, stop: nat, items: seq<Item>, end: string)
    requires Sits(text, pos, stop, items, end)
    ensures pos <= stop <= |text| && text[pos..stop] == ItemsText(items) + end
  {
  }

  lemma Pieces(a: string, lead: string, m: string, tail: string, b: string, z: string)
    ensures a + (lead + m + tail) + (b + z) == (a + lead) + (m + ((tail + b) + z))
  {
  }

  lemma RegapIs(tail: string, h: string, cut: nat, rest: seq<Item>, end: string, d: Doc, z: string)
    requires cut <= |h| && h == NextGap(rest, end) && d == Regap(tail + h[cut..], rest, end)
    requires z == if rest == [] then "" else NodeText(rest[0].node) + (ItemsText(rest[1..]) + end)
    ensures ItemsText(d.items) + d.end == (tail + h[cut..]) + z && ItemsText(rest) + end == h + z
  {
    hide NodeText;
    if rest == [] {
      assert ItemsText([]) + d.end == d.end && d.end + "" == d.end && end + "" == end && ItemsText([]) + end == end;
    } else {
      ItemsParts(rest, end);
      ItemsParts(d.items, d.end);
      assert d.items[1..] == rest[1..];
    }
  }

  lemma {:induction false} NodeAfterText(text: string, s: nat, t: nat, n: Node, l: seq<Level>, k: nat, m: Node,
                                         indent: string, e: Edit)
    returns (g: Edit)
    requires |l| > 1 && k < |Hits(n, l)| && NodeOk(n) && s <= t <= |text| && t == s + |NodeText(n)|
    requires text[s..t] == NodeText(n)
    requires var a := NodeKthAt(s, n, l, k);
             var b := a + |NodeText(Hits(n, l)[k])|;
             b <= |text| && indent == LeadingIndent(text, a) && e == InsertAfterEdit(text, a, b, NodeText(m))
    ensures n.body.Some? && Changes(text, s, n, NodeAfter(n, l, k, m, indent), g)
    ensures Meets(text, e, g, ClearAfter(n.body.value.items, n.body.value.end, l[1..], k, false))
    decreases n, 0
  {
    hide NodeText, ItemsText, NodesAt, HitAt, Sits, Leaves, Changes, InsertAfter, InsertAfterEdit, LeadingIndent,
      White, ClearAfter, Meets;
    var d := n.body.value;
    BodySits(text, s, t, n);
    BodyOk(n);
    BodyFramed(text, s + BodyAt(n), t - 1, d);
    g := AfterText(text, s + BodyAt(n), t - 1, d.items, d.end, l[1..], k, m, indent, false, false, e);
    BlockLeaves(text, s, t, n, g, Some(InsertAfter(d.items, d.end, l[1..], k, m, indent, false)));
    IsChange(text, s, n, NodeAfter(n, l, k, m, indent), g);
  }

  /** The new block follows the `k`-th, in the list too. */
  lemma {:induction false} AfterList(items: seq<Item>, end: string, l: seq<Level>, k: nat, m: Node, indent: string,
                                     top: bool)
    requires l != [] && k < |NodesAt(items, l)| && Matches(l[|l| - 1], m)
    ensures NodesAt(InsertAfter(items, end, l, k, m, indent, top).items, l)
            == NodesAt(items, l)[..k + 1] + [m] + NodesAt(items, l)[k + 1..]
    decreases items, 1
  {
    hide *;
    HitAtIs(0, items, l, k);
    AfterIs(items, end, l, k, m, indent, top);
    var n, rest := items[0].node, items[1..];
    var c := InsertAfter(items, end, l, k, m, indent, top).items;
    var a, b := Hits(n, l), NodesAt(rest, l);
    if k >= |a| {
      FirstHits(c, l);
      AfterList(rest, end, l, k - |a|, m, indent, top);
      assert c[1..] == InsertAfter(rest, end, l, k - |a|, m, indent, top).items;
      PartLater(a, b, k + 1, m);
    } else if |l| == 1 {
      OwnAfterList(items, end, m, indent, top, l);
      OwnHits(n, l);
      OwnHits(m, l);
      PartEarlier(a, b, 1, m);
      assert a[..1] == a && a[1..] == [] && (a + [m] + []) + b == a + ([m] + b);
    } else {
      FirstHits(c, l);
      assert c[1..] == rest;
      NodeAfterList(n, l, k, m, indent);
      PartEarlier(a, b, k + 1, m);
    }
  }

  lemma OwnAfterList(items: seq<Item>, end: string, m: Node, indent: string, top: bool, l: seq<Level>)
    requires l != [] && items != []
    ensures NodesAt(OwnAfter(items, end, m, indent, top).items, l)
            == Hits(items[0].node, l) + (Hits(m, l) + NodesAt(items[1..], l))
  {
    hide NodesAt, Hits, AfterPlace, Regap, NextGap;
    var h := NextGap(items[1..], end);
    var p := AfterPlace(h, indent, top && items[1..] == []);
    var d := Regap(p.tail + h[p.cut..], items[1..], end);
    var c := [items[0], Item(h[..p.cut] + p.lead, m)] + d.items;
    assert OwnAfter(items, end, m, indent, top).items == c && |c| == 2 + |d.items|;
    FirstHits(c, l);
    FirstHits(c[1..], l);
    assert c[1..][1..] == d.items;
    RegapList(p.tail + h[p.cut..], items[1..], end, l);
  }

  lemma RegapList(gap: string, rest: seq<Item>, end: string, l: seq<Level>)
    requires l != []
    ensures NodesAt(Regap(gap, rest, end).items, l) == NodesAt(rest, l)
  {
    hide NodesAt, Hits;
    if rest != [] {
      var c := Regap(gap, rest, end).items;
      FirstHits(rest, l);
      FirstHits(c, l);
      assert c[1..] == rest[1..];
    }
  }

  lemma {:induction false} NodeAfterList(n: Node, l: seq<Level>, k: nat, m: Node, indent: string)
    requires |l| > 1 && k < |Hits(n, l)| && Matches(l[|l| - 1], m)
    ensures Hits(NodeAfter(n, l, k, m, indent), l) == Hits(n, l)[..k + 1] + [m] + Hits(n, l)[k + 1..]
    decreases n, 0
  {
    hide NodesAt, InsertAfter;
    AfterList(n.body.value.items, n.body.value.end, l[1..], k, m, indent, false);
  }
}
