/** Removing nodes: the byte ranges the editor deletes, and the tree that is
    left. */
module Prune {
  import opened Options
  import opened Bytes
  import opened Kdl
  import opened Splice

  /** What a node must be called, and for a named block its first argument. */
  datatype Level = Level(names: set<string>, titled: Option<string>)

  function Title(es: seq<Entry>): Option<string> {
    if es == [] then None
    else if es[0].key == None then es[0].str
    else Title(es[1..])
  }

  predicate Matches(l: Level, n: Node) {
    n.name in l.names && (l.titled == None || Title(n.entries) == l.titled)
  }

  /** Every node the levels lead to, in document order. */
  function NodesAt(items: seq<Item>, levels: seq<Level>): seq<Node>
    requires levels != []
    decreases items, 1
  {
    if items == [] then [] else Hits(items[0].node, levels) + NodesAt(items[1..], levels)
  }

  function Hits(n: Node, levels: seq<Level>): seq<Node>
    requires levels != []
    decreases n, 0
  {
    if !Matches(levels[0], n) then []
    else if |levels| == 1 then [n]
    else
      match n.body
      case None => []
      case Some(d) => NodesAt(d.items, levels[1..])
  }

  /** Where a node's children start, counted from the node. */
  function BodyAt(n: Node): nat {
    |n.written| + |EntriesText(n.entries)| + |n.lead| + 1
  }

  /** How many of `items`, the first of whose gaps starts at `pos`, go whole,
      and the edits that delete them and whatever goes inside the others. */
  function Removals(text: string, pos: nat, items: seq<Item>, levels: seq<Level>, top: bool, collapse: bool)
    : (r: (nat, seq<Edit>))
    requires levels != [] && pos + |ItemsText(items)| <= |text|
    decreases items, 1
  {
    if items == [] then (0, [])
    else
      var n, s := items[0].node, pos + |items[0].gap|;
      var rest := Removals(text, s + |NodeText(n)|, items[1..], levels, top, collapse);
      var own := NodeRemovals(text, s, n, levels, top, collapse);
      (own.0 + rest.0, own.1 + rest.1)
  }

  /** The same for one node, at `s`. */
  function NodeRemovals(text: string, s: nat, n: Node, levels: seq<Level>, top: bool, collapse: bool)
    : (r: (nat, seq<Edit>))
    requires levels != [] && s + |NodeText(n)| <= |text|
    decreases n, 0
  {
    var whole := (1, [Removal(text, s, s + |NodeText(n)|)]);
    if !Matches(levels[0], n) then (0, [])
    else if |levels| == 1 then whole
    else
      match n.body
      case None => (0, [])
      case Some(d) =>
        assert |NodeText(n)| == BodyAt(n) + |ItemsText(d.items)| + |d.end| + 1;
        var (removed, inner) := Removals(text, s + BodyAt(n), d.items, levels[1..], false, collapse);
        if collapse && !top && removed > 0 && removed == |d.items| && n.entries == [] then whole else (0, inner)
  }

  // ---------------------------------------------------- the tree that is left

  /** How many of the items go whole. */
  function Gone(items: seq<Item>, levels: seq<Level>, top: bool, collapse: bool): nat
    requires levels != []
    decreases items, 1
  {
    if items == [] then 0
    else (if Goes(items[0].node, levels, top, collapse) then 1 else 0) + Gone(items[1..], levels, top, collapse)
  }

  /** A node goes when it is at the end of the path, or is a block without
      arguments, not at the top of the file, all of whose children go. */
  predicate Goes(n: Node, levels: seq<Level>, top: bool, collapse: bool)
    requires levels != []
    decreases n, 0
  {
    Matches(levels[0], n) &&
    (|levels| == 1 ||
     match n.body
     case None => false
     case Some(d) =>
       collapse && !top && n.entries == [] && d.items != [] && Gone(d.items, levels[1..], false, collapse) == |d.items|)
  }

  function NextGap(items: seq<Item>, end: string): string {
    if items == [] then end else items[0].gap
  }

  /** What stays of a node that does not go. */
  function Stays(n: Node, levels: seq<Level>, collapse: bool): Node
    requires levels != []
    decreases n, 0
  {
    if Matches(levels[0], n) && |levels| > 1 && n.body.Some? then
      n.(body := Some(Cut(n.body.value.items, n.body.value.end, levels[1..], false, collapse, false, "", 0)))
    else n
  }

  /** The document without the nodes that go. `carry` is what earlier removals
      left of the gaps before them, `skip` what the last one took of this gap;
      `first` says nothing at all comes before this gap. */
  function Cut(items: seq<Item>, end: string, levels: seq<Level>, top: bool, collapse: bool, first: bool,
               carry: string, skip: nat): Doc
    requires levels != [] && skip <= |NextGap(items, end)|
    decreases items, 1
  {
    if items == [] then Doc([], carry + end[skip..])
    else
      var g, h := items[0].gap, NextGap(items[1..], end);
      if Goes(items[0].node, levels, top, collapse) then
        var last := top && items[1..] == [];
        var stop := CutBefore(g, h, first, last);
        Cut(items[1..], end, levels, top, collapse, false,
            carry + g[skip..if stop < skip then skip else stop], CutAfter(g, h, first, last))
      else
        var rest := Cut(items[1..], end, levels, top, collapse, false, "", 0);
        Doc([Item(carry + g[skip..], Stays(items[0].node, levels, collapse))] + rest.items, rest.end)
  }

  function CutDoc(d: Doc, levels: seq<Level>, collapse: bool): Doc
    requires levels != []
  {
    Cut(d.items, d.end, levels, true, collapse, true, "", 0)
  }

  predicate Enters(levels: seq<Level>, n: Node)
    requires levels != []
  {
    Matches(levels[0], n) && |levels| > 1 && n.body.Some?
  }

  // ------------------------------------------------ told from the gaps

  /** The removals that stay within the gaps around the nodes that go, without
      looking at the text. */
  function GapRemovals(pos: nat, items: seq<Item>, end: string, levels: seq<Level>, top: bool, collapse: bool,
                       first: bool): seq<Edit>
    requires levels != []
    decreases items, 1
  {
    if items == [] then []
    else
      var g, h, n := items[0].gap, NextGap(items[1..], end), items[0].node;
      var s := pos + |g|;
      NodeGapRemovals(pos, s, n, g, h, levels, top, collapse, first, top && items[1..] == [])
      + GapRemovals(s + |NodeText(n)|, items[1..], end, levels, top, collapse, false)
  }

  function NodeGapRemovals(pos: nat, s: nat, n: Node, g: string, h: string, levels: seq<Level>, top: bool,
                           collapse: bool, first: bool, last: bool): seq<Edit>
    requires levels != []
    decreases n, 0
  {
    if Goes(n, levels, top, collapse) then
      [Edit(pos + CutBefore(g, h, first, last), s + |NodeText(n)| + CutAfter(g, h, first, last), "")]
    else if Enters(levels, n) then
      GapRemovals(s + BodyAt(n), n.body.value.items, n.body.value.end, levels[1..], false, collapse, false)
    else []
  }

  /** No node that goes has the start of its line to itself and an exposed gap
      behind it. */
  predicate Safe(items: seq<Item>, end: string, levels: seq<Level>, top: bool, collapse: bool, first: bool)
    requires levels != []
    decreases items, 1
  {
    items == [] ||
    (NodeSafe(items[0].node, items[0].gap, NextGap(items[1..], end), levels, top, collapse, first,
      top && items[1..] == [])
     && Safe(items[1..], end, levels, top, collapse, false))
  }

  predicate NodeSafe(n: Node, g: string, h: string, levels: seq<Level>, top: bool, collapse: bool, first: bool,
                     last: bool)
    requires levels != []
    decreases n, 0
  {
    if Goes(n, levels, top, collapse) then Fine(g, h, first, last)
    else Enters(levels, n) ==> Safe(n.body.value.items, n.body.value.end, levels[1..], false, collapse, false)
  }

  predicate SafeDoc(d: Doc, levels: seq<Level>, collapse: bool)
    requires levels != []
  {
    Safe(d.items, d.end, levels, true, collapse, true)
  }

  // -------------------------------------------------- text and tree agree

  /** `text[pos..stop]` is the gap-and-node sequence `items` and the gap `end`. */
  ghost predicate Sits(text: string, pos: nat, stop: nat, items: seq<Item>, end: string) {
    pos <= stop <= |text| && text[pos..stop] == ItemsText(items) + end
  }

  /** Nothing precedes the first gap, or something that is not white; nothing
      follows `end` at the end of the file, or the block's brace. */
  ghost predicate Framed(text: string, pos: nat, stop: nat, end: string, top: bool, first: bool)
    requires pos <= stop <= |text|
  {
    && (if first then pos == 0 else pos > 0 && !White(text[pos - 1]))
    && (if top then stop == |text| else stop < |text| && text[stop] == '}')
  }

  /** What the last removal took of a gap ends before its last line. */
  ghost predicate SkipOk(skip: nat, g: string, first: bool) {
    && skip <= |g| && (HasLine(g) ==> skip <= LastLine(g) + 1) && (first ==> skip == 0)
  }

  lemma SkipWithin(skip: nat, g: string, h: string, first: bool, last: bool)
    requires SkipOk(skip, g, first)
    ensures skip <= CutBefore(g, h, first, last)
  {
  }

  lemma NextSkip(g: string, h: string, first: bool, last: bool)
    ensures SkipOk(CutAfter(g, h, first, last), h, false)
  {
    if HasLine(h) {
      LinesInOrder(h);
      SemiBeforeLine(h);
    }
  }

  lemma LinesInOrder(g: string)
    requires HasLine(g)
    ensures FirstLine(g) <= LastLine(g)
  {
    var f := FirstLine(g);
    assert forall i :: 0 <= i < f ==> g[i] == g[..f][i];
  }

  lemma SemiBeforeLine(h: string)
    requires HasLine(h)
    ensures SemiStop(h) <= FirstLine(h)
  {
    BlanksBeforeLine(h);
  }

  lemma {:induction false} BlanksBeforeLine(h: string)
    requires HasLine(h)
    ensures |h| - |TrimBlanks(h)| <= FirstLine(h)
    ensures |h| - |TrimBlanks(h)| < |h| && h[|h| - |TrimBlanks(h)|] == TrimBlanks(h)[0]
    decreases |h|
  {
    if h[0] == ' ' || h[0] == '\t' {
      assert HasLine(h[1..]);
      BlanksBeforeLine(h[1..]);
    }
  }

  /** Where the first item and the rest sit. */
  lemma FirstSits(text: string, pos: nat, stop: nat, items: seq<Item>, end: string)
    requires items != [] && Sits(text, pos, stop, items, end)
    ensures var s := pos + |items[0].gap|;
            var e := s + |NodeText(items[0].node)|;
            && s <= e <= stop && text[pos..s] == items[0].gap && text[s..e] == NodeText(items[0].node)
            && Sits(text, e, stop, items[1..], end)
  {
    var g, c, rest := items[0].gap, NodeText(items[0].node), ItemsText(items[1..]) + end;
    ItemsParts(items, end);
    SliceParts(text, pos, stop, g, c + rest);
    SliceParts(text, pos + |g|, stop, c, rest);
  }

  lemma ItemsParts(items: seq<Item>, end: string)
    requires items != []
    ensures ItemsText(items) + end == items[0].gap + (NodeText(items[0].node) + (ItemsText(items[1..]) + end))
  {
  }

  lemma GapSits(text: string, pos: nat, stop: nat, items: seq<Item>, end: string)
    requires Sits(text, pos, stop, items, end)
    ensures var g := NextGap(items, end); pos + |g| <= stop && text[pos..pos + |g|] == g
  {
    if items != [] {
      FirstSits(text, pos, stop, items, end);
    } else {
      assert ItemsText(items) + end == end;
    }
  }

  /** The gap after a node is followed by a node, a brace, or nothing. */
  lemma GapFollowed(text: string, pos: nat, stop: nat, items: seq<Item>, end: string, top: bool, first: bool)
    requires Sits(text, pos, stop, items, end) && ItemsOk(items) && Framed(text, pos, stop, end, top, first)
    ensures var g := NextGap(items, end);
            && pos + |g| <= |text| && Follows(text, pos + |g|)
            && (pos + |g| == |text| <==> top && items == [])
  {
    hide NodeText, ItemsText, White;
    GapSits(text, pos, stop, items, end);
    if items != [] {
      var s, n := pos + |items[0].gap|, items[0].node;
      FirstSits(text, pos, stop, items, end);
      NodeEnds(n);
      assert text[s] == text[s..s + |NodeText(n)|][0];
    } else {
      EndSits(text, pos, stop, end);
      assert Starter('}') by { CloserStarts(); }
    }
  }

  lemma EndSits(text: string, pos: nat, stop: nat, end: string)
    requires Sits(text, pos, stop, [], end)
    ensures pos + |end| == stop
  {
    assert text[pos..stop] == end;
  }

  lemma CloserStarts()
    ensures Starter('}')
  {
  }

  lemma NodeEnds(n: Node)
    requires NodeOk(n)
    ensures var c := NodeText(n); c != "" && Starter(c[0]) && !White(c[|c| - 1])
  {
    assert NodeText(n)[0] == n.written[0];
  }

  /** The rest of the items is framed by the node before them. */
  lemma {:induction false} RestFramed(text: string, pos: nat, stop: nat, items: seq<Item>, end: string, top: bool,
                                      first: bool)
    requires items != [] && Sits(text, pos, stop, items, end) && ItemsOk(items)
    requires Framed(text, pos, stop, end, top, first)
    ensures var s := pos + |items[0].gap|;
            var e := s + |NodeText(items[0].node)|;
            s < e <= stop && Framed(text, e, stop, end, top, false) && Sits(text, e, stop, items[1..], end)
  {
    var n, s := items[0].node, pos + |items[0].gap|;
    var e := s + |NodeText(n)|;
    FirstSits(text, pos, stop, items, end);
    NodeEnds(n);
    assert text[e - 1] == text[s..e][|NodeText(n)| - 1];
  }

  lemma FramedStart(text: string, pos: nat, stop: nat, items: seq<Item>, end: string, top: bool, first: bool)
    requires Sits(text, pos, stop, items, end) && Framed(text, pos, stop, end, top, first)
    ensures pos <= |text| && Closed(text, pos) && (first <==> pos == 0)
  {
  }

  /** A block's text up to its children. */
  function Head(n: Node): (r: string)
    ensures |r| == BodyAt(n) && r[|r| - 1] == '{'
  {
    n.written + EntriesText(n.entries) + n.lead + "{"
  }

  lemma BlockText(n: Node)
    requires n.body.Some?
    ensures NodeText(n) == Head(n) + (ItemsText(n.body.value.items) + n.body.value.end + "}")
  {
    Regroup(Head(n), DocText(n.body.value), "}");
  }

  /** Where a node's children sit. */
  lemma {:induction false} BodySits(text: string, s: nat, e: nat, n: Node)
    requires s <= e <= |text| && text[s..e] == NodeText(n) && n.body.Some?
    ensures var d, b := n.body.value, s + BodyAt(n);
            && s < b <= e - 1 && Sits(text, b, e - 1, d.items, d.end)
            && text[s..b] == Head(n) && text[e - 1..e] == "}" && text[b - 1] == '{' && text[e - 1] == '}'
  {
    hide NodeText, ItemsText, Head;
    var d, b := n.body.value, BodyAt(n);
    var body := ItemsText(d.items) + d.end;
    BlockText(n);
    SliceParts(text, s, e, Head(n), body + "}");
    SliceParts(text, s + b, e, body, "}");
    assert text[s + b - 1] == text[s..s + b][b - 1] && text[e - 1] == text[e - 1..e][0];
  }

  lemma BodyFramed(text: string, b: nat, t: nat, d: Doc)
    requires 0 < b <= t < |text| && text[b - 1] == '{' && text[t] == '}' && DocOk(d)
    ensures Framed(text, b, t, d.end, false, false) && ItemsOk(d.items)
  {
    assert !White('{');
  }

  // ------------------------------------------- the gaps' removals and the cut

  /** What there is to show of a list of items at a place. */
  ghost predicate Agrees(text: string, pos: nat, stop: nat, items: seq<Item>, end: string, levels: seq<Level>,
                         top: bool, collapse: bool, first: bool, carry: string, skip: nat)
    requires levels != [] && skip <= |NextGap(items, end)|
  {
    && stop <= |text|
    && var edits := GapRemovals(pos, items, end, levels, top, collapse, first);
    && Fits(edits, pos + skip, stop)
    && carry + Rebuild(text, pos + skip, stop, edits)
       == DocText(Cut(items, end, levels, top, collapse, first, carry, skip))
  }

  /** These edits fit the text, and the text rebuilt with them is the text of
      the tree that is left. */
  lemma {:induction false} PruneText(text: string, pos: nat, stop: nat, items: seq<Item>, end: string,
                                     levels: seq<Level>, top: bool, collapse: bool, first: bool, carry: string,
                                     skip: nat)
    requires levels != [] && Sits(text, pos, stop, items, end) && ItemsOk(items)
    requires SkipOk(skip, NextGap(items, end), first)
    ensures Agrees(text, pos, stop, items, end, levels, top, collapse, first, carry, skip)
    decreases items, 2
  {
    assert |text[pos..stop]| == |ItemsText(items)| + |end|;
    if items == [] {
      assert ItemsText(items) + end == end;
      assert text[pos + skip..stop] == text[pos..stop][skip..];
      assert ItemsText([]) + (carry + end[skip..]) == carry + end[skip..];
    } else if Goes(items[0].node, levels, top, collapse) {
      GoesText(text, pos, stop, items, end, levels, top, collapse, first, carry, skip);
    } else {
      StaysText(text, pos, stop, items, end, levels, top, collapse, first, carry, skip);
    }
  }

  lemma FirstOk(items: seq<Item>, end: string)
    requires items != [] && ItemsOk(items)
    ensures NodeOk(items[0].node) && ItemsOk(items[1..]) && NextGap(items, end) == items[0].gap
  {
  }

  lemma BodyOk(n: Node)
    requires NodeOk(n) && n.body.Some?
    ensures DocOk(n.body.value) && ItemsOk(n.body.value.items)
  {
  }

  lemma FirstGaps(pos: nat, items: seq<Item>, end: string, levels: seq<Level>, top: bool, collapse: bool, first: bool)
    requires levels != [] && items != []
    ensures var g, h, n := items[0].gap, NextGap(items[1..], end), items[0].node;
            var s := pos + |g|;
            GapRemovals(pos, items, end, levels, top, collapse, first)
            == NodeGapRemovals(pos, s, n, g, h, levels, top, collapse, first, top && items[1..] == [])
               + GapRemovals(s + |NodeText(n)|, items[1..], end, levels, top, collapse, false)
  {
    hide NodeText, NodeGapRemovals, NextGap;
  }

  lemma NodeGaps(pos: nat, s: nat, n: Node, g: string, h: string, levels: seq<Level>, top: bool, collapse: bool,
                 first: bool, last: bool)
    requires levels != []
    ensures var own := NodeGapRemovals(pos, s, n, g, h, levels, top, collapse, first, last);
            && (Goes(n, levels, top, collapse) ==>
                  own == [Edit(pos + CutBefore(g, h, first, last),
                    s + |NodeText(n)| + CutAfter(g, h, first, last), "")])
            && (!Goes(n, levels, top, collapse) && Enters(levels, n) ==>
                  |levels| > 1 && n.body.Some?
                  && own == GapRemovals(s + BodyAt(n), n.body.value.items, n.body.value.end, levels[1..], false,
                    collapse, false))
            && (!Goes(n, levels, top, collapse) && !Enters(levels, n) ==> own == [])
  {
    hide NodeText, GapRemovals, Goes, CutBefore, CutAfter;
  }

  lemma NodeFills(text: string, pos: nat, stop: nat, items: seq<Item>, end: string, s: nat, e: nat)
    requires items != [] && Sits(text, pos, stop, items, end) && ItemsOk(items)
    requires s == pos + |items[0].gap| && e == s + |NodeText(items[0].node)|
    ensures s < e <= stop <= |text| && text[pos..s] == items[0].gap && text[s..e] == NodeText(items[0].node)
    ensures Sits(text, e, stop, items[1..], end)
    ensures e + |NextGap(items[1..], end)| <= stop
  {
    hide NodeText, ItemsText;
    FirstSits(text, pos, stop, items, end);
    FirstOk(items, end);
    NodeEnds(items[0].node);
    GapSits(text, e, stop, items[1..], end);
  }

  lemma {:induction false} GoesText(text: string, pos: nat, stop: nat, items: seq<Item>, end: string,
                                    levels: seq<Level>, top: bool, collapse: bool, first: bool, carry: string,
                                    skip: nat)
    requires levels != [] && Sits(text, pos, stop, items, end) && ItemsOk(items)
    requires SkipOk(skip, NextGap(items, end), first)
    requires items != [] && Goes(items[0].node, levels, top, collapse)
    ensures Agrees(text, pos, stop, items, end, levels, top, collapse, first, carry, skip)
    decreases items, 0
  {
    hide *;
    var g, n, h, rest := items[0].gap, items[0].node, NextGap(items[1..], end), items[1..];
    var last := top && rest == [];
    var s := pos + |g|;
    var e := s + |NodeText(n)|;
    var cb, ca := CutBefore(g, h, first, last), CutAfter(g, h, first, last);
    NodeFills(text, pos, stop, items, end, s, e);
    FirstOk(items, end);
    SkipWithin(skip, g, h, first, last);
    NextSkip(g, h, first, last);
    PruneText(text, e, stop, rest, end, levels, top, collapse, false, carry + g[skip..cb], ca);
    FirstGaps(pos, items, end, levels, top, collapse, first);
    NodeGaps(pos, s, n, g, h, levels, top, collapse, first, last);
    GoesCut(items, end, levels, top, collapse, first, last, carry, skip);
    GoesAgrees(text, pos, stop, items, end, levels, top, collapse, first, carry, skip, s, e, g, cb, ca);
  }

  lemma GoesAgrees(text: string, pos: nat, stop: nat, items: seq<Item>, end: string, levels: seq<Level>, top: bool,
                   collapse: bool, first: bool, carry: string, skip: nat, s: nat, e: nat, g: string, cb: nat, ca: nat)
    requires levels != [] && items != [] && g == items[0].gap && skip <= cb <= |g| && ca <= |NextGap(items[1..], end)|
    requires s == pos + |g| && s < e && e + ca <= stop <= |text| && text[pos..s] == g
    requires Agrees(text, e, stop, items[1..], end, levels, top, collapse, false, carry + g[skip..cb], ca)
    requires GapRemovals(pos, items, end, levels, top, collapse, first)
             == [Edit(pos + cb, e + ca, "")] + GapRemovals(e, items[1..], end, levels, top, collapse, false)
    requires Cut(items, end, levels, top, collapse, first, carry, skip)
             == Cut(items[1..], end, levels, top, collapse, false, carry + g[skip..cb], ca)
    ensures skip <= |NextGap(items, end)|
    ensures Agrees(text, pos, stop, items, end, levels, top, collapse, first, carry, skip)
  {
    hide NodeText, ItemsText, Goes, GapRemovals, Cut, DocText, Fits, Rebuild;
    var edits := GapRemovals(e, items[1..], end, levels, top, collapse, false);
    SubSlice(text, pos, s, skip, cb);
    DeletedText(text, pos + skip, pos + cb, e + ca, stop, edits, carry, g[skip..cb]);
  }

  lemma DeletedText(text: string, a: nat, b: nat, e: nat, c: nat, fs: seq<Edit>, carry: string, piece: string)
    requires a <= b < e <= c <= |text| && Fits(fs, e, c) && text[a..b] == piece
    ensures Fits([Edit(b, e, "")] + fs, a, c)
    ensures carry + Rebuild(text, a, c, [Edit(b, e, "")] + fs) == carry + piece + Rebuild(text, e, c, fs)
  {
    RebuildDeleted(text, a, b, e, c, fs);
    Regroup(carry, piece, Rebuild(text, e, c, fs));
  }

  lemma GoesCut(items: seq<Item>, end: string, levels: seq<Level>, top: bool, collapse: bool, first: bool, last: bool,
                carry: string, skip: nat)
    requires levels != [] && items != [] && Goes(items[0].node, levels, top, collapse)
    requires last == (top && items[1..] == [])
    requires skip <= CutBefore(items[0].gap, NextGap(items[1..], end), first, last)
    ensures var g, h := items[0].gap, NextGap(items[1..], end);
            Cut(items, end, levels, top, collapse, first, carry, skip) ==
            Cut(items[1..], end, levels, top, collapse, false,
                carry + g[skip..CutBefore(g, h, first, last)], CutAfter(g, h, first, last))
  {
    hide CutBefore, CutAfter, Goes;
  }

  lemma {:induction false} StaysText(text: string, pos: nat, stop: nat, items: seq<Item>, end: string,
                                     levels: seq<Level>, top: bool, collapse: bool, first: bool, carry: string,
                                     skip: nat)
    requires levels != [] && Sits(text, pos, stop, items, end) && ItemsOk(items)
    requires SkipOk(skip, NextGap(items, end), first)
    requires items != [] && !Goes(items[0].node, levels, top, collapse)
    ensures Agrees(text, pos, stop, items, end, levels, top, collapse, first, carry, skip)
    decreases items, 0
  {
    hide *;
    var g, n, h, rest := items[0].gap, items[0].node, NextGap(items[1..], end), items[1..];
    var s := pos + |g|;
    var e := s + |NodeText(n)|;
    NodeFills(text, pos, stop, items, end, s, e);
    FirstOk(items, end);
    NoSkip(NextGap(rest, end));
    assert skip <= |g| by { SkipFits(skip, g, first); }
    PruneText(text, e, stop, rest, end, levels, top, collapse, false, "", 0);
    StaysCut(items, end, levels, top, collapse, first, carry, skip);
    FirstGaps(pos, items, end, levels, top, collapse, first);
    NodeGaps(pos, s, n, g, h, levels, top, collapse, first, top && rest == []);
    var later := GapRemovals(e, rest, end, levels, top, collapse, false);
    if Enters(levels, n) {
      var d, b := n.body.value, s + BodyAt(n);
      BodySits(text, s, e, n);
      BodyOk(n);
      NoSkip(NextGap(d.items, d.end));
      PruneText(text, b, e - 1, d.items, d.end, levels[1..], false, collapse, false, "", 0);
      KeptWithin(n, levels, collapse);
      InnerText(text, pos, stop, items, end, levels, top, collapse, first, carry, skip, s, e, g, n, d);
    } else {
      assert [] + later == later;
      KeptWhole(n, levels, collapse);
      UntouchedText(text, pos, stop, items, end, levels, top, collapse, first, carry, skip, s, e, g, n);
    }
  }

  lemma NoSkip(g: string)
    ensures SkipOk(0, g, false)
  {
  }

  lemma SkipFits(skip: nat, g: string, first: bool)
    requires SkipOk(skip, g, first)
    ensures skip <= |g|
  {
  }

  lemma StaysCut(items: seq<Item>, end: string, levels: seq<Level>, top: bool, collapse: bool, first: bool,
                 carry: string, skip: nat)
    requires levels != [] && items != [] && !Goes(items[0].node, levels, top, collapse) && skip <= |items[0].gap|
    ensures DocText(Cut(items, end, levels, top, collapse, first, carry, skip))
            == carry + items[0].gap[skip..] + NodeText(Stays(items[0].node, levels, collapse))
               + DocText(Cut(items[1..], end, levels, top, collapse, false, "", 0))
  {
    hide Goes, Stays, NodeText, CutBefore, CutAfter, ItemsText;
    var rest := Cut(items[1..], end, levels, top, collapse, false, "", 0);
    ItemsParts([Item(carry + items[0].gap[skip..], Stays(items[0].node, levels, collapse))] + rest.items, rest.end);
  }

  lemma KeptWhole(n: Node, levels: seq<Level>, collapse: bool)
    requires levels != [] && !Enters(levels, n)
    ensures Stays(n, levels, collapse) == n
  {
  }

  lemma KeptWithin(n: Node, levels: seq<Level>, collapse: bool)
    requires levels != [] && Enters(levels, n)
    ensures |levels| > 1 && n.body.Some?
    ensures var d := n.body.value;
            NodeText(Stays(n, levels, collapse))
            == Head(n) + DocText(Cut(d.items, d.end, levels[1..], false, collapse, false, "", 0)) + "}"
  {
    hide Cut;
  }

  /** A node that nothing inside of is touched. */
  lemma UntouchedText(text: string, pos: nat, stop: nat, items: seq<Item>, end: string, levels: seq<Level>, top: bool,
                      collapse: bool, first: bool, carry: string, skip: nat, s: nat, e: nat, g: string, n: Node)
    requires levels != [] && items != [] && g == items[0].gap && n == items[0].node && skip <= |g|
    requires s == pos + |g| && s <= e <= stop <= |text| && text[pos..s] == g && text[s..e] == NodeText(n)
    requires Agrees(text, e, stop, items[1..], end, levels, top, collapse, false, "", 0)
    requires GapRemovals(pos, items, end, levels, top, collapse, first)
             == GapRemovals(e, items[1..], end, levels, top, collapse, false)
    requires DocText(Cut(items, end, levels, top, collapse, first, carry, skip))
             == carry + g[skip..] + NodeText(n) + DocText(Cut(items[1..], end, levels, top, collapse, false, "", 0))
    ensures skip <= |NextGap(items, end)|
    ensures Agrees(text, pos, stop, items, end, levels, top, collapse, first, carry, skip)
  {
    hide NodeText, ItemsText, Cut, DocText, Fits, Rebuild, GapRemovals;
    var edits := GapRemovals(e, items[1..], end, levels, top, collapse, false);
    RebuildLower(text, pos + skip, e, stop, edits);
    SubSlice(text, pos, s, skip, |g|);
    assert text[pos + skip..e] == text[pos + skip..s] + text[s..e];
    Regroup(carry + g[skip..], NodeText(n), Rebuild(text, e, stop, edits));
    Regroup(carry, g[skip..], NodeText(n));
    Regroup(carry, g[skip..] + NodeText(n), Rebuild(text, e, stop, edits));
  }

  /** A block that stays, with what goes inside it gone. */
  lemma InnerText(text: string, pos: nat, stop: nat, items: seq<Item>, end: string, levels: seq<Level>, top: bool,
                  collapse: bool, first: bool, carry: string, skip: nat, s: nat, e: nat, g: string, n: Node, d: Doc)
    requires |levels| > 1 && items != [] && g == items[0].gap && n == items[0].node && n.body == Some(d) && skip <= |g|
    requires s == pos + |g| && s < s + BodyAt(n) <= e - 1 && e <= stop <= |text| && text[pos..s] == g
    requires text[s..s + BodyAt(n)] == Head(n) && text[e - 1..e] == "}"
    requires Agrees(text, e, stop, items[1..], end, levels, top, collapse, false, "", 0)
    requires Agrees(text, s + BodyAt(n), e - 1, d.items, d.end, levels[1..], false, collapse, false, "", 0)
    requires GapRemovals(pos, items, end, levels, top, collapse, first)
             == GapRemovals(s + BodyAt(n), d.items, d.end, levels[1..], false, collapse, false)
                + GapRemovals(e, items[1..], end, levels, top, collapse, false)
    requires DocText(Cut(items, end, levels, top, collapse, first, carry, skip))
             == carry + g[skip..]
                + (Head(n) + DocText(Cut(d.items, d.end, levels[1..], false, collapse, false, "", 0)) + "}")
                + DocText(Cut(items[1..], end, levels, top, collapse, false, "", 0))
    ensures skip <= |NextGap(items, end)|
    ensures Agrees(text, pos, stop, items, end, levels, top, collapse, first, carry, skip)
  {
    hide *;
    var b := s + BodyAt(n);
    var edits := GapRemovals(e, items[1..], end, levels, top, collapse, false);
    var inner := GapRemovals(b, d.items, d.end, levels[1..], false, collapse, false);
    var kept := DocText(Cut(d.items, d.end, levels[1..], false, collapse, false, "", 0));
    var left := DocText(Cut(items[1..], end, levels, top, collapse, false, "", 0));
    AgreesIs(text, e, stop, items[1..], end, levels, top, collapse, false, "", 0);
    AgreesIs(text, b, e - 1, d.items, d.end, levels[1..], false, collapse, false, "", 0);
    FirstGap(items, end);
    InnerRebuilt(text, pos, s, b, e, stop, g, skip, carry, Head(n), inner, edits, kept, left);
    AgreesWhen(text, pos, stop, items, end, levels, top, collapse, first, carry, skip);
  }

  lemma FirstGap(items: seq<Item>, end: string)
    requires items != []
    ensures NextGap(items, end) == items[0].gap
  {
  }

  lemma AgreesIs(text: string, pos: nat, stop: nat, items: seq<Item>, end: string, levels: seq<Level>, top: bool,
                 collapse: bool, first: bool, carry: string, skip: nat)
    requires levels != [] && skip <= |NextGap(items, end)|
    requires Agrees(text, pos, stop, items, end, levels, top, collapse, first, carry, skip)
    ensures var edits := GapRemovals(pos, items, end, levels, top, collapse, first);
            && stop <= |text| && Fits(edits, pos + skip, stop)
            && carry + Rebuild(text, pos + skip, stop, edits)
               == DocText(Cut(items, end, levels, top, collapse, first, carry, skip))
  {
    hide GapRemovals, Cut, DocText, Fits, Rebuild;
  }

  lemma AgreesWhen(text: string, pos: nat, stop: nat, items: seq<Item>, end: string, levels: seq<Level>, top: bool,
                   collapse: bool, first: bool, carry: string, skip: nat)
    requires levels != [] && skip <= |NextGap(items, end)| && stop <= |text|
    requires var edits := GapRemovals(pos, items, end, levels, top, collapse, first);
             && Fits(edits, pos + skip, stop)
             && carry + Rebuild(text, pos + skip, stop, edits)
                == DocText(Cut(items, end, levels, top, collapse, first, carry, skip))
    ensures Agrees(text, pos, stop, items, end, levels, top, collapse, first, carry, skip)
  {
    hide GapRemovals, Cut, DocText, Fits, Rebuild;
  }

  /** The text around a block rebuilt inside and behind it. */
  lemma InnerRebuilt(text: string, pos: nat, s: nat, b: nat, e: nat, stop: nat, g: string, skip: nat, carry: string,
                     head: string, inner: seq<Edit>, edits: seq<Edit>, kept: string, left: string)
    requires s == pos + |g| && s < b <= e - 1 && e <= stop <= |text| && text[pos..s] == g && skip <= |g|
    requires text[s..b] == head && text[e - 1..e] == "}"
    requires Fits(inner, b + 0, e - 1) && Fits(edits, e + 0, stop)
    requires "" + Rebuild(text, b + 0, e - 1, inner) == kept && "" + Rebuild(text, e + 0, stop, edits) == left
    ensures Fits(inner + edits, pos + skip, stop)
    ensures carry + Rebuild(text, pos + skip, stop, inner + edits) == carry + g[skip..] + (head + kept + "}") + left
  {
    hide Fits, Rebuild;
    RebuildInner(text, pos + skip, b, e - 1, e, stop, inner, edits);
    SubSlice(text, pos, s, skip, |g|);
    assert text[pos + skip..b] == text[pos + skip..s] + text[s..b];
    assert "" + Rebuild(text, b + 0, e - 1, inner) == Rebuild(text, b + 0, e - 1, inner);
    assert "" + Rebuild(text, e + 0, stop, edits) == Rebuild(text, e + 0, stop, edits);
    FourParts(carry, g[skip..], head, kept, left);
  }

  lemma KeptText(n: Node, kept: Doc)
    requires n.body.Some?
    ensures NodeText(n.(body := Some(kept))) == Head(n) + DocText(kept) + "}"
  {
  }

  lemma FourParts(carry: string, g: string, head: string, kept: string, rest: string)
    ensures carry + ((g + head) + kept + "}" + rest) == carry + g + (head + kept + "}") + rest
  {
  }

  // -------------------------------------- the editor's removals and the gaps'

  /** How many nodes the editor's walk finds to go whole is what the tree says. */
  lemma {:induction false} GoneCounts(text: string, pos: nat, items: seq<Item>, levels: seq<Level>, top: bool,
                                      collapse: bool)
    requires levels != [] && pos + |ItemsText(items)| <= |text|
    ensures Removals(text, pos, items, levels, top, collapse).0 == Gone(items, levels, top, collapse)
    decreases items, 1
  {
    hide NodeRemovals, Goes, NodeText;
    if items != [] {
      var n, s := items[0].node, pos + |items[0].gap|;
      NodeCounts(text, s, n, levels, top, collapse);
      GoneCounts(text, s + |NodeText(n)|, items[1..], levels, top, collapse);
    }
  }

  lemma {:induction false} NodeCounts(text: string, s: nat, n: Node, levels: seq<Level>, top: bool, collapse: bool)
    requires levels != [] && s + |NodeText(n)| <= |text|
    ensures var own := NodeRemovals(text, s, n, levels, top, collapse);
            && own.0 == (if Goes(n, levels, top, collapse) then 1 else 0)
            && (Goes(n, levels, top, collapse) ==> own.1 == [Removal(text, s, s + |NodeText(n)|)])
            && (!Goes(n, levels, top, collapse) && !Enters(levels, n) ==> own.1 == [])
            && (!Goes(n, levels, top, collapse) && Enters(levels, n) ==>
                  var d := n.body.value;
                  && |levels| > 1 && s + BodyAt(n) + |ItemsText(d.items)| <= |text|
                  && own.1 == Removals(text, s + BodyAt(n), d.items, levels[1..], false, collapse).1)
    decreases n, 0
  {
    hide Removal, ItemsText, Removals, Gone;
    if Enters(levels, n) {
      var d := n.body.value;
      BlockSize(n);
      GoneCounts(text, s + BodyAt(n), d.items, levels[1..], false, collapse);
    }
  }

  lemma BlockSize(n: Node)
    requires n.body.Some?
    ensures |NodeText(n)| == BodyAt(n) + |ItemsText(n.body.value.items)| + |n.body.value.end| + 1
  {
  }

  /** The edits are the very same, or they span more. */
  ghost predicate Overtakes(es: seq<Edit>, fs: seq<Edit>, same: bool) {
    if same then es == fs else Taken(es) > Taken(fs)
  }

  lemma OvertakesBoth(es: seq<Edit>, fs: seq<Edit>, same: bool, later: seq<Edit>, more: seq<Edit>, again: bool)
    requires Overtakes(es, fs, same) && Overtakes(later, more, again)
    ensures Overtakes(es + later, fs + more, same && again)
  {
    TakenAppend(es, later);
    TakenAppend(fs, more);
  }

  /** The editor removes what the gaps say exactly when the removals are safe;
      else it removes more. */
  lemma {:induction false} RemovalsByGaps(text: string, pos: nat, stop: nat, items: seq<Item>, end: string,
                                          levels: seq<Level>, top: bool, collapse: bool, first: bool)
    requires levels != [] && Sits(text, pos, stop, items, end) && ItemsOk(items)
    requires Framed(text, pos, stop, end, top, first)
    ensures pos + |ItemsText(items)| <= |text|
    ensures Overtakes(Removals(text, pos, items, levels, top, collapse).1,
                      GapRemovals(pos, items, end, levels, top, collapse, first),
                      Safe(items, end, levels, top, collapse, first))
    decreases items, 2
  {
    hide *;
    SitsWithin(text, pos, stop, items, end);
    if items == [] {
      NoRemovals(text, pos, items, end, levels, top, collapse, first);
    } else {
      var g, h, n, rest := items[0].gap, NextGap(items[1..], end), items[0].node, items[1..];
      var last := top && rest == [];
      var s := pos + |g|;
      var e := s + |NodeText(n)|;
      FirstOk(items, end);
      NodeFills(text, pos, stop, items, end, s, e);
      RestFramed(text, pos, stop, items, end, top, first);
      FirstRemoval(text, pos, stop, items, end, top, first, last, g, h, s, e);
      NodeByGaps(text, pos, s, e, items, n, g, h, levels, top, collapse, first, last);
      RemovalsByGaps(text, e, stop, rest, end, levels, top, collapse, false);
      OneMore(text, pos, items, levels, top, collapse);
      FirstGaps(pos, items, end, levels, top, collapse, first);
      FirstSafe(items, end, levels, top, collapse, first);
      OvertakesBoth(NodeRemovals(text, s, n, levels, top, collapse).1,
                    NodeGapRemovals(pos, s, n, g, h, levels, top, collapse, first, last),
                    NodeSafe(n, g, h, levels, top, collapse, first, last),
                    Removals(text, e, rest, levels, top, collapse).1,
                    GapRemovals(e, rest, end, levels, top, collapse, false),
                    Safe(rest, end, levels, top, collapse, false));
    }
  }

  lemma SitsWithin(text: string, pos: nat, stop: nat, items: seq<Item>, end: string)
    requires Sits(text, pos, stop, items, end)
    ensures pos <= stop <= |text| && pos + |ItemsText(items)| <= stop
  {
    assert |text[pos..stop]| == |ItemsText(items)| + |end|;
  }

  lemma NoRemovals(text: string, pos: nat, items: seq<Item>, end: string, levels: seq<Level>, top: bool,
                   collapse: bool, first: bool)
    requires levels != [] && items == [] && pos + |ItemsText(items)| <= |text|
    ensures Overtakes(Removals(text, pos, items, levels, top, collapse).1,
                      GapRemovals(pos, items, end, levels, top, collapse, first),
                      Safe(items, end, levels, top, collapse, first))
  {
  }

  lemma FirstSafe(items: seq<Item>, end: string, levels: seq<Level>, top: bool, collapse: bool, first: bool)
    requires levels != [] && items != []
    ensures Safe(items, end, levels, top, collapse, first) <==>
              && NodeSafe(items[0].node, items[0].gap, NextGap(items[1..], end), levels, top, collapse, first,
                          top && items[1..] == [])
              && Safe(items[1..], end, levels, top, collapse, false)
  {
    hide NodeSafe, NextGap;
  }

  function Onto(gone: nat, edits: seq<Edit>, r: (nat, seq<Edit>)): (nat, seq<Edit>) {
    (gone + r.0, edits + r.1)
  }

  lemma OneMore(text: string, pos: nat, items: seq<Item>, levels: seq<Level>, top: bool, collapse: bool)
    requires levels != [] && items != [] && pos + |ItemsText(items)| <= |text|
    ensures var s := pos + |items[0].gap|;
            && s + |NodeText(items[0].node)| + |ItemsText(items[1..])| <= |text|
            && var own := NodeRemovals(text, s, items[0].node, levels, top, collapse);
            var rest := Removals(text, s + |NodeText(items[0].node)|, items[1..], levels, top, collapse);
            && Removals(text, pos, items, levels, top, collapse) == Onto(own.0, own.1, rest)
            && Removals(text, pos, items, levels, top, collapse).1 == own.1 + rest.1
  {
    hide NodeText, NodeRemovals, ItemsText, Goes;
    ItemsSize(items);
  }

  lemma ItemsSize(items: seq<Item>)
    requires items != []
    ensures |ItemsText(items)| == |items[0].gap| + |NodeText(items[0].node)| + |ItemsText(items[1..])|
  {
  }

  /** What the removal of the first node, between the gaps `g` and `h`, takes. */
  lemma FirstRemoval(text: string, pos: nat, stop: nat, items: seq<Item>, end: string, top: bool, first: bool,
                     last: bool, g: string, h: string, s: nat, e: nat)
    requires items != [] && Sits(text, pos, stop, items, end) && ItemsOk(items)
    requires Framed(text, pos, stop, end, top, first)
    requires last == (top && items[1..] == []) && g == items[0].gap && h == NextGap(items[1..], end)
    requires s == pos + |g| && e == s + |NodeText(items[0].node)|
    ensures s < e <= |text|
    ensures Overtakes([Removal(text, s, e)],
                      [Edit(pos + CutBefore(g, h, first, last), e + CutAfter(g, h, first, last), "")],
                      Fine(g, h, first, last))
  {
    hide *;
    FramedStart(text, pos, stop, items, end, top, first);
    NodeFills(text, pos, stop, items, end, s, e);
    FirstOk(items, end);
    RestFramed(text, pos, stop, items, end, top, first);
    GapFollowed(text, e, stop, items[1..], end, top, false);
    GapSits(text, e, stop, items[1..], end);
    RemovalInGaps(text, pos, s, g, e, e + |h|, h, first, last);
    RemovalDeletes(text, s, e);
    OneOvertakes(Removal(text, s, e), pos, g, h, e, first, last);
  }

  lemma RemovalDeletes(text: string, s: nat, e: nat)
    requires s <= e <= |text|
    ensures Removal(text, s, e).with == ""
  {
    hide LineStart, LineStop, TailIsTrivial, TrimBlanks, White;
  }

  lemma OneOvertakes(r: Edit, pos: nat, g: string, h: string, e: nat, first: bool, last: bool)
    requires var cut := Edit(pos + CutBefore(g, h, first, last), e + CutAfter(g, h, first, last), "");
             && (Fine(g, h, first, last) <==> r == cut) && (Fine(g, h, first, last) <==> r.stop <= e + |h|)
             && (!Fine(g, h, first, last) ==> r.start <= pos + |g|) && r.with == ""
    ensures Overtakes([r], [Edit(pos + CutBefore(g, h, first, last), e + CutAfter(g, h, first, last), "")],
                      Fine(g, h, first, last))
  {
    assert Taken([]) == 0;
    assert Exposed(h, last) ==> !TailTrivial(h, last);
  }

  lemma {:induction false} NodeByGaps(text: string, pos: nat, s: nat, e: nat, items: seq<Item>, n: Node, g: string,
                                      h: string, levels: seq<Level>, top: bool, collapse: bool, first: bool,
                                      last: bool)
    requires levels != [] && items != [] && n == items[0].node && NodeOk(n)
    requires s <= e <= |text| && e == s + |NodeText(n)| && text[s..e] == NodeText(n)
    requires Overtakes([Removal(text, s, e)],
                       [Edit(pos + CutBefore(g, h, first, last), e + CutAfter(g, h, first, last), "")],
                       Fine(g, h, first, last))
    ensures Overtakes(NodeRemovals(text, s, n, levels, top, collapse).1,
                      NodeGapRemovals(pos, s, n, g, h, levels, top, collapse, first, last),
                      NodeSafe(n, g, h, levels, top, collapse, first, last))
    decreases items, 1
  {
    hide *;
    NodeCounts(text, s, n, levels, top, collapse);
    NodeGaps(pos, s, n, g, h, levels, top, collapse, first, last);
    NodeSafeIs(n, g, h, levels, top, collapse, first, last);
    if !Goes(n, levels, top, collapse) {
      if Enters(levels, n) {
        var d := n.body.value;
        BodySits(text, s, e, n);
        BodyOk(n);
        BodyFramed(text, s + BodyAt(n), e - 1, d);
        RemovalsByGaps(text, s + BodyAt(n), e - 1, d.items, d.end, levels[1..], false, collapse, false);
      } else {
        NothingOvertakes();
      }
    }
  }

  lemma NothingOvertakes()
    ensures Overtakes([], [], true)
  {
  }

  lemma NodeSafeIs(n: Node, g: string, h: string, levels: seq<Level>, top: bool, collapse: bool, first: bool,
                   last: bool)
    requires levels != []
    ensures var safe := NodeSafe(n, g, h, levels, top, collapse, first, last);
            && (Goes(n, levels, top, collapse) ==> (safe <==> Fine(g, h, first, last)))
            && (!Goes(n, levels, top, collapse) && !Enters(levels, n) ==> safe)
            && (!Goes(n, levels, top, collapse) && Enters(levels, n) ==>
                  |levels| > 1 && n.body.Some?
                  && (safe <==> Safe(n.body.value.items, n.body.value.end, levels[1..], false, collapse, false)))
  {
    hide Goes, Fine, Safe;
  }

  /** In a file that ends all its lines with `\n` every removal is safe. */
  lemma {:induction false} LinedIsSafe(items: seq<Item>, end: string, levels: seq<Level>, top: bool, collapse: bool,
                                       first: bool)
    requires levels != [] && ItemsLined(items) && !Exposed(end, top)
    ensures Safe(items, end, levels, top, collapse, first)
    decreases items, 1
  {
    hide Goes, Exposed;
    if items != [] {
      var g, h, n := items[0].gap, NextGap(items[1..], end), items[0].node;
      assert !Exposed(h, top && items[1..] == []) by { StillExposed(h, top && items[1..] == []); }
      LinedNodeIsSafe(n, g, h, levels, top, collapse, first, top && items[1..] == []);
      LinedIsSafe(items[1..], end, levels, top, collapse, false);
    }
  }

  lemma StillExposed(h: string, eof: bool)
    ensures Exposed(h, eof) ==> Exposed(h, false)
  {
  }

  lemma {:induction false} LinedNodeIsSafe(n: Node, g: string, h: string, levels: seq<Level>, top: bool,
                                           collapse: bool, first: bool, last: bool)
    requires levels != [] && NodeLined(n) && !Exposed(h, last)
    ensures NodeSafe(n, g, h, levels, top, collapse, first, last)
    decreases n, 0
  {
    hide Goes, Exposed, Safe;
    if Enters(levels, n) {
      LinedIsSafe(n.body.value.items, n.body.value.end, levels[1..], false, collapse, false);
    }
  }
}
