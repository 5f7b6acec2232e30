/** `upsert_block` over a run of two: when the second identical call leaves the
    file of the first alone. */
module UpsertAgain {
  import opened Options
  import opened Kdl
  import opened Splice
  import opened Prune
  import opened Remove
  import opened SetTree
  import opened SetText
  import opened Effect
  import opened BlockTree
  import opened BlockText
  import opened BlockInsert
  import opened NamedBlocks
  import opened UpsertBlock
  import opened BlockLine

  // ------------------------------------------------ one block of the name left

  /** The bytes of a block tell the indentation it was rendered for. */
  lemma IndentTold(kind: string, quoted: string, body: seq<string>, i: string, j: string)
    requires Blank(i) && Blank(j)
    ensures BlockString(kind, quoted, body, i) == BlockString(kind, quoted, body, j) <==> i == j
  {
    hide BodyText;
    var s, t := BlockString(kind, quoted, body, i), BlockString(kind, quoted, body, j);
    if s == t {
      LastLineIs(s, i);
      LastLineIs(t, j);
      SameTail(s, i, j);
    }
  }

  lemma LastLineIs(s: string, indent: string)
    requires exists x :: s == x + "\n" + indent + "}"
    ensures Ends(s, "\n" + indent + "}")
  {
    var x :| s == x + "\n" + indent + "}";
    assert s == x + ("\n" + indent + "}");
  }

  lemma SameTail(s: string, i: string, j: string)
    requires Blank(i) && Blank(j) && Ends(s, "\n" + i + "}") && Ends(s, "\n" + j + "}")
    ensures i == j
  {
    BlanksBehind(s, i);
    BlanksBehind(s, j);
    assert |s| - |i| - 2 == |s| - |j| - 2;
    assert s[|s| - |i| - 1..|s| - 1] == i && s[|s| - |j| - 1..|s| - 1] == j;
  }

  lemma BlanksBehind(s: string, i: string)
    requires Blank(i) && Ends(s, "\n" + i + "}")
    ensures |i| + 2 <= |s| && s[|s| - |i| - 2] == '\n' && s[|s| - |i| - 1..|s| - 1] == i
    ensures forall k :: |s| - |i| - 2 < k < |s| - 1 ==> s[k] != '\n'
  {
    var a, u := |s| - |i| - 2, "\n" + i + "}";
    assert s[a..] == u && s[a] == u[0];
    assert s[a + 1..|s| - 1] == u[1..|u| - 1] == i;
    forall k | a < k < |s| - 1 ensures s[k] != '\n' {
      assert s[k] == s[a + 1..|s| - 1][k - a - 1];
    }
  }

  /** As many edits as nodes. */
  lemma {:induction false} OneRemoval(text: string, pos: nat, items: seq<Item>, l: seq<Level>, top: bool)
    requires l != [] && pos + |ItemsText(items)| <= |text|
    ensures |Removals(text, pos, items, l, top, false).1| == |NodesAt(items, l)|
    decreases items, 1
  {
    hide Removals, NodeRemovals, NodeText, ItemsText, Hits, NodesAt;
    if items == [] {
      NoMore(text, pos, items, l, top, false);
      NoItems(l);
    } else {
      var n, s := items[0].node, pos + |items[0].gap|;
      OneMore(text, pos, items, l, top, false);
      FirstHits(items, l);
      OneNodeRemoval(text, s, n, l, top);
      OneRemoval(text, s + |NodeText(n)|, items[1..], l, top);
    }
  }

  lemma {:induction false} OneNodeRemoval(text: string, s: nat, n: Node, l: seq<Level>, top: bool)
    requires l != [] && s + |NodeText(n)| <= |text|
    ensures |NodeRemovals(text, s, n, l, top, false).1| == |Hits(n, l)|
    decreases n, 0
  {
    hide Removals, Removal, NodeText, ItemsText, NodesAt;
    if |l| > 1 && Enters(l, n) {
      BlockSize(n);
      OneRemoval(text, s + BodyAt(n), n.body.value.items, l[1..], false);
    }
  }

  lemma Replaced(text: string, e: Edit)
    requires e.start <= e.stop <= |text| && e.with != text[e.start..e.stop]
    ensures AllMade(text, [e]) == Some(Replace(text, e)) && Replace(text, e) != text
  {
    assert SortDescending([e]) == [e];
    assert InPlace(Replace(text, e), []) == Some(Replace(text, e));
    var r := Replace(text, e);
    assert |r| == |text| - (e.stop - e.start) + |e.with|;
    assert r[e.start..e.start + |e.with|] == e.with;
  }

  /** In a file with one block of the name the call changes nothing exactly when
      the block's bytes are those rendered for its line. */
  lemma SoleUpsert(parser: Parser, text: string, d: Doc, parent: string, kind: string, name: string, quoted: string,
                   body: seq<string>, indent: string)
    requires text == DocText(d) && DocOk(d) && Blank(indent)
    requires |NodesAt(d.items, BlockLevels(parent, kind, name))| == 1
    requires NodeText(NodesAt(d.items, BlockLevels(parent, kind, name))[0]) == BlockString(kind, quoted, body, indent)
    ensures Upserted(parser, text, d, parent, kind, name, quoted, body) == Ok(text) <==>
              Lead(TextBefore(d.items, BlockLevels(parent, kind, name))) == indent
    ensures var before := TextBefore(d.items, BlockLevels(parent, kind, name));
            var size := |BlockString(kind, quoted, body, indent)|;
            && |before| + size <= |text|
            && (Lead(before) != indent ==>
                  Upserted(parser, text, d, parent, kind, name, quoted, body)
                  == Reparse(parser, Replace(text, Edit(|before|, |before| + size,
                                                        BlockString(kind, quoted, body, Lead(before))))))
  {
    hide NodesAt, DocText, LastHitAt, LeadingIndent, BlockString, NodeText, ItemsText, DocOk, Removals, AllMade,
      Blank, TextBefore, Lead;
    var l := BlockLevels(parent, kind, name);
    WholeSits(text, d);
    LastHitSits(text, 0, |text|, d.items, d.end, l);
    LeadAt(text, d, l);
    OneRemoval(text, 0, d.items, l, true);
    BeforeSits(text, 0, |text|, d.items, d.end, l);
    var s, n := LastHitAt(0, d.items, l), LastOf(NodesAt(d.items, l));
    var lead := LeadingIndent(text, s);
    LeadBlank(TextBefore(d.items, l));
    IndentTold(kind, quoted, body, indent, lead);
    var e := Edit(s, s + |NodeText(n)|, BlockString(kind, quoted, body, lead));
    assert ButLast(FileRemovals(text, d, l, false)) == [];
    assert [e] + [] == [e];
    if lead != indent {
      Replaced(text, e);
    }
  }

  // -------------------------------------------------------------- a new block

  lemma AfterPlaceEnds(h: string, indent: string, eof: bool)
    ensures var p := AfterPlace(h, indent, eof); p.indent == indent && Ends(h[..p.cut] + p.lead, "\n" + indent)
  {
    hide TailTrivial;
    var p := AfterPlace(h, indent, eof);
    if p.lead == indent && HasLine(h) && p.cut == FirstLine(h) + 1 {
      var f := FirstLine(h);
      assert h[..f + 1] == h[..f] + "\n";
      assert h[..p.cut] + p.lead == h[..f] + ("\n" + indent);
    }
  }

  /** The new sibling stands behind a line end and its indentation. */
  lemma {:induction false} AfterGap(items: seq<Item>, end: string, b: seq<Level>, l: seq<Level>, k: nat, m: Node,
                                    indent: string, top: bool)
    requires Widens(b, l) && b != [] && l != [] && k < |NodesAt(items, b)| && NodesAt(items, l) == []
    requires Matches(Last(l), m)
    ensures var c := InsertAfter(items, end, b, k, m, indent, top).items;
            NodesAt(c, l) != [] && Ends(GapBefore(c, l), "\n" + indent)
    decreases items, 1
  {
    hide *;
    assert items != [] by { NoItems(b); }
    FirstHits(items, b);
    FirstHits(items, l);
    AfterIs(items, end, b, k, m, indent, top);
    WidensStep(b, l);
    WidensSize(b, l);
    var c, n, rest := InsertAfter(items, end, b, k, m, indent, top).items, items[0].node, items[1..];
    if k >= |Hits(n, b)| {
      FirstHits(c, l);
      AfterGap(rest, end, b, l, k - |Hits(n, b)|, m, indent, top);
      assert c[1..] == InsertAfter(rest, end, b, k - |Hits(n, b)|, m, indent, top).items;
      GapBeforeIs(c, l);
    } else if |b| == 1 {
      OwnAfterGap(items, end, l, m, indent, top);
    } else {
      assert c[1..] == rest && c[0].node == NodeAfter(n, b, k, m, indent);
      FirstHits(c, l);
      AfterGapIn(n, b, l, k, m, indent);
      GapBeforeIs(c, l);
    }
  }

  lemma WidensSize(b: seq<Level>, l: seq<Level>)
    requires Widens(b, l)
    ensures |b| == |l|
  {
  }

  lemma OwnAfterGap(items: seq<Item>, end: string, l: seq<Level>, m: Node, indent: string, top: bool)
    requires |l| == 1 && items != [] && NodesAt(items, l) == [] && Matches(l[0], m)
    ensures var c := OwnAfter(items, end, m, indent, top).items;
            NodesAt(c, l) != [] && Ends(GapBefore(c, l), "\n" + indent)
  {
    hide NodesAt, Hits, AfterPlace, Regap, NextGap, GapBefore, Ends;
    var h, rest := NextGap(items[1..], end), items[1..];
    var p := AfterPlace(h, indent, top && rest == []);
    var d := Regap(p.tail + h[p.cut..], rest, end);
    var i := Item(h[..p.cut] + p.lead, m);
    var c := [items[0], i] + d.items;
    assert OwnAfter(items, end, m, indent, top).items == c && |c| == 2 + |d.items|;
    AfterPlaceEnds(h, indent, top && rest == []);
    RegapList(p.tail + h[p.cut..], rest, end, l);
    FirstHits(items, l);
    FirstHits(c, l);
    FirstHits(c[1..], l);
    OwnHits(m, l);
    assert c[1..][1..] == d.items && c[1..][0] == i;
    GapBeforeIs(c[1..], l);
    GapBeforeIs(c, l);
  }

  lemma {:induction false} AfterGapIn(n: Node, b: seq<Level>, l: seq<Level>, k: nat, m: Node, indent: string)
    requires |b| > 1 && Widens(b, l) && |l| > 1 && k < |Hits(n, b)| && Hits(n, l) == [] && Matches(Last(l), m)
    ensures var y := NodeAfter(n, b, k, m, indent);
            Hits(y, l) != [] && Ends(GapBeforeIn(y, l), "\n" + indent)
    decreases n, 0
  {
    hide NodesAt, InsertAfter, GapBefore, Ends, Widens;
    WidensStep(b, l);
    var d := n.body.value;
    AfterGap(d.items, d.end, b[1..], l[1..], k, m, indent, false);
  }

  lemma ChildPlaceEnds(text: string, end: string, at: nat)
    requires at <= |text|
    ensures var p := ChildPlace(text, end, at); Ends(end[..p.cut] + p.lead, "\n" + p.indent) && Blank(p.indent)
  {
    hide LeadingIndent, AllWhite, Blank, Blanks;
    var p := ChildPlace(text, end, at);
    InnerBlank(text, at);
    if HasLine(end) && p.cut == LastLine(end) + 1 && p.lead == p.indent {
      var f := LastLine(end);
      assert end[..f + 1] == end[..f] + "\n";
      assert end[..p.cut] + p.lead == end[..f] + ("\n" + p.indent);
    }
  }

  lemma InnerBlank(text: string, at: nat)
    requires at <= |text|
    ensures Blank(LeadingIndent(text, at)) && Blank(Inner(LeadingIndent(text, at)))
  {
    hide Blanks;
    BlanksBlank(text[LineStart(text, at)..at]);
  }

  lemma ChildPlaceOfEnds(text: string, s: nat, n: Node)
    requires n.body.Some? && s + |NodeText(n)| <= |text|
    ensures var p := ChildPlaceOf(text, s, n);
            Ends(n.body.value.end[..p.cut] + p.lead, "\n" + p.indent) && Blank(p.indent)
  {
    hide ChildPlace, AfterPlace, LeadingIndent, ItemAt, NodeText, ItemsText, Blank, Ends, BodyAt;
    var d := n.body.value;
    BlockSize(n);
    if d.items == [] {
      ChildPlaceEnds(text, d.end, s);
    } else {
      LastWithin(s + BodyAt(n), d.items);
      var at := ItemAt(s + BodyAt(n), d.items, |d.items| - 1);
      InnerBlank(text, at);
      AfterPlaceEnds(d.end, LeadingIndent(text, at), false);
    }
  }

  /** The last of a list. */
  lemma {:induction false} LastGap(items: seq<Item>, i: Item, l: seq<Level>)
    requires |l| == 1 && Matches(l[0], i.node)
    ensures NodesAt(items + [i], l) != [] && GapBefore(items + [i], l) == i.gap
    decreases items
  {
    hide NodesAt, Hits, GapBefore;
    var c := items + [i];
    FirstHits(c, l);
    if items == [] {
      assert c == [i] && c[1..] == [];
      OwnHits(i.node, l);
      NoItems(l);
    } else {
      LastGap(items[1..], i, l);
      assert c[1..] == items[1..] + [i];
    }
    GapBeforeIs(c, l);
  }

  /** Inside one of the items, with none behind it. */
  lemma {:induction false} InsideGap(items: seq<Item>, k: nat, l: seq<Level>)
    requires |l| > 1 && k < |items| && Hits(items[k].node, l) != [] && NodesAt(items[k + 1..], l) == []
    ensures NodesAt(items, l) != [] && GapBefore(items, l) == GapBeforeIn(items[k].node, l)
    decreases k
  {
    hide NodesAt, Hits, GapBefore, GapBeforeIn;
    FirstHits(items, l);
    if k == 0 {
      GapBeforeIs(items, l);
    } else {
      assert items[1..][k - 1] == items[k] && items[1..][k..] == items[k + 1..];
      InsideGap(items[1..], k - 1, l);
      GapBeforeIs(items, l);
    }
  }

  /** The indentation a new block is rendered for. */
  function AddedIndent(text: string, d: Doc, parent: string, kind: string): string
    requires text == DocText(d)
  {
    var b := KindLevels(parent, kind);
    var all := NodesAt(d.items, b);
    if all != [] then
      HitWithin(text, d, b, |all| - 1);
      LeadingIndent(text, HitAt(0, d.items, b, |all| - 1))
    else
      match LastSection(d.items, parent)
      case Some(k) =>
        SectionWithin(text, d, k);
        ChildPlaceOf(text, ItemAt(0, d.items, k), d.items[k].node).indent
      case None => UNIT
  }

  /** A new block stands behind a line end and the indentation it was rendered
      for. */
  lemma AddedGap(text: string, d: Doc, parent: string, kind: string, name: string, quoted: string, lines: seq<Node>)
    requires text == DocText(d) && NodesAt(d.items, BlockLevels(parent, kind, name)) == []
    ensures var l, c := BlockLevels(parent, kind, name), Added(text, d, parent, kind, name, quoted, lines).items;
            var indent := AddedIndent(text, d, parent, kind);
            && Blank(indent) && NodesAt(c, l) == [UpsertBlock.Block(kind, quoted, name, lines, indent)]
            && Ends(GapBefore(c, l), "\n" + indent)
  {
    hide NodesAt, Added, AddedIndent, Ends, GapBefore, Blank, Hits, DocText, HitAt, InsertAfter, LastSection,
      ChildPlaceOf, ItemAt, NodeText, ItemsText, Widens, Wanted, LeadingIndent, Matches, Title, WithLast, NewSection,
      LineItems;
    var b, l := KindLevels(parent, kind), BlockLevels(parent, kind, name);
    var all := NodesAt(d.items, b);
    var indent := AddedIndent(text, d, parent, kind);
    var m := UpsertBlock.Block(kind, quoted, name, lines, indent);
    var after := Added(text, d, parent, kind, name, quoted, lines);
    KindWidens(parent, kind, name);
    BlockTitle(kind, quoted, name, lines, indent);
    AddedCases(text, d, parent, kind, name, quoted, lines);
    WantedNodes(d.items, l, b);
    WantedNodes(after.items, l, b);
    if all != [] {
      HitWithin(text, d, b, |all| - 1);
      InnerBlank(text, HitAt(0, d.items, b, |all| - 1));
      AfterGap(d.items, d.end, b, l, |all| - 1, m, indent, true);
      AfterList(d.items, d.end, b, |all| - 1, m, indent, true);
      assert all[..|all| - 1 + 1] == all && all[|all| - 1 + 1..] == [];
      assert all + [m] + [] == all + [m];
    } else if LastSection(d.items, parent).Some? {
      var k := LastSection(d.items, parent).value;
      SectionGap(text, d, parent, kind, name, m, k);
    } else {
      UnitBlank();
      NewSectionGap(text, d, parent, kind, name, m);
    }
    WantedAppend(all, [m], Last(l));
    OneWanted(m, Last(l));
  }

  lemma UnitBlank()
    ensures Blank(UNIT)
  {
  }

  lemma BlockTitle(kind: string, quoted: string, name: string, lines: seq<Node>, indent: string)
    ensures Matches(Level({kind}, Some(name)), UpsertBlock.Block(kind, quoted, name, lines, indent))
    ensures Matches(Level({kind}, None), UpsertBlock.Block(kind, quoted, name, lines, indent))
  {
  }

  lemma AddedCases(text: string, d: Doc, parent: string, kind: string, name: string, quoted: string, lines: seq<Node>)
    requires text == DocText(d)
    ensures var b := KindLevels(parent, kind);
            var all, indent := NodesAt(d.items, b), AddedIndent(text, d, parent, kind);
            var m := UpsertBlock.Block(kind, quoted, name, lines, indent);
            var after := Added(text, d, parent, kind, name, quoted, lines);
            && (all != [] ==>
                  && HitAt(0, d.items, b, |all| - 1) <= |text|
                  && indent == LeadingIndent(text, HitAt(0, d.items, b, |all| - 1))
                  && after == InsertAfter(d.items, d.end, b, |all| - 1, m, indent, true))
            && (all == [] && LastSection(d.items, parent).Some? ==>
                  var k := LastSection(d.items, parent).value;
                  var n := d.items[k].node;
                  && ItemAt(0, d.items, k) + |NodeText(n)| <= |text|
                  && var p := ChildPlaceOf(text, ItemAt(0, d.items, k), n);
                  && indent == p.indent
                  && after.items == d.items[k := Item(d.items[k].gap, n.(body := Some(WithLast(n.body.value, p, m))))])
            && (all == [] && LastSection(d.items, parent) == None ==>
                  indent == UNIT && after == NewSection(text, d, parent, m))
  {
    hide NodesAt, DocText, HitAt, InsertAfter, LeadingIndent, ChildPlaceOf, UpsertBlock.Block, ItemAt, NodeText,
      NewSection, LastSection, WithLast;
    if NodesAt(d.items, KindLevels(parent, kind)) != [] {
      HitWithin(text, d, KindLevels(parent, kind), |NodesAt(d.items, KindLevels(parent, kind))| - 1);
    } else if LastSection(d.items, parent).Some? {
      SectionWithin(text, d, LastSection(d.items, parent).value);
    }
  }

  lemma SectionGap(text: string, d: Doc, parent: string, kind: string, name: string, m: Node, k: nat)
    requires text == DocText(d) && NodesAt(d.items, KindLevels(parent, kind)) == []
    requires LastSection(d.items, parent) == Some(k) && ItemAt(0, d.items, k) + |NodeText(d.items[k].node)| <= |text|
    requires Matches(Level({kind}, Some(name)), m) && Matches(Level({kind}, None), m)
    ensures var p, n := ChildPlaceOf(text, ItemAt(0, d.items, k), d.items[k].node), d.items[k].node;
            var c := d.items[k := Item(d.items[k].gap, n.(body := Some(WithLast(n.body.value, p, m))))];
            var l := BlockLevels(parent, kind, name);
            && Blank(p.indent) && NodesAt(c, KindLevels(parent, kind)) == [m]
            && NodesAt(c, l) != [] && Ends(GapBefore(c, l), "\n" + p.indent)
  {
    hide NodesAt, Hits, ChildPlaceOf, NodeText, DocText, GapBefore, Ends, Blank, Matches, ItemAt, LastSection;
    var b, l := KindLevels(parent, kind), BlockLevels(parent, kind, name);
    var n, p := d.items[k].node, ChildPlaceOf(text, ItemAt(0, d.items, k), d.items[k].node);
    var x := n.(body := Some(WithLast(n.body.value, p, m)));
    var c := d.items[k := Item(d.items[k].gap, x)];
    ChildPlaceOfEnds(text, ItemAt(0, d.items, k), n);
    NodesAtSplit(d.items, k, b);
    NodesAtUpdate(d.items, k, x, b);
    SectionHits(n, parent, kind, p, m);
    NamedHits(x, n.body.value, p, m, parent, kind, name);
    assert c[k + 1..] == d.items[k + 1..];
    WidensNone(d.items[k + 1..], parent, kind, name);
    InsideGap(c, k, l);
    assert [] + [m] + [] == [m];
  }

  lemma WidensNone(items: seq<Item>, parent: string, kind: string, name: string)
    requires NodesAt(items, KindLevels(parent, kind)) == []
    ensures NodesAt(items, BlockLevels(parent, kind, name)) == []
  {
    hide NodesAt;
    KindWidens(parent, kind, name);
    WantedNodes(items, BlockLevels(parent, kind, name), KindLevels(parent, kind));
  }

  lemma NamedHits(x: Node, d: Doc, p: Place, m: Node, parent: string, kind: string, name: string)
    requires p.cut <= |d.end| && x.name == parent && x.body == Some(WithLast(d, p, m))
    requires Matches(Level({kind}, Some(name)), m)
    ensures var l := BlockLevels(parent, kind, name);
            Hits(x, l) != [] && GapBeforeIn(x, l) == d.end[..p.cut] + p.lead
  {
    hide NodesAt, GapBefore;
    var l := BlockLevels(parent, kind, name);
    assert l[1..] == [Level({kind}, Some(name))];
    LastGap(d.items, Item(d.end[..p.cut] + p.lead, m), l[1..]);
  }

  lemma NewSectionGap(text: string, d: Doc, parent: string, kind: string, name: string, m: Node)
    requires NodesAt(d.items, KindLevels(parent, kind)) == []
    requires Matches(Level({kind}, Some(name)), m) && Matches(Level({kind}, None), m) && m.name == kind
    ensures var c, l := NewSection(text, d, parent, m).items, BlockLevels(parent, kind, name);
            && NodesAt(c, KindLevels(parent, kind)) == [m]
            && NodesAt(c, l) != [] && Ends(GapBefore(c, l), "\n" + UNIT)
  {
    hide NodesAt, Hits, GapBefore, Matches, Newline;
    var b, l := KindLevels(parent, kind), BlockLevels(parent, kind, name);
    var c := NewSection(text, d, parent, m).items;
    var i := c[|d.items|];
    NodesAtAppend(d.items, [i], b);
    OneNode(i, b);
    NewSectionHits(parent, kind, m, i.node);
    SectionGapIs(i.node, m, parent, kind, name);
    assert c[|d.items| + 1..] == [];
    NoItems(l);
    InsideGap(c, |d.items|, l);
    assert [] + [m] == [m];
    assert ("\n" + UNIT)[0..] == "\n" + UNIT;
  }

  lemma SectionGapIs(x: Node, m: Node, parent: string, kind: string, name: string)
    requires x.name == parent && x.body == Some(Doc([Item("\n" + UNIT, m)], "\n"))
    requires Matches(Level({kind}, Some(name)), m)
    ensures var l := BlockLevels(parent, kind, name); Hits(x, l) != [] && GapBeforeIn(x, l) == "\n" + UNIT
  {
    hide NodesAt, GapBefore;
    var l := BlockLevels(parent, kind, name);
    assert l[1..] == [Level({kind}, Some(name))];
    assert [] + [Item("\n" + UNIT, m)] == [Item("\n" + UNIT, m)];
    LastGap([], Item("\n" + UNIT, m), l[1..]);
  }

  // ------------------------------------------------------------ written anew

  /** What comes before the block written anew is what the cut leaves before the
      last one. */
  lemma WrittenBefore(d: Doc, parent: string, kind: string, name: string, m: Node)
    requires NodesAt(d.items, BlockLevels(parent, kind, name)) != []
    requires m.name == kind && m.entries != [] && m.entries[0].key == None && m.entries[0].str == Some(name)
    ensures var l, c := BlockLevels(parent, kind, name), Written(d, parent, kind, name, m).items;
            NodesAt(c, l) == [m] && TextBefore(c, l) == TextLeftDoc(d, l)
  {
    hide NodesAt, Cut, SetLast, TextBefore, TextLeft, Widens, Wanted, Longer, Apart;
    var b, l := KindLevels(parent, kind), BlockLevels(parent, kind, name);
    var all := NodesAt(d.items, b);
    var mark := Longer(all, name);
    var k, x := BlockLevels(parent, kind, mark), Marked(m, mark);
    KindWidens(parent, kind, name);
    KindWidens(parent, kind, mark);
    WantedNodes(d.items, k, b);
    NotMarked(all, kind, mark);
    assert Title(x.entries) == Some(mark);
    NamesApart(parent, kind, name, mark);
    CutLeft(d.items, d.end, l, b, k, x, true, true, "", 0);
    var left := Renamed(d, parent, kind, name, x);
    NoneLeft(SetLast(d.items, l, x), d.end, l, true, false, true, "", 0);
    SetLastBefore(left.items, k, b, l, m);
    WrittenSettles(d, parent, kind, name, m);
  }

  lemma NamesApart(parent: string, kind: string, name: string, mark: string)
    requires name != mark
    ensures Apart(BlockLevels(parent, kind, name), BlockLevels(parent, kind, mark))
  {
    var l, k := BlockLevels(parent, kind, name), BlockLevels(parent, kind, mark);
    assert l[1..] == [Level({kind}, Some(name))] && k[1..] == [Level({kind}, Some(mark))];
    assert Excludes(l[1..][0], k[1..][0]);
    assert Apart(l[1..], k[1..]);
  }

  // ----------------------------------------------------------- the operation

  /** The tree a call leaves. */
  function UpsertedTree(text: string, d: Doc, parent: string, kind: string, name: string, quoted: string,
                        lines: seq<Node>): Doc
    requires text == DocText(d) && DocOk(d)
  {
    var l := BlockLevels(parent, kind, name);
    var found := NodesAt(d.items, l);
    if found == [] then Added(text, d, parent, kind, name, quoted, lines)
    else
      WholeSits(text, d);
      LastHitSits(text, 0, |text|, d.items, d.end, l);
      var m := UpsertBlock.Block(kind, quoted, name, lines, LeadingIndent(text, LastHitAt(0, d.items, l)));
      if |found| == 1 && NodeText(found[0]) == NodeText(m) then d else Written(d, parent, kind, name, m)
  }

  /** The line of the last block starts with the blanks it will start with when
      the earlier ones of the name are gone. */
  predicate Steady(d: Doc, parent: string, kind: string, name: string) {
    var l := BlockLevels(parent, kind, name);
    |NodesAt(d.items, l)| > 1 ==> Lead(TextLeftDoc(d, l)) == Lead(TextBefore(d.items, l))
  }

  /** So it does when it stands on a line of its own. */
  lemma OwnLineIsSteady(d: Doc, parent: string, kind: string, name: string)
    requires var l := BlockLevels(parent, kind, name);
             NodesAt(d.items, l) != [] ==> HasLine(GapBefore(d.items, l))
    ensures Steady(d, parent, kind, name)
  {
    hide NodesAt, TextLeft, TextBefore, GapBefore, Lead;
    if NodesAt(d.items, BlockLevels(parent, kind, name)) != [] {
      OwnLineSteady(d, BlockLevels(parent, kind, name));
    }
  }

  /** With no earlier block of the name nothing before the last one changes. */
  lemma {:induction false} SoleLeft(items: seq<Item>, end: string, l: seq<Level>, top: bool, first: bool)
    requires l != [] && |NodesAt(items, l)| == 1
    ensures TextLeft(items, end, l, top, first, "", 0) == TextBefore(items, l)
    decreases items, 1
  {
    hide *;
    TextLeftIs(items, end, l, top, first, "", 0);
    TextBeforeIs(items, l);
    FirstHits(items, l);
    var n, g, rest := items[0].node, items[0].gap, items[1..];
    assert "" + g[0..] == g;
    if NodesAt(rest, l) != [] {
      assert Hits(n, l) == [];
      SoleLeft(rest, end, l, top, false);
      UntouchedNode(n, l, top);
    } else {
      SoleLeftIn(n, l);
    }
  }

  lemma UntouchedNode(n: Node, l: seq<Level>, top: bool)
    requires l != [] && Hits(n, l) == []
    ensures !Goes(n, l, top, false) && Stays(n, l, false) == n
  {
    hide NodesAt, Cut, Gone;
    if Enters(l, n) {
      AbsentKeeps(n.body.value.items, n.body.value.end, l[1..], false, false, false);
    }
  }

  lemma {:induction false} SoleLeftIn(n: Node, l: seq<Level>)
    requires l != [] && |Hits(n, l)| == 1
    ensures TextLeftIn(n, l) == TextBeforeIn(n, l)
    decreases n, 0
  {
    hide NodesAt, TextLeft, TextBefore, Head;
    if |l| > 1 {
      SoleLeft(n.body.value.items, n.body.value.end, l[1..], false, false);
    }
  }

  /** The second call on the tree the first leaves: it changes nothing exactly
      when the last block's line starts as before. */
  lemma AgainExactly(parser: Parser, text: string, d: Doc, parent: string, kind: string, name: string, quoted: string,
                     lines: seq<Node>, body: seq<string>, out: string)
    requires text == DocText(d) && DocOk(d) && Texts(lines, body)
    requires var c := UpsertedTree(text, d, parent, kind, name, quoted, lines); out == DocText(c) && DocOk(c)
    ensures var c := UpsertedTree(text, d, parent, kind, name, quoted, lines);
            Upserted(parser, out, c, parent, kind, name, quoted, body) == Ok(out) <==> Steady(d, parent, kind, name)
  {
    hide NodesAt, DocText, LastHitAt, LeadingIndent, UpsertBlock.Block, BlockString, NodeText, ItemsText, Added,
      DocOk, Written, Upserted, TextBefore, TextLeft, Lead, Blank;
    var l, c := BlockLevels(parent, kind, name), UpsertedTree(text, d, parent, kind, name, quoted, lines);
    var found := NodesAt(d.items, l);
    if found == [] {
      var indent := AddedIndent(text, d, parent, kind);
      AddedGap(text, d, parent, kind, name, quoted, lines);
      GapTells(c.items, l, indent);
      RenderedText(kind, quoted, name, lines, body, indent);
      SoleUpsert(parser, out, c, parent, kind, name, quoted, body, indent);
    } else {
      LeadAt(text, d, l);
      var indent := Lead(TextBefore(d.items, l));
      LeadBlank(TextBefore(d.items, l));
      RenderedText(kind, quoted, name, lines, body, indent);
      var m := UpsertBlock.Block(kind, quoted, name, lines, indent);
      BlockEntries(kind, quoted, name, lines, indent);
      if |found| == 1 && NodeText(found[0]) == NodeText(m) {
        SoleUpsert(parser, out, c, parent, kind, name, quoted, body, indent);
      } else {
        WrittenBefore(d, parent, kind, name, m);
        SoleUpsert(parser, out, c, parent, kind, name, quoted, body, indent);
        if |found| == 1 {
          SoleLeft(d.items, d.end, l, true, true);
        }
      }
    }
  }

  /** From then on nothing changes: the tree a call leaves has one block of the
      name, so a call on it is always steady. */
  lemma SettlesDown(text: string, d: Doc, parent: string, kind: string, name: string, quoted: string,
                    lines: seq<Node>)
    requires text == DocText(d) && DocOk(d)
    ensures var c := UpsertedTree(text, d, parent, kind, name, quoted, lines);
            |NodesAt(c.items, BlockLevels(parent, kind, name))| == 1 && Steady(c, parent, kind, name)
  {
    hide NodesAt, DocText, LastHitAt, LeadingIndent, UpsertBlock.Block, NodeText, ItemsText, Added, DocOk, Written,
      TextBefore, TextLeft, Lead;
    var l := BlockLevels(parent, kind, name);
    if NodesAt(d.items, l) == [] {
      AddedGap(text, d, parent, kind, name, quoted, lines);
    } else {
      WholeSits(text, d);
      LastHitSits(text, 0, |text|, d.items, d.end, l);
      var indent := LeadingIndent(text, LastHitAt(0, d.items, l));
      BlockEntries(kind, quoted, name, lines, indent);
      WrittenBefore(d, parent, kind, name, UpsertBlock.Block(kind, quoted, name, lines, indent));
    }
  }

  lemma BlockEntries(kind: string, quoted: string, name: string, lines: seq<Node>, indent: string)
    ensures var m := UpsertBlock.Block(kind, quoted, name, lines, indent);
            m.name == kind && m.entries != [] && m.entries[0].key == None && m.entries[0].str == Some(name)
  {
  }

  /** What a call leaves is parsed again by the next. */
  ghost predicate ReadsUpserted(parser: Parser, text: string, parent: string, kind: string, name: string,
                                quoted: string, body: seq<string>)
    requires Reads(parser, text)
  {
    match parser(text)
    case None => true
    case Some(d) =>
      match Upserted(parser, text, d, parent, kind, name, quoted, body)
      case Err(_) => true
      case Ok(out) => Reads(parser, out)
  }

  /** `upsert_block` twice: where the parser reads what the first call wrote for
      the tree it was written from, the second returns the same bytes if and only
      if the last block's line keeps the blanks it starts with. */
  method UpsertTwice(parser: Parser, text: string, parent: string, kind: string, name: string, quoted: string,
                     body: seq<string>)
    returns (r: Result<string, EditError>, again: Result<string, EditError>)
    requires Reads(parser, text) && ReadsUpserted(parser, text, parent, kind, name, quoted, body)
    ensures r.Err? ==> again == r
    ensures r.Ok? ==> parser(text).Some?
    ensures r.Ok? ==>
              var d := parser(text).value;
              forall lines ::
                Texts(lines, body)
                && parser(r.value) == Some(UpsertedTree(text, d, parent, kind, name, quoted, lines)) ==>
                  (again == r <==> Steady(d, parent, kind, name))
  {
    hide UpsertedTree, Steady, Texts, Upserted, DocText, DocOk;
    r := UpsertBlock.UpsertBlock(parser, text, parent, kind, name, quoted, body);
    match r {
      case Err(_) => again := UpsertBlock.UpsertBlock(parser, text, parent, kind, name, quoted, body);
      case Ok(out) =>
        ReadsIt(parser, text);
        again := UpsertBlock.UpsertBlock(parser, out, parent, kind, name, quoted, body);
        ghost var d := parser(text).value;
        forall lines | Texts(lines, body)
                       && parser(out) == Some(UpsertedTree(text, d, parent, kind, name, quoted, lines))
          ensures again == r <==> Steady(d, parent, kind, name)
        {
          ReadsIt(parser, out);
          AgainExactly(parser, text, d, parent, kind, name, quoted, lines, body, out);
        }
    }
  }
}
