/** The blanks a block's line starts with: what comes before the block, in the
    tree as it is and with the earlier blocks of the name gone. */
module BlockLine {
  import opened Kdl
  import opened Prune
  import opened Remove
  import opened SetTree
  import opened BlockTree
  import opened BlockText

  // ------------------------------------------------------------- indentation

  predicate Blank(s: string) {
    forall i :: 0 <= i < |s| ==> s[i] == ' ' || s[i] == '\t'
  }

  lemma {:induction false} BlankBlanks(s: string)
    requires Blank(s)
    ensures Blanks(s) == s
    decreases |s|
  {
    if s != "" {
      BlankBlanks(s[1..]);
    }
  }

  lemma {:induction false} BlanksBlank(s: string)
    ensures Blank(Blanks(s))
    decreases |s|
  {
    if s != "" && (s[0] == ' ' || s[0] == '\t') {
      BlanksBlank(s[1..]);
      assert Blanks(s) == [s[0]] + Blanks(s[1..]);
    }
  }

  /** The blanks the last line starts with. */
  function Lead(before: string): string {
    LeadingIndent(before, |before|)
  }

  lemma LeadBlank(before: string)
    ensures Blank(Lead(before))
  {
    hide Blanks, Blank;
    BlanksBlank(before[LineStart(before, |before|)..|before|]);
  }

  /** The indentation at a place is told by what comes before it. */
  lemma LeadOf(text: string, at: nat)
    requires at <= |text|
    ensures LeadingIndent(text, at) == Lead(text[..at])
  {
    hide Blanks;
    SameLine(text, at, at);
    var ls := LineStart(text, at);
    assert text[..at][ls..at] == text[ls..at];
  }

  lemma {:induction false} SameLine(text: string, at: nat, stop: nat)
    requires at <= stop <= |text|
    ensures LineStart(text[..stop], at) == LineStart(text, at)
    decreases at
  {
    if at > 0 && text[at - 1] != '\n' {
      SameLine(text, at - 1, stop);
    }
  }

  /** A line of blanks. */
  lemma LeadEnds(x: string, indent: string)
    requires Blank(indent)
    ensures Lead(x + "\n" + indent) == indent
  {
    hide Blanks;
    var s := x + "\n" + indent;
    var ls := |x| + 1;
    assert s[ls - 1] == '\n';
    forall i | ls <= i < |s| ensures s[i] != '\n' {
      assert s[i] == indent[i - ls];
    }
    LineStartIs(s, |s|, ls);
    assert s[ls..|s|] == indent;
    BlankBlanks(indent);
  }

  // --------------------------------------------------------- before the last

  /** What comes before the last node the levels lead to. */
  function TextBefore(items: seq<Item>, l: seq<Level>): string
    requires l != [] && NodesAt(items, l) != []
    decreases items, 1
  {
    var n := items[0].node;
    if NodesAt(items[1..], l) != [] then items[0].gap + (NodeText(n) + TextBefore(items[1..], l))
    else items[0].gap + TextBeforeIn(n, l)
  }

  function TextBeforeIn(n: Node, l: seq<Level>): string
    requires l != [] && Hits(n, l) != []
    decreases n, 0
  {
    if |l| == 1 then "" else Head(n) + TextBefore(n.body.value.items, l[1..])
  }

  lemma TextBeforeIs(items: seq<Item>, l: seq<Level>)
    requires l != [] && NodesAt(items, l) != []
    ensures items != [] && (NodesAt(items[1..], l) == [] ==> Hits(items[0].node, l) != [])
    ensures TextBefore(items, l) == items[0].gap + if NodesAt(items[1..], l) != []
                                                   then NodeText(items[0].node) + TextBefore(items[1..], l)
                                                   else TextBeforeIn(items[0].node, l)
  {
    hide NodesAt, NodeText, TextBeforeIn, Hits;
    assert items != [] by { NoItems(l); }
    FirstHits(items, l);
  }

  /** It is the text up to where that node starts. */
  lemma {:induction false} BeforeSits(text: string, pos: nat, stop: nat, items: seq<Item>, end: string, l: seq<Level>)
    requires l != [] && NodesAt(items, l) != [] && Sits(text, pos, stop, items, end)
    ensures var at := LastHitAt(pos, items, l); pos <= at <= stop <= |text| && text[pos..at] == TextBefore(items, l)
    decreases items, 1
  {
    hide *;
    TextBeforeIs(items, l);
    LastHitIs(pos, items, l);
    FirstSits(text, pos, stop, items, end);
    SitsWithin(text, pos, stop, items, end);
    var n, s := items[0].node, pos + |items[0].gap|;
    var t := s + |NodeText(n)|;
    var at := LastHitAt(pos, items, l);
    if NodesAt(items[1..], l) != [] {
      BeforeSits(text, t, stop, items[1..], end, l);
      assert text[pos..at] == text[pos..s] + (text[s..t] + text[t..at]);
    } else {
      BeforeSitsIn(text, s, t, n, l);
      assert text[pos..at] == text[pos..s] + text[s..at];
    }
  }

  lemma {:induction false} BeforeSitsIn(text: string, s: nat, t: nat, n: Node, l: seq<Level>)
    requires l != [] && Hits(n, l) != [] && s <= t <= |text| && t == s + |NodeText(n)| && text[s..t] == NodeText(n)
    ensures var at := NodeHitAt(s, n, l); s <= at <= t && text[s..at] == TextBeforeIn(n, l)
    decreases n, 0
  {
    hide NodeText, ItemsText, NodesAt, LastHitAt, TextBefore, Sits, Head, BodyAt;
    if |l| > 1 {
      BodySits(text, s, t, n);
      BeforeSits(text, s + BodyAt(n), t - 1, n.body.value.items, n.body.value.end, l[1..]);
      var b, at := s + BodyAt(n), NodeHitAt(s, n, l);
      assert text[s..at] == text[s..b] + text[b..at];
    }
  }

  lemma LeadAt(text: string, d: Doc, l: seq<Level>)
    requires l != [] && text == DocText(d) && NodesAt(d.items, l) != []
    ensures LastHitAt(0, d.items, l) <= |text|
    ensures LeadingIndent(text, LastHitAt(0, d.items, l)) == Lead(TextBefore(d.items, l))
  {
    hide NodesAt, LastHitAt, TextBefore, Lead, LeadingIndent, ItemsText;
    assert text[0..|text|] == text;
    BeforeSits(text, 0, |text|, d.items, d.end, l);
    var at := LastHitAt(0, d.items, l);
    LeadOf(text, at);
    assert text[0..at] == text[..at];
  }

  // ------------------------------------------------------ the gap before it

  function GapBefore(items: seq<Item>, l: seq<Level>): string
    requires l != [] && NodesAt(items, l) != []
    decreases items, 1
  {
    if NodesAt(items[1..], l) != [] then GapBefore(items[1..], l)
    else if |l| == 1 then items[0].gap
    else GapBeforeIn(items[0].node, l)
  }

  function GapBeforeIn(n: Node, l: seq<Level>): string
    requires |l| > 1 && Hits(n, l) != []
    decreases n, 0
  {
    GapBefore(n.body.value.items, l[1..])
  }

  ghost predicate Ends(s: string, tail: string) {
    |tail| <= |s| && s[|s| - |tail|..] == tail
  }

  lemma EndsAppend(x: string, s: string, tail: string)
    requires Ends(s, tail)
    ensures Ends(x + s, tail)
  {
  }

  lemma EndsThen(s: string, tail: string, last: string)
    requires Ends(s, tail) && Ends(tail, last)
    ensures Ends(s, last)
  {
    assert s[|s| - |last|..] == s[|s| - |tail|..][|tail| - |last|..];
  }

  lemma {:induction false} GapIsBefore(items: seq<Item>, l: seq<Level>)
    requires l != [] && NodesAt(items, l) != []
    ensures Ends(TextBefore(items, l), GapBefore(items, l))
    decreases items, 1
  {
    hide NodesAt, NodeText, Ends, Head;
    TextBeforeIs(items, l);
    var n, g := items[0].node, items[0].gap;
    if NodesAt(items[1..], l) != [] {
      GapIsBefore(items[1..], l);
      EndsAppend(NodeText(n), TextBefore(items[1..], l), GapBefore(items[1..], l));
      EndsAppend(g, NodeText(n) + TextBefore(items[1..], l), GapBefore(items[1..], l));
    } else if |l| == 1 {
      EndsItself(g);
    } else {
      GapIsBeforeIn(n, l);
      EndsAppend(g, TextBeforeIn(n, l), GapBeforeIn(n, l));
    }
  }

  lemma EndsItself(g: string)
    ensures Ends(g + "", g)
  {
    assert g + "" == g;
  }

  lemma {:induction false} GapIsBeforeIn(n: Node, l: seq<Level>)
    requires |l| > 1 && Hits(n, l) != []
    ensures Ends(TextBeforeIn(n, l), GapBeforeIn(n, l))
    decreases n, 0
  {
    hide NodesAt, TextBefore, GapBefore, Ends, Head;
    GapIsBefore(n.body.value.items, l[1..]);
    EndsAppend(Head(n), TextBefore(n.body.value.items, l[1..]), GapBefore(n.body.value.items, l[1..]));
  }

  /** A gap that ends with a line of blanks tells the indentation. */
  lemma GapTells(items: seq<Item>, l: seq<Level>, indent: string)
    requires l != [] && NodesAt(items, l) != [] && Blank(indent) && Ends(GapBefore(items, l), "\n" + indent)
    ensures Lead(TextBefore(items, l)) == indent
  {
    hide NodesAt, TextBefore, GapBefore, Lead, Blank;
    GapIsBefore(items, l);
    var s := TextBefore(items, l);
    EndsThen(s, GapBefore(items, l), "\n" + indent);
    var x := s[..|s| - |indent| - 1];
    assert s == x + ("\n" + indent);
    assert x + ("\n" + indent) == x + "\n" + indent;
    LeadEnds(x, indent);
  }

  // ------------------------------------------------- another node in its place

  /** The text before does not say what the node is. */
  lemma {:induction false} SetLastBefore(items: seq<Item>, l: seq<Level>, b: seq<Level>, k: seq<Level>, m: Node)
    requires Widens(b, l) && Widens(b, k) && l != [] && k != []
    requires NodesAt(items, l) != [] && NodesAt(items, k) == [] && Matches(Last(k), m)
    ensures NodesAt(SetLast(items, l, m), k) != []
    ensures TextBefore(SetLast(items, l, m), k) == TextBefore(items, l)
    decreases items, 1
  {
    hide *;
    TextBeforeIs(items, l);
    SetLastIs(items, l, m);
    FirstHits(items, k);
    var c, rest := SetLast(items, l, m), items[1..];
    FirstHits(c, k);
    SetLastGap(items, "", l, m);
    if NodesAt(rest, l) != [] {
      SetLastBefore(rest, l, b, k, m);
      assert NodesAt(c, k) != [];
      TextBeforeIs(c, k);
    } else {
      SetLastBeforeIn(items[0].node, l, b, k, m);
      assert NodesAt(c, k) != [];
      TextBeforeIs(c, k);
    }
  }

  lemma {:induction false} SetLastBeforeIn(n: Node, l: seq<Level>, b: seq<Level>, k: seq<Level>, m: Node)
    requires Widens(b, l) && Widens(b, k) && l != [] && k != []
    requires Hits(n, l) != [] && Hits(n, k) == [] && Matches(Last(k), m)
    ensures Hits(SetLastNode(n, l, m), k) != []
    ensures TextBeforeIn(SetLastNode(n, l, m), k) == TextBeforeIn(n, l)
    decreases n, 0
  {
    hide NodesAt, SetLast, TextBefore, Widens;
    WidensStep(b, l);
    WidensStep(b, k);
    if |l| > 1 {
      SetLastBefore(n.body.value.items, l[1..], b[1..], k[1..], m);
    }
  }

  // --------------------------------------------------- with the earlier gone

  /** What comes before the last node once the earlier ones are cut out, told
      from the gaps of the tree. */
  function TextLeft(items: seq<Item>, end: string, l: seq<Level>, top: bool, first: bool, carry: string, skip: nat)
    : string
    requires l != [] && NodesAt(items, l) != [] && skip <= |NextGap(items, end)|
    decreases items, 1
  {
    var g, h, n := items[0].gap, NextGap(items[1..], end), items[0].node;
    if NodesAt(items[1..], l) == [] then carry + g[skip..] + TextLeftIn(n, l)
    else if Goes(n, l, top, false) then
      var last := top && items[1..] == [];
      var stop := CutBefore(g, h, first, last);
      TextLeft(items[1..], end, l, top, false, carry + g[skip..if stop < skip then skip else stop],
               CutAfter(g, h, first, last))
    else
      carry + g[skip..] + (NodeText(Stays(n, l, false)) + TextLeft(items[1..], end, l, top, false, "", 0))
  }

  function TextLeftIn(n: Node, l: seq<Level>): string
    requires l != [] && Hits(n, l) != []
    decreases n, 0
  {
    if |l| == 1 then "" else Head(n) + TextLeft(n.body.value.items, n.body.value.end, l[1..], false, false, "", 0)
  }

  function TextLeftDoc(d: Doc, l: seq<Level>): string
    requires l != [] && NodesAt(d.items, l) != []
  {
    TextLeft(d.items, d.end, l, true, true, "", 0)
  }

  lemma TextLeftIs(items: seq<Item>, end: string, l: seq<Level>, top: bool, first: bool, carry: string, skip: nat)
    requires l != [] && NodesAt(items, l) != [] && skip <= |NextGap(items, end)|
    ensures items != [] && skip <= |items[0].gap| && (NodesAt(items[1..], l) == [] ==> Hits(items[0].node, l) != [])
    ensures var g, h, n, rest := items[0].gap, NextGap(items[1..], end), items[0].node, items[1..];
            var t := TextLeft(items, end, l, top, first, carry, skip);
            var stop, last := CutBefore(g, h, first, top && rest == []), top && rest == [];
            && (NodesAt(rest, l) == [] ==> t == carry + g[skip..] + TextLeftIn(n, l))
            && (NodesAt(rest, l) != [] && Goes(n, l, top, false) ==>
                  t == TextLeft(rest, end, l, top, false, carry + g[skip..if stop < skip then skip else stop],
                                CutAfter(g, h, first, last)))
            && (NodesAt(rest, l) != [] && !Goes(n, l, top, false) ==>
                  t == carry + g[skip..] + (NodeText(Stays(n, l, false))
                                            + TextLeft(rest, end, l, top, false, "", 0)))
  {
    hide NodesAt, NodeText, TextLeftIn, Hits, Goes, Stays, CutBefore, CutAfter;
    assert items != [] by { NoItems(l); }
    FirstHits(items, l);
  }

  /** One step of the cut. */
  lemma CutStep(items: seq<Item>, end: string, l: seq<Level>, top: bool, first: bool, carry: string, skip: nat)
    requires l != [] && items != [] && skip <= |NextGap(items, end)|
    ensures skip <= |items[0].gap|
    ensures var g, h, n, rest := items[0].gap, NextGap(items[1..], end), items[0].node, items[1..];
            var c := Cut(items, end, l, top, false, first, carry, skip);
            var stop, last := CutBefore(g, h, first, top && rest == []), top && rest == [];
            && (Goes(n, l, top, false) ==>
                  c == Cut(rest, end, l, top, false, false, carry + g[skip..if stop < skip then skip else stop],
                           CutAfter(g, h, first, last)))
            && (!Goes(n, l, top, false) ==>
                  var r := Cut(rest, end, l, top, false, false, "", 0);
                  c == Doc([Item(carry + g[skip..], Stays(n, l, false))] + r.items, r.end))
  {
    hide Goes, Stays, CutBefore, CutAfter;
  }

  /** Before the node that is put in place of the last, in the tree without the
      earlier ones. */
  lemma {:induction false} CutLeft(items: seq<Item>, end: string, l: seq<Level>, b: seq<Level>, k: seq<Level>,
                                   m: Node, top: bool, first: bool, carry: string, skip: nat)
    requires Widens(b, l) && Widens(b, k) && Apart(l, k) && l != [] && k != []
    requires NodesAt(items, l) != [] && NodesAt(items, k) == []
    requires Matches(Last(k), m) && !Matches(Last(l), m) && skip <= |NextGap(items, end)|
    ensures skip <= |NextGap(SetLast(items, l, m), end)|
    ensures var c := Cut(SetLast(items, l, m), end, l, top, false, first, carry, skip).items;
            NodesAt(c, k) != [] && TextBefore(c, k) == TextLeft(items, end, l, top, first, carry, skip)
    decreases items, 1
  {
    hide *;
    TextLeftIs(items, end, l, top, first, carry, skip);
    SetLastIs(items, l, m);
    SetLastGap(items, end, l, m);
    FirstHits(items, k);
    FirstGap(items, end);
    var x, rest := SetLast(items, l, m), items[1..];
    FirstGap(x, end);
    CutStep(x, end, l, top, first, carry, skip);
    var c := Cut(x, end, l, top, false, first, carry, skip).items;
    var n, g, h := items[0].node, items[0].gap, NextGap(rest, end);
    if NodesAt(rest, l) != [] {
      if Goes(n, l, top, false) {
        var last := top && rest == [];
        var stop := CutBefore(g, h, first, last);
        CutLeft(rest, end, l, b, k, m, top, false, carry + g[skip..if stop < skip then skip else stop],
                CutAfter(g, h, first, last));
      } else {
        CutLeft(rest, end, l, b, k, m, top, false, "", 0);
        assert c[0] == Item(carry + g[skip..], Stays(n, l, false));
        assert c[1..] == Cut(SetLast(rest, l, m), end, l, top, false, false, "", 0).items;
        FirstHits(c, k);
        TextBeforeIs(c, k);
      }
    } else {
      CutLeftIn(n, l, b, k, m, top);
      var y := SetLastNode(n, l, m);
      assert c[0] == Item(carry + g[skip..], Stays(y, l, false));
      assert c[1..] == Cut(rest, end, l, top, false, false, "", 0).items;
      AbsentKeeps(rest, end, l, top, false, false);
      FirstHits(c, k);
      TextBeforeIs(c, k);
    }
  }

  lemma {:induction false} CutLeftIn(n: Node, l: seq<Level>, b: seq<Level>, k: seq<Level>, m: Node, top: bool)
    requires Widens(b, l) && Widens(b, k) && Apart(l, k) && l != [] && k != []
    requires Hits(n, l) != [] && Hits(n, k) == [] && Matches(Last(k), m) && !Matches(Last(l), m)
    ensures !Goes(SetLastNode(n, l, m), l, top, false)
    ensures var y := Stays(SetLastNode(n, l, m), l, false); Hits(y, k) != [] && TextBeforeIn(y, k) == TextLeftIn(n, l)
    decreases n, 0
  {
    hide NodesAt, SetLast, TextBefore, TextLeft, Widens, Cut, Gone, Apart;
    WidensStep(b, l);
    WidensStep(b, k);
    if |l| > 1 {
      assert Apart(l[1..], k[1..]) by { ApartInside(l, k, n); }
      assert Last(l[1..]) == Last(l);
      CutLeft(n.body.value.items, n.body.value.end, l[1..], b[1..], k[1..], m, false, false, "", 0);
    }
  }

  lemma ApartInside(l: seq<Level>, k: seq<Level>, n: Node)
    requires Apart(l, k) && l[0] == k[0] && Matches(l[0], n)
    ensures Apart(l[1..], k[1..])
  {
    assert n.name in l[0].names;
  }

  // ------------------------------------------------ a line of the block's own

  /** What of a gap is on the line of the node behind it. */
  function LineTail(g: string): string
    requires HasLine(g)
  {
    g[LastLine(g) + 1..]
  }

  /** When earlier removals took all of a gap up to its last line, they left
      the start of a line before it. */
  ghost predicate CarriesLine(carry: string, skip: nat, g: string, bare: bool) {
    && skip <= |g|
    && (HasLine(g) ==> skip <= LastLine(g) + 1)
    && (HasLine(g) && skip == LastLine(g) + 1 ==> (bare && carry == "") || Ends(carry, "\n"))
  }

  lemma NextCarries(carry: string, skip: nat, g: string, h: string, first: bool, last: bool, bare: bool)
    requires CarriesLine(carry, skip, g, bare) && (first ==> bare && carry == "" && skip == 0)
    ensures var stop := CutBefore(g, h, first, last);
            CarriesLine(carry + g[skip..if stop < skip then skip else stop], CutAfter(g, h, first, last), h, bare)
  {
    hide SemiStop, FirstLine, LastLine, AllWhite, Trivial;
    if HasLine(h) {
      LinesInOrder(h);
      SemiBeforeLine(h);
    }
    if HeadBlank(g, first) && TailTrivial(h, last) {
      if HasLine(g) {
        var f := LastLine(g);
        if skip <= f {
          assert g[skip..f + 1][f - skip] == '\n';
          assert Ends(carry + g[skip..f + 1], "\n");
        } else {
          assert carry + g[skip..skip] == carry;
        }
      } else {
        assert carry + g[0..0] == "";
      }
    }
  }

  /** A block with a line end in the gap before it starts its line with the same
      blanks when the earlier ones are gone. */
  lemma {:induction false} OwnLineStays(items: seq<Item>, end: string, l: seq<Level>, top: bool, first: bool,
                                        carry: string, skip: nat, bare: bool)
    requires l != [] && NodesAt(items, l) != [] && HasLine(GapBefore(items, l))
    requires CarriesLine(carry, skip, NextGap(items, end), bare)
    requires first ==> bare && carry == "" && skip == 0
    ensures var t, tail := TextLeft(items, end, l, top, first, carry, skip), LineTail(GapBefore(items, l));
            Ends(t, "\n" + tail) || (bare && t == tail)
    decreases items, 1
  {
    hide *;
    assert skip <= |NextGap(items, end)| by { CarriesSkip(carry, skip, NextGap(items, end), bare); }
    TextLeftIs(items, end, l, top, first, carry, skip);
    GapBeforeIs(items, l);
    FirstGap(items, end);
    var g, h, n, rest := items[0].gap, NextGap(items[1..], end), items[0].node, items[1..];
    var tail := LineTail(GapBefore(items, l));
    if NodesAt(rest, l) == [] {
      OwnLineStaysIn(n, g, l, carry, skip, bare);
    } else if Goes(n, l, top, false) {
      var last := top && rest == [];
      NextCarries(carry, skip, g, h, first, last, bare);
      var stop := CutBefore(g, h, first, last);
      OwnLineStays(rest, end, l, top, false, carry + g[skip..if stop < skip then skip else stop],
                   CutAfter(g, h, first, last), bare);
    } else {
      CarriesNone(h);
      OwnLineStays(rest, end, l, top, false, "", 0, false);
      var t := TextLeft(rest, end, l, top, false, "", 0);
      EndsAppend(NodeText(Stays(n, l, false)), t, "\n" + tail);
      EndsAppend(carry + g[skip..], NodeText(Stays(n, l, false)) + t, "\n" + tail);
    }
  }

  lemma {:induction false} OwnLineStaysIn(n: Node, g: string, l: seq<Level>, carry: string, skip: nat, bare: bool)
    requires l != [] && Hits(n, l) != [] && CarriesLine(carry, skip, g, bare) && skip <= |g|
    requires HasLine(if |l| == 1 then g else GapBeforeIn(n, l))
    ensures var t, tail := carry + g[skip..] + TextLeftIn(n, l), LineTail(if |l| == 1 then g else GapBeforeIn(n, l));
            Ends(t, "\n" + tail) || (bare && t == tail)
    decreases n, 0
  {
    hide NodesAt, GapBefore, TextLeft, Head, CarriesLine, NextGap;
    if |l| == 1 {
      assert carry + g[skip..] + "" == carry + g[skip..];
      OwnGapStays(g, carry, skip, bare);
    } else {
      hide Ends;
      var d := n.body.value;
      CarriesNone(NextGap(d.items, d.end));
      OwnLineStays(d.items, d.end, l[1..], false, false, "", 0, false);
      var t, tail := TextLeft(d.items, d.end, l[1..], false, false, "", 0), LineTail(GapBeforeIn(n, l));
      EndsAppend(Head(n), t, "\n" + tail);
      EndsAppend(carry + g[skip..], Head(n) + t, "\n" + tail);
    }
  }

  lemma OwnGapStays(g: string, carry: string, skip: nat, bare: bool)
    requires CarriesLine(carry, skip, g, bare) && HasLine(g) && skip <= |g|
    ensures Ends(carry + g[skip..], "\n" + LineTail(g)) || (bare && carry + g[skip..] == LineTail(g))
  {
    var f := LastLine(g);
    assert "\n" + LineTail(g) == g[f..];
    if skip <= f {
      assert g[skip..][f - skip..] == g[f..];
      EndsAppend(carry, g[skip..], g[f..]);
    } else if Ends(carry, "\n") {
      var t := carry + g[skip..];
      assert t[|t| - |g[f..]|..] == carry[|carry| - 1..] + g[skip..];
    }
  }

  lemma CarriesSkip(carry: string, skip: nat, g: string, bare: bool)
    requires CarriesLine(carry, skip, g, bare)
    ensures skip <= |g|
  {
  }

  lemma CarriesNone(g: string)
    ensures CarriesLine("", 0, g, false)
  {
  }

  lemma GapBeforeIs(items: seq<Item>, l: seq<Level>)
    requires l != [] && NodesAt(items, l) != []
    ensures items != [] && (NodesAt(items[1..], l) == [] ==> Hits(items[0].node, l) != [])
    ensures GapBefore(items, l) == if NodesAt(items[1..], l) != [] then GapBefore(items[1..], l)
                                   else if |l| == 1 then items[0].gap else GapBeforeIn(items[0].node, l)
  {
    hide NodesAt, GapBeforeIn, Hits;
    assert items != [] by { NoItems(l); }
    FirstHits(items, l);
  }

  lemma OwnLineSteady(d: Doc, l: seq<Level>)
    requires l != [] && NodesAt(d.items, l) != [] && HasLine(GapBefore(d.items, l))
    ensures Lead(TextLeftDoc(d, l)) == Lead(TextBefore(d.items, l))
  {
    hide NodesAt, TextLeft, TextBefore, GapBefore, Lead;
    var g, t, u := GapBefore(d.items, l), TextLeftDoc(d, l), TextBefore(d.items, l);
    var tail := LineTail(g);
    StartCarries(NextGap(d.items, d.end));
    OwnLineStays(d.items, d.end, l, true, true, "", 0, true);
    GapIsBefore(d.items, l);
    LastLineEnds(g);
    EndsThen(u, g, "\n" + tail);
    LeadOfTail(u, tail);
    if Ends(t, "\n" + tail) {
      LeadOfTail(t, tail);
    }
  }

  lemma StartCarries(g: string)
    ensures CarriesLine("", 0, g, true)
  {
  }

  lemma LastLineEnds(g: string)
    requires HasLine(g)
    ensures Ends(g, "\n" + LineTail(g)) && !HasLine(LineTail(g))
  {
    assert g[LastLine(g)..] == "\n" + LineTail(g);
  }

  lemma LeadOfTail(t: string, tail: string)
    requires Ends(t, "\n" + tail) && !HasLine(tail)
    ensures Lead(t) == Blanks(tail) == Lead(tail)
  {
    hide Blanks;
    var ls := |t| - |tail|;
    assert t[|t| - |"\n" + tail|..] == "\n" + tail;
    assert t[ls - 1] == ("\n" + tail)[0];
    assert t[ls..|t|] == tail by {
      assert t[ls..] == t[ls - 1..][1..];
    }
    forall i | ls <= i < |t| ensures t[i] != '\n' {
      assert t[i] == t[ls..|t|][i - ls] == tail[i - ls];
    }
    LineStartIs(t, |t|, ls);
    LineStartIs(tail, |tail|, 0);
    assert tail[0..|tail|] == tail;
  }
}
