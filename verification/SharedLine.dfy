/** A file on which a second identical `upsert_block` changes what the first
    wrote: an earlier copy of the block on the line of the last one. */
module SharedLine {
  import opened Options
  import opened Kdl
  import opened Splice
  import opened Prune
  import opened Remove
  import opened SetTree
  import opened SetText
  import opened BlockTree
  import opened BlockText
  import opened UpsertBlock
  import opened BlockLine
  import opened UpsertAgain

  const WIDGET := "widget \"a\" {}"

  function File(inside: string): string {
    "bar {" + inside + "\n}"
  }

  /** `bar {`, the two copies behind four blanks, `}`. */
  const COPIES := File("\n    " + (WIDGET + ("; " + WIDGET)))

  /** What the first call writes: one block behind five blanks, closed behind
      four. */
  const ONCE := File("\n     " + ("widget \"a\" {\n" + "    " + "}"))

  /** What the second writes: it is closed behind five. */
  const TWICE := File("\n     " + ("widget \"a\" {\n" + "     " + "}"))

  function Widget(): Node {
    Node("widget", "widget", [Entry(" ", None, "\"a\"", Some("a"))], " ", Some(Doc([], "")))
  }

  function Bar(items: seq<Item>): Node {
    Node("bar", "bar", [], " ", Some(Doc(items, "\n")))
  }

  function TwoCopies(last: Node): Doc {
    Doc([Item("", Bar([Item("\n    ", Widget()), Item("; ", last)]))], "")
  }

  function L(): seq<Level> {
    BlockLevels("bar", "widget", "a")
  }

  // ------------------------------------------------------------------ its text

  lemma WidgetText()
    ensures NodeText(Widget()) == WIDGET && NodeOk(Widget()) && NodeLined(Widget())
    ensures Matches(Level({"widget"}, Some("a")), Widget())
  {
    var n := Widget();
    var e := n.entries[0];
    assert n.entries[1..] == [] && EntriesText([]) == "";
    assert EntryText(e) == " \"a\"";
    assert EntriesText(n.entries) == " \"a\"";
    assert ItemsText([]) == "";
    assert NodeText(n) == "widget" + " \"a\"" + " " + "{" + "" + "}";
    assert Starter('w') && !White('}');
    GapClosed("");
  }

  lemma GapClosed(h: string)
    requires h == "" || h == "\n" || h == "; " || h == "\n    "
    ensures !Exposed(h, false) && !Exposed(h, true)
  {
    if h == "; " {
      assert h[1..] == " ";
      assert TrimStart(" "[1..]) == "";
      assert Strip(h) == "";
    }
  }

  lemma BarText(items: seq<Item>)
    ensures NodeText(Bar(items)) == "bar {" + ItemsText(items) + "\n}"
    ensures Head(Bar(items)) == "bar {"
  {
    hide ItemsText;
    assert EntriesText([]) == "";
    assert "bar" + "" + " " + "{" == "bar {";
    assert NodeText(Bar(items)) == "bar" + "" + " " + "{" + (ItemsText(items) + "\n") + "}";
    assert (ItemsText(items) + "\n") + "}" == ItemsText(items) + "\n}";
  }

  lemma {:induction false} CopiesText()
    ensures DocText(TwoCopies(Widget())) == COPIES && DocOk(TwoCopies(Widget())) && Lined(TwoCopies(Widget()), true)
  {
    hide ItemsText, NodeText, NodeOk, Exposed, NodeLined;
    var items := TwoCopies(Widget()).items[0].node.body.value.items;
    var bar := Bar(items);
    assert items[1..] == [items[1]] && items[1..][1..] == [];
    WidgetText();
    FirstText(items);
    OneText(items[1]);
    BarText(items);
    OneText(Item("", bar));
    assert "" + NodeText(bar) + "" == NodeText(bar);
    GapClosed("");
    GapClosed("\n");
    GapClosed("; ");
    GapClosed("\n    ");
    BarOk(items);
    assert [Item("", bar)][1..] == [];
  }

  lemma BarOk(items: seq<Item>)
    requires ItemsOk(items) && ItemsLined(items)
    ensures NodeOk(Bar(items)) && NodeLined(Bar(items))
  {
    hide ItemsText, NodeText, ItemsOk, ItemsLined;
    BarText(items);
    var t := NodeText(Bar(items));
    assert t[|t| - 1] == '}' && !White('}') && Starter('b');
    GapClosed("\n");
  }

  // ------------------------------------------------------------------ its blocks

  lemma Levels()
    ensures |L()| == 2 && L()[0] == Level({"bar"}, None) && L()[1..] == [Level({"widget"}, Some("a"))]
  {
  }

  lemma InBar(items: seq<Item>)
    ensures NodesAt([Item("", Bar(items))], L()) == NodesAt(items, L()[1..])
    ensures Hits(Bar(items), L()) == NodesAt(items, L()[1..])
    ensures Enters(L(), Bar(items)) && !Goes(Bar(items), L(), true, false)
  {
    hide NodesAt, Gone;
    var i := Item("", Bar(items));
    Levels();
    FirstHits([i], L());
    assert [i][1..] == [];
    NoItems(L());
  }

  lemma TwoFound()
    ensures NodesAt(TwoCopies(Widget()).items, L()) == [Widget(), Widget()]
    ensures NodesAt(TwoCopies(Widget()).items[0].node.body.value.items[1..], L()[1..]) == [Widget()]
  {
    hide NodesAt, Hits, Matches;
    var items := TwoCopies(Widget()).items[0].node.body.value.items;
    Levels();
    InBar(items);
    FirstHits(items, L()[1..]);
    FirstHits(items[1..], L()[1..]);
    assert items[1..][0] == items[1] && items[1..][1..] == [];
    NoItems(L()[1..]);
    WidgetText();
    OneHit();
    assert [Widget()] + ([Widget()] + []) == [Widget(), Widget()];
  }

  lemma OneHit()
    ensures Hits(Widget(), L()[1..]) == [Widget()]
  {
    Levels();
    WidgetText();
  }

  /** Behind the last copy's place there are four blanks, or with the first gone
      five. */
  lemma {:induction false} LeadsDiffer()
    ensures NodesAt(TwoCopies(Widget()).items, L()) == [Widget(), Widget()]
    ensures Lead(TextBefore(TwoCopies(Widget()).items, L())) == "    "
    ensures TextLeftDoc(TwoCopies(Widget()), L()) == "bar {\n     " && Lead("bar {\n     ") == "     "
  {
    hide NodesAt, Hits, TextBefore, TextLeft, NodeText, Lead, Head, Goes, CutBefore, CutAfter, Matches;
    var d := TwoCopies(Widget());
    var bar := d.items[0].node;
    var items := bar.body.value.items;
    Levels();
    TwoFound();
    InBar(items);
    WidgetText();
    BarText(items);
    OneHit();
    assert d.items[1..] == [] && items[1..] == [items[1]] && items[1..][1..] == [] && items[1..][0] == items[1];
    NoItems(L());
    NoItems(L()[1..]);
    TextBeforeIs(d.items, L());
    TextBeforeIs(items, L()[1..]);
    TextBeforeIs(items[1..], L()[1..]);
    TextLeftIs(d.items, d.end, L(), true, true, "", 0);
    TextLeftIs(items, "\n", L()[1..], false, false, "", 0);
    CutsOf();
    TextLeftIs(items[1..], "\n", L()[1..], false, false, "\n    ", 1);
    assert "" + ""[0..] == "" && "" + "\n    "[0..5] == "\n    " && "; "[1..] == " ";
    LeafBefore();
    assert TextBefore(d.items, L()) == "" + ("bar {" + ("\n    " + (WIDGET + ("; " + ""))));
    assert TextBefore(d.items, L()) == "bar {" + ("\n    " + (WIDGET + "; "));
    SomeLead();
    assert TextLeftDoc(d, L()) == "" + ("bar {" + ("\n    " + " " + ""));
    assert TextLeftDoc(d, L()) == "bar {\n     ";
    BlanksLead();
  }

  lemma LeafBefore()
    ensures Hits(Widget(), L()[1..]) != [] && TextBeforeIn(Widget(), L()[1..]) == ""
    ensures TextLeftIn(Widget(), L()[1..]) == ""
  {
    Levels();
    OneHit();
  }

  /** The first copy goes up to its semicolon. */
  lemma CutsOf()
    ensures CutBefore("\n    ", "; ", false, false) == 5 && CutAfter("\n    ", "; ", false, false) == 1
    ensures Goes(Widget(), L()[1..], false, false)
  {
    Levels();
    WidgetText();
    assert TrimBlanks("; ") == "; ";
    assert !HasLine("; ");
    assert !TailTrivial("; ", false);
  }

  lemma SomeLead()
    ensures Lead("bar {" + ("\n    " + (WIDGET + "; "))) == "    "
  {
    hide Blanks;
    var z, y := WIDGET + "; ", "    " + (WIDGET + "; ");
    var t := "bar {" + ("\n    " + z);
    assert !HasLine(WIDGET) && !HasLine("    ") && !HasLine("; ");
    assert "\n    " == "\n" + "    ";
    assert "\n    " + z == "\n" + y;
    assert t[|t| - |"\n" + y|..] == "\n" + y;
    LeadOfTail(t, y);
    BlanksThen("    ", z);
  }

  lemma {:induction false} BlanksThen(x: string, z: string)
    requires Blank(x) && z != "" && z[0] != ' ' && z[0] != '\t'
    ensures Blanks(x + z) == x
    decreases |x|
  {
    if x == "" {
      assert x + z == z;
    } else {
      BlanksThen(x[1..], z);
      assert (x + z)[1..] == x[1..] + z;
      assert TrimBlanks(x[1..] + z) == z by {
        var s := x[1..] + z;
        assert |Blanks(s)| == |x| - 1;
        TrimBack(s);
        assert s[|x| - 1..] == z;
      }
    }
  }

  lemma {:induction false} TrimBack(s: string)
    ensures TrimBlanks(s) == s[|s| - |TrimBlanks(s)|..]
    decreases |s|
  {
    if s != "" && (s[0] == ' ' || s[0] == '\t') {
      TrimBack(s[1..]);
    }
  }

  lemma BlanksLead()
    ensures Lead("bar {\n     ") == "     " && Blank("     ") && Blank("    ")
  {
    hide Lead;
    assert "bar {" + "\n" + "     " == "bar {\n     ";
    LeadEnds("bar {", "     ");
  }

  // -------------------------------------------------------------- the two calls

  function Rendered(indent: string): Node {
    UpsertBlock.Block("widget", "\"a\"", "a", [], indent)
  }

  lemma RenderedIs(indent: string)
    ensures NodeText(Rendered(indent)) == "widget \"a\" {\n" + indent + "}"
    ensures BlockString("widget", "\"a\"", [], indent) == NodeText(Rendered(indent))
    ensures Rendered(indent).name == "widget" && Rendered(indent).entries == [Entry(" ", None, "\"a\"", Some("a"))]
  {
    hide NodeText;
    RenderedText("widget", "\"a\"", "a", [], [], indent);
    assert "widget" + " " + "\"a\"" + " {" + "" + "\n" + indent + "}" == "widget \"a\" {\n" + indent + "}";
  }

  /** The bytes of the tree the first call leaves. */
  lemma OnceText()
    ensures DocText(Written(TwoCopies(Widget()), "bar", "widget", "a", Rendered("    "))) == ONCE
  {
    hide NodesAt, NodeText, ItemsText, Cut, SetLast, Longer, Goes, Stays, CutBefore, CutAfter, Matches, Hits;
    var d, m := TwoCopies(Widget()), Rendered("    ");
    var mark := Longer(NodesAt(d.items, KindLevels("bar", "widget")), "a");
    var x := Marked(m, mark);
    RenderedIs("    ");
    TwoFound();
    WrittenSettles(d, "bar", "widget", "a", m);
    MarkedText(m, mark);
    MarkedStays(x, mark);
    LastSet(x);
    CutTwo(x);
    var left := [Item("\n     ", x)];
    OneText(left[0]);
    BarText(left);
    OneText(Item("", Bar(left)));
    assert "" + NodeText(Bar(left)) + "" == NodeText(Bar(left));
  }

  lemma MarkedStays(x: Node, mark: string)
    requires x == Marked(Rendered("    "), mark) && mark != "a"
    ensures !Matches(Level({"widget"}, Some("a")), x)
  {
    assert Title(x.entries) == Some(mark);
  }

  lemma {:induction false} LastSet(x: Node)
    ensures SetLast(TwoCopies(Widget()).items, L(), x) == TwoCopies(x).items
  {
    hide NodesAt, SetLast;
    var d := TwoCopies(Widget());
    var items := d.items[0].node.body.value.items;
    Levels();
    TwoFound();
    assert d.items[1..] == [] && items[1..] == [items[1]] && items[1..][1..] == [];
    NoItems(L());
    NoItems(L()[1..]);
    SetLastIs(d.items, L(), x);
    SetLastIs(items, L()[1..], x);
    SetLastIs(items[1..], L()[1..], x);
    WidgetText();
    var c := SetLast(items, L()[1..], x);
    assert c == [c[0]] + c[1..] && c[1..] == [c[1..][0]] + c[1..][1..];
    assert c == TwoCopies(x).items[0].node.body.value.items;
    var t := SetLast(d.items, L(), x);
    assert t == [t[0]] + t[1..];
  }

  lemma CutTwo(x: Node)
    requires !Matches(Level({"widget"}, Some("a")), x)
    ensures CutDoc(TwoCopies(x), L(), false) == Doc([Item("", Bar([Item("\n     ", x)]))], "")
  {
    hide Cut, Goes, CutBefore, CutAfter, Matches;
    var d := TwoCopies(x);
    var items := d.items[0].node.body.value.items;
    Levels();
    InBar(items);
    CutsOf();
    assert d.items[1..] == [] && items[1..] == [items[1]] && items[1..][1..] == [] && items[1..][0] == items[1];
    CutStep(d.items, "", L(), true, true, "", 0);
    CutStep(items, "\n", L()[1..], false, false, "", 0);
    assert "" + "\n    "[0..5] == "\n    " && "; "[1..] == " " && "\n    " + " " == "\n     ";
    CutStep(items[1..], "\n", L()[1..], false, false, "\n    ", 1);
    LeafStays(x);
    NothingCut("\n", L()[1..], false);
    NothingCut("", L(), true);
    var inner := Cut(items, "\n", L()[1..], false, false, false, "", 0);
    assert inner == Doc([Item("\n     ", x)] + [], "\n");
    assert [Item("\n     ", x)] + [] == [Item("\n     ", x)];
    assert Stays(Bar(items), L(), false) == Bar([Item("\n     ", x)]);
    assert "" + ""[0..] == "" && d.items[0].gap == "" && d.end == "" && d.items[0].node == Bar(items);
    assert [Item("", Bar([Item("\n     ", x)]))] + [] == [Item("", Bar([Item("\n     ", x)]))];
  }

  lemma LeafStays(x: Node)
    requires !Matches(Level({"widget"}, Some("a")), x)
    ensures !Goes(x, L()[1..], false, false) && Stays(x, L()[1..], false) == x
  {
    hide Matches;
    Levels();
    assert L()[1..][0] == Level({"widget"}, Some("a"));
  }

  lemma NothingCut(end: string, l: seq<Level>, top: bool)
    requires l != []
    ensures Cut([], end, l, top, false, false, "", 0) == Doc([], end)
  {
    assert "" + end[0..] == end;
  }

  /** The tree of what the first call writes. */
  function OnceTree(): Doc {
    CopiesText();
    UpsertedTree(COPIES, TwoCopies(Widget()), "bar", "widget", "a", "\"a\"", [])
  }

  /** The first call leaves the block behind five blanks, rendered for four; the
      second renders it for five. */
  lemma {:induction false} CopyShifts(parser: Parser)
    requires parser(COPIES) == Some(TwoCopies(Widget())) && parser(ONCE) == Some(OnceTree()) && parser(TWICE).Some?
    requires Reads(parser, ONCE)
    ensures var d := TwoCopies(Widget());
            && DocText(d) == COPIES && DocOk(d) && Lined(d, true) && Reads(parser, COPIES)
            && Upserted(parser, COPIES, d, "bar", "widget", "a", "\"a\"", []) == Ok(ONCE)
            && !Steady(d, "bar", "widget", "a")
            && Upserted(parser, ONCE, OnceTree(), "bar", "widget", "a", "\"a\"", []) == Ok(TWICE)
            && ONCE != TWICE
  {
    hide NodesAt, NodeText, ItemsText, DocText, DocOk, TextBefore, TextLeft, Lead, Written, Upserted, BlockString,
      UpsertClear, Blank, LastHitAt, LeadingIndent;
    var d, m := TwoCopies(Widget()), Rendered("    ");
    CopiesText();
    LeadsDiffer();
    BlanksLead();
    LinedUpsertsClear(d, "bar", "widget", "a");
    assert Named("widget", "\"a\"") by { assert Starter('w'); }
    UpsertedIs(parser, COPIES, d, "bar", "widget", "a", "\"a\"", [], []);
    LeadAt(COPIES, d, L());
    OnceText();
    RenderedIs("    ");
    RenderedIs("     ");
    assert Upserted(parser, COPIES, d, "bar", "widget", "a", "\"a\"", []) == Ok(ONCE);
    WrittenBefore(d, "bar", "widget", "a", m);
    ReadsIt(parser, ONCE);
    SoleUpsert(parser, ONCE, OnceTree(), "bar", "widget", "a", "\"a\"", [], "    ");
    var four, five := "widget \"a\" {\n" + "    " + "}", "widget \"a\" {\n" + "     " + "}";
    assert "bar {\n     " == "bar {" + "\n     ";
    assert ONCE == "bar {\n     " + four + "\n}" && TWICE == "bar {\n     " + five + "\n}";
    Swapped("bar {\n     ", four, five, "\n}");
    assert |four| != |five|;
  }

  lemma Swapped(a: string, x: string, y: string, z: string)
    ensures Replace(a + x + z, Edit(|a|, |a| + |x|, y)) == a + y + z
    ensures |x| != |y| ==> a + x + z != a + y + z
  {
    var t := a + x + z;
    assert t[..|a|] == a && t[|a| + |x|..] == z;
    assert |t| != |a + y + z| || |x| == |y|;
  }
}
