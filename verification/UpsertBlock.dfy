/** `upsert_block`: a block written where the last of its name stands, or after
    the last of its kind, or in the last section, or in a section of its own. */
module UpsertBlock {
  import opened Options
  import opened Bytes
  import opened Kdl
  import opened Splice
  import opened Prune
  import opened Remove
  import opened SetTree
  import opened SetText
  import opened Effect
  import opened BlockTree
  import opened BlockText
  import opened BlockInsert
  import opened BlockRest
  import opened NamedBlocks

  // -------------------------------------------------------------- rendering

  /** The lines of a block, each one level in. */
  function LineItems(lines: seq<Node>, inner: string): (r: seq<Item>)
    ensures |r| == |lines|
  {
    if lines == [] then [] else [Item("\n" + inner, lines[0])] + LineItems(lines[1..], inner)
  }

  /** The block as a tree; its opening line carries no indentation. */
  function Block(kind: string, quoted: string, name: string, lines: seq<Node>, indent: string): Node {
    Node(kind, kind, [Entry(" ", None, quoted, Some(name))], " ",
      Some(Doc(LineItems(lines, Inner(indent)), "\n" + indent)))
  }

  lemma BlockOpens(kind: string, quoted: string, name: string, lines: seq<Node>, indent: string)
    ensures NodeText(Block(kind, quoted, name, lines, indent))
            == kind + " " + quoted + " {" + ItemsText(LineItems(lines, Inner(indent))) + "\n" + indent + "}"
  {
    hide ItemsText;
    var n := Block(kind, quoted, name, lines, indent);
    var e := n.entries[0];
    assert n.entries[1..] == [] && EntriesText([]) == "";
    assert EntryText(e) == " " + quoted;
    assert EntriesText(n.entries) == " " + quoted;
    Opened(kind, quoted, ItemsText(n.body.value.items), "\n", indent);
  }

  lemma Opened(kind: string, quoted: string, items: string, nl: string, indent: string)
    ensures kind + (" " + quoted) + " " + "{" + (items + (nl + indent)) + "}"
            == kind + " " + quoted + " {" + items + nl + indent + "}"
  {
    assert " {" == " " + "{";
  }

  lemma {:induction false} LinesAppend(lines: seq<Node>, n: Node, inner: string)
    ensures ItemsText(LineItems(lines + [n], inner))
            == ItemsText(LineItems(lines, inner)) + ("\n" + inner + NodeText(n))
    decreases |lines|
  {
    hide NodeText;
    if lines == [] {
      assert (lines + [n])[1..] == [] && (lines + [n])[0] == n;
      assert LineItems(lines + [n], inner) == [Item("\n" + inner, n)];
      OneText(Item("\n" + inner, n));
    } else {
      assert (lines + [n])[1..] == lines[1..] + [n];
      LinesAppend(lines[1..], n, inner);
      FirstText(LineItems(lines + [n], inner));
      FirstText(LineItems(lines, inner));
      assert LineItems(lines + [n], inner)[1..] == LineItems(lines[1..] + [n], inner);
      assert LineItems(lines, inner)[1..] == LineItems(lines[1..], inner);
      Regroup(NodeText(lines[0]), ItemsText(LineItems(lines[1..], inner)), "\n" + inner + NodeText(n));
      Regroup("\n" + inner, NodeText(lines[0]) + ItemsText(LineItems(lines[1..], inner)), "\n" + inner + NodeText(n));
    }
  }

  /** The lines of a block as they are written, whatever they say. */
  function BodyText(body: seq<string>, inner: string): string {
    if body == [] then "" else BodyText(body[..|body| - 1], inner) + ("\n" + inner + body[|body| - 1])
  }

  function BlockString(kind: string, quoted: string, body: seq<string>, indent: string): string {
    kind + " " + quoted + " {" + BodyText(body, Inner(indent)) + "\n" + indent + "}"
  }

  /** `render_block` */
  method Render(kind: string, quoted: string, body: seq<string>, indent: string) returns (s: string)
    ensures s == BlockString(kind, quoted, body, indent)
  {
    var inner := Inner(indent);
    s := kind + " " + quoted + " {\n";
    ghost var start := kind + " " + quoted + " {";
    assert s == start + "" + "\n" by { assert " {\n" == " {" + "\n"; }
    for i := 0 to |body|
      invariant s == start + BodyText(body[..i], inner) + "\n"
    {
      ghost var before := BodyText(body[..i], inner);
      assert body[..i + 1][..i] == body[..i];
      s := s + inner;
      s := s + body[i];
      s := s + "\n";
      LineAdded(start, before, "\n", inner, body[i]);
    }
    assert body[..|body|] == body;
    s := s + indent;
    s := s + "}";
  }

  /** The lines are the texts of nodes. */
  ghost predicate Texts(lines: seq<Node>, body: seq<string>) {
    |lines| == |body| && forall i :: 0 <= i < |body| ==> body[i] == NodeText(lines[i])
  }

  /** Then what is written is the text of the block. */
  lemma RenderedText(kind: string, quoted: string, name: string, lines: seq<Node>, body: seq<string>, indent: string)
    requires Texts(lines, body)
    ensures BlockString(kind, quoted, body, indent) == NodeText(Block(kind, quoted, name, lines, indent))
  {
    hide NodeText, ItemsText, LineItems;
    BodyTexts(lines, body, Inner(indent));
    BlockOpens(kind, quoted, name, lines, indent);
  }

  lemma {:induction false} BodyTexts(lines: seq<Node>, body: seq<string>, inner: string)
    requires Texts(lines, body)
    ensures BodyText(body, inner) == ItemsText(LineItems(lines, inner))
    decreases |lines|
  {
    hide NodeText, ItemsText, LineItems;
    if lines == [] {
      NoLines(inner);
      NoText();
    } else {
      var k := |lines| - 1;
      BodyTexts(lines[..k], body[..k], inner);
      LinesAppend(lines[..k], lines[k], inner);
      assert lines[..k] + [lines[k]] == lines;
    }
  }

  lemma NoLines(inner: string)
    ensures LineItems([], inner) == []
  {
  }

  lemma NoText()
    ensures ItemsText([]) == ""
  {
  }

  lemma LineAdded(start: string, before: string, nl: string, inner: string, line: string)
    ensures start + before + nl + inner + line + nl == start + (before + (nl + inner + line)) + nl
  {
  }

  /** A line of the body: a node. */
  ghost predicate LinesOk(lines: seq<Node>) {
    forall i :: 0 <= i < |lines| ==> NodeOk(lines[i])
  }

  lemma BlockOk(kind: string, quoted: string, name: string, lines: seq<Node>, indent: string)
    requires kind != "" && Starter(kind[0]) && quoted != "" && LinesOk(lines)
    ensures NodeOk(Block(kind, quoted, name, lines, indent))
  {
    hide NodeText, ItemsText;
    var n := Block(kind, quoted, name, lines, indent);
    BlockOpens(kind, quoted, name, lines, indent);
    LineItemsOk(lines, Inner(indent));
    assert HasLine("\n" + indent) by { assert ("\n" + indent)[0] == '\n'; }
    assert !White('}');
  }

  lemma {:induction false} LineItemsOk(lines: seq<Node>, inner: string)
    requires LinesOk(lines)
    ensures ItemsOk(LineItems(lines, inner))
    decreases |lines|
  {
    hide NodeOk;
    if lines != [] {
      assert forall i :: 0 <= i < |lines| - 1 ==> lines[1..][i] == lines[i + 1];
      LineItemsOk(lines[1..], inner);
      assert HasLine("\n" + inner) by { assert ("\n" + inner)[0] == '\n'; }
      assert LineItems(lines, inner)[1..] == LineItems(lines[1..], inner);
    }
  }

  // ------------------------------------------------------ the name is there

  /** A title longer than those of the blocks and than `name`. */
  function Longer(bs: seq<Node>, name: string): (r: string)
    ensures |r| > |name| && forall i :: 0 <= i < |bs| ==> Title(bs[i].entries) != Some(r)
  {
    var n := LongerLength(bs, |name|);
    seq(n, _ => 'x')
  }

  function LongerLength(bs: seq<Node>, at: nat): (n: nat)
    ensures n > at && forall i :: 0 <= i < |bs| ==> Title(bs[i].entries).Some? ==> |Title(bs[i].entries).value| < n
  {
    if bs == [] then at + 1
    else
      var n := LongerLength(bs[..|bs| - 1], at);
      var t := Title(bs[|bs| - 1].entries);
      assert forall i :: 0 <= i < |bs| - 1 ==> bs[..|bs| - 1][i] == bs[i];
      if t.Some? && |t.value| >= n then |t.value| + 1 else n
  }

  /** The same bytes under another title, which no text shows: it sets the block
      that is to stay apart from those that go. */
  function Marked(m: Node, mark: string): Node
    requires m.entries != []
  {
    m.(entries := m.entries[0 := m.entries[0].(str := Some(mark))])
  }

  lemma MarkedText(m: Node, mark: string)
    requires m.entries != []
    ensures NodeText(Marked(m, mark)) == NodeText(m)
  {
    var x := Marked(m, mark);
    assert x.entries[1..] == m.entries[1..];
    assert EntryText(x.entries[0]) == EntryText(m.entries[0]);
  }

  lemma MarkedOk(m: Node, mark: string)
    requires m.entries != [] && NodeOk(m)
    ensures NodeOk(Marked(m, mark))
  {
    hide NodeText;
    MarkedText(m, mark);
  }

  /** The file with the last block of `name` written anew and the others gone. */
  function Written(d: Doc, parent: string, kind: string, name: string, m: Node): Doc
    requires m.entries != []
  {
    var mark := Longer(NodesAt(d.items, KindLevels(parent, kind)), name);
    var left := Renamed(d, parent, kind, name, Marked(m, mark));
    Doc(SetLast(left.items, BlockLevels(parent, kind, mark), m), left.end)
  }

  /** One block of the name, where the last one stood; the others as they were,
      in their order. */
  lemma {:induction false} WrittenSettles(d: Doc, parent: string, kind: string, name: string, m: Node)
    requires NodesAt(d.items, BlockLevels(parent, kind, name)) != []
    requires m.name == kind && m.entries != [] && m.entries[0].key == None && m.entries[0].str == Some(name)
    ensures var b, l := KindLevels(parent, kind), Level({kind}, Some(name));
            NodesAt(Written(d, parent, kind, name, m).items, b) == Settled(NodesAt(d.items, b), l, m)
    ensures NodesAt(Written(d, parent, kind, name, m).items, BlockLevels(parent, kind, name)) == [m]
    ensures DocText(Written(d, parent, kind, name, m))
            == DocText(Renamed(d, parent, kind, name,
              Marked(m, Longer(NodesAt(d.items, KindLevels(parent, kind)), name))))
  {
    hide NodesAt, Cut, SetLast, Settled, ReplaceLast, Wanted, Others, Longer, Renamed, ItemsText, NodeText;
    var b, l := KindLevels(parent, kind), BlockLevels(parent, kind, name);
    var all := NodesAt(d.items, b);
    var mark := Longer(all, name);
    var k, x := BlockLevels(parent, kind, mark), Marked(m, mark);
    KindWidens(parent, kind, name);
    KindWidens(parent, kind, mark);
    WantedNodes(d.items, k, b);
    NotMarked(all, kind, mark);
    assert Title(x.entries) == Some(mark);
    RenameSettles(d, parent, kind, name, mark, x);
    var left := Renamed(d, parent, kind, name, x);
    SetLastReplaces(left.items, k, b, m);
    WantedNodes(d.items, l, b);
    Unmark(all, Last(l), Last(k), x, m);
    WantedNodes(Written(d, parent, kind, name, m).items, l, b);
    OnlyOne(all, Last(l), m);
    MarkedText(m, mark);
    SetLastSameText(left.items, k, m);
  }

  lemma {:induction false} NotMarked(bs: seq<Node>, kind: string, mark: string)
    requires forall i :: 0 <= i < |bs| ==> Title(bs[i].entries) != Some(mark)
    ensures Wanted(bs, Level({kind}, Some(mark))) == []
  {
    hide Title;
    if bs != [] {
      assert forall i :: 0 <= i < |bs| - 1 ==> bs[1..][i] == bs[i + 1];
      NotMarked(bs[1..], kind, mark);
    }
  }

  lemma {:induction false} Unmark(bs: seq<Node>, l: Level, k: Level, x: Node, m: Node)
    requires Wanted(bs, l) != [] && Wanted(bs, k) == [] && Matches(k, x)
    ensures ReplaceLast(Settled(bs, l, x), k, m) == Settled(bs, l, m)
  {
    hide Matches;
    var head, rest := bs[0], bs[1..];
    assert bs == [head] + rest;
    OneWanted(head, k);
    WantedAppend([head], rest, k);
    OnlyNew(bs, l, x, k);
    if Wanted(rest, l) != [] {
      Unmark(rest, l, k, x, m);
      OnlyNew(rest, l, x, k);
      var kept := if Matches(l, head) then [] else [head];
      ReplaceAppend(kept, Settled(rest, l, x), k, m);
    } else {
      assert Settled(bs, l, x)[1..] == rest;
      NoneToReplace(rest, k, m);
    }
  }

  lemma {:induction false} OnlyOne(bs: seq<Node>, l: Level, m: Node)
    requires Wanted(bs, l) != [] && Matches(l, m)
    ensures Wanted(Settled(bs, l, m), l) == [m]
  {
    hide Matches;
    var head, rest := bs[0], bs[1..];
    if Wanted(rest, l) != [] {
      OnlyOne(rest, l, m);
      var kept := if Matches(l, head) then [] else [head];
      WantedAppend(kept, Settled(rest, l, m), l);
      OneWanted(head, l);
      NoneWanted(l);
    } else {
      WantedAppend([m], rest, l);
      OneWanted(m, l);
    }
  }

  lemma WholeChange(text: string, s: nat, n: Node, m: Node)
    requires s + |NodeText(n)| <= |text|
    ensures Changes(text, s, n, m, Edit(s, s + |NodeText(n)|, NodeText(m)))
  {
    hide NodeText;
    assert text[s..s] + NodeText(m) + text[s + |NodeText(n)|..s + |NodeText(n)|] == NodeText(m);
  }

  // -------------------------------------------------- the name is not there

  /** The last section of a name that has a block of children. */
  function LastSection(items: seq<Item>, parent: string): (r: Option<nat>)
    ensures r.Some? ==> r.value < |items| && items[r.value].node.name == parent && items[r.value].node.body.Some?
    ensures forall j :: (if r.Some? then r.value + 1 else 0) <= j < |items| ==>
              items[j].node.name != parent || items[j].node.body == None
  {
    if items == [] then None
    else if items[|items| - 1].node.name == parent && items[|items| - 1].node.body.Some? then Some(|items| - 1)
    else LastSection(items[..|items| - 1], parent)
  }

  /** A block of children with one more at its end. */
  function WithLast(d: Doc, p: Place, m: Node): Doc
    requires p.cut <= |d.end|
  {
    Doc(d.items + [Item(d.end[..p.cut] + p.lead, m)], p.tail + d.end[p.cut..])
  }

  /** Where a new last child of the section at `s` goes. */
  function ChildPlaceOf(text: string, s: nat, n: Node): (p: Place)
    requires n.body.Some? && s + |NodeText(n)| <= |text|
    ensures p.cut <= |n.body.value.end|
  {
    var d := n.body.value;
    BlockSize(n);
    if d.items == [] then ChildPlace(text, d.end, s)
    else
      LastWithin(s + BodyAt(n), d.items);
      AfterPlace(d.end, LeadingIndent(text, ItemAt(s + BodyAt(n), d.items, |d.items| - 1)), false)
  }

  /** `append_child`, on the text. */
  function AppendEdit(text: string, s: nat, n: Node, rendered: string): Edit
    requires n.body.Some? && s + |NodeText(n)| <= |text| && NodeText(n) != ""
  {
    var d := n.body.value;
    if d.items == [] then ChildEdit(text, Spot(s, n), rendered)
    else
      BlockSize(n);
      LastWithin(s + BodyAt(n), d.items);
      var at := ItemAt(s + BodyAt(n), d.items, |d.items| - 1);
      InsertAfterEdit(text, at, at + |NodeText(d.items[|d.items| - 1].node)|, rendered)
  }

  lemma AppendWithin(text: string, s: nat, n: Node, rendered: string)
    requires n.body.Some? && s + |NodeText(n)| <= |text| && NodeText(n) != ""
    ensures var e := AppendEdit(text, s, n, rendered); e.start <= e.stop <= |text|
  {
    hide NodeText, ItemsText, LeadingIndent, AllWhite, TailIsTrivial, ItemAt;
    if n.body.value.items != [] {
      BlockSize(n);
      LastWithin(s + BodyAt(n), n.body.value.items);
    }
  }

  /** It is a new last child, exactly where no comment hides the closing brace. */
  lemma AppendText(text: string, s: nat, n: Node, m: Node) returns (g: Edit)
    requires NodeOk(n) && n.body.Some? && s + |NodeText(n)| <= |text| && text[s..s + |NodeText(n)|] == NodeText(n)
    ensures NodeText(n) != ""
    ensures Changes(text, s, n, n.(body := Some(WithLast(n.body.value, ChildPlaceOf(text, s, n), m))), g)
    ensures Meets(text, AppendEdit(text, s, n, NodeText(m)), g, Clear(n.body.value.items, n.body.value.end, false))
  {
    hide *;
    var d, b, t := n.body.value, s + BodyAt(n), s + |NodeText(n)|;
    NodeEnds(n);
    BodySits(text, s, t, n);
    BodyOk(n);
    BodyFramed(text, b, t - 1, d);
    LastSits(text, b, t - 1, d.items, d.end);
    var p := ChildPlaceOf(text, s, n);
    var q := b + |ItemsText(d.items)|;
    g := Edit(q + p.cut, q + p.cut, p.lead + NodeText(m) + p.tail);
    AppendIs(text, s, t, n, d, m);
    InsertText(text, b, q, t - 1, d.items, d.end, p.cut, p.lead, p.tail, m);
    WithLastIs(d, p, m);
    LeavesAt(text, b, t - 1, g, WithLast(d, p, m));
    BlockLeaves(text, s, t, n, g, Some(WithLast(d, p, m)));
    IsChange(text, s, n, n.(body := Some(WithLast(d, p, m))), g);
  }

  lemma WithLastIs(d: Doc, p: Place, m: Node)
    requires p.cut <= |d.end|
    ensures WithLast(d, p, m) == Doc(d.items + [Item(d.end[..p.cut] + p.lead, m)], p.tail + d.end[p.cut..])
  {
  }

  lemma LeavesAt(text: string, pos: nat, stop: nat, e: Edit, d: Doc)
    requires pos <= e.start <= e.stop <= stop <= |text|
    requires text[pos..e.start] + e.with + text[e.stop..stop] == DocText(d)
    ensures Leaves(text, pos, stop, Some(e), Some(d))
  {
  }

  /** Which edit that is, by whether the block has children. */
  lemma AppendParts(text: string, s: nat, n: Node, d: Doc, rendered: string)
    requires n.body == Some(d) && s + |NodeText(n)| <= |text| && NodeText(n) != ""
    ensures d.items == [] ==>
              && AppendEdit(text, s, n, rendered) == ChildEdit(text, Spot(s, n), rendered)
              && ChildPlaceOf(text, s, n) == ChildPlace(text, d.end, s)
    ensures d.items != [] ==>
              var b := s + BodyAt(n);
              var at := ItemAt(b, d.items, |d.items| - 1);
              var e := at + |NodeText(d.items[|d.items| - 1].node)|;
              && e == b + |ItemsText(d.items)| <= |text|
              && AppendEdit(text, s, n, rendered) == InsertAfterEdit(text, at, e, rendered)
              && ChildPlaceOf(text, s, n) == AfterPlace(d.end, LeadingIndent(text, at), false)
  {
    hide NodeText, ItemsText, ChildEdit, ChildPlace, AfterPlace, InsertAfterEdit, LeadingIndent, BodyAt, ItemAt;
    BlockSize(n);
    LastWithin(s + BodyAt(n), d.items);
  }

  lemma AppendIs(text: string, s: nat, t: nat, n: Node, d: Doc, m: Node)
    requires n.body == Some(d) && t == s + |NodeText(n)| <= |text| && NodeText(n) != "" && text[t - 1] == '}'
    requires s < s + BodyAt(n) <= t - 1 && Sits(text, s + BodyAt(n), t - 1, d.items, d.end)
    requires text[s + BodyAt(n) - 1] == '{'
    ensures var p, q := ChildPlaceOf(text, s, n), s + BodyAt(n) + |ItemsText(d.items)|;
            Meets(text, AppendEdit(text, s, n, NodeText(m)), Edit(q + p.cut, q + p.cut, p.lead + NodeText(m) + p.tail),
                  Clear(d.items, d.end, false))
  {
    hide *;
    var b := s + BodyAt(n);
    var q := b + |ItemsText(d.items)|;
    LastSits(text, b, t - 1, d.items, d.end);
    AppendParts(text, s, n, d, NodeText(m));
    ClearIs(d.items, d.end, false);
    FollowsCloser(text, b, t - 1);
    if d.items == [] {
      NoText();
      HeadInText(text, b, t - 1, d.end);
      HeadOfBlock(text, b, t - 1, d.end);
      ChildIs(text, b, t - 1, d.end, Spot(s, n), NodeText(m));
      var p := ChildPlaceOf(text, s, n);
      EqualMeets(text, AppendEdit(text, s, n, NodeText(m)), Edit(q + p.cut, q + p.cut, p.lead + NodeText(m) + p.tail));
    } else {
      var at := ItemAt(b, d.items, |d.items| - 1);
      AfterEditIs(text, at, q, t - 1, d.end, NodeText(m), false);
    }
  }

  lemma EqualMeets(text: string, e: Edit, g: Edit)
    requires e == g
    ensures Meets(text, e, g, true)
  {
  }

  lemma FollowsCloser(text: string, b: nat, c: nat)
    requires 0 < b <= c < |text| && text[b - 1] == '{' && text[c] == '}'
    ensures Closed(text, b) && Follows(text, c)
  {
  }

  function Newline(text: string): string {
    if text != "" && text[|text| - 1] != '\n' then "\n" else ""
  }

  /** A new section at the end of the file, with the block in it. */
  function NewSection(text: string, d: Doc, parent: string, m: Node): Doc {
    var section := Node(parent, parent, [], " ", Some(Doc([Item("\n" + UNIT, m)], "\n")));
    Doc(d.items + [Item(d.end + Newline(text), section)], "\n")
  }

  lemma NewSectionText(text: string, d: Doc, parent: string, m: Node)
    requires text == DocText(d)
    ensures DocText(NewSection(text, d, parent, m))
            == text + Newline(text) + (parent + " {\n" + UNIT + NodeText(m) + "\n}\n")
  {
    hide NodeText, ItemsText, Newline;
    var inner := Doc([Item("\n" + UNIT, m)], "\n");
    var section := Node(parent, parent, [], " ", Some(inner));
    OneText(inner.items[0]);
    SectionIs(parent, inner);
    var i := Item(d.end + Newline(text), section);
    ItemsAppend(d.items, [i]);
    OneText(i);
    assert " {\n" == " " + "{" + "\n" && "\n}\n" == "\n" + "}" + "\n";
    SectionParts(ItemsText(d.items), d.end, Newline(text), parent, " ", "{", "\n", UNIT, NodeText(m), "}");
  }

  lemma SectionIs(parent: string, inner: Doc)
    ensures NodeText(Node(parent, parent, [], " ", Some(inner)))
            == parent + " " + "{" + (ItemsText(inner.items) + inner.end) + "}"
  {
    hide ItemsText;
    assert parent + "" == parent;
  }

  lemma SectionParts(items: string, end: string, newline: string, parent: string, sp: string, open: string,
                     nl: string, unit: string, m: string, close: string)
    ensures items + ((end + newline) + (parent + sp + open + ((nl + unit) + m + nl) + close)) + nl
            == (items + end) + newline + (parent + (sp + open + nl) + unit + m + (nl + close + nl))
  {
    var s := parent + sp + open + nl + unit + m + nl + close;
    assert parent + sp + open + ((nl + unit) + m + nl) + close == s;
    assert parent + (sp + open + nl) + unit + m + (nl + close + nl) == s + nl;
    assert items + ((end + newline) + s) + nl == (items + end) + newline + (s + nl);
  }

  /** The file with a block of a new name, written for the place it takes. */
  function Added(text: string, d: Doc, parent: string, kind: string, name: string, quoted: string, lines: seq<Node>)
    : Doc
    requires text == DocText(d)
  {
    var b := KindLevels(parent, kind);
    var all := NodesAt(d.items, b);
    if all != [] then
      var k := |all| - 1;
      HitWithin(text, d, b, k);
      var indent := LeadingIndent(text, HitAt(0, d.items, b, k));
      InsertAfter(d.items, d.end, b, k, Block(kind, quoted, name, lines, indent), indent, true)
    else
      match LastSection(d.items, parent)
      case Some(k) =>
        var n := d.items[k].node;
        SectionWithin(text, d, k);
        var p := ChildPlaceOf(text, ItemAt(0, d.items, k), n);
        Doc(d.items[k := Item(d.items[k].gap,
          n.(body := Some(WithLast(n.body.value, p, Block(kind, quoted, name, lines, p.indent)))))], d.end)
      case None => NewSection(text, d, parent, Block(kind, quoted, name, lines, UNIT))
  }

  lemma HitWithin(text: string, d: Doc, l: seq<Level>, k: nat)
    requires l != [] && k < |NodesAt(d.items, l)| && text == DocText(d)
    ensures HitAt(0, d.items, l, k) + |NodeText(NodesAt(d.items, l)[k])| <= |text|
  {
    assert text[0..|text|] == text;
    HitSits(text, 0, |text|, d.items, d.end, l, k);
  }

  lemma SectionWithin(text: string, d: Doc, k: nat)
    requires k < |d.items| && text == DocText(d)
    ensures var s, n := ItemAt(0, d.items, k), d.items[k].node;
            s + |NodeText(n)| <= |text| && text[s..s + |NodeText(n)|] == NodeText(n)
  {
    assert text[0..|text|] == text;
    ItemSits(text, 0, |text|, d.items, d.end, k);
  }

  /** The new block comes after all others of its kind. */
  lemma AddedLast(text: string, d: Doc, parent: string, kind: string, name: string, quoted: string, lines: seq<Node>)
    requires text == DocText(d)
    ensures var b := KindLevels(parent, kind);
            exists indent :: NodesAt(Added(text, d, parent, kind, name, quoted, lines).items, b)
                             == NodesAt(d.items, b) + [Block(kind, quoted, name, lines, indent)]
  {
    hide NodesAt, DocText, HitAt, InsertAfter, LeadingIndent, ChildPlaceOf, Hits, Block, ItemAt, NodeText;
    var b := KindLevels(parent, kind);
    var all := NodesAt(d.items, b);
    var after := Added(text, d, parent, kind, name, quoted, lines);
    if all != [] {
      var k := |all| - 1;
      HitWithin(text, d, b, k);
      var indent := LeadingIndent(text, HitAt(0, d.items, b, k));
      var m := Block(kind, quoted, name, lines, indent);
      assert Matches(Last(b), m) by { BlockMatches(kind, quoted, name, lines, indent); }
      AfterList(d.items, d.end, b, k, m, indent, true);
      assert all[..k + 1] == all && all[k + 1..] == [];
      assert all + [m] + [] == all + [m];
    } else if LastSection(d.items, parent).Some? {
      var k := LastSection(d.items, parent).value;
      var n := d.items[k].node;
      SectionWithin(text, d, k);
      var p := ChildPlaceOf(text, ItemAt(0, d.items, k), n);
      var m := Block(kind, quoted, name, lines, p.indent);
      BlockMatches(kind, quoted, name, lines, p.indent);
      var x := n.(body := Some(WithLast(n.body.value, p, m)));
      NodesAtSplit(d.items, k, b);
      NodesAtUpdate(d.items, k, x, b);
      SectionHits(n, parent, kind, p, m);
      assert NodesAt(d.items[..k], b) == [] && NodesAt(d.items[k + 1..], b) == [] && Hits(n, b) == [];
    } else {
      var m := Block(kind, quoted, name, lines, UNIT);
      BlockMatches(kind, quoted, name, lines, UNIT);
      var i := after.items[|d.items|];
      NodesAtAppend(d.items, [i], b);
      OneNode(i, b);
      NewSectionHits(parent, kind, m, i.node);
    }
  }

  lemma BlockMatches(kind: string, quoted: string, name: string, lines: seq<Node>, indent: string)
    ensures Matches(Level({kind}, None), Block(kind, quoted, name, lines, indent))
  {
  }

  lemma SectionHits(n: Node, parent: string, kind: string, p: Place, m: Node)
    requires n.name == parent && n.body.Some? && p.cut <= |n.body.value.end| && Matches(Level({kind}, None), m)
    ensures var b := KindLevels(parent, kind);
            Hits(n.(body := Some(WithLast(n.body.value, p, m))), b) == Hits(n, b) + [m]
  {
    hide NodesAt;
    var b := KindLevels(parent, kind);
    assert b[1..] == [Level({kind}, None)];
    var i := Item(n.body.value.end[..p.cut] + p.lead, m);
    NodesAtAppend(n.body.value.items, [i], b[1..]);
    OneNode(i, b[1..]);
    OwnHits(m, b[1..]);
  }

  lemma NewSectionHits(parent: string, kind: string, m: Node, section: Node)
    requires section.name == parent && section.body == Some(Doc([Item("\n" + UNIT, m)], "\n"))
    requires Matches(Level({kind}, None), m)
    ensures Hits(section, KindLevels(parent, kind)) == [m]
  {
    hide NodesAt;
    var b := KindLevels(parent, kind);
    assert b[1..] == [Level({kind}, None)];
    OneNode(Item("\n" + UNIT, m), b[1..]);
    OwnHits(m, b[1..]);
  }

  // ----------------------------------------------------------- the operation

  /** The kind is a node's name and the name is quoted. */
  predicate Named(kind: string, quoted: string) {
    quoted != "" && kind != "" && Starter(kind[0])
  }

  /** Where the new text goes there is no comment the editor reads on from. */
  predicate UpsertClear(d: Doc, parent: string, kind: string, name: string) {
    var b, l := KindLevels(parent, kind), BlockLevels(parent, kind, name);
    if NodesAt(d.items, l) != [] then EarlierSafeDoc(d, l)
    else if NodesAt(d.items, b) != [] then ClearAfter(d.items, d.end, b, |NodesAt(d.items, b)| - 1, true)
    else
      match LastSection(d.items, parent)
      case Some(k) => Clear(d.items[k].node.body.value.items, d.items[k].node.body.value.end, false)
      case None => true
  }

  /** So it is in a file that ends all its lines with `\n`. */
  lemma LinedUpsertsClear(d: Doc, parent: string, kind: string, name: string)
    requires Lined(d, true)
    ensures UpsertClear(d, parent, kind, name)
  {
    hide NodesAt, Safe, EarlierSafe, ClearAfter, Exposed, Lined, LastSection;
    var b, l := KindLevels(parent, kind), BlockLevels(parent, kind, name);
    LinedParts(d, true);
    LinedIsSafe(d.items, d.end, l, true, false, true);
    SafeIsEarlierSafe(d.items, d.end, l, true, true);
    if NodesAt(d.items, b) != [] {
      LinedIsClear(d.items, d.end, b, |NodesAt(d.items, b)| - 1, true);
    } else if LastSection(d.items, parent).Some? {
      LinedBody(d.items, LastSection(d.items, parent).value);
    }
  }

  lemma LinedParts(d: Doc, top: bool)
    requires Lined(d, top)
    ensures ItemsLined(d.items) && !Exposed(d.end, top)
  {
    hide Exposed;
  }

  /** The text with a block of a new name written in. */
  function AddedText(text: string, d: Doc, parent: string, kind: string, quoted: string, body: seq<string>): string
    requires text == DocText(d) && DocOk(d)
  {
    var b := KindLevels(parent, kind);
    var all := NodesAt(d.items, b);
    if all != [] then
      HitWithin(text, d, b, |all| - 1);
      var s, last := HitAt(0, d.items, b, |all| - 1), all[|all| - 1];
      Replace(text,
        InsertAfterEdit(text, s, s + |NodeText(last)|, BlockString(kind, quoted, body, LeadingIndent(text, s))))
    else
      match LastSection(d.items, parent)
      case Some(k) =>
        var n, s := d.items[k].node, ItemAt(0, d.items, k);
        SectionOk(text, d, k);
        var rendered := BlockString(kind, quoted, body, ChildPlaceOf(text, s, n).indent);
        AppendWithin(text, s, n, rendered);
        Replace(text, AppendEdit(text, s, n, rendered))
      case None => text + Newline(text) + (parent + " {\n" + UNIT + BlockString(kind, quoted, body, UNIT) + "\n}\n")
  }

  lemma SectionOk(text: string, d: Doc, k: nat)
    requires k < |d.items| && text == DocText(d) && DocOk(d)
    ensures var s, n := ItemAt(0, d.items, k), d.items[k].node;
            NodeOk(n) && NodeText(n) != "" && s + |NodeText(n)| <= |text| && text[s..s + |NodeText(n)|] == NodeText(n)
  {
    hide NodeText, ItemsText;
    SectionWithin(text, d, k);
    ItemOk(d.items, k);
    NodeEnds(d.items[k].node);
  }

  /** That is the text of the tree with the block added exactly where it is
      clear; else the block lands behind what follows. */
  lemma AddedExactly(text: string, d: Doc, parent: string, kind: string, name: string, quoted: string,
                     lines: seq<Node>, body: seq<string>)
    requires text == DocText(d) && DocOk(d) && Texts(lines, body)
    requires NodesAt(d.items, BlockLevels(parent, kind, name)) == []
    ensures (AddedText(text, d, parent, kind, quoted, body)
            == DocText(Added(text, d, parent, kind, name, quoted, lines)))
            <==> UpsertClear(d, parent, kind, name)
  {
    hide NodesAt, DocText, HitAt, InsertAfter, LeadingIndent, ChildPlaceOf, Hits, Block, BlockString, ItemAt,
      NodeText, ItemsText, NewSection, AppendEdit, InsertAfterEdit, ClearAfter, Clear, Meets, Astray, Leaves, Changes,
      DocOk, NodeOk, LastSection, Safe, WithLast, Newline;
    var b := KindLevels(parent, kind);
    var all := NodesAt(d.items, b);
    var after := Added(text, d, parent, kind, name, quoted, lines);
    if all != [] {
      var k := |all| - 1;
      HitWithin(text, d, b, k);
      var s := HitAt(0, d.items, b, k);
      var indent := LeadingIndent(text, s);
      RenderedText(kind, quoted, name, lines, body, indent);
      WholeSits(text, d);
      var e := InsertAfterEdit(text, s, s + |NodeText(all[k])|, BlockString(kind, quoted, body, indent));
      var g := AfterText(text, 0, |text|, d.items, d.end, b, k, Block(kind, quoted, name, lines, indent), indent,
        true, true, e);
      MeetsExactly(text, e, g, ClearAfter(d.items, d.end, b, k, true), after);
    } else if LastSection(d.items, parent).Some? {
      var k := LastSection(d.items, parent).value;
      var n, s := d.items[k].node, ItemAt(0, d.items, k);
      SectionOk(text, d, k);
      var p := ChildPlaceOf(text, s, n);
      RenderedText(kind, quoted, name, lines, body, p.indent);
      var m := Block(kind, quoted, name, lines, p.indent);
      var g := AppendText(text, s, n, m);
      AppendWithin(text, s, n, BlockString(kind, quoted, body, p.indent));
      SectionLeaves(text, d, k, n.(body := Some(WithLast(n.body.value, p, m))), g);
      MeetsExactly(text, AppendEdit(text, s, n, NodeText(m)), g,
        Clear(n.body.value.items, n.body.value.end, false), after);
    } else {
      RenderedText(kind, quoted, name, lines, body, UNIT);
      NewSectionText(text, d, parent, Block(kind, quoted, name, lines, UNIT));
    }
  }

  /** `upsert_block`, as the edits are made. */
  function Upserted(parser: Parser, text: string, d: Doc, parent: string, kind: string, name: string, quoted: string,
                    body: seq<string>): Result<string, EditError>
    requires text == DocText(d) && DocOk(d)
  {
    var l := BlockLevels(parent, kind, name);
    var found := NodesAt(d.items, l);
    if found == [] then Reparse(parser, AddedText(text, d, parent, kind, quoted, body))
    else
      WholeSits(text, d);
      LastHitSits(text, 0, |text|, d.items, d.end, l);
      var s, last := LastHitAt(0, d.items, l), LastOf(found);
      var rendered := BlockString(kind, quoted, body, LeadingIndent(text, s));
      if |found| == 1 && NodeText(last) == rendered then Ok(text)
      else
        EditsWhenFound(text, 0, d.items, l, true, false);
        Checked(parser,
          AllMade(text, [Edit(s, s + |NodeText(last)|, rendered)] + ButLast(FileRemovals(text, d, l, false))))
  }

  /** `upsert_block`, as the file's tree is changed. */
  function Outcome(parser: Parser, text: string, d: Doc, parent: string, kind: string, name: string, quoted: string,
                   lines: seq<Node>)
    : Result<string, EditError>
    requires text == DocText(d) && DocOk(d)
  {
    var l := BlockLevels(parent, kind, name);
    var found := NodesAt(d.items, l);
    if found == [] then Reparse(parser, DocText(Added(text, d, parent, kind, name, quoted, lines)))
    else
      WholeSits(text, d);
      LastHitSits(text, 0, |text|, d.items, d.end, l);
      var m := Block(kind, quoted, name, lines, LeadingIndent(text, LastHitAt(0, d.items, l)));
      if |found| == 1 && NodeText(LastOf(found)) == NodeText(m) then Ok(text)
      else Reparse(parser, DocText(Written(d, parent, kind, name, m)))
  }

  /** `upsert_block`, for any lines: the edits made, which change the text as the
      tree is changed where it is clear and the lines are nodes. */
  method UpsertBlock(parser: Parser, text: string, parent: string, kind: string, name: string, quoted: string,
                     body: seq<string>)
    returns (r: Result<string, EditError>)
    requires Reads(parser, text)
    ensures r.Ok? ==> parser(r.value).Some?
    ensures r == match parser(text) case None => Err(Parse)
                 case Some(d) => Upserted(parser, text, d, parent, kind, name, quoted, body)
    ensures parser(text).Some? && Named(kind, quoted) && UpsertClear(parser(text).value, parent, kind, name) ==>
              forall lines :: Texts(lines, body) && LinesOk(lines) ==>
                r == Outcome(parser, text, parser(text).value, parent, kind, name, quoted, lines)
  {
    hide NodesAt, NodeText, ItemsText, Removals, LastHitAt, HitAt, LastSection, AppendEdit, InsertAfterEdit,
      LeadingIndent, ChildPlaceOf, ItemAt, BlockString, AllMade, Newline, Literal, DocText, DocOk, ItemsOk, NodeOk,
      Reads;
    if parser(text) == None {
      return Err(Parse);
    }
    var d := parser(text).value;
    assert text == DocText(d) && DocOk(d) by { ReadsIt(parser, text); }
    EveryUpsertedIs(parser, text, d, parent, kind, name, quoted, body);
    var b, l := KindLevels(parent, kind), BlockLevels(parent, kind, name);
    var all, found := NodesAt(d.items, b), NodesAt(d.items, l);
    WholeSits(text, d);
    if found != [] {
      LastHitSits(text, 0, |text|, d.items, d.end, l);
      var s, last := LastHitAt(0, d.items, l), LastOf(found);
      var rendered := Render(kind, quoted, body, LeadingIndent(text, s));
      if |found| == 1 && text[s..s + |NodeText(last)|] == rendered {
        return Ok(text);
      }
      EditsWhenFound(text, 0, d.items, l, true, false);
      var gone, removals := Collect(text, 0, d.items, l, true, false);
      var made := SpliceAll(text, [Edit(s, s + |NodeText(last)|, rendered)] + removals[..|removals| - 1]);
      r := Checked(parser, made);
    } else if all != [] {
      HitWithin(text, d, b, |all| - 1);
      var s, last := HitAt(0, d.items, b, |all| - 1), all[|all| - 1];
      var rendered := Render(kind, quoted, body, LeadingIndent(text, s));
      r := Reparse(parser, Replace(text, InsertAfterEdit(text, s, s + |NodeText(last)|, rendered)));
    } else if LastSection(d.items, parent).Some? {
      var k := LastSection(d.items, parent).value;
      var n, s := d.items[k].node, ItemAt(0, d.items, k);
      SectionOk(text, d, k);
      var rendered := Render(kind, quoted, body, ChildPlaceOf(text, s, n).indent);
      AppendWithin(text, s, n, rendered);
      r := Reparse(parser, Replace(text, AppendEdit(text, s, n, rendered)));
    } else {
      var rendered := Render(kind, quoted, body, UNIT);
      r := Reparse(parser, text + Newline(text) + (parent + " {\n" + UNIT + rendered + "\n}\n"));
    }
  }

  /** The last block written anew and the earlier ones removed: the text of the
      tree with the one block, exactly when the removals are safe. */
  lemma WrittenExactly(text: string, d: Doc, parent: string, kind: string, name: string, quoted: string,
                       lines: seq<Node>, s: nat)
    requires text == DocText(d) && DocOk(d) && Named(kind, quoted) && LinesOk(lines)
    requires NodesAt(d.items, BlockLevels(parent, kind, name)) != []
    requires s == LastHitAt(0, d.items, BlockLevels(parent, kind, name)) <= |text|
    ensures FileRemovals(text, d, BlockLevels(parent, kind, name), false) != []
    ensures var l := BlockLevels(parent, kind, name);
            var m := Block(kind, quoted, name, lines, LeadingIndent(text, s));
            var e := Edit(s, s + |NodeText(LastOf(NodesAt(d.items, l)))|, NodeText(m));
            AllMade(text, [e] + ButLast(FileRemovals(text, d, l, false)))
            == Some(DocText(Written(d, parent, kind, name, m)))
            <==> EarlierSafeDoc(d, l)
  {
    hide NodesAt, DocText, LastHitAt, LeadingIndent, Block, NodeText, ItemsText, DocOk, NodeOk, Removals, AllMade,
      Written, Longer, SetLast, Cut, Changes, LinesOk, EarlierSafe, Starter;
    var l := BlockLevels(parent, kind, name);
    WholeSits(text, d);
    LastHitSits(text, 0, |text|, d.items, d.end, l);
    EditsWhenFound(text, 0, d.items, l, true, false);
    var last, m := LastOf(NodesAt(d.items, l)), Block(kind, quoted, name, lines, LeadingIndent(text, s));
    var mark := Longer(NodesAt(d.items, KindLevels(parent, kind)), name);
    assert m.entries != [] by { BlockTitled(kind, quoted, name, lines, LeadingIndent(text, s)); }
    Rewrites(text, d, parent, kind, name, quoted, lines, s, last, m, mark);
    SettledExactly(text, d, l, Marked(m, mark), Edit(s, s + |NodeText(last)|, NodeText(m)));
  }

  /** The edits change the text as the tree is changed, for a body made of nodes
      and where it is clear. */
  lemma UpsertedIs(parser: Parser, text: string, d: Doc, parent: string, kind: string, name: string, quoted: string,
                   lines: seq<Node>, body: seq<string>)
    requires text == DocText(d) && DocOk(d) && Texts(lines, body) && LinesOk(lines)
    requires UpsertClear(d, parent, kind, name)
    requires Named(kind, quoted)
    ensures Upserted(parser, text, d, parent, kind, name, quoted, body)
            == Outcome(parser, text, d, parent, kind, name, quoted, lines)
  {
    hide NodesAt, DocText, LastHitAt, LeadingIndent, Block, BlockString, NodeText, ItemsText, AddedText, Added, DocOk,
      NodeOk, Removals, AllMade, Written, LinesOk, EarlierSafe, Starter;
    var l := BlockLevels(parent, kind, name);
    if NodesAt(d.items, l) == [] {
      AddedExactly(text, d, parent, kind, name, quoted, lines, body);
    } else {
      WholeSits(text, d);
      LastHitSits(text, 0, |text|, d.items, d.end, l);
      var s := LastHitAt(0, d.items, l);
      RenderedText(kind, quoted, name, lines, body, LeadingIndent(text, s));
      WrittenExactly(text, d, parent, kind, name, quoted, lines, s);
    }
  }

  lemma EveryUpsertedIs(parser: Parser, text: string, d: Doc, parent: string, kind: string, name: string,
                        quoted: string, body: seq<string>)
    requires text == DocText(d) && DocOk(d)
    ensures Named(kind, quoted) && UpsertClear(d, parent, kind, name) ==>
              forall lines :: Texts(lines, body) && LinesOk(lines) ==>
                Upserted(parser, text, d, parent, kind, name, quoted, body)
                == Outcome(parser, text, d, parent, kind, name, quoted, lines)
  {
    hide Texts, LinesOk, UpsertClear, Upserted, Outcome, Named, DocOk, DocText;
    if Named(kind, quoted) && UpsertClear(d, parent, kind, name) {
      forall lines | Texts(lines, body) && LinesOk(lines)
        ensures Upserted(parser, text, d, parent, kind, name, quoted, body)
                == Outcome(parser, text, d, parent, kind, name, quoted, lines)
      {
        UpsertedIs(parser, text, d, parent, kind, name, quoted, lines, body);
      }
    }
  }

  lemma BlockTitled(kind: string, quoted: string, name: string, lines: seq<Node>, indent: string)
    ensures Block(kind, quoted, name, lines, indent).entries != []
  {
  }

  lemma Rewrites(text: string, d: Doc, parent: string, kind: string, name: string, quoted: string, lines: seq<Node>,
                 s: nat, last: Node, m: Node, mark: string)
    requires quoted != "" && LinesOk(lines) && kind != "" && Starter(kind[0])
    requires NodesAt(d.items, BlockLevels(parent, kind, name)) != []
    requires last == LastOf(NodesAt(d.items, BlockLevels(parent, kind, name)))
    requires s == LastHitAt(0, d.items, BlockLevels(parent, kind, name)) && s + |NodeText(last)| <= |text|
    requires m == Block(kind, quoted, name, lines, LeadingIndent(text, s))
    requires mark == Longer(NodesAt(d.items, KindLevels(parent, kind)), name)
    ensures m.entries != [] && NodeOk(Marked(m, mark))
    ensures !Matches(Last(BlockLevels(parent, kind, name)), Marked(m, mark))
    ensures Changes(text, s, last, Marked(m, mark), Edit(s, s + |NodeText(last)|, NodeText(m)))
    ensures var l := BlockLevels(parent, kind, name);
            DocText(Written(d, parent, kind, name, m))
              == DocText(CutDoc(Doc(SetLast(d.items, l, Marked(m, mark)), d.end), l, false))
  {
    hide NodesAt, NodeText, ItemsText, LastHitAt, LeadingIndent, NodeOk, Longer, Written, DocText, CutDoc, SetLast,
      LinesOk, Changes, LineItems;
    BlockOk(kind, quoted, name, lines, LeadingIndent(text, s));
    MarkedOk(m, mark);
    MarkedText(m, mark);
    WholeChange(text, s, last, Marked(m, mark));
    WrittenSettles(d, parent, kind, name, m);
    assert Title(Marked(m, mark).entries) == Some(mark) && |mark| > |name|;
    KindWidens(parent, kind, name);
  }

  lemma SectionLeaves(text: string, d: Doc, k: nat, x: Node, e: Edit)
    requires k < |d.items| && text == DocText(d) && Changes(text, ItemAt(0, d.items, k), d.items[k].node, x, e)
    ensures Leaves(text, 0, |text|, Some(e), Some(Doc(d.items[k := Item(d.items[k].gap, x)], d.end)))
  {
    hide *;
    EndsWithin(text, d);
    ItemSits(text, 0, |text|, d.items, d.end, k);
    ChangesIs(text, ItemAt(0, d.items, k), d.items[k].node, x, e);
    ItemEdit(text, 0, |text|, d.items, d.end, k, x, e);
  }

  lemma EndsWithin(text: string, d: Doc)
    requires text == DocText(d)
    ensures Sits(text, 0, |text|, d.items, d.end)
  {
    assert text[0..|text|] == text;
  }

  /** An upsert leaves one block of the name: in the last one's place among the
      others, or after them all. */
  lemma UpsertSettles(text: string, d: Doc, parent: string, kind: string, name: string, quoted: string,
                      lines: seq<Node>)
    requires text == DocText(d)
    ensures var b, l := KindLevels(parent, kind), BlockLevels(parent, kind, name);
            && (NodesAt(d.items, l) == [] ==>
                  exists indent :: NodesAt(Added(text, d, parent, kind, name, quoted, lines).items, b)
                                   == NodesAt(d.items, b) + [Block(kind, quoted, name, lines, indent)])
            && (NodesAt(d.items, l) != [] ==> forall indent ::
                  var m := Block(kind, quoted, name, lines, indent);
                  && NodesAt(Written(d, parent, kind, name, m).items, b)
                    == Settled(NodesAt(d.items, b), Level({kind}, Some(name)), m)
                  && NodesAt(Written(d, parent, kind, name, m).items, l) == [m])
  {
    hide NodesAt, Written, Added, Settled, DocText;
    AddedLast(text, d, parent, kind, name, quoted, lines);
    if NodesAt(d.items, BlockLevels(parent, kind, name)) != [] {
      forall indent: string
        ensures var m := Block(kind, quoted, name, lines, indent);
                && NodesAt(Written(d, parent, kind, name, m).items, KindLevels(parent, kind))
                   == Settled(NodesAt(d.items, KindLevels(parent, kind)), Level({kind}, Some(name)), m)
                && NodesAt(Written(d, parent, kind, name, m).items, BlockLevels(parent, kind, name)) == [m]
      {
        WrittenSettles(d, parent, kind, name, Block(kind, quoted, name, lines, indent));
      }
    }
  }

  // -------------------------------------------------------- all the rest

  /** Every path apart from the blocks of the kind leads where it did. */
  lemma WrittenKeepsRest(d: Doc, parent: string, kind: string, name: string, m: Node, q: seq<Level>)
    requires m.name == kind && m.entries != [] && Apart(KindLevels(parent, kind), q) && q != []
    ensures NodesAt(Written(d, parent, kind, name, m).items, q) == NodesAt(d.items, q)
  {
    hide NodesAt, Renamed, SetLast, Apart, Widens, Longer;
    var b := KindLevels(parent, kind);
    var mark := Longer(NodesAt(d.items, b), name);
    var x := Marked(m, mark);
    var left := Renamed(d, parent, kind, name, x);
    RenameKeepsRest(d, parent, kind, name, x, q);
    KindWidens(parent, kind, mark);
    SetLastRest(left.items, BlockLevels(parent, kind, mark), b, m, q);
  }

  lemma AddedKeepsRest(text: string, d: Doc, parent: string, kind: string, name: string, quoted: string,
                       lines: seq<Node>, q: seq<Level>)
    requires text == DocText(d) && Apart(KindLevels(parent, kind), q) && q != []
    ensures NodesAt(Added(text, d, parent, kind, name, quoted, lines).items, q) == NodesAt(d.items, q)
  {
    hide NodesAt, DocText, HitAt, InsertAfter, LeadingIndent, ChildPlaceOf, Hits, Block, ItemAt, NodeText, Apart;
    var b := KindLevels(parent, kind);
    var all := NodesAt(d.items, b);
    if all != [] {
      var k := |all| - 1;
      HitWithin(text, d, b, k);
      var indent := LeadingIndent(text, HitAt(0, d.items, b, k));
      BlockMatches(kind, quoted, name, lines, indent);
      AfterRest(d.items, d.end, b, k, Block(kind, quoted, name, lines, indent), indent, true, q);
    } else if LastSection(d.items, parent).Some? {
      var k := LastSection(d.items, parent).value;
      var n := d.items[k].node;
      SectionWithin(text, d, k);
      var p := ChildPlaceOf(text, ItemAt(0, d.items, k), n);
      BlockMatches(kind, quoted, name, lines, p.indent);
      var m := Block(kind, quoted, name, lines, p.indent);
      var i := Item(n.body.value.end[..p.cut] + p.lead, m);
      SectionRest(n, WithLast(n.body.value, p, m), i, parent, kind, q);
      NodesAtSplit(d.items, k, q);
      NodesAtUpdate(d.items, k, n.(body := Some(WithLast(n.body.value, p, m))), q);
    } else {
      var m := Block(kind, quoted, name, lines, UNIT);
      BlockMatches(kind, quoted, name, lines, UNIT);
      var i := NewSection(text, d, parent, m).items[|d.items|];
      NodesAtAppend(d.items, [i], q);
      OneNode(i, q);
      NewSectionRest(i.node, Item("\n" + UNIT, m), parent, kind, q);
      assert NodesAt(d.items, q) + [] == NodesAt(d.items, q);
    }
  }
}
