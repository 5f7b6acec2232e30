/** Setting the value at a path, on the text: the one run of bytes that changes,
    and that it leaves the text of the tree with the value set. */
module SetText {
  import opened Options
  import opened Bytes
  import opened Kdl
  import opened Prune
  import opened SetTree

  /** A node and where it starts. */
  datatype Spot = Spot(at: nat, node: Node)

  /** What `resolve` finds: the node to write in, or the names that are missing
      and where they go, which for an empty block is between its braces. */
  datatype Resolved =
    | Found(spot: Spot)
    | Missing(left: seq<string>, at: nat, indent: string)
    | Empty(left: seq<string>, block: Spot)

  /** What a list of nodes makes up. */
  datatype Parent = File | Block(spot: Spot)

  function LineEnd(text: string, at: nat): nat
    requires at <= |text|
  {
    LineStop(text, at) + if LineStop(text, at) < |text| then 1 else 0
  }

  function AfterSemi(text: string, at: nat): nat
    requires at <= |text|
  {
    var after := TrimBlanks(text[at..]);
    if after != "" && after[0] == ';' then |text| - |after| + 1 else at
  }

  function MissingAt(text: string, pos: nat, items: seq<Item>, parent: Parent, left: seq<string>): Resolved
    requires pos + |ItemsText(items)| <= |text| && (parent.Block? ==> parent.spot.at <= |text|)
  {
    if items != [] then
      LastWithin(pos, items);
      var s := ItemAt(pos, items, |items| - 1);
      var e := s + |NodeText(items[|items| - 1].node)|;
      if TailIsTrivial(text, e) then Missing(left, LineEnd(text, e), LeadingIndent(text, s))
      else
        Missing(left, AfterSemi(text, e), if parent.Block? then LeadingIndent(text, parent.spot.at) + UNIT else "")
    else if parent.Block? then Empty(left, parent.spot)
    else Missing(left, |text|, "")
  }

  function Resolve(text: string, pos: nat, items: seq<Item>, parent: Parent, parts: seq<string>): Resolved
    requires parts != [] && pos + |ItemsText(items)| <= |text| && (parent.Block? ==> parent.spot.at <= |text|)
    decreases |parts|
  {
    match LastNamed(items, parts[0])
    case None => MissingAt(text, pos, items, parent, parts)
    case Some(k) =>
      var n := items[k].node;
      var s := ItemAt(pos, items, k);
      if |parts| == 1 then Found(Spot(s, n))
      else
        match n.body
        case None => MissingAt(text, pos, items, parent, parts)
        case Some(d) =>
          BodyWithin(pos, items, k, d);
          Resolve(text, s + BodyAt(n), d.items, Block(Spot(s, n)), parts[1..])
  }

  /** The bytes of a node to replace, and with what. */
  function NodeEdit(n: Node, s: nat, shape: Shape): Option<Edit> {
    match shape
    case Scalar(v) =>
      (match Positional(n.entries)
       case None => None
       case Some(i) =>
         var a := s + |n.written| + |EntriesText(n.entries[..i])| + |n.entries[i].lead|;
         Some(Edit(a, a + |n.entries[i].repr|, v.repr)))
    case Many(vs) =>
      if n.body.Some? || exists i :: 0 <= i < |n.entries| && n.entries[i].key.Some? then None
      else
        var name := s + |n.written|;
        var first := name + if n.entries == [] then 0 else |n.entries[0].lead|;
        var stop := name + |EntriesText(n.entries)|;
        if Rendered(shape) == "" then Some(Edit(name, stop, ""))
        else if first == stop then Some(Edit(name, stop, " " + Rendered(shape)))
        else Some(Edit(first, stop, Rendered(shape)))
  }

  /** A child written into the empty block at `b`: on its own line before the
      `}` when that has its line to itself, else breaking the line there. */
  function ChildEdit(text: string, b: Spot, child: string): Edit
    requires b.at < b.at + |NodeText(b.node)| <= |text|
  {
    var close := b.at + |NodeText(b.node)| - 1;
    var outer := LeadingIndent(text, b.at);
    var inner := Inner(outer);
    var ls := LineStart(text, close);
    if ls > b.at && AllWhite(text[ls..close]) then Edit(ls, ls, inner + child + "\n")
    else Edit(close, close, "\n" + inner + child + "\n" + outer)
  }

  predicate Writable(text: string, r: Resolved) {
    match r
    case Found(spot) => true
    case Missing(left, at, indent) => left != [] && at <= |text|
    case Empty(left, block) => left != [] && block.at < block.at + |NodeText(block.node)| <= |text|
  }

  function ResolvedEdit(text: string, r: Resolved, shape: Shape): Option<Edit>
    requires Writable(text, r)
  {
    match r
    case Found(spot) => NodeEdit(spot.node, spot.at, shape)
    case Empty(left, block) =>
      Some(ChildEdit(text, block, NodeText(Built(left, Inner(LeadingIndent(text, block.at)), shape))))
    case Missing(left, at, indent) =>
      var newline := if at > 0 && text[at - 1] != '\n' then "\n" else "";
      Some(Edit(at, at, newline + (indent + NodeText(Built(left, indent, shape)) + "\n")))
  }

  // ------------------------------------------------------- when it goes well

  /** Behind the last of the items no comment hides the block's closing brace
      from the editor, which looks for `\n`. */
  predicate Clear(items: seq<Item>, end: string, top: bool) {
    items == [] || !Exposed(end, top)
  }

  /** Where the walk along the path ends, there is a value to change or a clear
      place for a new one. */
  predicate Reached(items: seq<Item>, end: string, top: bool, parts: seq<string>)
    requires parts != []
    decreases |parts|
  {
    match LastNamed(items, parts[0])
    case None => Clear(items, end, top)
    case Some(k) =>
      |parts| == 1 ||
      match items[k].node.body
      case None => Clear(items, end, top)
      case Some(d) => Reached(d.items, d.end, false, parts[1..])
  }

  /** In a file that ends all its lines with `\n` it always is. */
  lemma {:induction false} LinedIsReached(items: seq<Item>, end: string, top: bool, parts: seq<string>)
    requires parts != [] && ItemsLined(items) && !Exposed(end, top)
    ensures Reached(items, end, top, parts)
    decreases |parts|
  {
    hide Exposed;
    var k := LastNamed(items, parts[0]);
    if k.Some? && |parts| > 1 && items[k.value].node.body.Some? {
      LinedBody(items, k.value);
      LinedIsReached(items[k.value].node.body.value.items, items[k.value].node.body.value.end, false, parts[1..]);
    }
  }

  lemma {:induction false} LinedBody(items: seq<Item>, k: nat)
    requires ItemsLined(items) && k < |items| && items[k].node.body.Some?
    ensures var d := items[k].node.body.value; ItemsLined(d.items) && !Exposed(d.end, false)
  {
    hide Exposed;
    if k > 0 {
      LinedBody(items[1..], k - 1);
    } else {
      assert NodeLined(items[0].node) && Lined(items[0].node.body.value, false);
    }
  }

  /** An insertion at the wrong place: behind the line of the right one, `g`. */
  ghost predicate Astray(text: string, e: Edit, g: Edit) {
    && g.start == g.stop < e.start == e.stop <= |text|
    && g.with != "" && g.with[0] == '\n' && text[g.start] != '\n' && e.with != ""
  }

  /** The edit leaves the text of `d`; or it is astray of one that does. */
  ghost predicate Lands(text: string, pos: nat, stop: nat, edit: Option<Edit>, d: Option<Doc>, well: bool) {
    if well then Leaves(text, pos, stop, edit, d)
    else edit.Some? && exists g :: Leaves(text, pos, stop, Some(g), d) && Astray(text, edit.value, g)
  }

  // ------------------------------------------------------- inside one node

  lemma SpliceAt(c: string, a: string, mid: string, z: string, with: string)
    requires c == a + mid + z
    ensures |a| + |mid| <= |c| && c[..|a|] + with + c[|a| + |mid|..] == a + with + z
  {
    assert c[..|a|] == a && c[|a| + |mid|..] == z;
  }

  /** A node's text after its arguments. */
  function AfterEntries(n: Node): string {
    match n.body
    case None => ""
    case Some(d) => n.lead + "{" + DocText(d) + "}"
  }

  lemma NodeParts(n: Node, es: seq<Entry>)
    ensures NodeText(n.(entries := es)) == n.written + EntriesText(es) + AfterEntries(n)
  {
    if n.body.Some? {
      var d := n.body.value;
      Regroup(n.written + EntriesText(es), n.lead, "{");
      Regroup(n.written + EntriesText(es), n.lead + "{", DocText(d));
      Regroup(n.written + EntriesText(es), n.lead + "{" + DocText(d), "}");
    }
  }

  lemma {:induction false} EntriesAppend(a: seq<Entry>, b: seq<Entry>)
    ensures EntriesText(a + b) == EntriesText(a) + EntriesText(b)
  {
    if a == [] {
      assert a + b == b;
    } else {
      assert (a + b)[0] == a[0] && (a + b)[1..] == a[1..] + b;
      EntriesAppend(a[1..], b);
    }
  }

  lemma EntriesSplit(es: seq<Entry>, i: nat, e: Entry)
    requires i < |es|
    ensures EntriesText(es[i := e]) == EntriesText(es[..i]) + EntryText(e) + EntriesText(es[i + 1..])
  {
    assert es[i := e] == es[..i] + ([e] + es[i + 1..]);
    EntriesAppend(es[..i], [e] + es[i + 1..]);
    assert ([e] + es[i + 1..])[1..] == es[i + 1..];
  }

  lemma FirstEntry(lead: string, v: Value, es: seq<Entry>)
    ensures EntriesText([Entry(lead, None, v.repr, v.str)] + es) == lead + v.repr + EntriesText(es)
  {
    var all := [Entry(lead, None, v.repr, v.str)] + es;
    assert all[1..] == es;
    assert EntryText(all[0]) == lead + v.repr;
  }

  /** Values written one after the other, the first after `lead`. */
  lemma {:induction false} ListText(lead: string, vs: seq<Value>)
    requires vs != []
    ensures EntriesText([Entry(lead, None, vs[0].repr, vs[0].str)] + ListEntries(vs[1..])) == lead + Join(vs)
    decreases |vs|
  {
    hide EntriesText;
    FirstEntry(lead, vs[0], ListEntries(vs[1..]));
    if |vs| == 1 {
      assert vs[1..] == [];
      assert EntriesText([]) == "" by { NoEntries(); }
    } else {
      ListText(" ", vs[1..]);
      Regroup(lead, vs[0].repr, " " + Join(vs[1..]));
      Regroup(vs[0].repr, " ", Join(vs[1..]));
    }
  }

  lemma NoEntries()
    ensures EntriesText([]) == ""
  {
  }

  /** The edit of a node's bytes is the change of its arguments. */
  lemma NodeEditText(n: Node, shape: Shape)
    requires ShapeOk(shape) && forall i :: 0 <= i < |n.entries| ==> n.entries[i].repr != ""
    ensures NodeEdit(n, 0, shape).None? <==> NewEntries(n, shape).None?
    ensures NodeEdit(n, 0, shape).Some? ==>
              var e, c := NodeEdit(n, 0, shape).value, NodeText(n);
              && e.start <= e.stop <= |c|
              && c[..e.start] + e.with + c[e.stop..] == NodeText(n.(entries := NewEntries(n, shape).value))
  {
    hide NodeText, AfterEntries;
    if NewEntries(n, shape).Some? {
      NodeParts(n, n.entries);
      NodeParts(n, NewEntries(n, shape).value);
      assert n.(entries := n.entries) == n;
      if shape.Scalar? {
        ScalarEditText(n, shape, Positional(n.entries).value);
      } else {
        ListEditText(n, shape);
      }
    }
  }

  lemma ScalarEditText(n: Node, shape: Shape, i: nat)
    requires shape.Scalar? && Positional(n.entries) == Some(i)
    requires NodeText(n) == n.written + EntriesText(n.entries) + AfterEntries(n)
    ensures var e, c := NodeEdit(n, 0, shape).value, NodeText(n);
            && e.start <= e.stop <= |c|
            && c[..e.start] + e.with + c[e.stop..]
              == n.written + EntriesText(NewEntries(n, shape).value) + AfterEntries(n)
  {
    hide NodeText, AfterEntries, EntriesText;
    var v, e := shape.value, n.entries[i];
    var f := e.(repr := v.repr, str := v.str);
    assert n.entries[i := e] == n.entries;
    EntriesSplit(n.entries, i, e);
    EntriesSplit(n.entries, i, f);
    assert EntryText(e) == e.lead + e.repr && EntryText(f) == e.lead + v.repr;
    var a, z, w := EntriesText(n.entries[..i]), EntriesText(n.entries[i + 1..]), AfterEntries(n);
    Entry5(n.written, a, e.lead, e.repr, z, w);
    Entry5(n.written, a, e.lead, v.repr, z, w);
    SpliceAt(NodeText(n), n.written + a + e.lead, e.repr, z + w, v.repr);
  }

  lemma Entry5(a: string, b: string, c: string, d: string, e: string, f: string)
    ensures a + (b + (c + d) + e) + f == (a + b + c) + d + (e + f)
  {
  }

  lemma ListEditText(n: Node, shape: Shape)
    requires shape.Many? && ShapeOk(shape) && NewEntries(n, shape).Some?
    requires NodeText(n) == n.written + EntriesText(n.entries) + AfterEntries(n)
    requires forall i :: 0 <= i < |n.entries| ==> n.entries[i].repr != ""
    ensures var e, c := NodeEdit(n, 0, shape).value, NodeText(n);
            && e.start <= e.stop <= |c|
            && c[..e.start] + e.with + c[e.stop..]
              == n.written + EntriesText(NewEntries(n, shape).value) + AfterEntries(n)
  {
    hide NodeText, AfterEntries, EntriesText, Join;
    var vs, es := shape.values, n.entries;
    var t, w := EntriesText(es), AfterEntries(n);
    JoinEmpty(vs);
    NoEntries();
    if vs == [] {
      SpliceAt(NodeText(n), n.written, t, w, "");
    } else if es == [] {
      ListText(" ", vs);
      SpliceAt(NodeText(n), n.written, t, w, " " + Join(vs));
    } else {
      FirstListed(n);
      var lead, mid := es[0].lead, es[0].repr + EntriesText(es[1..]);
      ListText(lead, vs);
      Regroup(n.written, lead, mid);
      Regroup(n.written, lead, Join(vs));
      SpliceAt(NodeText(n), n.written + lead, mid, w, Join(vs));
    }
  }

  lemma FirstListed(n: Node)
    requires n.entries != [] && n.entries[0].key == None
    ensures EntriesText(n.entries) == n.entries[0].lead + (n.entries[0].repr + EntriesText(n.entries[1..]))
  {
    assert EntryText(n.entries[0]) == n.entries[0].lead + n.entries[0].repr;
    Regroup(n.entries[0].lead, n.entries[0].repr, EntriesText(n.entries[1..]));
  }

  lemma JoinEmpty(vs: seq<Value>)
    requires forall i :: 0 <= i < |vs| ==> vs[i].repr != ""
    ensures Join(vs) == "" <==> vs == []
  {
  }

  // ------------------------------------------------------ a new last child

  lemma {:induction false} BlanksSuffix(h: string)
    ensures h[|h| - |TrimBlanks(h)|..] == TrimBlanks(h)
  {
    if h != "" && (h[0] == ' ' || h[0] == '\t') {
      BlanksSuffix(h[1..]);
    }
  }

  lemma SemiEnds(h: string)
    ensures SemiStop(h) > 0 ==> h[SemiStop(h) - 1] == ';'
  {
    BlanksSuffix(h);
  }

  /** Where a block is in the text, and what is around it. */
  ghost predicate Within(text: string, pos: nat, stop: nat, items: seq<Item>, end: string, parent: Parent,
                         first: bool) {
    && Sits(text, pos, stop, items, end) && ItemsOk(items) && Framed(text, pos, stop, end, parent == File, first)
    && match parent
       case File => pos == 0
       case Block(p) =>
         && p.at + BodyAt(p.node) == pos && p.at + |NodeText(p.node)| == stop + 1
         && text[pos - 1] == '{'
  }

  function Start(parent: Parent): Option<nat> {
    match parent
    case File => None
    case Block(p) => Some(p.at)
  }

  /** The text of a block with a new last child, its end parted around it. */
  lemma InsertText(text: string, pos: nat, q: nat, stop: nat, items: seq<Item>, end: string, cut: nat, lead: string,
                   tail: string, b: Node)
    requires pos <= q <= stop <= |text| && text[pos..q] == ItemsText(items) && text[q..stop] == end && cut <= |end|
    ensures q + cut <= stop
    ensures text[pos..q + cut] + (lead + NodeText(b) + tail) + text[q + cut..stop]
            == DocText(Doc(items + [Item(end[..cut] + lead, b)], tail + end[cut..]))
  {
    hide NodeText, ItemsText;
    var i := Item(end[..cut] + lead, b);
    SubSlice(text, q, stop, 0, cut);
    SubSlice(text, q, stop, cut, |end|);
    assert text[pos..q + cut] == text[pos..q] + text[q..q + cut];
    ItemsAppend(items, [i]);
    OneText(i);
    SevenParts(ItemsText(items), end[..cut], lead, NodeText(b), tail, end[cut..]);
  }

  lemma OneText(i: Item)
    ensures ItemsText([i]) == i.gap + NodeText(i.node)
  {
    hide NodeText;
    assert ItemsText([i]) == i.gap + NodeText(i.node) + ItemsText([]);
  }

  lemma SevenParts(a: string, b: string, c: string, d: string, e: string, f: string)
    ensures (a + b) + (c + d + e) + f == a + (b + c + d) + (e + f)
  {
  }

  /** The items take the text up to the last node's end. */
  lemma LastSits(text: string, pos: nat, stop: nat, items: seq<Item>, end: string)
    requires Sits(text, pos, stop, items, end)
    ensures var q := pos + |ItemsText(items)|;
            q <= stop && text[pos..q] == ItemsText(items) && text[q..stop] == end
  {
    SliceParts(text, pos, stop, ItemsText(items), end);
  }

  lemma {:induction false} LastOk(items: seq<Item>)
    requires ItemsOk(items) && items != []
    ensures NodeOk(items[|items| - 1].node)
    decreases |items|
  {
    if |items| > 1 {
      LastOk(items[1..]);
    }
  }

  lemma LastChar(items: seq<Item>)
    requires ItemsOk(items) && items != []
    ensures ItemsText(items) != "" && !White(ItemsText(items)[|ItemsText(items)| - 1])
  {
    var k := |items| - 1;
    ItemsSplit(items, k);
    LastOk(items);
    NodeEnds(items[k].node);
    assert items[k + 1..] == [];
    var c, t := NodeText(items[k].node), ItemsText(items);
    assert ItemsText([]) == "";
    assert t == ItemsText(items[..k]) + (items[k].gap + c);
  }

  /** The edit for a missing path, told from the gap at the block's end. */
  ghost predicate Edits(text: string, pos: nat, items: seq<Item>, end: string, parent: Parent, parts: seq<string>,
                        shape: Shape, e: Edit)
    requires parts != [] && pos + |ItemsText(items)| <= |text| && (parent.Block? ==> parent.spot.at <= |text|)
  {
    LastWithin(pos, items);
    var p := PlaceIn(text, LastAt(pos, items), end, Start(parent));
    var q := pos + |ItemsText(items)|;
    e == Edit(q + p.cut, q + p.cut, p.lead + NodeText(Built(parts, p.indent, shape)) + p.tail)
  }

  lemma {:induction false} MissingAfter(text: string, pos: nat, stop: nat, items: seq<Item>, end: string,
                                        parent: Parent, first: bool, parts: seq<string>, shape: Shape)
    requires parts != [] && items != [] && Within(text, pos, stop, items, end, parent, first)
    requires pos + |ItemsText(items)| <= |text| && (parent.Block? ==> parent.spot.at <= |text|)
    ensures Writable(text, MissingAt(text, pos, items, parent, parts))
    ensures ResolvedEdit(text, MissingAt(text, pos, items, parent, parts), shape).Some?
    ensures var e := ResolvedEdit(text, MissingAt(text, pos, items, parent, parts), shape).value;
            if !Exposed(end, parent == File) then Edits(text, pos, items, end, parent, parts, shape, e)
            else exists g :: Edits(text, pos, items, end, parent, parts, shape, g) && Astray(text, e, g)
  {
    hide *;
    var s := ItemAt(pos, items, |items| - 1);
    var q := pos + |ItemsText(items)|;
    LastWithin(pos, items);
    WithinSits(text, pos, stop, items, end, parent, first);
    LastSits(text, pos, stop, items, end);
    LastChar(items);
    TailInText(text, q, stop, end);
    SemiInText(text, q, stop, end);
    TextAfter(text, q, end, parent == File);
    BeforeTail(text, pos, q, stop, items, end);
    MissingAfterIs(text, pos, items, parent, parts, s, q);
    PlaceAfterIs(text, pos, items, end, parent, s);
    TrivialOrExposed(end, parent == File);
    if TailTrivial(end, parent == File) {
      var indent := LeadingIndent(text, s);
      InsertEdit(text, parts, indent, shape, q, TailStop(end), if HasLine(end) then "" else "\n");
      EditsIs(text, pos, items, end, parent, parts, shape,
              ResolvedEdit(text, MissingAt(text, pos, items, parent, parts), shape).value);
    } else {
      InsertEdit(text, parts, BlockIndent(text, parent), shape, q, SemiStop(end), "\n");
      var g := ResolvedEdit(text, Missing(parts, q + SemiStop(end), BlockIndent(text, parent)), shape).value;
      EditsIs(text, pos, items, end, parent, parts, shape, g);
      if Exposed(end, parent == File) {
        BeyondLine(text, q, stop, end, parent == File, parts, LeadingIndent(text, s), shape, g);
      }
    }
  }

  lemma TrivialOrExposed(h: string, eof: bool)
    ensures !(TailTrivial(h, eof) && Exposed(h, eof))
  {
  }

  /** Written behind the line, past what follows the gap. */
  lemma BeyondLine(text: string, q: nat, stop: nat, end: string, eof: bool, left: seq<string>, indent: string,
                   shape: Shape, g: Edit)
    requires left != [] && q <= stop <= |text| && text[q..stop] == end && Exposed(end, eof) && LineStop(text, q) > stop
    requires g.start == g.stop == q + SemiStop(end) && g.with != "" && g.with[0] == '\n'
    ensures LineEnd(text, q) <= |text| && Writable(text, Missing(left, LineEnd(text, q), indent))
    ensures ResolvedEdit(text, Missing(left, LineEnd(text, q), indent), shape).Some?
    ensures Astray(text, ResolvedEdit(text, Missing(left, LineEnd(text, q), indent), shape).value, g)
  {
    hide NodeText, Built, Strip, LineStop;
    SemiBeforeComment(end);
    assert text[q + SemiStop(end)] == end[SemiStop(end)];
  }

  /** The comment of an exposed gap is behind its `;`. */
  lemma SemiBeforeComment(h: string)
    requires "//" <= Strip(h)
    ensures SemiStop(h) < |h|
  {
    var after := TrimBlanks(h);
    if after != "" && after[0] == ';' {
      assert !White(';');
      BlanksAreWhite(h);
      assert |Strip(h)| <= |after| - 1;
    }
  }

  lemma {:induction false} BlanksAreWhite(h: string)
    requires TrimBlanks(h) != "" && !White(TrimBlanks(h)[0])
    ensures TrimStart(h) == TrimBlanks(h)
  {
    assert White(' ') && White('\t');
    if h[0] == ' ' || h[0] == '\t' {
      BlanksAreWhite(h[1..]);
    }
  }

  lemma EditsIs(text: string, pos: nat, items: seq<Item>, end: string, parent: Parent, parts: seq<string>,
                shape: Shape, e: Edit)
    requires parts != [] && pos + |ItemsText(items)| <= |text| && (parent.Block? ==> parent.spot.at <= |text|)
    requires LastAt(pos, items).Some? ==> LastAt(pos, items).value <= |text|
    requires var p := PlaceIn(text, LastAt(pos, items), end, Start(parent));
             var q := pos + |ItemsText(items)|;
             e == Edit(q + p.cut, q + p.cut, p.lead + NodeText(Built(parts, p.indent, shape)) + p.tail)
    ensures Edits(text, pos, items, end, parent, parts, shape, e)
  {
  }

  function BlockIndent(text: string, parent: Parent): string
    requires parent.Block? ==> parent.spot.at <= |text|
  {
    if parent.Block? then LeadingIndent(text, parent.spot.at) + UNIT else ""
  }

  lemma WithinSits(text: string, pos: nat, stop: nat, items: seq<Item>, end: string, parent: Parent, first: bool)
    requires Within(text, pos, stop, items, end, parent, first)
    ensures Sits(text, pos, stop, items, end) && ItemsOk(items) && pos <= stop <= |text|
    ensures Follows(text, stop) && (stop == |text| <==> parent == File)
  {
  }

  lemma TextAfter(text: string, q: nat, end: string, eof: bool)
    requires q <= |text|
    requires TailTrivial(end, eof) ==>
            LineStop(text, q) + (if LineStop(text, q) < |text| then 1 else 0) == q + TailStop(end)
    requires var after := TrimBlanks(text[q..]);
             (if after != "" && after[0] == ';' then |text| - |after| + 1 else q) == q + SemiStop(end)
    ensures TailTrivial(end, eof) ==> LineEnd(text, q) == q + TailStop(end)
    ensures AfterSemi(text, q) == q + SemiStop(end)
  {
  }

  lemma MissingAfterIs(text: string, pos: nat, items: seq<Item>, parent: Parent, left: seq<string>, s: nat, q: nat)
    requires items != [] && pos + |ItemsText(items)| <= |text| && (parent.Block? ==> parent.spot.at <= |text|)
    requires s == ItemAt(pos, items, |items| - 1) && q == s + |NodeText(items[|items| - 1].node)| && q <= |text|
    ensures MissingAt(text, pos, items, parent, left)
            == if TailIsTrivial(text, q) then Missing(left, LineEnd(text, q), LeadingIndent(text, s))
               else Missing(left, AfterSemi(text, q), BlockIndent(text, parent))
  {
    hide NodeText, ItemsText, ItemAt, TailIsTrivial, LineEnd, AfterSemi, LeadingIndent;
  }

  lemma PlaceAfterIs(text: string, pos: nat, items: seq<Item>, end: string, parent: Parent, s: nat)
    requires items != [] && s == ItemAt(pos, items, |items| - 1) && s <= |text|
    requires (parent.Block? ==> parent.spot.at <= |text|)
    ensures LastAt(pos, items) == Some(s)
    ensures PlaceIn(text, LastAt(pos, items), end, Start(parent))
            == if TailTrivial(end, parent == File)
               then Place(TailStop(end), (if HasLine(end) then "" else "\n") + LeadingIndent(text, s), "\n",
                 LeadingIndent(text, s))
               else Place(SemiStop(end), "\n" + BlockIndent(text, parent), "\n", BlockIndent(text, parent))
  {
    hide TailTrivial, TailStop, SemiStop, LeadingIndent, ItemAt;
  }

  lemma InsertEdit(text: string, left: seq<string>, indent: string, shape: Shape, q: nat, cut: nat, newline: string)
    requires left != [] && 0 < q <= q + cut <= |text| && newline == if text[q + cut - 1] != '\n' then "\n" else ""
    ensures Writable(text, Missing(left, q + cut, indent))
    ensures ResolvedEdit(text, Missing(left, q + cut, indent), shape)
            == Some(Edit(q + cut, q + cut, newline + indent + NodeText(Built(left, indent, shape)) + "\n"))
    ensures newline == "\n" ==>
              var e := ResolvedEdit(text, Missing(left, q + cut, indent), shape).value;
                e.with != "" && e.with[0] == '\n'
  {
    hide NodeText, Built;
    Regroup(newline, indent, NodeText(Built(left, indent, shape)));
    Regroup(newline, indent + NodeText(Built(left, indent, shape)), "\n");
  }

  /** What comes before the place of a new child is a line end or not. */
  lemma BeforeTail(text: string, pos: nat, q: nat, stop: nat, items: seq<Item>, end: string)
    requires pos <= q <= stop <= |text| && text[pos..q] == ItemsText(items) && text[q..stop] == end
    requires ItemsText(items) != "" && !White(ItemsText(items)[|ItemsText(items)| - 1])
    ensures q > 0 && TailStop(end) <= |end| && SemiStop(end) <= |end|
    ensures text[q + TailStop(end) - 1] == '\n' <==> HasLine(end)
    ensures text[q + SemiStop(end) - 1] != '\n'
  {
    hide ItemsText;
    assert White('\n');
    assert text[q - 1] == text[pos..q][q - 1 - pos];
    assert forall i :: q <= i < stop ==> text[i] == end[i - q];
    SemiEnds(end);
  }

  lemma MissingFirst(text: string, pos: nat, stop: nat, items: seq<Item>, end: string, parent: Parent, first: bool,
                     parts: seq<string>, shape: Shape)
    requires parts != [] && items == [] && parent.Block? && Within(text, pos, stop, items, end, parent, first)
    requires pos + |ItemsText(items)| <= |text| && (parent.Block? ==> parent.spot.at <= |text|)
    ensures Writable(text, MissingAt(text, pos, items, parent, parts))
    ensures ResolvedEdit(text, MissingAt(text, pos, items, parent, parts), shape).Some?
    ensures Edits(text, pos, items, end, parent, parts, shape,
                  ResolvedEdit(text, MissingAt(text, pos, items, parent, parts), shape).value)
  {
    hide *;
    var p := parent.spot;
    WithinSits(text, pos, stop, items, end, parent, first);
    WithinBlock(text, pos, stop, items, end, p, first);
    LastSits(text, pos, stop, items, end);
    HeadInText(text, pos, stop, end);
    HeadOfBlock(text, pos, stop, end);
    var child := Built(parts, Inner(LeadingIndent(text, p.at)), shape);
    ChildIs(text, pos, stop, end, p, NodeText(child));
    MissingFirstIs(text, pos, items, end, parent, parts, shape);
    EditsIs(text, pos, items, end, parent, parts, shape, ChildEdit(text, p, NodeText(child)));
  }

  lemma WithinBlock(text: string, pos: nat, stop: nat, items: seq<Item>, end: string, p: Spot, first: bool)
    requires Within(text, pos, stop, items, end, Block(p), first)
    ensures p.at < pos && Closed(text, pos) && p.at + |NodeText(p.node)| == stop + 1 <= |text|
    ensures items == [] ==> ItemsText(items) == ""
  {
    assert !White('{');
  }

  lemma HeadOfBlock(text: string, pos: nat, stop: nat, end: string)
    requires 0 < pos <= stop <= |text|
    requires AllWhite(text[LineStart(text, stop)..stop]) <==> HeadBlank(end, pos == 0)
    requires HeadBlank(end, pos == 0) ==> LineStart(text, stop) == pos + HeadStart(end)
    ensures AllWhite(text[LineStart(text, stop)..stop]) <==> HasLine(end) && AllWhite(end[LastLine(end) + 1..])
    ensures AllWhite(text[LineStart(text, stop)..stop]) ==> LineStart(text, stop) == pos + LastLine(end) + 1
  {
  }

  /** The place of a child in an empty block. */
  function ChildPlace(text: string, end: string, at: nat): (p: Place)
    requires at <= |text|
    ensures p.cut <= |end|
  {
    var outer := LeadingIndent(text, at);
    if HasLine(end) &&
      AllWhite(end[LastLine(end) + 1..]) then Place(LastLine(end) + 1, Inner(outer), "\n", Inner(outer))
    else Place(|end|, "\n" + Inner(outer), "\n" + outer, Inner(outer))
  }

  lemma ChildIs(text: string, pos: nat, stop: nat, end: string, b: Spot, child: string)
    requires b.at < pos <= stop < |text| && b.at + |NodeText(b.node)| == stop + 1 && pos + |end| == stop
    requires AllWhite(text[LineStart(text, stop)..stop]) <==> HasLine(end) && AllWhite(end[LastLine(end) + 1..])
    requires AllWhite(text[LineStart(text, stop)..stop]) ==> LineStart(text, stop) == pos + LastLine(end) + 1
    ensures var p := ChildPlace(text, end, b.at);
            ChildEdit(text, b, child) == Edit(pos + p.cut, pos + p.cut, p.lead + child + p.tail)
  {
    hide NodeText, LeadingIndent, Inner, AllWhite, LastLine, LineStart, HasLine, ChildEdit, ChildPlace;
    var outer := LeadingIndent(text, b.at);
    var inner := Inner(outer);
    ChildEditIs(text, b, child, stop, outer, inner);
    ChildPlaceIs(text, end, b.at, outer, inner);
    Regroup("\n" + inner + child, "\n", outer);
  }

  lemma ChildEditIs(text: string, b: Spot, child: string, close: nat, outer: string, inner: string)
    requires b.at < close < |text| && b.at + |NodeText(b.node)| == close + 1
    requires outer == LeadingIndent(text, b.at) && inner == Inner(outer)
    ensures var ls := LineStart(text, close);
            ChildEdit(text, b, child)
            == if ls > b.at && AllWhite(text[ls..close]) then Edit(ls, ls, inner + child + "\n")
               else Edit(close, close, "\n" + inner + child + "\n" + outer)
  {
    hide NodeText, LeadingIndent, Inner, AllWhite, LastLine, LineStart, HasLine;
  }

  lemma ChildPlaceIs(text: string, end: string, at: nat, outer: string, inner: string)
    requires at <= |text| && outer == LeadingIndent(text, at) && inner == Inner(outer)
    ensures ChildPlace(text, end, at)
            == if HasLine(end) && AllWhite(end[LastLine(end) + 1..]) then Place(LastLine(end) + 1, inner, "\n", inner)
               else Place(|end|, "\n" + inner, "\n" + outer, inner)
  {
    hide LeadingIndent, Inner, AllWhite, LastLine, HasLine;
  }

  lemma MissingFirstIs(text: string, pos: nat, items: seq<Item>, end: string, parent: Parent, parts: seq<string>,
                       shape: Shape)
    requires parts != [] && items == [] && parent.Block?
    requires pos + |ItemsText(items)| <= |text|
    requires parent.spot.at < parent.spot.at + |NodeText(parent.spot.node)| <= |text|
    ensures LastAt(pos, items) == None
    ensures PlaceIn(text, LastAt(pos, items), end, Start(parent)) == ChildPlace(text, end, parent.spot.at)
    ensures Writable(text, MissingAt(text, pos, items, parent, parts))
    ensures ResolvedEdit(text, MissingAt(text, pos, items, parent, parts), shape)
            == Some(ChildEdit(text, parent.spot,
              NodeText(Built(parts, Inner(LeadingIndent(text, parent.spot.at)), shape))))
    ensures ChildPlace(text, end, parent.spot.at).indent == Inner(LeadingIndent(text, parent.spot.at))
  {
    hide NodeText, ItemsText, Built, LeadingIndent, Inner, AllWhite, ChildEdit;
  }

  lemma MissingOnly(text: string, pos: nat, stop: nat, items: seq<Item>, end: string, parent: Parent, first: bool,
                    parts: seq<string>, shape: Shape)
    requires parts != [] && items == [] && parent == File && Within(text, pos, stop, items, end, parent, first)
    requires pos + |ItemsText(items)| <= |text|
    ensures Writable(text, MissingAt(text, pos, items, parent, parts))
    ensures ResolvedEdit(text, MissingAt(text, pos, items, parent, parts), shape).Some?
    ensures Edits(text, pos, items, end, parent, parts, shape,
                  ResolvedEdit(text, MissingAt(text, pos, items, parent, parts), shape).value)
  {
    hide NodeText, Built, LeadingIndent, Inner;
    assert text[0..|text|] == text;
    assert ItemsText(items) + end == end;
    assert text == end;
    var b := NodeText(Built(parts, "", shape));
    assert "" + b == b;
    var newline := if end != "" && end[|end| - 1] != '\n' then "\n" else "";
    Regroup(newline, b, "\n");
  }

  /** Writing the missing path at its place is adding the new last child. */
  lemma MissingText(text: string, pos: nat, stop: nat, items: seq<Item>, end: string, parent: Parent, first: bool,
                    parts: seq<string>, shape: Shape)
    requires parts != [] && Within(text, pos, stop, items, end, parent, first)
    ensures pos + |ItemsText(items)| <= |text| && (parent.Block? ==> parent.spot.at <= |text|)
    ensures Writable(text, MissingAt(text, pos, items, parent, parts))
    ensures Lands(text, pos, stop, ResolvedEdit(text, MissingAt(text, pos, items, parent, parts), shape),
                  Some(Inserted(text, pos, items, end, Start(parent), parts, shape)), Clear(items, end, parent == File))
  {
    hide *;
    WithinSits(text, pos, stop, items, end, parent, first);
    LastSits(text, pos, stop, items, end);
    ParentWithin(text, pos, stop, items, end, parent, first);
    ClearIs(items, end, parent == File);
    StartWithin(text, parent);
    if items != [] && Exposed(end, parent == File) {
      MissingAfter(text, pos, stop, items, end, parent, first, parts, shape);
      var e := ResolvedEdit(text, MissingAt(text, pos, items, parent, parts), shape).value;
      var g :| Edits(text, pos, items, end, parent, parts, shape, g) && Astray(text, e, g);
      InsertedText(text, pos, stop, items, end, parent, parts, shape, g);
      LandsAstray(text, pos, stop, e, g, Some(Inserted(text, pos, items, end, Start(parent), parts, shape)));
      return;
    }
    if items != [] {
      MissingAfter(text, pos, stop, items, end, parent, first, parts, shape);
    } else if parent.Block? {
      MissingFirst(text, pos, stop, items, end, parent, first, parts, shape);
    } else {
      MissingOnly(text, pos, stop, items, end, parent, first, parts, shape);
    }
    var e := ResolvedEdit(text, MissingAt(text, pos, items, parent, parts), shape).value;
    InsertedText(text, pos, stop, items, end, parent, parts, shape, e);
    LandsWell(text, pos, stop, Some(e), Some(Inserted(text, pos, items, end, Start(parent), parts, shape)));
  }

  lemma StartWithin(text: string, parent: Parent)
    requires parent.Block? ==> parent.spot.at <= |text|
    ensures Start(parent).Some? ==> Start(parent).value <= |text|
  {
  }

  lemma ClearIs(items: seq<Item>, end: string, top: bool)
    ensures Clear(items, end, top) <==> items == [] || !Exposed(end, top)
  {
  }

  lemma LandsWell(text: string, pos: nat, stop: nat, edit: Option<Edit>, d: Option<Doc>)
    ensures Lands(text, pos, stop, edit, d, true) <==> Leaves(text, pos, stop, edit, d)
  {
  }

  lemma LandsAstray(text: string, pos: nat, stop: nat, e: Edit, g: Edit, d: Option<Doc>)
    requires Leaves(text, pos, stop, Some(g), d) && Astray(text, e, g)
    ensures Lands(text, pos, stop, Some(e), d, false)
  {
  }

  lemma AstrayOf(text: string, pos: nat, stop: nat, edit: Option<Edit>, d: Option<Doc>)
    returns (g: Edit)
    requires Lands(text, pos, stop, edit, d, false)
    ensures edit.Some? && Leaves(text, pos, stop, Some(g), d) && Astray(text, edit.value, g)
  {
    hide Leaves, Astray;
    g :| Leaves(text, pos, stop, Some(g), d) && Astray(text, edit.value, g);
  }

  /** What an edit astray leaves is not what the right one does. */
  lemma AstrayDiffers(text: string, e: Edit, g: Edit, d: Doc)
    requires Leaves(text, 0, |text|, Some(g), Some(d)) && Astray(text, e, g)
    ensures text[..e.start] + e.with + text[e.stop..] != DocText(d)
  {
    hide DocText;
    var right, wrong := DocText(d), text[..e.start] + e.with + text[e.stop..];
    assert right == text[0..g.start] + g.with + text[g.stop..|text|];
    assert right[g.start] == '\n';
    assert wrong[g.start] == text[g.start];
  }

  lemma ParentWithin(text: string, pos: nat, stop: nat, items: seq<Item>, end: string, parent: Parent, first: bool)
    requires Within(text, pos, stop, items, end, parent, first)
    ensures parent.Block? ==> parent.spot.at <= |text|
  {
  }

  /** An edit inside `text[pos..stop]` leaves the text of `d` there. */
  ghost predicate Leaves(text: string, pos: nat, stop: nat, edit: Option<Edit>, d: Option<Doc>) {
    match edit
    case None => d == None
    case Some(e) =>
      && d.Some? && pos <= e.start <= e.stop <= stop <= |text|
      && text[pos..e.start] + e.with + text[e.stop..stop] == DocText(d.value)
  }

  lemma InsertedText(text: string, pos: nat, stop: nat, items: seq<Item>, end: string, parent: Parent,
                     parts: seq<string>, shape: Shape, e: Edit)
    requires parts != [] && Sits(text, pos, stop, items, end) && (parent.Block? ==> parent.spot.at <= |text|)
    requires pos + |ItemsText(items)| <= |text| && Edits(text, pos, items, end, parent, parts, shape, e)
    ensures Leaves(text, pos, stop, Some(e), Some(Inserted(text, pos, items, end, Start(parent), parts, shape)))
  {
    hide NodeText, ItemsText, Built, PlaceIn, DocText;
    LastWithin(pos, items);
    var p := PlaceIn(text, LastAt(pos, items), end, Start(parent));
    LastSits(text, pos, stop, items, end);
    InsertText(text, pos, pos + |ItemsText(items)|, stop, items, end, p.cut, p.lead, p.tail,
      Built(parts, p.indent, shape));
  }

  // ------------------------------------------------------- the whole path

  /** Changing the text of item `k` changes the text of the items around it. */
  lemma ItemEdit(text: string, pos: nat, stop: nat, items: seq<Item>, end: string, k: nat, m: Node, e: Edit)
    requires k < |items| && Sits(text, pos, stop, items, end)
    requires var s := ItemAt(pos, items, k);
             var t := s + |NodeText(items[k].node)|;
             s <= e.start <= e.stop <= t && t <= stop && text[s..e.start] + e.with + text[e.stop..t] == NodeText(m)
    ensures Leaves(text, pos, stop, Some(e), Some(Doc(items[k := Item(items[k].gap, m)], end)))
  {
    hide NodeText, ItemsText;
    var s, c := ItemAt(pos, items, k), NodeText(items[k].node);
    var t := s + |c|;
    var changed := items[k := Item(items[k].gap, m)];
    var before, rest := ItemsText(items[..k]), ItemsText(items[k + 1..]);
    ItemsSplit(items, k);
    ItemsSplit(changed, k);
    assert changed[..k] == items[..k] && changed[k + 1..] == items[k + 1..];
    ItemSits(text, pos, stop, items, end, k);
    assert text[pos..e.start] == text[pos..s] + text[s..e.start];
    assert text[e.stop..stop] == text[e.stop..t] + text[t..stop];
    SixParts(before, items[k].gap, text[s..e.start], e.with, text[e.stop..t], rest, end);
  }

  lemma SixParts(a: string, g: string, x: string, w: string, y: string, r: string, z: string)
    ensures ((a + g) + x) + w + (y + (r + z)) == (a + (g + ((x + w + y) + r))) + z
  {
  }

  /** Where item `k` sits. */
  lemma ItemSits(text: string, pos: nat, stop: nat, items: seq<Item>, end: string, k: nat)
    requires k < |items| && Sits(text, pos, stop, items, end)
    ensures var s := ItemAt(pos, items, k);
            var t := s + |NodeText(items[k].node)|;
            && s <= t <= stop && text[s..t] == NodeText(items[k].node)
            && text[pos..s] == ItemsText(items[..k]) + items[k].gap && text[t..stop] == ItemsText(items[k + 1..]) + end
  {
    hide NodeText, ItemsText;
    var a, c, rest := ItemsText(items[..k]) + items[k].gap, NodeText(items[k].node), ItemsText(items[k + 1..]) + end;
    ItemsSplit(items, k);
    FiveParts(ItemsText(items[..k]), items[k].gap, c, ItemsText(items[k + 1..]), end);
    SliceParts(text, pos, stop, a, c + rest);
    SliceParts(text, pos + |a|, stop, c, rest);
  }

  lemma FiveParts(a: string, g: string, c: string, r: string, z: string)
    ensures (a + (g + (c + r))) + z == (a + g) + (c + (r + z))
  {
  }

  lemma {:induction false} ItemOk(items: seq<Item>, k: nat)
    requires ItemsOk(items) && k < |items|
    ensures NodeOk(items[k].node)
  {
    if k > 0 {
      ItemOk(items[1..], k - 1);
    }
  }

  lemma NodeEditMoves(n: Node, s: nat, shape: Shape)
    ensures NodeEdit(n, s, shape).Some? <==> NodeEdit(n, 0, shape).Some?
    ensures NodeEdit(n, 0, shape).Some? ==>
              var e := NodeEdit(n, 0, shape).value;
              NodeEdit(n, s, shape) == Some(Edit(s + e.start, s + e.stop, e.with))
  {
  }

  /** The edit the resolution leads to leaves the text of the tree with the
      value set exactly where the walk ends well. */
  lemma {:induction false} PutText(text: string, pos: nat, stop: nat, items: seq<Item>, end: string, parent: Parent,
                                   first: bool, parts: seq<string>, shape: Shape)
    requires parts != [] && ShapeOk(shape) && Within(text, pos, stop, items, end, parent, first)
    ensures pos + |ItemsText(items)| <= |text| && (parent.Block? ==> parent.spot.at <= |text|)
    ensures Writable(text, Resolve(text, pos, items, parent, parts))
    ensures Lands(text, pos, stop, ResolvedEdit(text, Resolve(text, pos, items, parent, parts), shape),
                  Put(text, pos, items, end, Start(parent), parts, shape), Reached(items, end, parent == File, parts))
    decreases |parts|, 1
  {
    hide *;
    MissingText(text, pos, stop, items, end, parent, first, parts, shape);
    match LastNamed(items, parts[0])
    case None =>
      AbsentIs(text, pos, items, end, parent, parts, shape);
    case Some(k) =>
      PutAt(text, pos, stop, items, end, parent, first, parts, shape, k);
  }

  lemma AbsentIs(text: string, pos: nat, items: seq<Item>, end: string, parent: Parent, parts: seq<string>,
                 shape: Shape)
    requires parts != [] && pos + |ItemsText(items)| <= |text| && (parent.Block? ==> parent.spot.at <= |text|)
    requires match LastNamed(items, parts[0])
             case None => true
             case Some(k) => |parts| > 1 && items[k].node.body == None
    ensures Resolve(text, pos, items, parent, parts) == MissingAt(text, pos, items, parent, parts)
    ensures Reached(items, end, parent == File, parts) <==> Clear(items, end, parent == File)
    ensures Put(text, pos, items, end, Start(parent), parts, shape)
            == Some(Inserted(text, pos, items, end, Start(parent), parts, shape))
  {
    hide MissingAt, Inserted, LastNamed, NodeText, ItemsText, Clear;
  }

  lemma {:induction false} PutAt(text: string, pos: nat, stop: nat, items: seq<Item>, end: string, parent: Parent,
                                 first: bool, parts: seq<string>, shape: Shape, k: nat)
    requires parts != [] && ShapeOk(shape) && Within(text, pos, stop, items, end, parent, first)
    requires k < |items| && LastNamed(items, parts[0]) == Some(k)
    requires pos + |ItemsText(items)| <= |text| && (parent.Block? ==> parent.spot.at <= |text|)
    requires Writable(text, MissingAt(text, pos, items, parent, parts))
    requires Lands(text, pos, stop, ResolvedEdit(text, MissingAt(text, pos, items, parent, parts), shape),
                   Some(Inserted(text, pos, items, end, Start(parent), parts, shape)),
                   Clear(items, end, parent == File))
    ensures Writable(text, Resolve(text, pos, items, parent, parts))
    ensures Lands(text, pos, stop, ResolvedEdit(text, Resolve(text, pos, items, parent, parts), shape),
                  Put(text, pos, items, end, Start(parent), parts, shape), Reached(items, end, parent == File, parts))
    decreases |parts|, 0
  {
    hide *;
    var n, s := items[k].node, ItemAt(pos, items, k);
    var t := s + |NodeText(n)|;
    StartWithin(text, parent);
    WithinSits(text, pos, stop, items, end, parent, first);
    ItemSits(text, pos, stop, items, end, k);
    ItemOk(items, k);
    if |parts| == 1 {
      LeafText(text, s, t, n, shape);
      LeafIs(text, pos, items, end, parent, parts, shape, k, s);
      if NodeEdit(n, s, shape).Some? {
        ItemEdit(text, pos, stop, items, end, k, n.(entries := NewEntries(n, shape).value),
          NodeEdit(n, s, shape).value);
      } else {
        NoLeaf(text, pos, stop);
      }
      LandsWell(text, pos, stop, NodeEdit(n, s, shape), Put(text, pos, items, end, Start(parent), parts, shape));
    } else if n.body == None {
      AbsentIs(text, pos, items, end, parent, parts, shape);
    } else {
      var d := n.body.value;
      BodyWithin(pos, items, k, d);
      BodySits(text, s, t, n);
      BlockWithin(text, s, t, n, d);
      assert (Block(Spot(s, n)) == File) == false by { BlockIsNoFile(Spot(s, n)); }
      PutText(text, s + BodyAt(n), t - 1, d.items, d.end, Block(Spot(s, n)), false, parts[1..], shape);
      DeeperIs(text, pos, items, end, parent, parts, shape, k, s, d);
      var r := Resolve(text, s + BodyAt(n), d.items, Block(Spot(s, n)), parts[1..]);
      var edit := ResolvedEdit(text, r, shape);
      var inner := Put(text, s + BodyAt(n), d.items, d.end, Some(s), parts[1..], shape);
      assert Start(Block(Spot(s, n))) == Some(s) by { StartIs(s, n); }
      if !Reached(d.items, d.end, false, parts[1..]) {
        var g := AstrayOf(text, s + BodyAt(n), t - 1, edit, inner);
        BlockLeaves(text, s, t, n, g, inner);
        ItemEdit(text, pos, stop, items, end, k, n.(body := Some(inner.value)), g);
        LandsAstray(text, pos, stop, edit.value, g, Put(text, pos, items, end, Start(parent), parts, shape));
        return;
      }
      LandsWell(text, s + BodyAt(n), t - 1, edit, inner);
      if edit.Some? {
        BlockLeaves(text, s, t, n, edit.value, inner);
        ItemEdit(text, pos, stop, items, end, k, n.(body := Some(inner.value)), edit.value);
      } else {
        NoneLeaves(text, s + BodyAt(n), t - 1, edit, inner);
        NoLeaf(text, pos, stop);
      }
      LandsWell(text, pos, stop, edit, Put(text, pos, items, end, Start(parent), parts, shape));
    }
  }

  lemma BlockIsNoFile(p: Spot)
    ensures Block(p) != File
  {
  }

  lemma StartIs(s: nat, n: Node)
    ensures Start(Block(Spot(s, n))) == Some(s)
  {
  }

  lemma NoLeaf(text: string, pos: nat, stop: nat)
    ensures Leaves(text, pos, stop, None, None)
  {
  }

  lemma NoneLeaves(text: string, pos: nat, stop: nat, edit: Option<Edit>, d: Option<Doc>)
    requires Leaves(text, pos, stop, edit, d) && edit == None
    ensures d == None
  {
  }

  lemma BlockWithin(text: string, s: nat, t: nat, n: Node, d: Doc)
    requires NodeOk(n) && n.body == Some(d) && t == s + |NodeText(n)| && s < s + BodyAt(n) <= t - 1 && t <= |text|
    requires Sits(text, s + BodyAt(n), t - 1, d.items, d.end) && text[s + BodyAt(n) - 1] == '{' && text[t - 1] == '}'
    ensures Within(text, s + BodyAt(n), t - 1, d.items, d.end, Block(Spot(s, n)), false)
  {
    hide NodeText, ItemsText;
    BodyFramed(text, s + BodyAt(n), t - 1, d);
  }

  /** A change in a block's children is a change of the block. */
  lemma BlockLeaves(text: string, s: nat, t: nat, n: Node, e: Edit, inner: Option<Doc>)
    requires n.body.Some? && s < s + BodyAt(n) <= t - 1 < t <= |text|
    requires text[s..s + BodyAt(n)] == Head(n) && text[t - 1..t] == "}"
    requires Leaves(text, s + BodyAt(n), t - 1, Some(e), inner)
    ensures inner.Some? && s <= e.start <= e.stop <= t
    ensures text[s..e.start] + e.with + text[e.stop..t] == NodeText(n.(body := Some(inner.value)))
  {
    hide NodeText, DocText, Head, BodyAt;
    var b := s + BodyAt(n);
    assert text[s..e.start] == text[s..b] + text[b..e.start];
    assert text[e.stop..t] == text[e.stop..t - 1] + text[t - 1..t];
    KeptText(n, inner.value);
    Regroup(Head(n), text[b..e.start], e.with);
    Regroup(Head(n) + text[b..e.start] + e.with, text[e.stop..t - 1], "}");
    Regroup(Head(n), text[b..e.start] + e.with, text[e.stop..t - 1]);
  }

  lemma LeafText(text: string, s: nat, t: nat, n: Node, shape: Shape)
    requires NodeOk(n) && ShapeOk(shape) && s <= t <= |text| && t == s + |NodeText(n)| && text[s..t] == NodeText(n)
    ensures NodeEdit(n, s, shape).None? <==> NewEntries(n, shape).None?
    ensures NodeEdit(n, s, shape).Some? ==>
              var e := NodeEdit(n, s, shape).value;
              && s <= e.start <= e.stop <= t
              && text[s..e.start] + e.with + text[e.stop..t] == NodeText(n.(entries := NewEntries(n, shape).value))
  {
    hide NodeText, NodeEdit, NewEntries, ShapeOk;
    NodeEditText(n, shape);
    NodeEditMoves(n, s, shape);
    if NodeEdit(n, 0, shape).Some? {
      var e := NodeEdit(n, 0, shape).value;
      SubSlice(text, s, t, 0, e.start);
      SubSlice(text, s, t, e.stop, t - s);
    }
  }

  lemma LeafIs(text: string, pos: nat, items: seq<Item>, end: string, parent: Parent, parts: seq<string>,
               shape: Shape, k: nat, s: nat)
    requires |parts| == 1 && pos + |ItemsText(items)| <= |text| && (parent.Block? ==> parent.spot.at <= |text|)
    requires k < |items| && LastNamed(items, parts[0]) == Some(k) && s == ItemAt(pos, items, k)
    ensures var n := items[k].node;
            && Resolve(text, pos, items, parent, parts) == Found(Spot(s, n))
            && Reached(items, end, parent == File, parts)
            && Writable(text, Found(Spot(s, n)))
            && ResolvedEdit(text, Found(Spot(s, n)), shape) == NodeEdit(n, s, shape)
            && Put(text, pos, items, end, Start(parent), parts, shape)
               == if NewEntries(n, shape).None? then None
                  else Some(Doc(items[k := Item(items[k].gap, n.(entries := NewEntries(n, shape).value))], end))
  {
    hide LastNamed, NodeText, ItemsText, NodeEdit, NewEntries;
  }

  lemma DeeperIs(text: string, pos: nat, items: seq<Item>, end: string, parent: Parent, parts: seq<string>,
                 shape: Shape, k: nat, s: nat, d: Doc)
    requires |parts| > 1 && pos + |ItemsText(items)| <= |text| && (parent.Block? ==> parent.spot.at <= |text|)
    requires k < |items| && LastNamed(items, parts[0]) == Some(k) && s == ItemAt(pos, items, k)
    requires items[k].node.body == Some(d)
    requires s + BodyAt(items[k].node) + |ItemsText(d.items)| <= |text| && s <= |text|
    ensures Reached(items, end, parent == File, parts) <==> Reached(d.items, d.end, false, parts[1..])
    ensures var n := items[k].node;
            var inner := Put(text, s + BodyAt(n), d.items, d.end, Some(s), parts[1..], shape);
            && Resolve(text, pos, items, parent, parts)
               == Resolve(text, s + BodyAt(n), d.items, Block(Spot(s, n)), parts[1..])
            && Put(text, pos, items, end, Start(parent), parts, shape)
               == if inner.None? then None
                  else Some(Doc(items[k := Item(items[k].gap, n.(body := inner))], end))
  {
    hide LastNamed, NodeText, ItemsText, BodyAt, ItemAt, Resolve, Put, Clear;
    DeeperPath(text, pos, items, parent, parts, k, s, d,
               Resolve(text, s + BodyAt(items[k].node), d.items, Block(Spot(s, items[k].node)), parts[1..]));
    DeeperPut(text, pos, items, end, Start(parent), parts, shape, k, s, d);
  }

  lemma {:induction false} DeeperPath(text: string, pos: nat, items: seq<Item>, parent: Parent, parts: seq<string>,
                                      k: nat, s: nat, d: Doc, r: Resolved)
    requires |parts| > 1 && pos + |ItemsText(items)| <= |text| && (parent.Block? ==> parent.spot.at <= |text|)
    requires k < |items| && LastNamed(items, parts[0]) == Some(k) && s == ItemAt(pos, items, k)
    requires items[k].node.body == Some(d)
    requires s + BodyAt(items[k].node) + |ItemsText(d.items)| <= |text| && s <= |text|
    requires r == Resolve(text, s + BodyAt(items[k].node), d.items, Block(Spot(s, items[k].node)), parts[1..])
    ensures Resolve(text, pos, items, parent, parts) == r
  {
    hide LastNamed, NodeText, ItemsText, BodyAt, ItemAt, MissingAt;
  }

  lemma DeeperPut(text: string, pos: nat, items: seq<Item>, end: string, parent: Option<nat>, parts: seq<string>,
                  shape: Shape, k: nat, s: nat, d: Doc)
    requires |parts| > 1 && pos + |ItemsText(items)| <= |text| && (parent.Some? ==> parent.value <= |text|)
    requires k < |items| && LastNamed(items, parts[0]) == Some(k) && s == ItemAt(pos, items, k)
    requires items[k].node.body == Some(d)
    requires s + BodyAt(items[k].node) + |ItemsText(d.items)| <= |text| && s <= |text|
    ensures var n := items[k].node;
            var inner := Put(text, s + BodyAt(n), d.items, d.end, Some(s), parts[1..], shape);
            Put(text, pos, items, end, parent, parts, shape)
            == if inner.None? then None
               else Some(Doc(items[k := Item(items[k].gap, n.(body := inner))], end))
  {
    hide LastNamed, NodeText, ItemsText, BodyAt, ItemAt, Inserted, NewEntries;
  }
}
