/** Setting the value at a path, on the tree: which node takes it, or where a
    new one goes. */
module SetTree {
  import opened Options
  import opened Kdl
  import opened Prune

  /** A value as the library writes it, and the string it stands for if any. */
  datatype Value = Value(repr: string, str: Option<string>)

  /** One value in place of the first argument, or all of the arguments. */
  datatype Shape = Scalar(value: Value) | Many(values: seq<Value>)

  function Rendered(shape: Shape): string {
    match shape
    case Scalar(v) => v.repr
    case Many(vs) => Join(vs)
  }

  function Join(vs: seq<Value>): string {
    if vs == [] then "" else if |vs| == 1 then vs[0].repr else vs[0].repr + " " + Join(vs[1..])
  }

  /** No value is written as nothing. */
  ghost predicate ShapeOk(shape: Shape) {
    match shape
    case Scalar(v) => v.repr != ""
    case Many(vs) => forall i :: 0 <= i < |vs| ==> vs[i].repr != ""
  }

  /** The last node of a name: later definitions win. */
  function LastNamed(items: seq<Item>, name: string): (r: Option<nat>)
    ensures r == None ==> forall j :: 0 <= j < |items| ==> items[j].node.name != name
    ensures r.Some? ==>
              && r.value < |items| && items[r.value].node.name == name
              && forall j :: r.value < j < |items| ==> items[j].node.name != name
  {
    if items == [] then None
    else if items[|items| - 1].node.name == name then Some(|items| - 1)
    else LastNamed(items[..|items| - 1], name)
  }

  function Positional(es: seq<Entry>): (r: Option<nat>)
    ensures r == None ==> forall i :: 0 <= i < |es| ==> es[i].key.Some?
    ensures r.Some? ==> r.value < |es| && es[r.value].key == None && forall i :: 0 <= i < r.value ==> es[i].key.Some?
  {
    if es == [] then None
    else if es[0].key == None then Some(0)
    else
      match Positional(es[1..])
      case None => None
      case Some(i) => Some(i + 1)
  }

  function ListEntries(vs: seq<Value>): (r: seq<Entry>)
    ensures |r| == |vs| && forall i :: 0 <= i < |vs| ==> r[i] == Entry(" ", None, vs[i].repr, vs[i].str)
  {
    if vs == [] then [] else [Entry(" ", None, vs[0].repr, vs[0].str)] + ListEntries(vs[1..])
  }

  /** The arguments a node is left with; `None` when it does not hold a value
      of this shape. */
  function NewEntries(n: Node, shape: Shape): Option<seq<Entry>> {
    match shape
    case Scalar(v) =>
      (match Positional(n.entries)
       case None => None
       case Some(i) => Some(n.entries[i := n.entries[i].(repr := v.repr, str := v.str)]))
    case Many(vs) =>
      if n.body.Some? || exists i :: 0 <= i < |n.entries| && n.entries[i].key.Some? then None
      else if vs == [] || n.entries == [] then Some(ListEntries(vs))
      else Some([Entry(n.entries[0].lead, None, vs[0].repr, vs[0].str)] + ListEntries(vs[1..]))
  }

  /** What the node says when it is read back. */
  ghost predicate Holds(n: Node, shape: Shape) {
    match shape
    case Scalar(v) =>
      (match Positional(n.entries)
       case None => false
       case Some(i) => n.entries[i].repr == v.repr && n.entries[i].str == v.str)
    case Many(vs) =>
      && n.body == None && |n.entries| == |vs|
      && forall i :: 0 <= i < |vs| ==>
        n.entries[i].key == None && n.entries[i].repr == vs[i].repr && n.entries[i].str == vs[i].str
  }

  function Leaf(name: string, shape: Shape): Node {
    Node(name, name, ListEntries(match shape case Scalar(v) => [v] case Many(vs) => vs), "", None)
  }

  const UNIT := "    "

  /** The missing blocks, one inside the other, around the new leaf. */
  function Built(parts: seq<string>, indent: string, shape: Shape): Node
    requires parts != []
  {
    if |parts| == 1 then Leaf(parts[0], shape)
    else Node(parts[0], parts[0], [], " ",
              Some(Doc([Item("\n" + indent + UNIT, Built(parts[1..], indent + UNIT, shape))], "\n" + indent)))
  }

  /** Where in the end of a block a new last child goes, what to write before
      and after it, and the indentation of its lines. */
  datatype Place = Place(cut: nat, lead: string, tail: string, indent: string)

  function Blanks(s: string): string {
    s[..|s| - |TrimBlanks(s)|]
  }

  /** The blanks the line `at` is on starts with. */
  function LeadingIndent(text: string, at: nat): string
    requires at <= |text|
  {
    Blanks(text[LineStart(text, at)..at])
  }

  /** `last` is where the last child starts, `parent` where the block does; a
      file has no parent. */
  function PlaceIn(text: string, last: Option<nat>, end: string, parent: Option<nat>): (p: Place)
    requires last.Some? ==> last.value <= |text|
    requires parent.Some? ==> parent.value <= |text|
    ensures p.cut <= |end|
  {
    if last.Some? then
      if TailTrivial(end, parent == None) then
        var indent := LeadingIndent(text, last.value);
        Place(TailStop(end), (if HasLine(end) then "" else "\n") + indent, "\n", indent)
      else
        var indent := if parent.Some? then LeadingIndent(text, parent.value) + UNIT else "";
        Place(SemiStop(end), "\n" + indent, "\n", indent)
    else if parent.Some? then
      var outer := LeadingIndent(text, parent.value);
      var inner := Inner(outer);
      if HasLine(end) && AllWhite(end[LastLine(end) + 1..]) then Place(LastLine(end) + 1, inner, "\n", inner)
      else Place(|end|, "\n" + inner, "\n" + outer, inner)
    else
      Place(|end|, if end != "" && end[|end| - 1] != '\n' then "\n" else "", "\n", "")
  }

  /** One level in from the block's own indentation. */
  function Inner(outer: string): string {
    outer + if '\t' in outer then "\t" else UNIT
  }

  /** Where item `k` starts, after its gap. */
  function ItemAt(pos: nat, items: seq<Item>, k: nat): nat
    requires k < |items|
  {
    pos + |ItemsText(items[..k])| + |items[k].gap|
  }

  function LastAt(pos: nat, items: seq<Item>): Option<nat> {
    if items == [] then None else Some(ItemAt(pos, items, |items| - 1))
  }

  /** The block with the missing path as its new last child. */
  function Inserted(text: string, pos: nat, items: seq<Item>, end: string, parent: Option<nat>, parts: seq<string>,
                    shape: Shape): Doc
    requires parts != [] && pos + |ItemsText(items)| <= |text| && (parent.Some? ==> parent.value <= |text|)
  {
    LastWithin(pos, items);
    var p := PlaceIn(text, LastAt(pos, items), end, parent);
    Doc(items + [Item(end[..p.cut] + p.lead, Built(parts, p.indent, shape))], p.tail + end[p.cut..])
  }

  lemma LastWithin(pos: nat, items: seq<Item>)
    ensures items != [] ==>
            ItemAt(pos, items, |items| - 1) + |NodeText(items[|items| - 1].node)| == pos + |ItemsText(items)|
  {
    if items != [] {
      SizeSplit(items, |items| - 1);
    }
  }

  lemma SizeSplit(items: seq<Item>, k: nat)
    requires k < |items|
    ensures |ItemsText(items)|
            == |ItemsText(items[..k])| + |items[k].gap| + |NodeText(items[k].node)| + |ItemsText(items[k + 1..])|
  {
    ItemsSplit(items, k);
  }

  lemma ItemsSplit(items: seq<Item>, k: nat)
    requires k < |items|
    ensures ItemsText(items)
            == ItemsText(items[..k]) + (items[k].gap + (NodeText(items[k].node) + ItemsText(items[k + 1..])))
  {
    hide NodeText, ItemsText;
    ItemsAppend(items[..k], items[k..]);
    assert items[..k] + items[k..] == items;
    FirstText(items[k..]);
    assert items[k..][0] == items[k] && items[k..][1..] == items[k + 1..];
  }

  lemma FirstText(items: seq<Item>)
    requires items != []
    ensures ItemsText(items) == items[0].gap + (NodeText(items[0].node) + ItemsText(items[1..]))
  {
  }

  lemma {:induction false} ItemsAppend(a: seq<Item>, b: seq<Item>)
    ensures ItemsText(a + b) == ItemsText(a) + ItemsText(b)
  {
    if a == [] {
      assert a + b == b;
    } else {
      assert (a + b)[0] == a[0] && (a + b)[1..] == a[1..] + b;
      ItemsAppend(a[1..], b);
    }
  }

  /** The tree with the value set: in the last definition of the path, or in a
      new one at the end of the deepest block there is. `pos` is where the
      block's children start in `text`. */
  function Put(text: string, pos: nat, items: seq<Item>, end: string, parent: Option<nat>, parts: seq<string>,
               shape: Shape)
    : (r: Option<Doc>)
    requires parts != [] && pos + |ItemsText(items)| <= |text| && (parent.Some? ==> parent.value <= |text|)
    decreases |parts|
  {
    match LastNamed(items, parts[0])
    case None => Some(Inserted(text, pos, items, end, parent, parts, shape))
    case Some(k) =>
      var n := items[k].node;
      if |parts| == 1 then
        match NewEntries(n, shape)
        case None => None
        case Some(es) => Some(Doc(items[k := Item(items[k].gap, n.(entries := es))], end))
      else
        match n.body
        case None => Some(Inserted(text, pos, items, end, parent, parts, shape))
        case Some(d) =>
          BodyWithin(pos, items, k, d);
          match Put(text, ItemAt(pos, items, k) + BodyAt(n), d.items, d.end, Some(ItemAt(pos, items, k)),
            parts[1..], shape)
          case None => None
          case Some(c) => Some(Doc(items[k := Item(items[k].gap, n.(body := Some(c)))], end))
  }

  lemma BodyWithin(pos: nat, items: seq<Item>, k: nat, d: Doc)
    requires k < |items| && items[k].node.body == Some(d)
    ensures ItemAt(pos, items, k) + BodyAt(items[k].node) + |ItemsText(d.items)| <= pos + |ItemsText(items)|
  {
    SizeSplit(items, k);
    BlockText(items[k].node);
  }
}
