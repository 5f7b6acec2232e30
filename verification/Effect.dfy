/** What setting a value does to what every path leads to. */
module Effect {
  import opened Options
  import opened Kdl
  import opened Prune
  import opened Remove
  import opened SetTree

  lemma {:induction false} NodesAtAppend(a: seq<Item>, b: seq<Item>, levels: seq<Level>)
    requires levels != []
    ensures NodesAt(a + b, levels) == NodesAt(a, levels) + NodesAt(b, levels)
  {
    hide Hits;
    if a == [] {
      assert a + b == b;
    } else {
      assert (a + b)[0] == a[0] && (a + b)[1..] == a[1..] + b;
      NodesAtAppend(a[1..], b, levels);
    }
  }

  lemma OneNode(i: Item, levels: seq<Level>)
    requires levels != []
    ensures NodesAt([i], levels) == Hits(i.node, levels)
  {
    hide Hits;
    assert [i][1..] == [];
    assert NodesAt([i], levels) == Hits(i.node, levels) + NodesAt([], levels);
  }

  /** A list of items around its item `k`. */
  lemma NodesAtSplit(items: seq<Item>, k: nat, levels: seq<Level>)
    requires levels != [] && k < |items|
    ensures NodesAt(items, levels)
            == NodesAt(items[..k], levels) + Hits(items[k].node, levels) + NodesAt(items[k + 1..], levels)
  {
    hide NodesAt, Hits;
    assert items == items[..k] + ([items[k]] + items[k + 1..]);
    NodesAtAppend(items[..k], [items[k]] + items[k + 1..], levels);
    NodesAtAppend([items[k]], items[k + 1..], levels);
    OneNode(items[k], levels);
  }

  /** Changing item `k` changes what it contributes and nothing else. */
  lemma NodesAtUpdate(items: seq<Item>, k: nat, n: Node, levels: seq<Level>)
    requires levels != [] && k < |items|
    ensures NodesAt(items[k := Item(items[k].gap, n)], levels)
            == NodesAt(items[..k], levels) + Hits(n, levels) + NodesAt(items[k + 1..], levels)
  {
    hide NodesAt, Hits;
    var changed := items[k := Item(items[k].gap, n)];
    NodesAtSplit(changed, k, levels);
    assert changed[..k] == items[..k] && changed[k + 1..] == items[k + 1..];
  }

  lemma {:induction false} NodesAtNone(items: seq<Item>, parts: seq<string>)
    requires parts != [] && forall j :: 0 <= j < |items| ==> items[j].node.name != parts[0]
    ensures PathLevels(parts) != [] && NodesAt(items, PathLevels(parts)) == []
  {
    PathStep(parts);
    if items != [] {
      forall j | 0 <= j < |items[1..]| ensures items[1..][j].node.name != parts[0] {
        assert items[1..][j] == items[j + 1];
      }
      NodesAtNone(items[1..], parts);
    }
  }

  lemma PathStep(parts: seq<string>)
    requires parts != []
    ensures PathLevels(parts) != [] && PathLevels(parts)[0] == Level({parts[0]}, None)
    ensures PathLevels(parts)[1..] == PathLevels(parts[1..])
  {
  }

  lemma NodeHits(n: Node, parts: seq<string>)
    requires parts != []
    ensures PathLevels(parts) != []
    ensures n.name != parts[0] ==> Hits(n, PathLevels(parts)) == []
    ensures n.name == parts[0] && |parts| == 1 ==> Hits(n, PathLevels(parts)) == [n]
    ensures n.name == parts[0] && |parts| > 1 && n.body == None ==> Hits(n, PathLevels(parts)) == []
    ensures n.name == parts[0] && |parts| > 1 && n.body.Some? ==>
              PathLevels(parts[1..]) != [] &&
                Hits(n, PathLevels(parts)) == NodesAt(n.body.value.items, PathLevels(parts[1..]))
  {
    hide NodesAt;
    PathStep(parts);
  }

  /** Around the last node of a name, and what changing that node changes. */
  lemma AroundLast(items: seq<Item>, k: nat, m: Node, parts: seq<string>)
    requires parts != [] && LastNamed(items, parts[0]) == Some(k)
    ensures k < |items| && PathLevels(parts) != []
    ensures NodesAt(items, PathLevels(parts))
            == NodesAt(items[..k], PathLevels(parts)) + Hits(items[k].node, PathLevels(parts))
    ensures NodesAt(items[k := Item(items[k].gap, m)], PathLevels(parts))
            == NodesAt(items[..k], PathLevels(parts)) + Hits(m, PathLevels(parts))
  {
    hide NodesAt, Hits, PathLevels;
    PathStep(parts);
    var after := items[k + 1..];
    forall j | 0 <= j < |after| ensures after[j].node.name != parts[0] {
      assert after[j] == items[k + 1 + j];
    }
    NodesAtNone(after, parts);
    NodesAtSplit(items, k, PathLevels(parts));
    NodesAtUpdate(items, k, m, PathLevels(parts));
  }

  ghost predicate FirstUnnamed(es: seq<Entry>, i: int) {
    0 <= i < |es| && es[i].key == None && forall j :: 0 <= j < i ==> es[j].key.Some?
  }

  /** The node with the value in it and everything else as it was: its name,
      its children, and of a list the blanks before the first value, of a node
      with one value all other arguments. */
  ghost predicate Changed(n: Node, m: Node, shape: Shape) {
    && m.(entries := n.entries) == n
    && match shape
       case Scalar(v) =>
         exists i :: FirstUnnamed(n.entries, i) &&
           m.entries == n.entries[i := Entry(n.entries[i].lead, None, v.repr, v.str)]
       case Many(vs) =>
         && n.body == None && (forall i :: 0 <= i < |n.entries| ==> n.entries[i].key == None)
         && |m.entries| == |vs|
         && forall i :: 0 <= i < |vs| ==>
              m.entries[i] ==
              Entry(if i == 0 && n.entries != [] then n.entries[0].lead else " ", None, vs[i].repr, vs[i].str)
  }

  /** A new node with nothing but the value, a blank before each part. */
  ghost predicate Bare(m: Node, shape: Shape) {
    var vs := match shape case Scalar(v) => [v] case Many(vs) => vs;
    && m.body == None && |m.entries| == |vs|
    && forall i :: 0 <= i < |vs| ==> m.entries[i] == Entry(" ", None, vs[i].repr, vs[i].str)
  }

  /** The walk down the last node of each name reaches a node. */
  ghost predicate Defined(items: seq<Item>, parts: seq<string>)
    requires parts != []
    decreases |parts|
  {
    exists k ::
      && 0 <= k < |items| && items[k].node.name == parts[0]
      && (forall j :: k < j < |items| ==> items[j].node.name != parts[0])
      && (|parts| == 1 || (items[k].node.body.Some? && Defined(items[k].node.body.value.items, parts[1..])))
  }

  lemma DefinedIs(items: seq<Item>, parts: seq<string>)
    requires parts != []
    ensures Defined(items, parts) <==>
              match LastNamed(items, parts[0])
              case None => false
              case Some(k) =>
                |parts| == 1 || (items[k].node.body.Some? && Defined(items[k].node.body.value.items, parts[1..]))
  {
    hide LastNamed;
  }

  /** A node takes a value unless it has no place for it: none without a name for
      a single value, and for a list no children and no name on any. */
  lemma TakesValue(n: Node, shape: Shape)
    ensures NewEntries(n, shape).Some? ==> Changed(n, n.(entries := NewEntries(n, shape).value), shape)
    ensures NewEntries(n, shape) == None <==>
              if shape.Scalar? then forall i :: 0 <= i < |n.entries| ==> n.entries[i].key.Some?
              else n.body.Some? || exists i :: 0 <= i < |n.entries| && n.entries[i].key.Some?
  {
    if shape.Scalar? && NewEntries(n, shape).Some? {
      assert FirstUnnamed(n.entries, Positional(n.entries).value);
    }
  }

  /** What setting a value does to the definitions of its own path: the one the
      walk reaches holds it now, or there is one more, which does. */
  ghost predicate LastSet(before: seq<Node>, after: seq<Node>, shape: Shape, defined: bool) {
    && after != [] && Holds(after[|after| - 1], shape)
    && if defined then
         && |before| == |after| && after[..|after| - 1] == before[..|before| - 1]
         && Changed(before[|before| - 1], after[|after| - 1], shape)
       else after[..|after| - 1] == before && Bare(after[|after| - 1], shape)
  }

  lemma LastSetAfter(a: seq<Node>, before: seq<Node>, after: seq<Node>, shape: Shape, defined: bool)
    requires LastSet(before, after, shape, defined)
    ensures LastSet(a + before, a + after, shape, defined)
  {
    hide Changed, Bare, Holds;
    assert (a + after)[..|a + after| - 1] == a + after[..|after| - 1];
    assert before != [] ==> (a + before)[..|a + before| - 1] == a + before[..|before| - 1];
  }

  lemma NewEntriesHold(n: Node, shape: Shape)
    requires NewEntries(n, shape).Some?
    ensures Holds(n.(entries := NewEntries(n, shape).value), shape)
  {
    if shape.Scalar? {
      var i := Positional(n.entries).value;
      var es := NewEntries(n, shape).value;
      PositionalIs(es, i);
    }
  }

  lemma {:induction false} PositionalIs(es: seq<Entry>, i: nat)
    requires i < |es| && es[i].key == None && forall j :: 0 <= j < i ==> es[j].key.Some?
    ensures Positional(es) == Some(i)
  {
    if i > 0 {
      assert es[0].key.Some?;
      PositionalIs(es[1..], i - 1);
    }
  }

  /** The new blocks lead to the new leaf. */
  lemma {:induction false} BuiltHolds(parts: seq<string>, indent: string, shape: Shape)
    requires parts != []
    ensures PathLevels(parts) != []
    ensures LastSet([], Hits(Built(parts, indent, shape), PathLevels(parts)), shape, false)
  {
    hide NodesAt, Hits;
    var n := Built(parts, indent, shape);
    NodeHits(n, parts);
    if |parts| == 1 {
      if shape.Scalar? {
        PositionalIs(n.entries, 0);
      }
    } else {
      BuiltHolds(parts[1..], indent + UNIT, shape);
      OneNode(n.body.value.items[0], PathLevels(parts[1..]));
    }
  }

  lemma InsertedSets(text: string, pos: nat, items: seq<Item>, end: string, parent: Option<nat>, parts: seq<string>,
                     shape: Shape)
    requires parts != [] && pos + |ItemsText(items)| <= |text| && (parent.Some? ==> parent.value <= |text|)
    ensures PathLevels(parts) != []
    ensures LastSet(NodesAt(items, PathLevels(parts)),
                    NodesAt(Inserted(text, pos, items, end, parent, parts, shape).items, PathLevels(parts)), shape,
                    false)
  {
    hide NodesAt, Hits, PlaceIn, LastSet, Built;
    PathStep(parts);
    LastWithin(pos, items);
    var p := PlaceIn(text, LastAt(pos, items), end, parent);
    var i := Item(end[..p.cut] + p.lead, Built(parts, p.indent, shape));
    NodesAtAppend(items, [i], PathLevels(parts));
    OneNode(i, PathLevels(parts));
    BuiltHolds(parts, p.indent, shape);
    LastSetAfter(NodesAt(items, PathLevels(parts)), [], Hits(i.node, PathLevels(parts)), shape, false);
    assert NodesAt(items, PathLevels(parts)) + [] == NodesAt(items, PathLevels(parts));
  }

  /** The last definition of the path, in document order, holds the value;
      the definitions before it stay as they were. */
  lemma {:induction false} PutSets(text: string, pos: nat, items: seq<Item>, end: string, parent: Option<nat>,
                                   parts: seq<string>, shape: Shape)
    requires parts != [] && pos + |ItemsText(items)| <= |text| && (parent.Some? ==> parent.value <= |text|)
    requires Put(text, pos, items, end, parent, parts, shape).Some?
    ensures PathLevels(parts) != []
    ensures LastSet(NodesAt(items, PathLevels(parts)),
                    NodesAt(Put(text, pos, items, end, parent, parts, shape).value.items, PathLevels(parts)), shape,
                    Defined(items, parts))
    decreases |parts|
  {
    hide NodesAt, Hits, Inserted, LastSet, NewEntries, Holds, PathLevels, LastNamed, NodeText, ItemsText, BodyAt,
      ItemAt, Changed, Bare, Defined;
    var levels := PathLevels(parts);
    PathStep(parts);
    DefinedIs(items, parts);
    match LastNamed(items, parts[0])
    case None =>
      InsertedSets(text, pos, items, end, parent, parts, shape);
    case Some(k) =>
      var n := items[k].node;
      NodeHits(n, parts);
      if |parts| == 1 {
        var m := n.(entries := NewEntries(n, shape).value);
        NewEntriesHold(n, shape);
        TakesValue(n, shape);
        NodeHits(m, parts);
        AroundLast(items, k, m, parts);
        ReplacedSets(NodesAt(items[..k], levels), n, m, shape);
      } else if n.body.Some? {
        var d, s := n.body.value, ItemAt(pos, items, k);
        BodyWithin(pos, items, k, d);
        PutSets(text, s + BodyAt(n), d.items, d.end, Some(s), parts[1..], shape);
        var m := n.(body := Put(text, s + BodyAt(n), d.items, d.end, Some(s), parts[1..], shape));
        NodeHits(m, parts);
        AroundLast(items, k, m, parts);
        LastSetAfter(NodesAt(items[..k], levels), Hits(n, levels), Hits(m, levels), shape,
          Defined(d.items, parts[1..]));
      } else {
        InsertedSets(text, pos, items, end, parent, parts, shape);
      }
  }

  lemma ReplacedSets(a: seq<Node>, n: Node, m: Node, shape: Shape)
    requires Holds(m, shape) && Changed(n, m, shape)
    ensures LastSet(a + [n], a + [m], shape, true)
  {
    assert (a + [n])[..|a|] == a == (a + [m])[..|a|];
  }

  // ------------------------------------------------------- every other path

  lemma {:induction false} BuiltLacks(parts: seq<string>, indent: string, shape: Shape, q: seq<string>)
    requires parts != [] && q != [] && !(q <= parts)
    ensures PathLevels(q) != [] && Hits(Built(parts, indent, shape), PathLevels(q)) == []
  {
    hide NodesAt, Hits;
    var n := Built(parts, indent, shape);
    NodeHits(n, q);
    if q[0] == parts[0] && |q| > 1 && |parts| > 1 {
      Tails(q, parts);
      BuiltLacks(parts[1..], indent + UNIT, shape, q[1..]);
      OneNode(n.body.value.items[0], PathLevels(q[1..]));
    } else if q[0] == parts[0] {
      Tails(q, parts);
    }
  }

  lemma PrefixStep(q: seq<string>, p: seq<string>)
    requires q != [] && p != []
    ensures q <= p <==> q[0] == p[0] && q[1..] <= p[1..]
  {
    assert q == [q[0]] + q[1..] && p == [p[0]] + p[1..];
    if q[1..] <= p[1..] {
      assert p[1..] == q[1..] + p[1..][|q| - 1..];
    }
    if q <= p {
      assert p == q + p[|q|..];
      assert p[1..] == q[1..] + p[|q|..];
    }
  }

  lemma Tails(q: seq<string>, p: seq<string>)
    requires q != [] && p != [] && !(q <= p) && q[0] == p[0]
    ensures |q| > 1 && !(q[1..] <= p[1..])
  {
    PrefixStep(q, p);
  }

  /** A path that is not a prefix of the one set leads to the very same nodes. */
  lemma {:induction false} PutKeeps(text: string, pos: nat, items: seq<Item>, end: string, parent: Option<nat>,
                                    parts: seq<string>, shape: Shape, q: seq<string>)
    requires parts != [] && pos + |ItemsText(items)| <= |text| && (parent.Some? ==> parent.value <= |text|)
    requires Put(text, pos, items, end, parent, parts, shape).Some?
    requires q != [] && !(q <= parts)
    ensures PathLevels(q) != []
    ensures NodesAt(Put(text, pos, items, end, parent, parts, shape).value.items, PathLevels(q))
            == NodesAt(items, PathLevels(q))
    decreases |parts|
  {
    hide NodesAt, Hits, Inserted, NewEntries, PathLevels, LastNamed, NodeText, ItemsText, BodyAt, ItemAt;
    PathStep(q);
    match LastNamed(items, parts[0])
    case None =>
      InsertedKeeps(text, pos, items, end, parent, parts, shape, q);
    case Some(k) =>
      var n := items[k].node;
      NodesAtSplit(items, k, PathLevels(q));
      NodeHits(n, q);
      if q[0] == parts[0] {
        Tails(q, parts);
      }
      if |parts| == 1 {
        var m := n.(entries := NewEntries(n, shape).value);
        NodeHits(m, q);
        NodesAtUpdate(items, k, m, PathLevels(q));
      } else if n.body.Some? {
        var d, s := n.body.value, ItemAt(pos, items, k);
        BodyWithin(pos, items, k, d);
        var m := n.(body := Put(text, s + BodyAt(n), d.items, d.end, Some(s), parts[1..], shape));
        NodeHits(m, q);
        if q[0] == parts[0] {
          PutKeeps(text, s + BodyAt(n), d.items, d.end, Some(s), parts[1..], shape, q[1..]);
        }
        NodesAtUpdate(items, k, m, PathLevels(q));
      } else {
        InsertedKeeps(text, pos, items, end, parent, parts, shape, q);
      }
  }

  lemma InsertedKeeps(text: string, pos: nat, items: seq<Item>, end: string, parent: Option<nat>, parts: seq<string>,
                      shape: Shape, q: seq<string>)
    requires parts != [] && pos + |ItemsText(items)| <= |text| && (parent.Some? ==> parent.value <= |text|)
    requires q != [] && !(q <= parts)
    ensures PathLevels(q) != []
    ensures NodesAt(Inserted(text, pos, items, end, parent, parts, shape).items, PathLevels(q))
            == NodesAt(items, PathLevels(q))
  {
    hide NodesAt, Hits, PlaceIn, Built, PathLevels;
    PathStep(q);
    LastWithin(pos, items);
    var p := PlaceIn(text, LastAt(pos, items), end, parent);
    var i := Item(end[..p.cut] + p.lead, Built(parts, p.indent, shape));
    NodesAtAppend(items, [i], PathLevels(q));
    OneNode(i, PathLevels(q));
    BuiltLacks(parts, p.indent, shape, q);
  }

  // ------------------------------------------------------ setting it again

  lemma {:induction false} LastNamedIs(items: seq<Item>, name: string, k: nat)
    requires k < |items| && items[k].node.name == name && forall j :: k < j < |items| ==> items[j].node.name != name
    ensures LastNamed(items, name) == Some(k)
    decreases |items|
  {
    if k < |items| - 1 {
      LastNamedIs(items[..|items| - 1], name, k);
    }
  }

  lemma NewEntriesAgain(n: Node, shape: Shape)
    requires NewEntries(n, shape).Some?
    ensures NewEntries(n.(entries := NewEntries(n, shape).value), shape) == NewEntries(n, shape)
  {
    var es := NewEntries(n, shape).value;
    match shape
    case Scalar(v) =>
      var i := Positional(n.entries).value;
      PositionalIs(es, i);
      assert es[i := es[i].(repr := v.repr, str := v.str)] == es;
    case Many(vs) =>
      if vs != [] {
        assert ListEntries(vs) == [Entry(" ", None, vs[0].repr, vs[0].str)] + ListEntries(vs[1..]);
      }
  }

  /** The walk down the last node of each name ends at a node that holds the
      value already. */
  predicate Stands(items: seq<Item>, parts: seq<string>, shape: Shape)
    requires parts != []
    decreases |parts|
  {
    match LastNamed(items, parts[0])
    case None => false
    case Some(k) =>
      var n := items[k].node;
      if |parts| == 1 then NewEntries(n, shape) == Some(n.entries)
      else n.body.Some? && Stands(n.body.value.items, parts[1..], shape)
  }

  lemma {:induction false} BuiltStands(items: seq<Item>, parts: seq<string>, indent: string, shape: Shape)
    requires parts != [] && items != [] && items[|items| - 1].node == Built(parts, indent, shape)
    ensures Stands(items, parts, shape)
    decreases |parts|
  {
    LastNamedIs(items, parts[0], |items| - 1);
    if |parts| == 1 {
      LeafEntries(parts[0], shape);
    } else {
      BuiltStands(items[|items| - 1].node.body.value.items, parts[1..], indent + UNIT, shape);
    }
  }

  lemma LeafEntries(name: string, shape: Shape)
    ensures NewEntries(Leaf(name, shape), shape) == Some(Leaf(name, shape).entries)
  {
    var es := Leaf(name, shape).entries;
    match shape
    case Scalar(v) =>
      PositionalIs(es, 0);
      assert es[0 := es[0].(repr := v.repr, str := v.str)] == es;
    case Many(vs) =>
      if vs != [] {
        assert ListEntries(vs) == [Entry(" ", None, vs[0].repr, vs[0].str)] + ListEntries(vs[1..]);
      }
  }

  lemma InsertedLast(text: string, pos: nat, items: seq<Item>, end: string, parent: Option<nat>, parts: seq<string>,
                     shape: Shape)
    requires parts != [] && pos + |ItemsText(items)| <= |text| && (parent.Some? ==> parent.value <= |text|)
    ensures var c := Inserted(text, pos, items, end, parent, parts, shape);
            && c.items != []
            && c.items[|c.items| - 1].node == Built(parts, InsertedIndent(text, pos, items, end, parent), shape)
  {
  }

  /** Once put in, the value stands. */
  lemma {:induction false} PutStands(text: string, pos: nat, items: seq<Item>, end: string, parent: Option<nat>,
                                     parts: seq<string>, shape: Shape, c: Doc)
    requires parts != [] && pos + |ItemsText(items)| <= |text| && (parent.Some? ==> parent.value <= |text|)
    requires Put(text, pos, items, end, parent, parts, shape) == Some(c)
    ensures Stands(c.items, parts, shape)
    decreases |parts|
  {
    hide PlaceIn, NodeText, ItemsText, Built, NewEntries, BodyAt, Inserted, LastNamed;
    match LastNamed(items, parts[0])
    case None =>
      InsertedLast(text, pos, items, end, parent, parts, shape);
      BuiltStands(c.items, parts, InsertedIndent(text, pos, items, end, parent), shape);
    case Some(k) =>
      var n := items[k].node;
      if |parts| == 1 {
        LastNamedIs(c.items, parts[0], k);
        NewEntriesAgain(n, shape);
      } else if n.body.Some? {
        LastNamedIs(c.items, parts[0], k);
        var d, s := n.body.value, ItemAt(pos, items, k);
        BodyWithin(pos, items, k, d);
        PutStands(text, s + BodyAt(n), d.items, d.end, Some(s), parts[1..], shape, c.items[k].node.body.value);
      } else {
        InsertedLast(text, pos, items, end, parent, parts, shape);
        BuiltStands(c.items, parts, InsertedIndent(text, pos, items, end, parent), shape);
      }
  }

  /** Setting a value that stands leaves the tree as it is, wherever its text is. */
  lemma {:induction false} PutAgain(text: string, pos: nat, items: seq<Item>, end: string, parent: Option<nat>,
                                    parts: seq<string>, shape: Shape)
    requires parts != [] && pos + |ItemsText(items)| <= |text| && (parent.Some? ==> parent.value <= |text|)
    requires Stands(items, parts, shape)
    ensures Put(text, pos, items, end, parent, parts, shape) == Some(Doc(items, end))
    decreases |parts|
  {
    hide NodeText, ItemsText, NewEntries, BodyAt, Inserted;
    var k := LastNamed(items, parts[0]).value;
    var n := items[k].node;
    if |parts| > 1 {
      var d, s := n.body.value, ItemAt(pos, items, k);
      BodyWithin(pos, items, k, d);
      PutAgain(text, s + BodyAt(n), d.items, d.end, Some(s), parts[1..], shape);
    }
    assert items[k := items[k]] == items;
  }

  /** A value that stands still does when nodes go that its path is apart from. */
  lemma {:induction false} CutStands(items: seq<Item>, end: string, levels: seq<Level>, top: bool, first: bool,
                                     carry: string, skip: nat, parts: seq<string>, shape: Shape)
    requires parts != [] && Stands(items, parts, shape) && Apart(levels, PathLevels(parts))
    requires levels != [] && skip <= |NextGap(items, end)|
    ensures Stands(Cut(items, end, levels, top, false, first, carry, skip).items, parts, shape)
    decreases |parts|
  {
    hide Cut, LastNamed, NewEntries, CutBefore, Goes, Stays, Enters, Nodes, LastNode, Survivors, PathLevels, Apart;
    var k := LastNamed(items, parts[0]).value;
    var n := items[k].node;
    PathStep(parts);
    StandsStays(n, levels, top, parts, shape);
    var after := Cut(items, end, levels, top, false, first, carry, skip).items;
    LastNodeNamed(items, parts[0]);
    LastSurvives(items, levels, top, parts[0], n);
    SurvivorsKept(items, end, levels, top, false, first, carry, skip);
    LastNodeNamed(after, parts[0]);
    StaysBody(n, levels);
    if |parts| > 1 && Enters(levels, n) {
      var d := n.body.value;
      CutStands(d.items, d.end, levels[1..], false, false, "", 0, parts[1..], shape);
    }
  }

  lemma StaysBody(n: Node, levels: seq<Level>)
    requires levels != []
    ensures !Enters(levels, n) ==> Stays(n, levels, false) == n
    ensures Enters(levels, n) ==>
              && |levels| > 1 && n.body.Some?
              && var d := n.body.value;
              Stays(n, levels, false).body == Some(Cut(d.items, d.end, levels[1..], false, false, false, "", 0))
  {
    hide Cut;
  }

  lemma StandsStays(n: Node, levels: seq<Level>, top: bool, parts: seq<string>, shape: Shape)
    requires parts != [] && levels != [] && n.name == parts[0] && Apart(levels, PathLevels(parts))
    requires |parts| > 1 ==> n.body.Some?
    ensures !Goes(n, levels, top, false)
    ensures Stays(n, levels, false).entries == n.entries
    ensures NewEntries(Stays(n, levels, false), shape) == NewEntries(n, shape)
    ensures |parts| > 1 && Enters(levels, n) ==> |levels| > 1 && Apart(levels[1..], PathLevels(parts[1..]))
  {
    hide Cut, Gone;
    PathStep(parts);
    if Matches(levels[0], n) {
      assert !Excludes(levels[0], PathLevels(parts)[0]);
    }
  }

  /** The last node of a name, in a list of nodes. */
  function LastNode(ns: seq<Node>, name: string): Option<Node> {
    if ns == [] then None
    else if LastNode(ns[1..], name).Some? then LastNode(ns[1..], name)
    else if ns[0].name == name then Some(ns[0])
    else None
  }

  lemma {:induction false} LastNodeNamed(items: seq<Item>, name: string)
    ensures LastNode(Nodes(items), name)
            == match LastNamed(items, name) case None => None case Some(k) => Some(items[k].node)
    decreases |items|
  {
    hide LastNamed;
    if items != [] {
      var rest := items[1..];
      LastNodeNamed(rest, name);
      assert Nodes(items)[1..] == Nodes(rest);
      assert forall j :: 0 <= j < |rest| ==> rest[j] == items[j + 1];
      match LastNamed(rest, name)
      case Some(k) => LastNamedIs(items, name, k + 1);
      case None => if items[0].node.name == name { LastNamedIs(items, name, 0); }
    } else {
      assert LastNamed(items, name) == None;
    }
  }

  /** The last node of a name, if it stays, is the last of that name after. */
  lemma {:induction false} LastSurvives(items: seq<Item>, levels: seq<Level>, top: bool, name: string, n: Node)
    requires levels != [] && LastNode(Nodes(items), name) == Some(n) && !Goes(n, levels, top, false)
    ensures LastNode(Survivors(items, levels, top, false), name) == Some(Stays(n, levels, false))
    decreases |items|
  {
    hide Goes, Stays;
    var rest := items[1..];
    assert Nodes(items)[1..] == Nodes(rest);
    var m := items[0].node;
    StaysName(m, levels);
    var own := if Goes(m, levels, top, false) then [] else [Stays(m, levels, false)];
    var later := Survivors(rest, levels, top, false);
    assert Survivors(items, levels, top, false) == own + later;
    if LastNode(Nodes(rest), name).Some? {
      LastSurvives(rest, levels, top, name, n);
    } else {
      NoneSurvives(rest, levels, top, name);
    }
    assert own == [] ==> own + later == later;
    assert own != [] ==> (own + later)[1..] == later;
  }

  lemma {:induction false} NoneSurvives(items: seq<Item>, levels: seq<Level>, top: bool, name: string)
    requires levels != [] && LastNode(Nodes(items), name) == None
    ensures LastNode(Survivors(items, levels, top, false), name) == None
    decreases |items|
  {
    hide Goes, Stays;
    if items != [] {
      var rest := items[1..];
      assert Nodes(items)[1..] == Nodes(rest);
      var m := items[0].node;
      StaysName(m, levels);
      NoneSurvives(rest, levels, top, name);
      var own := if Goes(m, levels, top, false) then [] else [Stays(m, levels, false)];
      var later := Survivors(rest, levels, top, false);
      assert Survivors(items, levels, top, false) == own + later;
      assert own == [] ==> own + later == later;
      assert own != [] ==> (own + later)[1..] == later;
    }
  }

  lemma StaysName(n: Node, levels: seq<Level>)
    requires levels != []
    ensures Stays(n, levels, false).name == n.name
  {
  }

  function InsertedIndent(text: string, pos: nat, items: seq<Item>, end: string, parent: Option<nat>): string
    requires pos + |ItemsText(items)| <= |text| && (parent.Some? ==> parent.value <= |text|)
  {
    LastWithin(pos, items);
    PlaceIn(text, LastAt(pos, items), end, parent).indent
  }
}
