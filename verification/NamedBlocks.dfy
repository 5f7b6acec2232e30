/** `rename_block`, `upsert_block` and `move_block`: edits of the blocks of one
    kind inside every top-level block of one name. */
module NamedBlocks {
  import opened Options
  import opened Kdl
  import opened Splice
  import opened Prune
  import opened Remove
  import opened SetTree
  import opened SetText
  import opened Effect
  import opened BlockTree
  import opened BlockText
  import opened BlockRest

  /** A string as a literal, as `quote` gives it. */
  ghost predicate Literal(q: string) {
    q != "" && !White(q[|q| - 1])
  }

  lemma KindWidens(parent: string, kind: string, name: string)
    ensures Widens(KindLevels(parent, kind), BlockLevels(parent, kind, name))
    ensures Last(BlockLevels(parent, kind, name)) == Level({kind}, Some(name))
    ensures Last(KindLevels(parent, kind)) == Level({kind}, None)
  {
    var b, l := KindLevels(parent, kind), BlockLevels(parent, kind, name);
    assert b[1..] == [b[1]] && l[1..] == [l[1]];
    assert Widens([b[1]], [l[1]]);
  }

  lemma {:induction false} TitleIsPositional(es: seq<Entry>)
    ensures Title(es) == match Positional(es) case None => None case Some(i) => es[i].str
  {
    if es != [] && es[0].key.Some? {
      TitleIsPositional(es[1..]);
    }
  }

  /** Blocks of the kind match a name exactly when it is theirs. */
  lemma {:induction false} KindNamed(items: seq<Item>, parent: string, kind: string)
    ensures forall i :: 0 <= i < |NodesAt(items, KindLevels(parent, kind))| ==>
            NodesAt(items, KindLevels(parent, kind))[i].name == kind
    decreases items
  {
    hide NodesAt;
    var b := KindLevels(parent, kind);
    if items == [] {
      NoItems(b);
    } else {
      KindNamed(items[1..], parent, kind);
      FirstHits(items, b);
      KindHits(items[0].node, parent, kind);
    }
  }

  lemma KindHits(n: Node, parent: string, kind: string)
    ensures forall i :: 0 <= i < |Hits(n, KindLevels(parent, kind))| ==>
            Hits(n, KindLevels(parent, kind))[i].name == kind
  {
    hide NodesAt;
    var b := KindLevels(parent, kind);
    assert b[1..] == [Level({kind}, None)];
    if n.body.Some? {
      LeafNamed(n.body.value.items, kind);
    }
  }

  lemma {:induction false} LeafNamed(items: seq<Item>, kind: string)
    ensures forall i :: 0 <= i < |NodesAt(items, [Level({kind}, None)])| ==>
            NodesAt(items, [Level({kind}, None)])[i].name == kind
    decreases items
  {
    if items != [] {
      LeafNamed(items[1..], kind);
      FirstHits(items, [Level({kind}, None)]);
    }
  }

  // ---------------------------------------------------------------- rename

  /** A block with another name. */
  function Retitled(n: Node, quoted: string, name: string): Node {
    match NewEntries(n, Scalar(Value(quoted, Some(name))))
    case None => n
    case Some(es) => n.(entries := es)
  }

  lemma RetitledIs(n: Node, quoted: string, name: string)
    requires Title(n.entries).Some?
    ensures NewEntries(n, Scalar(Value(quoted, Some(name)))).Some?
    ensures var m := Retitled(n, quoted, name); m.name == n.name && Title(m.entries) == Some(name)
    ensures Changed(n, Retitled(n, quoted, name), Scalar(Value(quoted, Some(name))))
  {
    TitleIsPositional(n.entries);
    var i := Positional(n.entries).value;
    var m := Retitled(n, quoted, name);
    TakesValue(n, Scalar(Value(quoted, Some(name))));
    PositionalIs(m.entries, i);
    TitleIsPositional(m.entries);
  }

  lemma RetitledOk(n: Node, quoted: string, name: string)
    requires NodeOk(n) && Title(n.entries).Some? && Literal(quoted)
    ensures NodeOk(Retitled(n, quoted, name))
  {
    hide NodeText, NodeEdit, White, DocText;
    var shape := Scalar(Value(quoted, Some(name)));
    var m := Retitled(n, quoted, name);
    RetitledIs(n, quoted, name);
    NodeEditText(n, shape);
    ScalarEditIs(n, shape);
    NodeEnds(n);
    var e, c := NodeEdit(n, 0, shape).value, NodeText(n);
    LastCharKept(c[..e.start], quoted, c[e.stop..], c);
    TitleIsPositional(n.entries);
    StartsWritten(m);
  }

  lemma ScalarEditIs(n: Node, shape: Shape)
    requires shape.Scalar? && NodeEdit(n, 0, shape).Some?
    ensures NodeEdit(n, 0, shape).value.with == shape.value.repr
  {
  }

  lemma StartsWritten(n: Node)
    requires n.written != ""
    ensures NodeText(n) != "" && NodeText(n)[0] == n.written[0]
  {
  }

  lemma LastCharKept(a: string, with: string, z: string, c: string)
    requires Literal(with) && c != "" && !White(c[|c| - 1]) && |z| <= |c| && z == c[|c| - |z|..]
    ensures var t := a + with + z; t != "" && !White(t[|t| - 1])
  {
    var t := a + with + z;
    if z == "" {
      assert t == a + with;
    } else {
      assert t[|t| - 1] == z[|z| - 1] == c[|c| - 1];
    }
  }

  /** The file with the last block of `name` named anew and the others gone. */
  function Renamed(d: Doc, parent: string, kind: string, name: string, m: Node): Doc {
    CutDoc(Doc(SetLast(d.items, BlockLevels(parent, kind, name), m), d.end), BlockLevels(parent, kind, name), false)
  }

  lemma HitsMatch(items: seq<Item>, parent: string, kind: string, name: string)
    requires NodesAt(items, BlockLevels(parent, kind, name)) != []
    ensures var n := LastOf(NodesAt(items, BlockLevels(parent, kind, name)));
            n.name == kind && Title(n.entries) == Some(name)
  {
    hide NodesAt, Wanted, Title;
    var b, l := KindLevels(parent, kind), BlockLevels(parent, kind, name);
    KindWidens(parent, kind, name);
    WantedNodes(items, l, b);
    WantedMatch(NodesAt(items, b), Last(l));
  }

  lemma {:induction false} WantedMatch(bs: seq<Node>, l: Level)
    ensures forall i :: 0 <= i < |Wanted(bs, l)| ==> Matches(l, Wanted(bs, l)[i])
  {
    hide Matches;
    if bs != [] {
      WantedMatch(bs[1..], l);
    }
  }

  /** Exactly one block of the new name, where the last of the old stood, none
      of the old, and the others as they were, in their order. */
  lemma {:induction false} RenameSettles(d: Doc, parent: string, kind: string, name: string, newName: string, m: Node)
    requires NodesAt(d.items, BlockLevels(parent, kind, name)) != []
    requires NodesAt(d.items, BlockLevels(parent, kind, newName)) == []
    requires m.name == kind && Title(m.entries) == Some(newName) && newName != name
    ensures var b, l := KindLevels(parent, kind), Level({kind}, Some(name));
            NodesAt(Renamed(d, parent, kind, name, m).items, b) == Settled(NodesAt(d.items, b), l, m)
    ensures NodesAt(Renamed(d, parent, kind, name, m).items, BlockLevels(parent, kind, newName)) == [m]
    ensures NodesAt(Renamed(d, parent, kind, name, m).items, BlockLevels(parent, kind, name)) == []
  {
    hide NodesAt, Cut, SetLast, Settled, ReplaceLast, Wanted, Others;
    var b, l, q := KindLevels(parent, kind), BlockLevels(parent, kind, name), BlockLevels(parent, kind, newName);
    KindWidens(parent, kind, name);
    KindWidens(parent, kind, newName);
    var left := Doc(SetLast(d.items, l, m), d.end);
    var after := CutDoc(left, l, false);
    SetLastReplaces(d.items, l, b, m);
    CutLeavesOthers(left.items, left.end, l, b, true, true, "", 0);
    SettledIsReplaced(NodesAt(d.items, b), Last(l), m);
    NoneLeft(left.items, left.end, l, true, false, true, "", 0);
    WantedNodes(d.items, l, b);
    WantedNodes(d.items, q, b);
    WantedNodes(after.items, q, b);
    OnlyNew(NodesAt(d.items, b), Last(l), m, Last(q));
  }

  lemma {:induction false} OnlyNew(bs: seq<Node>, l: Level, m: Node, q: Level)
    requires Wanted(bs, l) != [] && Wanted(bs, q) == [] && Matches(q, m)
    ensures Wanted(Settled(bs, l, m), q) == [m]
  {
    hide Matches;
    var head, rest := bs[0], bs[1..];
    assert bs == [head] + rest;
    OneWanted(head, q);
    WantedAppend([head], rest, q);
    if Wanted(rest, l) != [] {
      OnlyNew(rest, l, m, q);
      var kept := if Matches(l, head) then [] else [head];
      WantedAppend(kept, Settled(rest, l, m), q);
      NoneWanted(q);
    } else {
      WantedAppend([m], rest, q);
      OneWanted(m, q);
    }
  }

  /** Every path apart from the blocks of the kind leads where it did. */
  lemma RenameKeepsRest(d: Doc, parent: string, kind: string, name: string, m: Node, q: seq<Level>)
    requires m.name == kind && Apart(KindLevels(parent, kind), q) && q != []
    ensures NodesAt(Renamed(d, parent, kind, name, m).items, q) == NodesAt(d.items, q)
  {
    hide NodesAt, Cut, SetLast, Apart, Widens;
    var b, l := KindLevels(parent, kind), BlockLevels(parent, kind, name);
    KindWidens(parent, kind, name);
    ApartWidens(l, b, q);
    SetLastRest(d.items, l, b, m, q);
    OthersKept(SetLast(d.items, l, m), d.end, l, q, true, false, true, "", 0);
  }

  /** The bytes of the last block's name, to be written anew. */
  function NameEdit(text: string, d: Doc, parent: string, kind: string, name: string, newName: string, quoted: string)
    : Edit
    requires text == DocText(d) && DocOk(d) && Literal(quoted)
    requires NodesAt(d.items, BlockLevels(parent, kind, name)) != []
    requires NodesAt(d.items, BlockLevels(parent, kind, newName)) == []
  {
    RenameEdit(text, d, parent, kind, name, newName, quoted);
    var l := BlockLevels(parent, kind, name);
    NodeEdit(LastOf(NodesAt(d.items, l)), LastHitAt(0, d.items, l), Scalar(Value(quoted, Some(newName)))).value
  }

  /** `rename_block`: the last block's name and the removals of the earlier ones,
      made in place; which leaves the text of the renamed tree only if the
      removals are safe. */
  method RenameBlock(parser: Parser, text: string, parent: string, kind: string, name: string, newName: string,
                     quoted: string)
    returns (r: Result<string, EditError>)
    requires Reads(parser, text) && Literal(quoted)
    ensures r.Ok? ==> parser(r.value).Some?
    ensures parser(text) == None ==> r == Err(Parse)
    ensures parser(text).Some? ==>
              var d, l := parser(text).value, BlockLevels(parent, kind, name);
              var found := NodesAt(d.items, l);
              if NodesAt(d.items, BlockLevels(parent, kind, newName)) != [] then r == Err(Exists)
              else if found == [] then r == Err(NotFound)
              else
                && FileRemovals(text, d, l, false) != []
                && r == Checked(parser, AllMade(text, [NameEdit(text, d, parent, kind, name, newName, quoted)]
                                                      + ButLast(FileRemovals(text, d, l, false))))
                && var renamed := DocText(Renamed(d, parent, kind, name, Retitled(LastOf(found), quoted, newName)));
                && (EarlierSafeDoc(d, l) ==> r == Reparse(parser, renamed))
                && (r == Ok(renamed) ==> EarlierSafeDoc(d, l))
  {
    hide NodesAt, NodeText, ItemsText, SetLast, Cut, NodeEdit, NodeOk, Retitled, Rebuild, Fits, LastHitAt, Removals,
      EarlierSafe, AllMade;
    if parser(text) == None {
      return Err(Parse);
    }
    var d := parser(text).value;
    var l := BlockLevels(parent, kind, name);
    if NodesAt(d.items, BlockLevels(parent, kind, newName)) != [] {
      return Err(Exists);
    }
    var found := NodesAt(d.items, l);
    if found == [] {
      return Err(NotFound);
    }
    var last, s, shape := LastOf(found), LastHitAt(0, d.items, l), Scalar(Value(quoted, Some(newName)));
    RenameEdit(text, d, parent, kind, name, newName, quoted);
    var e := NodeEdit(last, s, shape).value;
    r := Settle(parser, text, d, l, Retitled(last, quoted, newName), e);
  }

  lemma RenameEdit(text: string, d: Doc, parent: string, kind: string, name: string, newName: string, quoted: string)
    requires text == DocText(d) && DocOk(d) && Literal(quoted)
    requires NodesAt(d.items, BlockLevels(parent, kind, name)) != []
    requires NodesAt(d.items, BlockLevels(parent, kind, newName)) == []
    ensures var l := BlockLevels(parent, kind, name);
            var last, s, shape := LastOf(NodesAt(d.items, l)), LastHitAt(0, d.items, l),
              Scalar(Value(quoted, Some(newName)));
            var m := Retitled(last, quoted, newName);
            && newName != name && m.name == kind && Title(m.entries) == Some(newName) && NodeOk(m) &&
              !Matches(Last(l), m)
            && NodeEdit(last, s, shape).Some? && Changes(text, s, last, m, NodeEdit(last, s, shape).value)
  {
    hide NodesAt, NodeText, ItemsText, NodeEdit, NodeOk, Retitled, LastHitAt, Title;
    var l := BlockLevels(parent, kind, name);
    var last, s, shape := LastOf(NodesAt(d.items, l)), LastHitAt(0, d.items, l), Scalar(Value(quoted, Some(newName)));
    var t := s + |NodeText(last)|;
    WholeSits(text, d);
    LastHitSits(text, 0, |text|, d.items, d.end, l);
    HitsMatch(d.items, parent, kind, name);
    KindWidens(parent, kind, name);
    RetitledIs(last, quoted, newName);
    RetitledOk(last, quoted, newName);
    assert ShapeOk(shape);
    LeafText(text, s, t, last, shape);
    RetitledEntries(last, quoted, newName);
    IsChange(text, s, last, Retitled(last, quoted, newName), NodeEdit(last, s, shape).value);
  }

  lemma RetitledEntries(n: Node, quoted: string, name: string)
    requires NewEntries(n, Scalar(Value(quoted, Some(name)))).Some?
    ensures Retitled(n, quoted, name) == n.(entries := NewEntries(n, Scalar(Value(quoted, Some(name)))).value)
  {
  }

  /** The edit of the last block and the removals of those before it, made
      together; exactly where those are safe that changes the last block and
      leaves no other of the name. */
  method Settle(parser: Parser, text: string, d: Doc, l: seq<Level>, ghost m: Node, e: Edit)
    returns (r: Result<string, EditError>)
    requires l != [] && text == DocText(d) && DocOk(d) && NodesAt(d.items, l) != [] && !Matches(Last(l), m) && NodeOk(m)
    requires Changes(text, LastHitAt(0, d.items, l), LastOf(NodesAt(d.items, l)), m, e)
    ensures FileRemovals(text, d, l, false) != []
    ensures r == Checked(parser, AllMade(text, [e] + ButLast(FileRemovals(text, d, l, false))))
    ensures var settled := DocText(CutDoc(Doc(SetLast(d.items, l, m), d.end), l, false));
            && (EarlierSafeDoc(d, l) ==> r == Reparse(parser, settled))
            && (r == Ok(settled) ==> EarlierSafeDoc(d, l))
  {
    hide NodesAt, NodeText, ItemsText, SetLast, Cut, NodeOk, LastHitAt, Removals, DocOk, Changes, EarlierSafe, AllMade;
    SettledExactly(text, d, l, m, e);
    var gone, all := Collect(text, 0, d.items, l, true, false);
    var made := SpliceAll(text, [e] + all[..|all| - 1]);
    r := Checked(parser, made);
  }
}
