/** `set_value` and `set_list`: one run of bytes changes, and a legacy key the
    new one replaces goes. */
module SetValue {
  import opened Options
  import opened Bytes
  import opened Kdl
  import opened Splice
  import opened Prune
  import opened Remove
  import opened SetTree
  import opened SetText
  import opened Effect

  /** The walk down the last block of each name. */
  method FindPath(text: string, d: Doc, parts: seq<string>) returns (r: Resolved)
    requires parts != [] && |ItemsText(d.items)| <= |text|
    ensures r == Resolve(text, 0, d.items, File, parts)
  {
    hide NodeText, ItemsText, MissingAt, LastNamed;
    var items, pos: nat, parent: Parent, depth := d.items, 0, File, 0;
    var found := LastNamed(items, parts[0]);
    assert parts[0..] == parts;
    while found.Some?
      invariant depth < |parts| && found == LastNamed(items, parts[depth])
      invariant pos + |ItemsText(items)| <= |text| && (parent.Block? ==> parent.spot.at <= |text|)
      invariant Resolve(text, 0, d.items, File, parts) == Resolve(text, pos, items, parent, parts[depth..])
      decreases |parts| - depth
    {
      var k := found.value;
      var n, s := items[k].node, ItemAt(pos, items, k);
      assert parts[depth..][0] == parts[depth] && parts[depth..][1..] == parts[depth + 1..];
      depth := depth + 1;
      if depth == |parts| {
        return Found(Spot(s, n));
      }
      match n.body {
        case Some(kids) =>
          BodyWithin(pos, items, k, kids);
          pos, items, parent := s + BodyAt(n), kids.items, Block(Spot(s, n));
          found := LastNamed(items, parts[depth]);
        case None =>
          depth := depth - 1;
          break;
      }
    }
    r := MissingAt(text, pos, items, parent, parts[depth..]);
  }

  // ----------------------------------------------------- the missing blocks

  function Pad(i: nat): string {
    if i == 0 then "" else Pad(i - 1) + UNIT
  }

  /** The first `i` opening lines. */
  function Opening(parts: seq<string>, i: nat, indent: string): string
    requires i <= |parts|
  {
    if i == 0 then "" else Opening(parts, i - 1, indent) + indent + Pad(i - 1) + parts[i - 1] + " {\n"
  }

  /** The closing lines of the first `i` blocks, the innermost first. */
  function Closing(i: nat, indent: string): string {
    if i == 0 then "" else indent + Pad(i - 1) + "}\n" + Closing(i - 1, indent)
  }

  lemma BlockLines(part: string, inner: Node, indent: string)
    ensures indent + NodeText(Node(part, part, [], " ",
            Some(Doc([Item("\n" + indent + UNIT, inner)], "\n" + indent)))) + "\n"
            == (indent + part + " {\n") + ((indent + UNIT) + NodeText(inner) + "\n") + (indent + "}\n")
  {
    hide NodeText;
    var d := Doc([Item("\n" + indent + UNIT, inner)], "\n" + indent);
    OneText(d.items[0]);
    BlockIs(part, d);
    Lines(indent, part, UNIT, NodeText(inner));
  }

  lemma BlockIs(part: string, d: Doc)
    ensures NodeText(Node(part, part, [], " ", Some(d))) == part + " " + "{" + DocText(d) + "}"
  {
    assert part + "" == part;
  }

  lemma Lines(indent: string, part: string, unit: string, inner: string)
    ensures indent + (part + " " + "{" + (("\n" + indent + unit + inner) + ("\n" + indent)) + "}") + "\n"
            == (indent + part + " {\n") + ((indent + unit) + inner + "\n") + (indent + "}\n")
  {
    assert " " + "{" + "\n" == " {\n" && "}" + "\n" == "}\n";
    var x := indent + part;
    assert indent + (part + " " + "{" + (("\n" + indent + unit + inner) + ("\n" + indent)) + "}") + "\n"
           == x + (" " + "{" + "\n") + (indent + unit + inner + "\n" + indent) + ("}" + "\n");
  }

  /** The nested blocks, line by line. */
  lemma {:induction false} BuiltLines(parts: seq<string>, i: nat, indent: string, shape: Shape)
    requires i < |parts|
    ensures indent + NodeText(Built(parts, indent, shape)) + "\n"
            == Opening(parts, i, indent)
               + ((indent + Pad(i)) + NodeText(Built(parts[i..], indent + Pad(i), shape)) + "\n")
               + Closing(i, indent)
  {
    hide NodeText;
    if i == 0 {
      assert parts[0..] == parts && indent + Pad(0) == indent;
    } else {
      BuiltLines(parts, i - 1, indent, shape);
      var at := indent + Pad(i - 1);
      var rest := parts[i - 1..];
      assert rest[0] == parts[i - 1] && rest[1..] == parts[i..];
      assert at + UNIT == indent + Pad(i);
      BlockLines(parts[i - 1], Built(parts[i..], at + UNIT, shape), at);
      OuterLines(Opening(parts, i - 1, indent), indent, Pad(i - 1), parts[i - 1],
                 (indent + Pad(i)) + NodeText(Built(parts[i..], at + UNIT, shape)) + "\n", Closing(i - 1, indent));
    }
  }

  lemma OuterLines(before: string, indent: string, pad: string, part: string, inner: string, after: string)
    ensures before + (((indent + pad) + part + " {\n") + inner + ((indent + pad) + "}\n")) + after
            == (before + indent + pad + part + " {\n") + inner + (indent + pad + "}\n" + after)
  {
  }

  lemma LeafNodeText(name: string, shape: Shape)
    requires ShapeOk(shape)
    ensures NodeText(Leaf(name, shape)) == name + if Rendered(shape) == "" then "" else " " + Rendered(shape)
  {
    var vs := match shape case Scalar(v) => [v] case Many(vs) => vs;
    if vs != [] {
      ListText(" ", vs);
      assert ListEntries(vs) == [Entry(" ", None, vs[0].repr, vs[0].str)] + ListEntries(vs[1..]);
      assert Join(vs) == Rendered(shape);
      JoinEmpty(vs);
    }
  }

  /** The lines of the missing blocks and the leaf in the innermost. */
  method Build(parts: seq<string>, indent: string, shape: Shape) returns (body: string)
    requires parts != [] && ShapeOk(shape)
    ensures body == indent + NodeText(Built(parts, indent, shape)) + "\n"
  {
    hide NodeText, Built;
    var m := |parts| - 1;
    body := "";
    for i := 0 to m
      invariant body == Opening(parts, i, indent)
    {
      body := body + indent + Pad(i) + parts[i] + " {\n";
    }
    ghost var above := body;
    body := body + indent + Pad(m) + parts[m];
    if Rendered(shape) != "" {
      body := body + " " + Rendered(shape);
    }
    body := body + "\n";
    ghost var leaf := (indent + Pad(m)) + NodeText(Leaf(parts[m], shape)) + "\n";
    LeafNodeText(parts[m], shape);
    LeafLine(above, indent, Pad(m), parts[m], Rendered(shape));
    assert body == above + leaf;
    ghost var head := body;
    assert body + Closing(m, indent) == head + Closing(m, indent);
    for i := m downto 0
      invariant body + Closing(i, indent) == head + Closing(m, indent)
    {
      Regroup(body, indent + Pad(i) + "}\n", Closing(i, indent));
      ClosingLine(body, indent, Pad(i));
      body := body + indent + Pad(i) + "}\n";
    }
    assert body + Closing(0, indent) == body;
    BuiltLines(parts, m, indent, shape);
    assert parts[m..] == [parts[m]];
    LastBuilt(parts[m..], indent + Pad(m), shape);
  }

  lemma LastBuilt(parts: seq<string>, indent: string, shape: Shape)
    requires |parts| == 1
    ensures Built(parts, indent, shape) == Leaf(parts[0], shape)
  {
  }

  lemma LeafLine(above: string, indent: string, pad: string, name: string, rendered: string)
    ensures above + indent + pad + name + "\n" == above + ((indent + pad) + (name + "") + "\n")
    ensures above + indent + pad + name + " " + rendered + "\n"
            == above + ((indent + pad) + (name + (" " + rendered)) + "\n")
  {
  }

  lemma ClosingLine(body: string, indent: string, pad: string)
    ensures body + (indent + pad + "}\n") == body + indent + pad + "}\n"
  {
  }

  // --------------------------------------------------------- the operations

  /** The file's tree with the value set; `None` where the path names a node
      that holds no such value. */
  function SetIn(d: Doc, parts: seq<string>, shape: Shape): Option<Doc>
    requires parts != []
  {
    Put(DocText(d), 0, d.items, d.end, None, parts, shape)
  }

  lemma FileEdit(text: string, d: Doc, parts: seq<string>, shape: Shape)
    requires parts != [] && ShapeOk(shape) && text == DocText(d) && DocOk(d)
    ensures var r := Resolve(text, 0, d.items, File, parts);
            && Writable(text, r)
            && Lands(text, 0, |text|, ResolvedEdit(text, r, shape), SetIn(d, parts, shape),
              Reached(d.items, d.end, true, parts))
  {
    hide NodeText, ItemsText, Resolve, Put, Lands, ResolvedEdit, Writable, Reached;
    assert text[0..|text|] == text;
    PutText(text, 0, |text|, d.items, d.end, File, true, parts, shape);
  }

  /** The text with the one edit made; `None` where there is no value to change. */
  function FileSpliced(text: string, d: Doc, parts: seq<string>, shape: Shape): Option<string>
    requires parts != [] && ShapeOk(shape) && text == DocText(d) && DocOk(d)
  {
    FileEdit(text, d, parts, shape);
    match ResolvedEdit(text, Resolve(text, 0, d.items, File, parts), shape)
    case None => None
    case Some(e) =>
      SplicedWithin(text, d, parts, shape, e);
      Some(Replace(text, e))
  }

  lemma SplicedWithin(text: string, d: Doc, parts: seq<string>, shape: Shape, e: Edit)
    requires parts != [] && ShapeOk(shape) && text == DocText(d) && DocOk(d)
    requires Lands(text, 0, |text|, Some(e), SetIn(d, parts, shape), Reached(d.items, d.end, true, parts))
    ensures e.start <= e.stop <= |text|
    ensures SetIn(d, parts, shape).Some?
    ensures Replace(text, e) == DocText(SetIn(d, parts, shape).value) <==> Reached(d.items, d.end, true, parts)
  {
    hide SetIn, DocText, Reached, Astray, Lands;
    if Reached(d.items, d.end, true, parts) {
      LandsWell(text, 0, |text|, Some(e), SetIn(d, parts, shape));
      LeavesFile(text, Some(e), SetIn(d, parts, shape));
    } else {
      var g := AstrayOf(text, 0, |text|, Some(e), SetIn(d, parts, shape));
      LeavesFile(text, Some(g), SetIn(d, parts, shape));
      AstrayWithin(text, e, g);
      AstrayDiffers(text, e, g, SetIn(d, parts, shape).value);
    }
  }

  lemma AstrayWithin(text: string, e: Edit, g: Edit)
    requires Astray(text, e, g)
    ensures e.start <= e.stop <= |text|
  {
  }

  /** The bytes written are the text of the tree with the value set exactly where
      the walk ends well. */
  lemma SplicedExactly(text: string, d: Doc, parts: seq<string>, shape: Shape)
    requires parts != [] && ShapeOk(shape) && text == DocText(d) && DocOk(d)
    ensures FileSpliced(text, d, parts, shape) == None <==> SetIn(d, parts, shape) == None
    ensures SetIn(d, parts, shape).Some? ==>
              (FileSpliced(text, d, parts, shape) == Some(DocText(SetIn(d, parts, shape).value))
               <==> Reached(d.items, d.end, true, parts))
  {
    hide SetIn, ItemsText, Reached, Lands, ResolvedEdit, Resolve, Writable;
    FileEdit(text, d, parts, shape);
    var edit := ResolvedEdit(text, Resolve(text, 0, d.items, File, parts), shape);
    if edit.Some? {
      SplicedWithin(text, d, parts, shape, edit.value);
    } else {
      NothingLands(text, d, parts, shape);
    }
  }

  /** The bytes come back as they were exactly when the tree has the value set
      already. */
  lemma SplicedSame(text: string, d: Doc, parts: seq<string>, shape: Shape)
    requires parts != [] && ShapeOk(shape) && text == DocText(d) && DocOk(d)
    ensures FileSpliced(text, d, parts, shape) == Some(text) <==>
              SetIn(d, parts, shape).Some? && DocText(SetIn(d, parts, shape).value) == text
  {
    hide SetIn, ItemsText, Reached, Lands, ResolvedEdit, Resolve, Writable;
    FileEdit(text, d, parts, shape);
    SplicedExactly(text, d, parts, shape);
    var edit := ResolvedEdit(text, Resolve(text, 0, d.items, File, parts), shape);
    if edit.Some? && !Reached(d.items, d.end, true, parts) {
      var c := SetIn(d, parts, shape);
      var g := AstrayOf(text, 0, |text|, edit, c);
      LeavesFile(text, Some(g), c);
      SplicedWithin(text, d, parts, shape, edit.value);
      AstrayGrows(text, edit.value, g);
    }
  }

  lemma AstrayGrows(text: string, e: Edit, g: Edit)
    requires Astray(text, e, g)
    ensures e.start <= e.stop <= |text| && g.start <= g.stop <= |text|
    ensures |Replace(text, e)| > |text| && |text[..g.start] + g.with + text[g.stop..]| > |text|
  {
  }

  lemma NothingLands(text: string, d: Doc, parts: seq<string>, shape: Shape)
    requires parts != []
    requires Lands(text, 0, |text|, None, SetIn(d, parts, shape), Reached(d.items, d.end, true, parts))
    ensures SetIn(d, parts, shape) == None
  {
    hide SetIn, Reached;
  }

  lemma LeavesFile(text: string, edit: Option<Edit>, d: Option<Doc>)
    requires Leaves(text, 0, |text|, edit, d)
    ensures edit == None <==> d == None
    ensures edit.Some? ==>
              && edit.value.start <= edit.value.stop <= |text|
              && DocText(d.value) == text[..edit.value.start] + edit.value.with + text[edit.value.stop..]
  {
    hide DocText;
  }

  /** `splice`: the shared part of `set_value` and `set_list`. */
  method SpliceValue(parser: Parser, text: string, parts: seq<string>, shape: Shape)
    returns (r: Result<string, EditError>)
    requires Reads(parser, text) && parts != [] && ShapeOk(shape)
    ensures "" in parts ==> r == Err(BadPath)
    ensures "" !in parts && parser(text) == None ==> r == Err(Parse)
    ensures "" !in parts && parser(text).Some? ==>
              var d := parser(text).value;
              match SetIn(d, parts, shape)
              case None => r == Err(NotAValue)
              case Some(c) =>
                && r.Ok? && FileSpliced(text, d, parts, shape) == Some(r.value)
                && (r == Ok(DocText(c)) <==> Reached(d.items, d.end, true, parts))
  {
    hide NodeText, ItemsText, Built, Resolve, NodeEdit, ChildEdit, Put, Lands, Reached, Reads;
    if "" in parts {
      return Err(BadPath);
    }
    if parser(text) == None {
      return Err(Parse);
    }
    var d := parser(text).value;
    assert text == DocText(d) && DocOk(d) by { ReadsIt(parser, text); }
    FileEdit(text, d, parts, shape);
    SplicedExactly(text, d, parts, shape);
    var found := FindPath(text, d, parts);
    match found {
      case Found(spot) =>
        var edit := NodeEdit(spot.node, spot.at, shape);
        if edit == None {
          return Err(NotAValue);
        }
        var e := edit.value;
        SplicedWithin(text, d, parts, shape, e);
        if text[e.start..e.stop] == e.with {
          assert text == text[..e.start] + text[e.start..e.stop] + text[e.stop..];
          return Ok(text);
        }
        return Ok(text[..e.start] + e.with + text[e.stop..]);
      case Empty(left, block) =>
        var inner := Inner(LeadingIndent(text, block.at));
        var body := Build(left, inner, shape);
        var child := body[|inner|..|body| - 1];
        Middle(inner, NodeText(Built(left, inner, shape)), "\n");
        SplicedWithin(text, d, parts, shape, ChildEdit(text, block, child));
        return Ok(Replace(text, ChildEdit(text, block, child)));
      case Missing(left, at, indent) =>
        var body := Build(left, indent, shape);
        var out := text[..at];
        if at > 0 && text[at - 1] != '\n' {
          out := out + "\n";
        }
        out := out + body + text[at..];
        Inserts(text[..at], if at > 0 && text[at - 1] != '\n' then "\n" else "", body, text[at..]);
        return Ok(out);
    }
  }

  lemma Middle(a: string, b: string, c: string)
    ensures |a| + |b| <= |a + b + c| && (a + b + c)[|a|..|a + b + c| - |c|] == b
  {
  }

  lemma Inserts(a: string, newline: string, body: string, z: string)
    ensures a + (newline + body) + z == (a + newline) + body + z
    ensures newline == "" ==> a + (newline + body) + z == a + body + z
  {
  }

  /** A value that stands is found by the walk. */
  lemma {:induction false} StandsReached(items: seq<Item>, end: string, top: bool, parts: seq<string>, shape: Shape)
    requires parts != [] && Stands(items, parts, shape)
    ensures Reached(items, end, top, parts)
    decreases |parts|
  {
    if |parts| > 1 {
      var d := items[LastNamed(items, parts[0]).value].node.body.value;
      StandsReached(d.items, d.end, false, parts[1..], shape);
    }
  }

  /** Setting the value again finds it set. */
  lemma SetAgain(d: Doc, parts: seq<string>, shape: Shape)
    requires parts != [] && SetIn(d, parts, shape).Some?
    ensures var c := SetIn(d, parts, shape).value;
            SetIn(c, parts, shape) == Some(c) && Reached(c.items, c.end, true, parts)
  {
    hide Put, Reached, Stands;
    var c := SetIn(d, parts, shape).value;
    PutStands(DocText(d), 0, d.items, d.end, None, parts, shape, c);
    PutAgain(DocText(c), 0, c.items, c.end, None, parts, shape);
    StandsReached(c.items, c.end, true, parts, shape);
  }

  /** What a write leaves is parsed again by the next. */
  ghost predicate ReadsSpliced(parser: Parser, text: string, parts: seq<string>, shape: Shape)
    requires Reads(parser, text) && parts != [] && ShapeOk(shape)
  {
    match parser(text)
    case None => true
    case Some(d) =>
      match FileSpliced(text, d, parts, shape)
      case None => true
      case Some(out) => Reads(parser, out)
  }

  /** The second identical write returns the bytes of the first exactly when the
      tree read from them has the value set; so it does when the first is read
      for what it was written from. A write that was refused is refused again. */
  method WriteTwice(parser: Parser, text: string, parts: seq<string>, shape: Shape)
    returns (r: Result<string, EditError>, again: Result<string, EditError>)
    requires Reads(parser, text) && parts != [] && ShapeOk(shape) && ReadsSpliced(parser, text, parts, shape)
    ensures r.Err? ==> again == r
    ensures r.Ok? ==>
              match parser(r.value)
              case None => again == Err(Parse)
              case Some(q) =>
                again == r <==> SetIn(q, parts, shape).Some? && DocText(SetIn(q, parts, shape).value) == DocText(q)
    ensures r.Ok? ==> parser(text).Some?
    ensures r.Ok? && parser(r.value).Some? && parser(r.value) == SetIn(parser(text).value, parts, shape) ==> again == r
  {
    hide SetIn, Reached, DocText, FileSpliced, DocOk;
    r := SpliceValue(parser, text, parts, shape);
    match r {
      case Err(_) => again := SpliceValue(parser, text, parts, shape);
      case Ok(out) =>
        again := SpliceValue(parser, out, parts, shape);
        if parser(out).Some? {
          SplicedSame(out, parser(out).value, parts, shape);
          if parser(out) == SetIn(parser(text).value, parts, shape) {
            SetAgain(parser(text).value, parts, shape);
          }
        }
    }
  }

  // ------------------------------------------------------------ legacy keys

  /** The keys a newer key replaces, as the table lists them. */
  function Superseded(parts: seq<string>): (r: seq<seq<string>>)
    ensures forall i :: 0 <= i < |r| ==> r[i] != []
  {
    if parts == ["decoration", "blur", "mode"] then [["decoration", "blur", "enabled"]]
    else if parts == ["launcher", "style"] then [["bar", "launcher-style"]]
    else if parts == ["animations", "preset"] then [["animations", "enabled"], ["animations", "animation"]]
    else []
  }

  /** All of them as one list of levels. */
  function LegacyLevels(parts: seq<string>): (r: seq<Level>)
    requires Superseded(parts) != []
    ensures r != []
  {
    if parts == ["animations", "preset"] then [Level({"animations"}, None), Level({"enabled", "animation"}, None)]
    else PathLevels(Superseded(parts)[0])
  }

  /** The removals for one path after another. */
  function AllRemovals(text: string, items: seq<Item>, paths: seq<seq<string>>): seq<Edit>
    requires |ItemsText(items)| <= |text| && forall i :: 0 <= i < |paths| ==> paths[i] != []
    decreases |paths|
  {
    if paths == [] then []
    else
      AllRemovals(text, items, paths[..|paths| - 1])
      + Removals(text, 0, items, PathLevels(paths[|paths| - 1]), true, false).1
  }

  /** `u` leads wherever `a` or `b` does, and nowhere both do. */
  ghost predicate Unites(u: seq<Level>, a: seq<Level>, b: seq<Level>) {
    && |u| == |a| == |b| > 0
    && if |u| == 1 then u[0] == Level(a[0].names + b[0].names, None) && a[0].titled == b[0].titled == None &&
      a[0].names !! b[0].names
       else u[0] == a[0] == b[0] && Unites(u[1..], a[1..], b[1..])
  }

  lemma {:induction false} UnitedRemovals(text: string, pos: nat, items: seq<Item>, u: seq<Level>, a: seq<Level>,
                                          b: seq<Level>, top: bool)
    requires Unites(u, a, b) && pos + |ItemsText(items)| <= |text|
    ensures multiset(Removals(text, pos, items, u, top, false).1)
            == multiset(Removals(text, pos, items, a, top, false).1)
              + multiset(Removals(text, pos, items, b, top, false).1)
    decreases items, 1
  {
    hide Removals, NodeRemovals, NodeText, Unites;
    assert u != [] && a != [] && b != [] by { UnitesNonempty(u, a, b); }
    if items != [] {
      var n, s := items[0].node, pos + |items[0].gap|;
      UnitedNode(text, s, n, u, a, b, top);
      UnitedRemovals(text, s + |NodeText(n)|, items[1..], u, a, b, top);
      OneMore(text, pos, items, u, top, false);
      OneMore(text, pos, items, a, top, false);
      OneMore(text, pos, items, b, top, false);
    } else {
      NoMore(text, pos, items, u, top, false);
      NoMore(text, pos, items, a, top, false);
      NoMore(text, pos, items, b, top, false);
    }
  }

  lemma UnitesNonempty(u: seq<Level>, a: seq<Level>, b: seq<Level>)
    requires Unites(u, a, b)
    ensures u != [] && a != [] && b != []
  {
  }

  lemma {:induction false} UnitedNode(text: string, s: nat, n: Node, u: seq<Level>, a: seq<Level>, b: seq<Level>,
                                      top: bool)
    requires Unites(u, a, b) && s + |NodeText(n)| <= |text|
    ensures multiset(NodeRemovals(text, s, n, u, top, false).1)
            == multiset(NodeRemovals(text, s, n, a, top, false).1) + multiset(NodeRemovals(text, s, n, b, top, false).1)
    decreases n, 0
  {
    hide Removal, NodeText, ItemsText, Removals;
    if |u| > 1 && Matches(u[0], n) && n.body.Some? {
      BlockSize(n);
      UnitedRemovals(text, s + BodyAt(n), n.body.value.items, u[1..], a[1..], b[1..], false);
    }
  }

  lemma LegacyRemovals(text: string, items: seq<Item>, parts: seq<string>)
    requires Superseded(parts) != [] && |ItemsText(items)| <= |text|
    ensures multiset(AllRemovals(text, items, Superseded(parts)))
            == multiset(Removals(text, 0, items, LegacyLevels(parts), true, false).1)
  {
    hide Removals;
    var paths := Superseded(parts);
    assert AllRemovals(text, items, []) == [];
    assert paths[..|paths| - 1] == if |paths| == 2 then [paths[0]] else [];
    if |paths| == 2 {
      assert [paths[0]][..0] == [];
      var a, b := PathLevels(paths[0]), PathLevels(paths[1]);
      assert a == [Level({"animations"}, None), Level({"enabled"}, None)];
      assert b == [Level({"animations"}, None), Level({"animation"}, None)];
      assert Unites(LegacyLevels(parts)[1..], a[1..], b[1..]);
      UnitedRemovals(text, 0, items, LegacyLevels(parts), a, b, true);
    }
  }

  /** The edits that remove the legacy keys of a file, key by key. */
  function LegacyRemoved(text: string, d: Doc, parts: seq<string>): seq<Edit>
    requires text == DocText(d)
  {
    AllRemovals(text, d.items, Superseded(parts))
  }

  /** What dropping the legacy keys returns, as the edits are made. */
  function LegacyDropped(parser: Parser, text: string, parts: seq<string>): Result<string, EditError>
    requires Superseded(parts) != [] ==> Reads(parser, text)
  {
    if Superseded(parts) == [] then Ok(text)
    else
      match parser(text)
      case None => Err(Parse)
      case Some(d) =>
        if NodesAt(d.items, LegacyLevels(parts)) == [] then Ok(text)
        else Checked(parser, AllMade(text, LegacyRemoved(text, d, parts)))
  }

  /** `drop_superseded`: the removals of each legacy key, made in place together;
      which leaves the text of the tree without them only if they are safe. */
  method DropSuperseded(parser: Parser, text: string, parts: seq<string>) returns (r: Result<string, EditError>)
    requires Superseded(parts) != [] ==> Reads(parser, text)
    ensures r == LegacyDropped(parser, text, parts)
    ensures Superseded(parts) == [] ==> r == Ok(text)
    ensures Superseded(parts) != [] && parser(text) == None ==> r == Err(Parse)
    ensures Superseded(parts) != [] && parser(text).Some? ==>
              var d, levels := parser(text).value, LegacyLevels(parts);
              if NodesAt(d.items, levels) == [] then r == Ok(text)
              else
                && r == Checked(parser, AllMade(text, LegacyRemoved(text, d, parts)))
                && (SafeDoc(d, levels, false) ==> r == Reparse(parser, DocText(CutDoc(d, levels, false))))
                && (r == Ok(DocText(CutDoc(d, levels, false))) ==> SafeDoc(d, levels, false))
  {
    hide NodeText, ItemsText, Removals, Cut, NodesAt, Safe, AllMade, PathLevels;
    var legacy := Superseded(parts);
    if legacy == [] {
      return Ok(text);
    }
    if parser(text) == None {
      return Err(Parse);
    }
    var d := parser(text).value;
    LegacyRemovals(text, d.items, parts);
    var edits := [];
    for i := 0 to |legacy|
      invariant edits == AllRemovals(text, d.items, legacy[..i])
    {
      assert legacy[..i + 1][..i] == legacy[..i];
      var gone, found := Collect(text, 0, d.items, PathLevels(legacy[i]), true, false);
      edits := edits + found;
    }
    assert legacy[..|legacy|] == legacy;
    LegacyEdits(text, d, parts, edits);
    if edits == [] {
      return Ok(text);
    }
    var made := SpliceAll(text, edits);
    r := Checked(parser, made);
  }

  /** What the edits collected key by key come to. */
  lemma LegacyEdits(text: string, d: Doc, parts: seq<string>, edits: seq<Edit>)
    requires Superseded(parts) != [] && text == DocText(d) && DocOk(d)
    requires multiset(edits) == multiset(FileRemovals(text, d, LegacyLevels(parts), false))
    ensures edits == [] <==> NodesAt(d.items, LegacyLevels(parts)) == []
    ensures AllMade(text, edits) == Some(DocText(CutDoc(d, LegacyLevels(parts), false)))
            <==> SafeDoc(d, LegacyLevels(parts), false)
  {
    hide NodeText, ItemsText, Removals, Cut, NodesAt, Safe, AllMade, LegacyLevels;
    var levels := LegacyLevels(parts);
    var all := FileRemovals(text, d, levels, false);
    EditsWhenFound(text, 0, d.items, levels, true, false);
    RemovedExactly(text, d, levels, false, edits);
    assert |multiset(edits)| == |edits| && |multiset(all)| == |all|;
  }

  lemma LegacyApart(parts: seq<string>)
    requires Superseded(parts) != []
    ensures parts != [] && Apart(LegacyLevels(parts), PathLevels(parts))
  {
    var p, q := LegacyLevels(parts), PathLevels(parts);
    PathStep(parts);
    PathStep(parts[1..]);
    if |parts| == 3 {
      var legacy := ["decoration", "blur", "enabled"];
      PathStep(legacy);
      PathStep(legacy[1..]);
      PathStep(legacy[1..][1..]);
      PathStep(parts[1..][1..]);
      assert Excludes(p[1..][1..][0], q[1..][1..][0]);
      assert Apart(p[1..][1..], q[1..][1..]);
      assert Apart(p[1..], q[1..]);
    } else if parts[0] == "launcher" {
      PathStep(["bar", "launcher-style"]);
      assert Excludes(p[0], q[0]);
    } else {
      assert Excludes(p[1..][0], q[1..][0]);
      assert Apart(p[1..], q[1..]);
    }
  }

  /** After both: the last definition of the path holds the value, the legacy
      keys are gone, and every path apart from both leads where it did. */
  lemma SetAndDropped(d: Doc, parts: seq<string>, shape: Shape, c: Doc, q: seq<string>)
    requires Superseded(parts) != [] && SetIn(d, parts, shape) == Some(c)
    ensures var levels, left := LegacyLevels(parts), CutDoc(c, LegacyLevels(parts), false);
            && parts != [] &&
              LastSet(NodesAt(d.items, PathLevels(parts)), NodesAt(left.items, PathLevels(parts)), shape,
                      Defined(d.items, parts))
            && NodesAt(left.items, levels) == []
            && (q != [] && !(q <= parts) && Apart(levels, PathLevels(q)) ==>
                  NodesAt(left.items, PathLevels(q)) == NodesAt(d.items, PathLevels(q)))
  {
    hide Put, Cut, NodesAt, LastSet, Apart, PathLevels, Superseded, LegacyLevels;
    var levels := LegacyLevels(parts);
    LegacyApart(parts);
    PutSets(DocText(d), 0, d.items, d.end, None, parts, shape);
    OthersKept(c.items, c.end, levels, PathLevels(parts), true, false, true, "", 0);
    NoneLeft(c.items, c.end, levels, true, false, true, "", 0);
    if q != [] && !(q <= parts) && Apart(levels, PathLevels(q)) {
      PutKeeps(DocText(d), 0, d.items, d.end, None, parts, shape, q);
      OthersKept(c.items, c.end, levels, PathLevels(q), true, false, true, "", 0);
    }
  }

  /** `set_value`: the one edit made, and on what it left the removals of the
      keys it supersedes. The first gives the text of the tree with the value set
      exactly where the walk ends well; where the parser reads that text as that
      tree, the removals give the text of the tree without those keys only if they
      are safe. */
  method SetValue(parser: Parser, text: string, parts: seq<string>, value: Value) returns (r: Result<string, EditError>)
    requires Reads(parser, text) && parts != [] && value.repr != ""
    requires Superseded(parts) != [] ==> ReadsSpliced(parser, text, parts, Scalar(value))
    ensures "" in parts ==> r == Err(BadPath)
    ensures "" !in parts && parser(text) == None ==> r == Err(Parse)
    ensures "" !in parts && parser(text).Some? ==>
              var d := parser(text).value;
              match SetIn(d, parts, Scalar(value))
              case None => r == Err(NotAValue)
              case Some(c) =>
                var out := FileSpliced(text, d, parts, Scalar(value));
                && out.Some? && r == LegacyDropped(parser, out.value, parts)
                && (out == Some(DocText(c)) <==> Reached(d.items, d.end, true, parts))
                && (Superseded(parts) == [] ==> (r == Ok(DocText(c)) <==> Reached(d.items, d.end, true, parts)))
                && (Superseded(parts) != [] && parser(out.value) == Some(c) ==>
                      var levels := LegacyLevels(parts);
                      && Reached(d.items, d.end, true, parts)
                      && if NodesAt(c.items, levels) == [] then r == Ok(DocText(c))
                         else
                           && (SafeDoc(c, levels, false) ==> r == Reparse(parser, DocText(CutDoc(c, levels, false))))
                           && (r == Ok(DocText(CutDoc(c, levels, false))) ==> SafeDoc(c, levels, false)))
  {
    hide SetIn, Superseded, LegacyLevels, Cut, Reached, FileSpliced, NodesAt, Safe, DocText, LegacyDropped, AllMade,
      LegacyRemoved;
    var out := SpliceValue(parser, text, parts, Scalar(value));
    match out {
      case Err(_) => r := out;
      case Ok(t) => r := DropSuperseded(parser, t, parts);
    }
  }

  /** The tree with the legacy keys gone. */
  function Dropped(c: Doc, parts: seq<string>): Doc {
    if Superseded(parts) == [] then c else CutDoc(c, LegacyLevels(parts), false)
  }

  // ------------------------------------------- the superseded keys by name

  /** What is left of the file after setting one key: no node at `gone`, and every
      path that is no prefix of the key and lies apart from `gone` leads where it
      did. */
  ghost predicate Supersedes(d: Doc, left: Doc, parts: seq<string>, gone: seq<seq<string>>) {
    && (forall i :: 0 <= i < |gone| ==> gone[i] != [] && NodesAt(left.items, PathLevels(gone[i])) == [])
    && forall q: seq<string> :: Beside(q, parts, gone) ==>
         NodesAt(left.items, PathLevels(q)) == NodesAt(d.items, PathLevels(q))
  }

  /** A path that is no prefix of the key, and apart from what is to go. */
  ghost predicate Beside(q: seq<string>, parts: seq<string>, gone: seq<seq<string>>) {
    q != [] && !(q <= parts) && forall i :: 0 <= i < |gone| ==> Apart(PathLevels(gone[i]), PathLevels(q))
  }

  lemma LauncherStyle(d: Doc, shape: Shape)
    requires SetIn(d, ["launcher", "style"], shape).Some?
    ensures var parts := ["launcher", "style"];
            Supersedes(d, Dropped(SetIn(d, parts, shape).value, parts), parts, [["bar", "launcher-style"]])
  {
    var parts := ["launcher", "style"];
    TwoParts("launcher", "style");
    assert PathLevels(["bar", "launcher-style"]) == [Level({"bar"}, None), Level({"launcher-style"}, None)]
      by { TwoParts("bar", "launcher-style"); }
    OneSuperseded(d, parts, shape, ["bar", "launcher-style"]);
  }

  lemma BlurMode(d: Doc, shape: Shape)
    requires SetIn(d, ["decoration", "blur", "mode"], shape).Some?
    ensures var parts := ["decoration", "blur", "mode"];
            Supersedes(d, Dropped(SetIn(d, parts, shape).value, parts), parts, [["decoration", "blur", "enabled"]])
  {
    OneSuperseded(d, ["decoration", "blur", "mode"], shape, ["decoration", "blur", "enabled"]);
  }

  lemma TwoParts(a: string, b: string)
    ensures PathLevels([a, b]) == [Level({a}, None), Level({b}, None)]
  {
    assert [a, b][1..] == [b] && [b][1..] == [];
    assert PathLevels([b]) == [Level({b}, None)] + PathLevels([]);
  }

  lemma OneSuperseded(d: Doc, parts: seq<string>, shape: Shape, gone: seq<string>)
    requires Superseded(parts) == [gone] && gone != [] && parts != [] && LegacyLevels(parts) == PathLevels(gone)
    requires SetIn(d, parts, shape).Some?
    ensures Supersedes(d, Dropped(SetIn(d, parts, shape).value, parts), parts, [gone])
  {
    hide SetIn, NodesAt, Cut, Superseded, LegacyLevels, PathLevels, LastSet;
    var c := SetIn(d, parts, shape).value;
    var left := Dropped(c, parts);
    SetAndDropped(d, parts, shape, c, []);
    forall q: seq<string> | Beside(q, parts, [gone])
      ensures NodesAt(left.items, PathLevels(q)) == NodesAt(d.items, PathLevels(q))
    {
      assert [gone][0] == gone;
      SetAndDropped(d, parts, shape, c, q);
    }
  }

  lemma AnimationsPreset(d: Doc, shape: Shape)
    requires SetIn(d, ["animations", "preset"], shape).Some?
    ensures var parts := ["animations", "preset"];
            Supersedes(d, Dropped(SetIn(d, parts, shape).value, parts), parts,
                       [["animations", "enabled"], ["animations", "animation"]])
  {
    hide SetIn, NodesAt, Cut, LastSet;
    var parts, a, b := ["animations", "preset"], ["animations", "enabled"], ["animations", "animation"];
    var c := SetIn(d, parts, shape).value;
    var left := Dropped(c, parts);
    var u := [Level({"animations"}, None), Level({"enabled", "animation"}, None)];
    TwoParts("animations", "enabled");
    TwoParts("animations", "animation");
    assert LegacyLevels(parts) == u;
    SetAndDropped(d, parts, shape, c, []);
    NoneOfEither(left.items, "animations", "enabled", "animation");
    forall q: seq<string> | Beside(q, parts, [a, b])
      ensures NodesAt(left.items, PathLevels(q)) == NodesAt(d.items, PathLevels(q))
    {
      assert [a, b][0] == a && [a, b][1] == b;
      ApartFromEither(PathLevels(q), "animations", "enabled", "animation");
      SetAndDropped(d, parts, shape, c, q);
    }
    var gone := [a, b];
    forall i | 0 <= i < |gone| ensures gone[i] != [] && NodesAt(left.items, PathLevels(gone[i])) == [] {
      assert gone[i] == a || gone[i] == b;
    }
  }

  lemma NoneOfEither(items: seq<Item>, top: string, a: string, b: string)
    requires NodesAt(items, [Level({top}, None), Level({a, b}, None)]) == []
    ensures NodesAt(items, [Level({top}, None), Level({a}, None)]) == []
    ensures NodesAt(items, [Level({top}, None), Level({b}, None)]) == []
    decreases items
  {
    if items != [] {
      var u, x, y := [Level({top}, None), Level({a, b}, None)], [Level({top}, None), Level({a}, None)],
        [Level({top}, None), Level({b}, None)];
      NoneOfEither(items[1..], top, a, b);
      assert u[1..] == [Level({a, b}, None)] && x[1..] == [Level({a}, None)] && y[1..] == [Level({b}, None)];
      if items[0].node.name == top && items[0].node.body.Some? {
        NoneOfEitherIn(items[0].node.body.value.items, a, b);
      }
    }
  }

  lemma {:induction false} NoneOfEitherIn(items: seq<Item>, a: string, b: string)
    requires NodesAt(items, [Level({a, b}, None)]) == []
    ensures NodesAt(items, [Level({a}, None)]) == [] && NodesAt(items, [Level({b}, None)]) == []
    decreases items
  {
    if items != [] {
      NoneOfEitherIn(items[1..], a, b);
    }
  }

  lemma ApartFromEither(q: seq<Level>, top: string, a: string, b: string)
    requires Apart([Level({top}, None), Level({a}, None)], q) && Apart([Level({top}, None), Level({b}, None)], q)
    ensures Apart([Level({top}, None), Level({a, b}, None)], q)
  {
    var u, x, y := [Level({top}, None), Level({a, b}, None)], [Level({top}, None), Level({a}, None)],
      [Level({top}, None), Level({b}, None)];
    assert u[1..] == [Level({a, b}, None)] && x[1..] == [Level({a}, None)] && y[1..] == [Level({b}, None)];
    if !Excludes(u[0], q[0]) {
      assert Apart(x[1..], q[1..]) && Apart(y[1..], q[1..]);
      assert x[1..][1..] == [] && y[1..][1..] == [] && !Apart([], q[1..][1..]);
      assert Excludes(x[1..][0], q[1..][0]) && Excludes(y[1..][0], q[1..][0]);
      assert Excludes(u[1..][0], q[1..][0]);
    }
  }

  /** No other key supersedes any. */
  lemma OtherKeysDropNothing(d: Doc, parts: seq<string>, shape: Shape)
    requires parts != [] && SetIn(d, parts, shape).Some?
    requires parts != ["launcher", "style"] && parts != ["decoration", "blur", "mode"]
    requires parts != ["animations", "preset"]
    ensures Superseded(parts) == [] && Dropped(SetIn(d, parts, shape).value, parts) == SetIn(d, parts, shape).value
    ensures Supersedes(d, Dropped(SetIn(d, parts, shape).value, parts), parts, [])
  {
    hide SetIn, NodesAt, PathLevels;
    forall q: seq<string> | q != [] && !(q <= parts)
      ensures PathLevels(q) != []
      ensures NodesAt(SetIn(d, parts, shape).value.items, PathLevels(q)) == NodesAt(d.items, PathLevels(q))
    {
      SetKeeps(d, parts, shape, q);
    }
  }

  lemma SetKeeps(d: Doc, parts: seq<string>, shape: Shape, q: seq<string>)
    requires parts != [] && SetIn(d, parts, shape).Some? && q != [] && !(q <= parts)
    ensures PathLevels(q) != []
    ensures NodesAt(SetIn(d, parts, shape).value.items, PathLevels(q)) == NodesAt(d.items, PathLevels(q))
  {
    hide NodesAt, Put, PathLevels;
    PutKeeps(DocText(d), 0, d.items, d.end, None, parts, shape, q);
  }

  /** Dropping the legacy keys leaves the value standing, and none to drop. */
  lemma DroppedAgain(d: Doc, parts: seq<string>, shape: Shape)
    requires parts != [] && SetIn(d, parts, shape).Some?
    ensures var left := Dropped(SetIn(d, parts, shape).value, parts);
            && SetIn(left, parts, shape) == Some(left) && Reached(left.items, left.end, true, parts)
            && Dropped(left, parts) == left
            && (Superseded(parts) != [] ==> NodesAt(left.items, LegacyLevels(parts)) == [])
  {
    hide Put, Reached, Stands, Cut, NodesAt, LegacyLevels, Superseded, Apart, PathLevels;
    var c := SetIn(d, parts, shape).value;
    var left := Dropped(c, parts);
    PutStands(DocText(d), 0, d.items, d.end, None, parts, shape, c);
    if Superseded(parts) != [] {
      var levels := LegacyLevels(parts);
      LegacyApart(parts);
      CutStands(c.items, c.end, levels, true, true, "", 0, parts, shape);
      NoneLeft(c.items, c.end, levels, true, false, true, "", 0);
      AbsentKeeps(left.items, left.end, levels, true, false, true);
    }
    PutAgain(DocText(left), 0, left.items, left.end, None, parts, shape);
    StandsReached(left.items, left.end, true, parts, shape);
  }

  /** The texts that are parsed when a value is set are read for what they are. */
  ghost predicate ReadsSet(parser: Parser, text: string, parts: seq<string>, value: Value)
    requires parts != [] && value.repr != ""
  {
    Reads(parser, text) && ReadsSpliced(parser, text, parts, Scalar(value))
  }

  /** The second identical `set_value` returns the bytes of the first whenever the
      tree read from them has the value set and none of the legacy keys; so it does
      when they are read for what the first made of the tree. */
  method SetTwice(parser: Parser, text: string, parts: seq<string>, value: Value)
    returns (r: Result<string, EditError>, again: Result<string, EditError>)
    requires parts != [] && value.repr != "" && ReadsSet(parser, text, parts, value)
    requires "" !in parts && parser(text).Some? ==>
               match FileSpliced(text, parser(text).value, parts, Scalar(value))
               case None => true
               case Some(out) =>
                 var r := LegacyDropped(parser, out, parts); r.Ok? ==> ReadsSet(parser, r.value, parts, value)
    ensures r.Err? ==> again == r
    ensures r.Ok? ==> parser(text).Some?
    ensures r.Ok? && parser(r.value) == None ==> again == Err(Parse)
    ensures r.Ok? && parser(r.value).Some? ==>
              var q := parser(r.value).value;
              && (SetIn(q, parts, Scalar(value)).Some? && DocText(SetIn(q, parts, Scalar(value)).value) == DocText(q)
                  && (Superseded(parts) != [] ==> NodesAt(q.items, LegacyLevels(parts)) == [])
                  ==> again == r)
              && var c := SetIn(parser(text).value, parts, Scalar(value));
              (c.Some? && q == Dropped(c.value, parts) ==> again == r)
  {
    hide SetIn, Reached, DocText, Cut, NodesAt, Safe, LegacyLevels, Superseded, FileSpliced, AllMade, LegacyRemoved,
      DocOk;
    r := SetValue(parser, text, parts, value);
    match r {
      case Err(_) => again := SetValue(parser, text, parts, value);
      case Ok(out) =>
        again := SetValue(parser, out, parts, value);
        if parser(out).Some? {
          SplicedSame(out, parser(out).value, parts, Scalar(value));
          DroppedAgain(parser(text).value, parts, Scalar(value));
        }
    }
  }
}
