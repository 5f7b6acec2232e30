/** Files the editor gets wrong: a comment that KDL ends at another line end than
    `\n`, which is the only one the editor looks for. */
module LineEnds {
  import opened Options
  import opened Kdl
  import opened Splice
  import opened Prune
  import opened Remove
  import opened SetTree
  import opened SetText
  import opened SetValue

  function Bare(name: string): Node {
    Node(name, name, [], "", None)
  }

  lemma BareText(name: string)
    ensures NodeText(Bare(name)) == name
  {
    assert EntriesText([]) == "";
  }

  // ------------------------------------------------------------ a removal

  /** `a // x`, a next-line character, and a second node. */
  function Commented(second: string): Doc {
    Doc([Item("", Bare("a")), Item(" // x\U{0085}", Bare(second))], "")
  }

  lemma CommentedText(second: string)
    requires second == "a" || second == "b"
    ensures DocText(Commented(second)) == "a // x\U{0085}" + second && DocOk(Commented(second))
  {
    hide NodeText, ItemsText;
    var items := Commented(second).items;
    BareText("a");
    BareText(second);
    assert items[1..] == [items[1]] && items[1..][1..] == [];
    FirstText(items);
    OneText(items[1]);
    assert "" + ("a" + (" // x\U{0085}" + second)) == "a // x\U{0085}" + second;
    assert !White('a') && !White('b') && Starter('a') && Starter('b');
    assert NodeOk(items[0].node) && NodeOk(items[1].node);
    assert ItemsOk(items[1..]);
  }

  /** The gap after `a` is exposed: the comment runs on to the end of the text. */
  lemma CommentRunsOn(second: string)
    requires second == "a" || second == "b"
    ensures var text := "a // x\U{0085}" + second;
            && Removal(text, 0, 1) == Edit(0, 8, "")
            && !Fine("", " // x\U{0085}", true, false)
  {
    var text, h := "a // x\U{0085}" + second, " // x\U{0085}";
    assert |text| == 8 && text[1..7] == h && text[0..0] == "";
    GapStripped();
    assert !White('a') && Starter('a') && Starter('b');
    assert text[7] == second[0];
    assert Closed(text, 0) && Follows(text, 7);
    assert Exposed(h, false) && HeadBlank("", true);
    RemovalInGaps(text, 0, 0, "", 1, 7, h, true, false);
    LineStopIs(text, 1, 8);
    LineStartIs(text, 0, 0);
    TailInText(text, 1, 7, h);
  }

  lemma GapStripped()
    ensures "//" <= Strip(" // x\U{0085}") && !HasLine(" // x\U{0085}")
  {
    var h := " // x\U{0085}";
    assert TrimStart(h[1..]) == h[1..];
    assert TrimStart(h) == h[1..];
    assert h[1..][..2] == "//";
  }

  /** Removing `a` removes `b` with it. */
  lemma CommentTakesNext()
    ensures var d, text, levels := Commented("b"), "a // x\U{0085}b", [Level({"a"}, None)];
            && DocText(d) == text && DocOk(d) && !SafeDoc(d, levels, true)
            && FileRemovals(text, d, levels, true) == [Edit(0, 8, "")]
            && AllMade(text, FileRemovals(text, d, levels, true)) == Some("")
            && Nodes(CutDoc(d, levels, true).items) == [Bare("b")]
  {
    hide NodeText, ItemsText, Removal, AllMade, Removals, Cut;
    var d, text, levels := Commented("b"), "a // x\U{0085}b", [Level({"a"}, None)];
    CommentedText("b");
    assert "a // x\U{0085}" + "b" == text;
    CommentRunsOn("b");
    var items, rest := d.items, d.items[1..];
    assert rest == [items[1]] && rest[1..] == [];
    assert "a"[0] != "b"[0];
    BareText("a");
    BareText("b");
    FileRemovalsOfTwo(text, d, levels);
    AllGoes(text);
    FirstSafe(items, "", levels, true, true, true);
    SurvivorsKept(items, "", levels, true, true, true, "", 0);
    assert Survivors(rest, levels, true, true) == [Bare("b")];
  }

  lemma AllGoes(text: string)
    requires |text| == 8
    ensures AllMade(text, [Edit(0, 8, "")]) == Some("")
  {
    assert SortDescending([Edit(0, 8, "")]) == [Edit(0, 8, "")];
    assert Replace(text, Edit(0, 8, "")) == "";
    assert InPlace("", []) == Some("");
  }

  /** The edits of a file of two nodes, of which the first goes. */
  lemma {:induction false} FileRemovalsOfTwo(text: string, d: Doc, levels: seq<Level>)
    requires |d.items| == 2 && text == DocText(d) && |levels| == 1 && d.items[0].gap == ""
    requires Matches(levels[0], d.items[0].node)
    ensures |NodeText(d.items[0].node)| <= |text|
    ensures var e := |NodeText(d.items[0].node)|;
            var s := e + |d.items[1].gap|;
            && s + |NodeText(d.items[1].node)| <= |text|
            && FileRemovals(text, d, levels, true)
               == [Removal(text, 0, e)]
                  + if Matches(levels[0], d.items[1].node)
                    then [Removal(text, s, s + |NodeText(d.items[1].node)|)] else []
  {
    hide NodeText, ItemsText, Removal;
    var rest := d.items[1..];
    assert rest == [d.items[1]] && rest[1..] == [];
    OneMore(text, 0, d.items, levels, true, true);
    OneMore(text, |NodeText(d.items[0].node)|, rest, levels, true, true);
    assert Removals(text, |NodeText(d.items[0].node)| + |d.items[1].gap| + |NodeText(d.items[1].node)|,
      rest[1..], levels, true, true)
           == (0, []);
  }

  /** When both nodes have the name the splice is out of range. */
  lemma CommentPanics(parser: Parser)
    requires parser("a // x\U{0085}a") == Some(Commented("a"))
    ensures var d, text, levels := Commented("a"), "a // x\U{0085}a", [Level({"a"}, None)];
            && text == DocText(d) && Reads(parser, text)
            && Checked(parser, AllMade(text, FileRemovals(text, d, levels, true))) == Err(Panic)
  {
    hide NodeText, ItemsText, Removal, DocOk, AllMade, Removals;
    var d, text, levels := Commented("a"), "a // x\U{0085}a", [Level({"a"}, None)];
    CommentedText("a");
    assert "a // x\U{0085}" + "a" == text;
    CommentRunsOn("a");
    BareText("a");
    FileRemovalsOfTwo(text, d, levels);
    LastRemoval(text);
    OverlapPanics(text);
  }

  /** The one behind is made first; then the other reaches past the end. */
  lemma OverlapPanics(text: string)
    requires |text| == 8
    ensures AllMade(text, [Edit(0, 8, "")] + [Edit(7, 8, "")]) == None
  {
    var e, f := Edit(0, 8, ""), Edit(7, 8, "");
    assert SortDescending([f]) == [f];
    assert ([e] + [f])[1..] == [f];
    assert SortDescending([e] + [f]) == [f, e];
    assert [f, e][1..] == [e];
    assert |Replace(text, f)| == 7;
    assert InPlace(Replace(text, f), [e]) == None;
  }

  lemma LastRemoval(text: string)
    requires text == "a // x\U{0085}a"
    ensures Removal(text, 7, 8) == Edit(7, 8, "")
  {
    assert !White('a');
    LineStartIs(text, 7, 0);
    assert text[0..7][0] == 'a';
    assert text[8..] == "" && TrimBlanks("") == "";
  }

  // ---------------------------------------------------------- an insertion

  /** `x{a//c`, a carriage return, and the closing brace on the same line. */
  function Braced(): Doc {
    Doc([Item("", Node("x", "x", [], "", Some(Doc([Item("", Bare("a"))], "//c\r"))))], "\n")
  }

  lemma BracedText()
    ensures DocText(Braced()) == "x{a//c\r}\n" && DocOk(Braced())
    ensures NodeText(Braced().items[0].node) == "x{a//c\r}" && BodyAt(Braced().items[0].node) == 2
  {
    hide ItemsText;
    var n := Braced().items[0].node;
    BareText("a");
    OneText(n.body.value.items[0]);
    OneText(Braced().items[0]);
    assert EntriesText([]) == "";
    assert NodeText(n) == "x" + "" + "" + "{" + ("" + "a" + "//c\r") + "}";
    assert NodeText(n) == "x{a//c\r}";
    assert "" + "x{a//c\r}" + "\n" == "x{a//c\r}\n";
    assert !White('a') && !White('}') && Starter('a') && Starter('x');
    assert NodeOk(Bare("a")) && n.body.value.items[1..] == [] && Braced().items[1..] == [];
    assert ItemsOk(n.body.value.items) && NodeOk(n);
  }

  /** A new key of `x` is written behind the brace, at the top of the file. */
  lemma CommentHidesBrace()
    ensures var d, text, parts, shape := Braced(), "x{a//c\r}\n", ["x", "k"], Scalar(Value("1", None));
            && text == DocText(d) && DocOk(d) && !Reached(d.items, d.end, true, parts)
            && FileSpliced(text, d, parts, shape) == Some("x{a//c\r}\nk 1\n")
  {
    hide NodeText, ItemsText, DocText, DocOk, Resolve, ResolvedEdit, Writable, Reached, FileSpliced, Lands, SetIn,
      Built, BodyAt;
    var d, text, parts, shape := Braced(), "x{a//c\r}\n", ["x", "k"], Scalar(Value("1", None));
    BracedText();
    FileEdit(text, d, parts, shape);
    MissingBehind(text, d, parts);
    BehindText(text, shape);
    SplicedIs(text, d, parts, shape, ["k"], 9, "");
  }

  lemma MissingBehind(text: string, d: Doc, parts: seq<string>)
    requires d == Braced() && text == "x{a//c\r}\n" && parts == ["x", "k"] && text == DocText(d)
    requires NodeText(d.items[0].node) == "x{a//c\r}" && BodyAt(d.items[0].node) == 2
    ensures |ItemsText(d.items)| <= |text|
    ensures Resolve(text, 0, d.items, File, parts) == Missing(["k"], 9, "")
    ensures !Reached(d.items, d.end, true, parts)
  {
    hide ItemsText, NodeText, BodyAt, TailIsTrivial, LineEnd, LeadingIndent, Exposed;
    var n := d.items[0].node;
    var kids := n.body.value.items;
    BareText("a");
    assert parts[1..] == ["k"];
    assert "a"[0] != "k"[0] && kids[..0] == [] && d.items[..0] == [];
    assert LastNamed(kids, "k") == None && LastNamed(d.items, "x") == Some(0);
    BraceExposed();
    OneText(kids[0]);
    OneText(d.items[0]);
    NoItemsText();
    BraceLine(text);
    assert MissingAt(text, 2, kids, Block(Spot(0, n)), ["k"]) == Missing(["k"], 9, "");
  }

  lemma BehindText(text: string, shape: Shape)
    requires text == "x{a//c\r}\n" && shape == Scalar(Value("1", None))
    ensures Writable(text, Missing(["k"], 9, ""))
    ensures ResolvedEdit(text, Missing(["k"], 9, ""), shape) == Some(Edit(9, 9, "k 1\n"))
    ensures Replace(text, Edit(9, 9, "k 1\n")) == "x{a//c\r}\nk 1\n"
  {
    hide NodeText, Built;
    NewLine(shape);
    assert text[8] == '\n';
    assert "" + ("" + "k 1" + "\n") == "k 1\n";
    assert text[..9] == text && text[9..] == "";
    assert text + "k 1\n" + "" == "x{a//c\r}\nk 1\n";
  }

  lemma SplicedIs(text: string, d: Doc, parts: seq<string>, shape: Shape, left: seq<string>, at: nat, indent: string)
    requires parts != [] && ShapeOk(shape) && text == DocText(d) && DocOk(d)
    requires Resolve(text, 0, d.items, File, parts) == Missing(left, at, indent)
    requires Writable(text, Missing(left, at, indent))
    ensures FileSpliced(text, d, parts, shape)
            == match ResolvedEdit(text, Missing(left, at, indent), shape)
               case None => None
               case Some(e) => if e.start <= e.stop <= |text| then Some(Replace(text, e)) else None
  {
    hide ItemsText, Resolve, ResolvedEdit, DocOk, Reached, Lands, SetIn;
    FileEdit(text, d, parts, shape);
    var edit := ResolvedEdit(text, Missing(left, at, indent), shape);
    if edit.Some? {
      SplicedWithin(text, d, parts, shape, edit.value);
    }
  }

  lemma NoItemsText()
    ensures ItemsText([]) == ""
  {
  }

  lemma BraceExposed()
    ensures Exposed("//c\r", false)
  {
    var h := "//c\r";
    assert TrimStart(h) == h && h[..2] == "//";
  }

  lemma BraceLine(text: string)
    requires text == "x{a//c\r}\n"
    ensures TailIsTrivial(text, 3) && LineEnd(text, 3) == 9 && LeadingIndent(text, 2) == ""
  {
    LineStopIs(text, 3, 8);
    assert text[3..8] == "//c\r}";
    assert TrimStart("//c\r}") == "//c\r}" && "//c\r}"[..2] == "//";
    LineStartIs(text, 2, 0);
    assert text[0..2] == "x{" && TrimBlanks("x{") == "x{";
  }

  lemma NewLine(shape: Shape)
    requires shape == Scalar(Value("1", None))
    ensures NodeText(Built(["k"], "", shape)) == "k 1"
  {
    var es := ListEntries([Value("1", None)]);
    assert [Value("1", None)][1..] == [] && ListEntries([]) == [];
    assert es == [Entry(" ", None, "1", None)] && es[1..] == [];
    assert EntriesText(es) == EntryText(es[0]) + EntriesText([]);
    assert EntryText(es[0]) == " 1";
  }
}
