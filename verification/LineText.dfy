/** The rules of the editor for lines, blanks and comments, told with the text
    itself: which bytes go with a node, and where and how new ones are written. */
module LineText {
  import opened Options
  import opened Kdl
  import opened Splice
  import opened Prune
  import opened SetTree
  import opened SetText
  import opened BlockTree
  import opened BlockInsert
  import opened UpsertBlock
  import BlockNames
  import MoveBlock

  // ------------------------------------------------------------------ terms

  /** The line `at` is on starts at `ls`. */
  ghost predicate StartsLine(text: string, ls: int, at: nat) {
    0 <= ls <= at <= |text| && (ls == 0 || text[ls - 1] == '\n') && '\n' !in text[ls..at]
  }

  /** The line `at` is on ends at `le`, at its line end or that of the text. */
  ghost predicate StopsLine(text: string, at: nat, le: int) {
    at <= le <= |text| && (le == |text| || text[le] == '\n') && '\n' !in text[at..le]
  }

  /** Nothing, or a comment to the end of the line. */
  ghost predicate Rest(t: string) {
    t == "" || (|t| >= 2 && t[0] == '/' && t[1] == '/')
  }

  ghost predicate Space(t: string) {
    forall i :: 0 <= i < |t| ==> White(t[i])
  }

  /** White space, a `;` among it perhaps, and then nothing but a comment. */
  ghost predicate Quiet(t: string) {
    exists i :: 0 <= i <= |t| && Space(t[..i]) && (Rest(t[i..]) || SemiThenRest(t, i))
  }

  ghost predicate SemiThenRest(t: string, i: nat) {
    i < |t| && t[i] == ';' && exists j :: i < j <= |t| && Space(t[i + 1..j]) && Rest(t[j..])
  }

  /** Blanks lead up to a `;` at `k`. */
  ghost predicate SemiAt(text: string, at: nat, k: int) {
    at <= k < |text| && text[k] == ';' && forall i :: at <= i < k ==> text[i] == ' ' || text[i] == '\t'
  }

  /** Right behind such a `;`, or where there is none. */
  ghost predicate BehindSemi(text: string, at: nat, after: nat) {
    SemiAt(text, at, after - 1) || (after == at && forall k :: !SemiAt(text, at, k))
  }

  /** The blanks the line `at` is on starts with. */
  ghost predicate Indents(text: string, at: nat, indent: string) {
    exists ls :: StartsLine(text, ls, at) && IndentsFrom(text, ls, at, indent)
  }

  ghost predicate IndentsFrom(text: string, ls: int, at: nat, indent: string)
    requires 0 <= ls <= at <= |text|
  {
    && ls + |indent| <= at && text[ls..ls + |indent|] == indent
    && (forall i :: 0 <= i < |indent| ==> indent[i] == ' ' || indent[i] == '\t')
    && (ls + |indent| < at ==> text[ls + |indent|] != ' ' && text[ls + |indent|] != '\t')
  }

  // -------------------------------------------------------- white and blanks

  lemma {:induction false} TrimStartTo(t: string, i: nat)
    requires i <= |t| && Space(t[..i]) && (i == |t| || !White(t[i]))
    ensures TrimStart(t) == t[i..]
  {
    if i > 0 {
      assert t[..i][0] == t[0];
      assert t[1..][..i - 1] == t[..i][1..];
      TrimStartTo(t[1..], i - 1);
    }
  }

  lemma {:induction false} TrimStartAt(t: string) returns (i: nat)
    ensures i <= |t| && Space(t[..i]) && (i == |t| || !White(t[i])) && TrimStart(t) == t[i..]
  {
    if t != "" && White(t[0]) {
      var k := TrimStartAt(t[1..]);
      i := k + 1;
      assert t[..i] == [t[0]] + t[1..][..k];
    } else {
      i := 0;
    }
  }

  lemma {:induction false} TrimBlanksTo(t: string, i: nat)
    requires i <= |t| && (forall k :: 0 <= k < i ==> t[k] == ' ' || t[k] == '\t')
    requires i < |t| ==> t[i] != ' ' && t[i] != '\t'
    ensures TrimBlanks(t) == t[i..]
  {
    if i > 0 {
      TrimBlanksTo(t[1..], i - 1);
    }
  }

  lemma {:induction false} TrimBlanksAt(t: string) returns (i: nat)
    ensures i <= |t| && (forall k :: 0 <= k < i ==> t[k] == ' ' || t[k] == '\t')
    ensures (i < |t| ==> t[i] != ' ' && t[i] != '\t') && TrimBlanks(t) == t[i..]
  {
    if t != "" && (t[0] == ' ' || t[0] == '\t') {
      var k := TrimBlanksAt(t[1..]);
      i := k + 1;
    } else {
      i := 0;
    }
  }

  /** What follows on a line is trivial exactly when it is quiet. */
  lemma TrivialIsQuiet(t: string)
    ensures Trivial(t) <==> Quiet(t)
  {
    hide TrimStart;
    if Trivial(t) {
      TrivialQuiet(t);
    }
    if Quiet(t) {
      QuietTrivial(t);
    }
  }

  lemma TrivialQuiet(t: string)
    requires Trivial(t)
    ensures Quiet(t)
  {
    hide TrimStart, Space;
    var i := TrimStartAt(t);
    var a := TrimStart(t);
    if a != "" && a[0] == ';' {
      var k := TrimStartAt(a[1..]);
      var j := i + 1 + k;
      assert t[i + 1..j] == a[1..][..k] && t[j..] == a[1..][k..];
      assert SemiThenRest(t, i);
    }
  }

  lemma QuietTrivial(t: string)
    requires Quiet(t)
    ensures Trivial(t)
  {
    hide TrimStart, Space, Trivial;
    var i :| 0 <= i <= |t| && Space(t[..i]) && (Rest(t[i..]) || SemiThenRest(t, i));
    if Rest(t[i..]) {
      RestTrivial(t, i);
    } else {
      var j :| i < j <= |t| && Space(t[i + 1..j]) && Rest(t[j..]);
      SemiTrivial(t, i, j);
    }
  }

  lemma RestTrivial(t: string, i: nat)
    requires i <= |t| && Space(t[..i]) && Rest(t[i..])
    ensures Trivial(t)
  {
    hide TrimStart, Space;
    assert i < |t| ==> t[i] == t[i..][0];
    TrimStartTo(t, i);
  }

  lemma SemiTrivial(t: string, i: nat, j: nat)
    requires i < j <= |t| && Space(t[..i]) && t[i] == ';' && Space(t[i + 1..j]) && Rest(t[j..])
    ensures Trivial(t)
  {
    hide TrimStart, Space;
    TrimStartTo(t, i);
    var a := t[i..];
    assert a[1..][..j - i - 1] == t[i + 1..j] && a[1..][j - i - 1..] == t[j..];
    assert j < |t| ==> t[j] == t[j..][0];
    TrimStartTo(a[1..], j - i - 1);
  }

  lemma LineStartIsStart(text: string, ls: nat, at: nat)
    requires StartsLine(text, ls, at)
    ensures LineStart(text, at) == ls
  {
    assert forall i :: ls <= i < at ==> text[ls..at][i - ls] == text[i];
    LineStartIs(text, at, ls);
  }

  lemma LineStopIsStop(text: string, at: nat, le: nat)
    requires StopsLine(text, at, le)
    ensures LineStop(text, at) == le && (TailIsTrivial(text, at) <==> Quiet(text[at..le]))
  {
    assert forall i :: at <= i < le ==> text[at..le][i - at] == text[i];
    LineStopIs(text, at, le);
    TrivialIsQuiet(text[at..le]);
  }

  /** The `;` a node may have right behind it. */
  lemma SemiIs(text: string, at: nat)
    requires at <= |text|
    ensures forall k :: SemiAt(text, at, k) ==> AfterSemi(text, at) == k + 1
    ensures (forall k :: !SemiAt(text, at, k)) ==> AfterSemi(text, at) == at
  {
    hide TrimBlanks;
    var i := TrimBlanksAt(text[at..]);
    assert i < |text| - at ==> text[at..][i] == text[at + i];
    forall k | SemiAt(text, at, k) ensures AfterSemi(text, at) == k + 1 {
      TrimBlanksTo(text[at..], k - at);
    }
    if AfterSemi(text, at) != at {
      assert SemiAt(text, at, at + i);
    }
  }

  lemma SemiGives(text: string, at: nat, after: nat)
    requires at <= |text| && BehindSemi(text, at, after)
    ensures AfterSemi(text, at) == after && at <= after <= |text|
  {
    hide AfterSemi;
    SemiIs(text, at);
  }

  lemma IndentIs(text: string, at: nat, indent: string)
    requires Indents(text, at, indent)
    ensures at <= |text| && LeadingIndent(text, at) == indent
  {
    var ls :| StartsLine(text, ls, at) && IndentsFrom(text, ls, at, indent);
    LineStartIsStart(text, ls, at);
    var line := text[ls..at];
    assert line[..|indent|] == indent;
    forall k | 0 <= k < |indent| ensures line[k] == ' ' || line[k] == '\t' {
      assert line[k] == line[..|indent|][k];
    }
    TrimBlanksTo(line, |indent|);
  }

  /** There is always just one such indentation. */
  lemma IndentThere(text: string, at: nat)
    requires at <= |text|
    ensures Indents(text, at, LeadingIndent(text, at))
  {
    var ls := LineStartThere(text, at);
    LineStartIsStart(text, ls, at);
    var line := text[ls..at];
    var i := TrimBlanksAt(line);
    assert LeadingIndent(text, at) == line[..i];
    assert line[..i] == text[ls..ls + i];
    assert IndentsFrom(text, ls, at, line[..i]);
  }

  lemma {:induction false} LineStartThere(text: string, at: nat) returns (ls: nat)
    requires at <= |text|
    ensures StartsLine(text, ls, at)
    decreases at
  {
    if at == 0 || text[at - 1] == '\n' {
      ls := at;
    } else {
      ls := LineStartThere(text, at - 1);
      assert text[ls..at] == text[ls..at - 1] + [text[at - 1]];
    }
  }

  // --------------------------------------------------------------- removing

  /** A node that has its line or lines to itself goes with them, from the start
      of the first to behind the line end of the last. */
  lemma WholeLinesGo(text: string, s: nat, e: nat, ls: nat, le: nat)
    requires s <= e && StartsLine(text, ls, s) && StopsLine(text, e, le) && Space(text[ls..s]) && Quiet(text[e..le])
    ensures Removal(text, s, e) == Edit(ls, if le < |text| then le + 1 else |text|, "")
  {
    LineStartIsStart(text, ls, s);
    LineStopIsStop(text, e, le);
  }

  /** Any other goes alone, or with the `;` right behind it. */
  lemma NodeAloneGoes(text: string, s: nat, e: nat, ls: nat, le: nat)
    requires s <= e && StartsLine(text, ls, s) && StopsLine(text, e, le)
    requires !(Space(text[ls..s]) && Quiet(text[e..le]))
    ensures forall after :: BehindSemi(text, e, after) ==> Removal(text, s, e) == Edit(s, after, "")
  {
    hide TrimBlanks;
    LineStartIsStart(text, ls, s);
    LineStopIsStop(text, e, le);
    SemiIs(text, e);
  }

  // -------------------------------------------------------------- new lines

  /** What is written behind a node goes on its own line, indented like the
      node's: behind the node's line, or, when more than a comment follows there,
      right behind the node. */
  lemma BehindNode(text: string, s: nat, e: nat, le: nat, indent: string, rendered: string)
    requires s <= e && StopsLine(text, e, le) && Indents(text, s, indent)
    ensures InsertAfterEdit(text, s, e, rendered) ==
            if !Quiet(text[e..le]) then Edit(e, e, "\n" + indent + rendered)
            else if le < |text| then Edit(le + 1, le + 1, indent + rendered + "\n")
            else Edit(|text|, |text|, "\n" + indent + rendered)
  {
    hide LeadingIndent, TailIsTrivial, LineStop, Quiet;
    IndentIs(text, s, indent);
    LineStopIsStop(text, e, le);
  }

  /** The text with that done. */
  ghost function WithBehind(text: string, e: nat, le: nat, indent: string, rendered: string): string
    requires e <= le <= |text|
  {
    if !Quiet(text[e..le]) then text[..e] + "\n" + indent + rendered + text[e..]
    else if le < |text| then text[..le + 1] + indent + rendered + "\n" + text[le + 1..]
    else text + "\n" + indent + rendered
  }

  lemma BehindReplaced(text: string, s: nat, e: nat, le: nat, indent: string, rendered: string)
    requires s <= e && StopsLine(text, e, le) && Indents(text, s, indent)
    ensures Replace(text, InsertAfterEdit(text, s, e, rendered)) == WithBehind(text, e, le, indent, rendered)
  {
    hide LeadingIndent, InsertAfterEdit, Quiet, Indents;
    BehindNode(text, s, e, le, indent, rendered);
    ReplaceAt(text, e, "\n", indent, rendered);
    ReplaceEnd(text, "\n", indent, rendered);
    if le < |text| {
      ReplaceBefore(text, le + 1, indent, rendered, "\n");
    }
  }

  /** One level in: a tab where the outer lines have one, else four blanks. */
  ghost function OneIn(outer: string): string {
    outer + if '\t' in outer then "\t" else "    "
  }

  /** What is written into an empty block goes on a line of its own, one level
      in: before the closing brace's line when the brace has it to itself, else
      the line is broken there. */
  lemma IntoEmptyBlock(text: string, b: Spot, child: string, outer: string, ls: nat)
    requires b.at < b.at + |NodeText(b.node)| <= |text|
    requires Indents(text, b.at, outer) && StartsLine(text, ls, b.at + |NodeText(b.node)| - 1)
    ensures var close := b.at + |NodeText(b.node)| - 1;
            ChildEdit(text, b, child) ==
            if ls > b.at && Space(text[ls..close]) then Edit(ls, ls, OneIn(outer) + child + "\n")
            else Edit(close, close, "\n" + OneIn(outer) + child + "\n" + outer)
  {
    hide LeadingIndent, LineStart, NodeText;
    IndentIs(text, b.at, outer);
    LineStartIsStart(text, ls, b.at + |NodeText(b.node)| - 1);
  }

  // --------------------------------------------------------------- new keys

  /** The text of the missing path: each block opens on the line it is written
      for, its child is one level of four blanks further in, and its brace closes
      on a line of its own; the key has its values behind it, a blank before
      each. */
  lemma {:induction false} BuiltText(parts: seq<string>, indent: string, shape: Shape)
    requires parts != []
    ensures |parts| == 1 && shape.Scalar? ==>
              NodeText(Built(parts, indent, shape)) == parts[0] + " " + shape.value.repr
    ensures |parts| == 1 && shape.Many? ==> NodeText(Built(parts, indent, shape)) == parts[0] + Spaced(shape.values)
    ensures |parts| > 1 ==>
              NodeText(Built(parts, indent, shape)) ==
              parts[0] + " {\n" + indent + "    " + NodeText(Built(parts[1..], indent + "    ", shape)) +
              "\n" + indent + "}"
  {
    hide NodeText, ItemsText, EntriesText, ListEntries;
    if |parts| == 1 {
      LeafTexts(parts[0], shape);
    } else {
      var m := Built(parts[1..], indent + UNIT, shape);
      var inner := Doc([Item("\n" + indent + UNIT, m)], "\n" + indent);
      SectionIs(parts[0], inner);
      OneItem(inner.items[0]);
      BlockParts(parts[0], "\n", indent, "    ", NodeText(m));
    }
  }

  lemma LeafTexts(name: string, shape: Shape)
    ensures NodeText(Leaf(name, shape)) ==
            match shape case Scalar(v) => name + " " + v.repr case Many(vs) => name + Spaced(vs)
  {
    hide EntriesText, ListEntries;
    match shape
    case Scalar(v) =>
      SpacedText([v]);
      assert [v][1..] == [] && Spaced([]) == "";
      assert name + Spaced([v]) == name + " " + v.repr;
    case Many(vs) =>
      SpacedText(vs);
  }

  lemma OneItem(i: Item)
    ensures ItemsText([i]) == i.gap + NodeText(i.node)
  {
    assert [i][1..] == [];
  }

  lemma BlockParts(part: string, nl: string, indent: string, unit: string, m: string)
    ensures part + " " + "{" + ((nl + indent + unit) + m + (nl + indent)) + "}"
            == part + (" {" + nl) + indent + unit + m + nl + indent + "}"
  {
    assert " " + "{" == " {";
  }

  function Spaced(vs: seq<Value>): string {
    if vs == [] then "" else " " + vs[0].repr + Spaced(vs[1..])
  }

  lemma {:induction false} SpacedText(vs: seq<Value>)
    ensures EntriesText(ListEntries(vs)) == Spaced(vs)
    decreases |vs|
  {
    if vs != [] {
      SpacedText(vs[1..]);
      assert ListEntries(vs)[1..] == ListEntries(vs[1..]);
      assert EntryText(ListEntries(vs)[0]) == " " + vs[0].repr;
    }
  }

  /** The path written as a line or lines at `at`, which starts a line or is
      given one. */
  ghost function WrittenAt(text: string, at: nat, indent: string, left: seq<string>, shape: Shape): Edit
    requires at <= |text| && left != []
  {
    Edit(at, at, (if at > 0 && text[at - 1] != '\n' then "\n" else "") +
                   (indent + NodeText(Built(left, indent, shape)) + "\n"))
  }

  /** Behind the last child's line, when no more than a comment follows the child
      there, with the child's own indentation. */
  lemma KeyBehindLine(text: string, pos: nat, items: seq<Item>, parent: Parent, left: seq<string>, shape: Shape,
                      le: nat, indent: string)
    requires items != [] && left != [] && pos + |ItemsText(items)| <= |text|
    requires parent.Block? ==> parent.spot.at <= |text|
    requires var s := ItemAt(pos, items, |items| - 1); var e := pos + |ItemsText(items)|;
             s <= e && StopsLine(text, e, le) && Quiet(text[e..le]) && Indents(text, s, indent)
    ensures Writable(text, MissingAt(text, pos, items, parent, left))
    ensures var at := if le < |text| then le + 1 else le;
            ResolvedEdit(text, MissingAt(text, pos, items, parent, left), shape) ==
            Some(WrittenAt(text, at, indent, left, shape))
  {
    hide LeadingIndent, TailIsTrivial, LineStop, Quiet, NodeText, ItemsText, Built;
    LastWithin(pos, items);
    var e := pos + |ItemsText(items)|;
    LineStopIsStop(text, e, le);
    IndentIs(text, ItemAt(pos, items, |items| - 1), indent);
  }

  /** Else right behind the child, and the `;` it may have, four blanks further
      in than the line the block is on. */
  lemma KeyBehindChild(text: string, pos: nat, items: seq<Item>, parent: Parent, left: seq<string>, shape: Shape,
                       le: nat, outer: string, at: nat)
    requires items != [] && left != [] && pos + |ItemsText(items)| <= |text|
    requires parent.Block? ==> parent.spot.at <= |text| && Indents(text, parent.spot.at, outer)
    requires var e := pos + |ItemsText(items)|;
             StopsLine(text, e, le) && !Quiet(text[e..le]) &&
               BehindSemi(text, e, at)
    ensures at <= |text| && Writable(text, MissingAt(text, pos, items, parent, left))
    ensures ResolvedEdit(text, MissingAt(text, pos, items, parent, left), shape) ==
            Some(WrittenAt(text, at, if parent.Block? then outer + "    " else "", left, shape))
  {
    hide *;
    BehindChildIs(text, pos, items, parent, left, le, outer, at);
    ResolvedIs(text, left, at, if parent.Block? then outer + "    " else "", shape);
  }

  lemma ResolvedIs(text: string, left: seq<string>, at: nat, indent: string, shape: Shape)
    requires left != [] && at <= |text|
    ensures Writable(text, Missing(left, at, indent))
    ensures ResolvedEdit(text, Missing(left, at, indent), shape) == Some(WrittenAt(text, at, indent, left, shape))
  {
    hide Built, NodeText;
  }

  lemma BehindChildIs(text: string, pos: nat, items: seq<Item>, parent: Parent, left: seq<string>, le: nat,
                      outer: string, at: nat)
    requires items != [] && left != [] && pos + |ItemsText(items)| <= |text|
    requires parent.Block? ==> parent.spot.at <= |text| && Indents(text, parent.spot.at, outer)
    requires var e := pos + |ItemsText(items)|;
             StopsLine(text, e, le) && !Quiet(text[e..le]) && BehindSemi(text, e, at)
    ensures at <= |text|
    ensures MissingAt(text, pos, items, parent, left) ==
            Missing(left, at, if parent.Block? then outer + "    " else "")
  {
    hide LeadingIndent, TailIsTrivial, LineStop, Quiet, NodeText, ItemsText, AfterSemi, BehindSemi, SemiAt, Indents;
    LastWithin(pos, items);
    var e := pos + |ItemsText(items)|;
    LineStopIsStop(text, e, le);
    SemiGives(text, e, at);
    if parent.Block? {
      IndentIs(text, parent.spot.at, outer);
    }
  }

  /** In an empty file at its end, in an empty block between its braces. */
  lemma KeyAlone(text: string, pos: nat, end: string, parent: Parent, left: seq<string>, shape: Shape, outer: string,
                 ls: nat)
    requires left != [] && pos <= |text|
    requires parent.Block? ==>
               && parent.spot.at < parent.spot.at + |NodeText(parent.spot.node)| <= |text|
               && Indents(text, parent.spot.at, outer)
               && StartsLine(text, ls, parent.spot.at + |NodeText(parent.spot.node)| - 1)
    ensures Writable(text, MissingAt(text, pos, [], parent, left))
    ensures parent == File ==>
              ResolvedEdit(text, MissingAt(text, pos, [], parent, left), shape) ==
              Some(WrittenAt(text, |text|, "", left, shape))
    ensures parent.Block? ==>
              var b, close := parent.spot, parent.spot.at + |NodeText(parent.spot.node)| - 1;
              var child := NodeText(Built(left, OneIn(outer), shape));
              ResolvedEdit(text, MissingAt(text, pos, [], parent, left), shape) ==
              Some(if ls > b.at && Space(text[ls..close]) then Edit(ls, ls, OneIn(outer) + child + "\n")
                   else Edit(close, close, "\n" + OneIn(outer) + child + "\n" + outer))
  {
    hide LeadingIndent, NodeText, Built, LineStart, ChildEdit;
    if parent.Block? {
      var b := parent.spot;
      IndentIs(text, b.at, outer);
      IntoEmptyBlock(text, b, NodeText(Built(left, OneIn(outer), shape)), outer, ls);
    }
  }

  // ------------------------------------------------------------- new blocks

  ghost function LinesText(body: seq<string>, inner: string): string {
    if body == [] then "" else inner + body[0] + "\n" + LinesText(body[1..], inner)
  }

  /** A block as it is written: the opening line, each line of the body one level
      in, and the brace where the opening line starts. */
  lemma BlockIs(kind: string, quoted: string, body: seq<string>, indent: string)
    ensures BlockString(kind, quoted, body, indent)
            == kind + " " + quoted + " {\n" + LinesText(body, OneIn(indent)) + indent + "}"
  {
    BodyIs(body, OneIn(indent));
    var lines := LinesText(body, OneIn(indent));
    assert kind + " " + quoted + " {" + (BodyText(body, OneIn(indent)) + "\n") + indent + "}"
      == kind + " " + quoted + " {" + BodyText(body, OneIn(indent)) + "\n" + indent + "}";
    assert " {" + ("\n" + lines) == " {\n" + lines;
    assert kind + " " + quoted + " {" + ("\n" + lines) + indent + "}"
      == kind + " " + quoted + (" {" + ("\n" + lines)) + indent + "}";
  }

  lemma {:induction false} BodyIs(body: seq<string>, inner: string)
    ensures BodyText(body, inner) + "\n" == "\n" + LinesText(body, inner)
    decreases |body|
  {
    if body != [] {
      var n := |body| - 1;
      BodyIs(body[..n], inner);
      LinesSnoc(body[..n], body[n], inner);
      assert body[..n] + [body[n]] == body;
      assert BodyText(body, inner) + "\n" == (BodyText(body[..n], inner) + "\n") + (inner + body[n] + "\n");
    }
  }

  lemma {:induction false} LinesSnoc(body: seq<string>, line: string, inner: string)
    ensures LinesText(body + [line], inner) == LinesText(body, inner) + (inner + line + "\n")
    decreases |body|
  {
    if body == [] {
      assert (body + [line])[1..] == [];
    } else {
      assert (body + [line])[1..] == body[1..] + [line];
      LinesSnoc(body[1..], line, inner);
    }
  }

  /** A block of a new name is written behind the last of its kind, indented like
      that one. */
  lemma BehindLastOfKind(text: string, d: Doc, parent: string, kind: string, quoted: string, body: seq<string>,
                         le: nat, indent: string)
    requires text == DocText(d) && DocOk(d) && NodesAt(d.items, KindLevels(parent, kind)) != []
    requires var b := KindLevels(parent, kind);
             var k := |NodesAt(d.items, b)| - 1;
             var s := HitAt(0, d.items, b, k);
             StopsLine(text, s + |NodeText(NodesAt(d.items, b)[k])|, le) && Indents(text, s, indent)
    ensures var b := KindLevels(parent, kind);
            var k := |NodesAt(d.items, b)| - 1;
            var e := HitAt(0, d.items, b, k) + |NodeText(NodesAt(d.items, b)[k])|;
            var rendered := BlockString(kind, quoted, body, indent);
            e <= le <= |text| && AddedText(text, d, parent, kind, quoted, body) ==
            WithBehind(text, e, le, indent, rendered)
  {
    hide LeadingIndent, InsertAfterEdit, BlockString, NodeText, NodesAt, HitAt, DocText, DocOk, WithBehind, Indents;
    var b := KindLevels(parent, kind);
    var k := |NodesAt(d.items, b)| - 1;
    var s := HitAt(0, d.items, b, k);
    var e := s + |NodeText(NodesAt(d.items, b)[k])|;
    var rendered := BlockString(kind, quoted, body, indent);
    UpsertBlock.HitWithin(text, d, b, k);
    IndentIs(text, s, indent);
    BehindReplaced(text, s, e, le, indent, rendered);
  }

  lemma ReplaceAt(text: string, e: nat, nl: string, indent: string, rendered: string)
    requires e <= |text|
    ensures Replace(text, Edit(e, e, nl + indent + rendered)) == text[..e] + nl + indent + rendered + text[e..]
  {
  }

  lemma ReplaceEnd(text: string, nl: string, indent: string, rendered: string)
    ensures Replace(text, Edit(|text|, |text|, nl + indent + rendered)) == text + nl + indent + rendered
  {
    assert text[..|text|] == text && text[|text|..] == "";
  }

  lemma ReplaceBefore(text: string, at: nat, indent: string, rendered: string, nl: string)
    requires at <= |text|
    ensures Replace(text, Edit(at, at, indent + rendered + nl)) == text[..at] + indent + rendered + nl + text[at..]
  {
  }

  /** With no block of the kind, it becomes the last child of the last section
      that has braces: behind the child that was last, indented like that one. */
  lemma BehindLastOfSection(text: string, d: Doc, parent: string, kind: string, quoted: string, body: seq<string>,
                            k: nat, le: nat, indent: string)
    requires text == DocText(d) && DocOk(d) && NodesAt(d.items, KindLevels(parent, kind)) == []
    requires IsLastSection(d.items, parent, k) && d.items[k].node.body.value.items != []
    requires var n := d.items[k].node;
             var c := n.body.value.items;
             var s := ItemAt(ItemAt(0, d.items, k) + BodyAt(n), c, |c| - 1);
             StopsLine(text, s + |NodeText(c[|c| - 1].node)|, le) && Indents(text, s, indent)
    ensures var n := d.items[k].node;
            var c := n.body.value.items;
            var s := ItemAt(ItemAt(0, d.items, k) + BodyAt(n), c, |c| - 1);
            var e := s + |NodeText(c[|c| - 1].node)|;
            var rendered := BlockString(kind, quoted, body, indent);
            e <= le <= |text| && AddedText(text, d, parent, kind, quoted, body) ==
            WithBehind(text, e, le, indent, rendered)
  {
    hide LeadingIndent, InsertAfterEdit, BlockString, NodeText, NodesAt, DocText, DocOk, ItemAt, BodyAt, AddedText,
      WithBehind, Indents, AppendEdit, ChildPlaceOf;
    var n, at := d.items[k].node, ItemAt(0, d.items, k);
    var c := n.body.value.items;
    var s := ItemAt(at + BodyAt(n), c, |c| - 1);
    var e := s + |NodeText(c[|c| - 1].node)|;
    IndentIs(text, s, indent);
    AddedInSection(text, d, parent, kind, quoted, body, k);
    PlaceBehind(text, at, n, indent, BlockString(kind, quoted, body, indent));
    BehindReplaced(text, s, e, le, indent, BlockString(kind, quoted, body, indent));
  }

  lemma AddedInSection(text: string, d: Doc, parent: string, kind: string, quoted: string, body: seq<string>, k: nat)
    requires text == DocText(d) && DocOk(d) && NodesAt(d.items, KindLevels(parent, kind)) == []
    requires IsLastSection(d.items, parent, k)
    ensures var n, s := d.items[k].node, ItemAt(0, d.items, k);
            && n.body.Some? && s + |NodeText(n)| <= |text| && NodeText(n) != ""
            && var rendered := BlockString(kind, quoted, body, ChildPlaceOf(text, s, n).indent);
            && AppendEdit(text, s, n, rendered).start <= AppendEdit(text, s, n, rendered).stop <= |text|
            && AddedText(text, d, parent, kind, quoted, body) == Replace(text, AppendEdit(text, s, n, rendered))
  {
    hide BlockString, NodeText, NodesAt, DocText, DocOk, ItemAt, AppendEdit, ChildPlaceOf, Replace, HitAt;
    SectionOk(text, d, k);
    var n, s := d.items[k].node, ItemAt(0, d.items, k);
    AppendWithin(text, s, n, BlockString(kind, quoted, body, ChildPlaceOf(text, s, n).indent));
  }

  lemma PlaceBehind(text: string, at: nat, n: Node, indent: string, rendered: string)
    requires n.body.Some? && n.body.value.items != [] && at + |NodeText(n)| <= |text| && NodeText(n) != ""
    requires var c := n.body.value.items;
             var s := ItemAt(at + BodyAt(n), c, |c| - 1);
             s <= |text| && LeadingIndent(text, s) == indent
    ensures ChildPlaceOf(text, at, n).indent == indent
    ensures var c := n.body.value.items;
            var s := ItemAt(at + BodyAt(n), c, |c| - 1);
            var e := s + |NodeText(c[|c| - 1].node)|;
            s <= e <= |text| && AppendEdit(text, at, n, rendered) == InsertAfterEdit(text, s, e, rendered)
  {
    hide LeadingIndent, InsertAfterEdit, NodeText, ItemAt, BodyAt;
    BlockSize(n);
    LastWithin(at + BodyAt(n), n.body.value.items);
  }

  ghost predicate IsLastSection(items: seq<Item>, parent: string, k: nat) {
    && k < |items| && items[k].node.name == parent && items[k].node.body.Some?
    && forall j :: k < j < |items| ==> items[j].node.name != parent || items[j].node.body == None
  }

  /** Or into the section's empty braces, one level in. */
  lemma IntoEmptySection(text: string, d: Doc, parent: string, kind: string, quoted: string, body: seq<string>,
                         k: nat, outer: string, ls: nat)
    requires text == DocText(d) && DocOk(d) && NodesAt(d.items, KindLevels(parent, kind)) == []
    requires IsLastSection(d.items, parent, k) && d.items[k].node.body.value.items == []
    requires var n, s := d.items[k].node, ItemAt(0, d.items, k);
             NodeText(n) != "" && Indents(text, s, outer) && StartsLine(text, ls, s + |NodeText(n)| - 1)
    ensures var n, s := d.items[k].node, ItemAt(0, d.items, k);
            var close := s + |NodeText(n)| - 1;
            var rendered := BlockString(kind, quoted, body, OneIn(outer));
            AddedText(text, d, parent, kind, quoted, body) ==
            if ls > s && Space(text[ls..close]) then text[..ls] + OneIn(outer) + rendered + "\n" + text[ls..]
            else text[..close] + ("\n" + OneIn(outer) + rendered + "\n" + outer) + text[close..]
  {
    hide LeadingIndent, BlockString, NodeText, NodesAt, DocText, DocOk, ItemAt, AddedText, Indents, StartsLine,
      AppendEdit, ChildPlaceOf, Space;
    var n, s := d.items[k].node, ItemAt(0, d.items, k);
    IndentIs(text, s, outer);
    AddedInSection(text, d, parent, kind, quoted, body, k);
    var rendered := BlockString(kind, quoted, body, OneIn(outer));
    PlaceInside(text, s, n, outer, rendered);
    IntoEmptyBlock(text, Spot(s, n), rendered, outer, ls);
    LineStartWithin(text, ls, s + |NodeText(n)| - 1);
    ReplaceBefore(text, ls, OneIn(outer), rendered, "\n");
  }

  lemma LineStartWithin(text: string, ls: int, at: nat)
    requires StartsLine(text, ls, at)
    ensures 0 <= ls <= at <= |text|
  {
  }

  lemma PlaceInside(text: string, s: nat, n: Node, outer: string, rendered: string)
    requires n.body.Some? && n.body.value.items == [] && s + |NodeText(n)| <= |text| && NodeText(n) != ""
    requires LeadingIndent(text, s) == outer
    ensures ChildPlaceOf(text, s, n).indent == OneIn(outer)
    ensures AppendEdit(text, s, n, rendered) == ChildEdit(text, Spot(s, n), rendered)
  {
    hide LeadingIndent, NodeText, ItemAt, ChildEdit;
    BlockSize(n);
  }

  /** With no block of the kind and no section to hold one, a section is written
      at the end of the file, on a line of its own, and the block four blanks
      in. */
  lemma InNewSection(text: string, d: Doc, parent: string, kind: string, quoted: string, body: seq<string>)
    requires text == DocText(d) && DocOk(d) && NodesAt(d.items, KindLevels(parent, kind)) == []
    requires forall i :: 0 <= i < |d.items| ==> d.items[i].node.name != parent || d.items[i].node.body == None
    ensures AddedText(text, d, parent, kind, quoted, body) ==
            text + (if text != "" && text[|text| - 1] != '\n' then "\n" else "") +
            (parent + " {\n    " + BlockString(kind, quoted, body, "    ") + "\n}\n")
  {
    hide BlockString, NodesAt, DocText, DocOk;
    assert " {\n" + UNIT == " {\n    ";
    assert parent + " {\n" + UNIT == parent + (" {\n" + UNIT);
  }

  // ------------------------------------------------------------ putting back

  /** Before the block that has the place: the bytes, then a line end and the
      indentation of that block's line. */
  lemma BackBefore(rest: string, d: Doc, b: seq<Level>, m: string, index: nat, k: nat, indent: string)
    requires b != [] && rest == DocText(d) && index < |BlockNames.Keys(NodesAt(d.items, b))|
    requires k == BlockNames.FirstAt(NodesAt(d.items, b), index) && Indents(rest, HitAt(0, d.items, b, k), indent)
    ensures var s := HitAt(0, d.items, b, k);
            s <= |rest| && MoveBlock.PutBackText(rest, d, b, m, index) ==
            Some(rest[..s] + m + "\n" + indent + rest[s..])
  {
    hide LeadingIndent, NodeText, NodesAt, HitAt, DocText, BlockNames.Keys, BlockNames.FirstAt;
    var s := HitAt(0, d.items, b, k);
    MoveBlock.HitWithin(rest, d, b, k);
    IndentIs(rest, s, indent);
    assert Replace(rest, Edit(s, s, m + "\n" + indent)) == rest[..s] + m + "\n" + indent + rest[s..];
  }

  /** Past the last name: behind the block that brings it, as behind any node. */
  lemma BackBehind(rest: string, d: Doc, b: seq<Level>, m: string, index: nat, k: nat, le: nat, indent: string)
    requires b != [] && rest == DocText(d) && 0 < |BlockNames.Keys(NodesAt(d.items, b))| <= index
    requires k == BlockNames.FirstAt(NodesAt(d.items, b), |BlockNames.Keys(NodesAt(d.items, b))| - 1)
    requires var s := HitAt(0, d.items, b, k);
             StopsLine(rest, s + |NodeText(NodesAt(d.items, b)[k])|, le) && Indents(rest, s, indent)
    ensures var e := HitAt(0, d.items, b, k) + |NodeText(NodesAt(d.items, b)[k])|;
            e <= le <= |rest| && MoveBlock.PutBackText(rest, d, b, m, index) ==
            Some(WithBehind(rest, e, le, indent, m))
  {
    hide LeadingIndent, InsertAfterEdit, NodeText, NodesAt, HitAt, DocText, BlockNames.Keys, BlockNames.FirstAt,
      WithBehind, Indents;
    MoveBlock.KeysNonempty(NodesAt(d.items, b));
    MoveBlock.HitWithin(rest, d, b, k);
    var s := HitAt(0, d.items, b, k);
    var e := s + |NodeText(NodesAt(d.items, b)[k])|;
    BehindReplaced(rest, s, e, le, indent, m);
  }
}
