/** `remove_value`: what is left of a file when every definition of a path goes. */
module Remove {
  import opened Options
  import opened Bytes
  import opened Kdl
  import opened Splice
  import opened Prune

  /** What an edit is refused for; `Panic` is a splice out of range. */
  datatype EditError = Parse | NotAValue | BadPath | NotFound | Exists | Index(index: nat, len: nat) | Panic

  type Parser = string -> Option<Doc>

  /** What the editor relies on when it parses a text: the tree it gets, if it
      gets one, flattens to that text and is put together as the parser puts
      trees together. */
  ghost predicate Reads(parser: Parser, text: string) {
    parser(text).Some? ==> DocText(parser(text).value) == text && DocOk(parser(text).value)
  }

  lemma ReadsIt(parser: Parser, text: string)
    requires Reads(parser, text) && parser(text).Some?
    ensures text == DocText(parser(text).value) && DocOk(parser(text).value)
  {
  }

  /** A dotted path, split at its dots, names a node at each level. */
  function PathLevels(parts: seq<string>): (r: seq<Level>)
    ensures |r| == |parts|
  {
    if parts == [] then [] else [Level({parts[0]}, None)] + PathLevels(parts[1..])
  }

  // ------------------------------------------------------ the tree that is left

  /** No definition is left. */
  lemma {:induction false} NoneLeft(items: seq<Item>, end: string, levels: seq<Level>, top: bool, collapse: bool,
                                    first: bool, carry: string, skip: nat)
    requires levels != [] && skip <= |NextGap(items, end)|
    ensures NodesAt(Cut(items, end, levels, top, collapse, first, carry, skip).items, levels) == []
    decreases items, 1
  {
    hide CutBefore, CutAfter, Goes, NodesAt, Stays;
    var c := Cut(items, end, levels, top, collapse, first, carry, skip);
    if items == [] {
      NoItems(levels);
    } else {
      var n, rest := items[0].node, items[1..];
      if Goes(n, levels, top, collapse) {
        var last := top && rest == [];
        var g, h := items[0].gap, NextGap(rest, end);
        var stop := CutBefore(g, h, first, last);
        NoneLeft(rest, end, levels, top, collapse, false,
                 carry + g[skip..if stop < skip then skip else stop], CutAfter(g, h, first, last));
      } else {
        NoneLeft(rest, end, levels, top, collapse, false, "", 0);
        NoHits(n, levels, top, collapse);
        FirstHits(c.items, levels);
        assert c.items[1..] == Cut(rest, end, levels, top, collapse, false, "", 0).items;
      }
    }
  }

  lemma NoItems(levels: seq<Level>)
    requires levels != []
    ensures NodesAt([], levels) == []
  {
  }

  lemma FirstHits(items: seq<Item>, levels: seq<Level>)
    requires levels != [] && items != []
    ensures NodesAt(items, levels) == Hits(items[0].node, levels) + NodesAt(items[1..], levels)
  {
  }

  lemma {:induction false} NoHits(n: Node, levels: seq<Level>, top: bool, collapse: bool)
    requires levels != [] && !Goes(n, levels, top, collapse)
    ensures Hits(Stays(n, levels, collapse), levels) == []
    decreases n, 0
  {
    hide Cut, NodesAt, Gone;
    if Enters(levels, n) {
      NoneLeft(n.body.value.items, n.body.value.end, levels[1..], false, collapse, false, "", 0);
    }
  }

  /** Paths neither of which is on the way to the other. */
  predicate Apart(p: seq<Level>, q: seq<Level>) {
    p != [] && q != [] && (Excludes(p[0], q[0]) || Apart(p[1..], q[1..]))
  }

  predicate Excludes(a: Level, b: Level) {
    a.names !! b.names || (a.titled.Some? && b.titled.Some? && a.titled != b.titled)
  }

  /** Every other path leads to the same nodes as before. */
  lemma {:induction false} OthersKept(items: seq<Item>, end: string, p: seq<Level>, q: seq<Level>, top: bool,
                                      collapse: bool, first: bool, carry: string, skip: nat)
    requires Apart(p, q) && skip <= |NextGap(items, end)|
    ensures NodesAt(Cut(items, end, p, top, collapse, first, carry, skip).items, q) == NodesAt(items, q)
    decreases items, 1
  {
    hide CutBefore, CutAfter, Goes, NodesAt, Stays, Hits, Apart;
    assert p != [] && q != [] by { ApartNonempty(p, q); }
    var c := Cut(items, end, p, top, collapse, first, carry, skip);
    if items == [] {
      NoItems(q);
    } else {
      var n, rest := items[0].node, items[1..];
      FirstHits(items, q);
      if Goes(n, p, top, collapse) {
        var last := top && rest == [];
        var g, h := items[0].gap, NextGap(rest, end);
        var stop := CutBefore(g, h, first, last);
        OthersKept(rest, end, p, q, top, collapse, false,
                   carry + g[skip..if stop < skip then skip else stop], CutAfter(g, h, first, last));
        GoneLacks(n, p, q, top, collapse);
      } else {
        OthersKept(rest, end, p, q, top, collapse, false, "", 0);
        StaysHits(n, p, q, top, collapse);
        FirstHits(c.items, q);
        assert c.items[1..] == Cut(rest, end, p, top, collapse, false, "", 0).items;
      }
    }
  }

  lemma ApartNonempty(p: seq<Level>, q: seq<Level>)
    requires Apart(p, q)
    ensures p != [] && q != []
  {
  }

  lemma {:induction false} StaysHits(n: Node, p: seq<Level>, q: seq<Level>, top: bool, collapse: bool)
    requires Apart(p, q) && !Goes(n, p, top, collapse)
    ensures Hits(Stays(n, p, collapse), q) == Hits(n, q)
    decreases n, 0
  {
    hide Cut, NodesAt, Gone;
    if Enters(p, n) && Matches(q[0], n) {
      assert !Excludes(p[0], q[0]);
      OthersKept(n.body.value.items, n.body.value.end, p[1..], q[1..], false, collapse, false, "", 0);
    }
  }

  lemma {:induction false} GoneLacks(n: Node, p: seq<Level>, q: seq<Level>, top: bool, collapse: bool)
    requires Apart(p, q) && Goes(n, p, top, collapse)
    ensures Hits(n, q) == []
    decreases n, 0
  {
    hide Cut, NodesAt, Gone;
    if Matches(q[0], n) {
      assert !Excludes(p[0], q[0]);
      var d := n.body.value;
      OthersKept(d.items, d.end, p[1..], q[1..], false, collapse, false, "", 0);
      GoneIsEmptied(d.items, d.end, p[1..], false, collapse, false, "", 0);
      NoItems(q[1..]);
    }
  }

  /** All of the items go exactly when none are left. */
  lemma {:induction false} GoneIsEmptied(items: seq<Item>, end: string, levels: seq<Level>, top: bool, collapse: bool,
                                         first: bool, carry: string, skip: nat)
    requires levels != [] && skip <= |NextGap(items, end)|
    ensures |Cut(items, end, levels, top, collapse, first, carry, skip).items|
            + Gone(items, levels, top, collapse) == |items|
    decreases items
  {
    hide CutBefore, CutAfter, Goes, Stays;
    if items != [] {
      var n, rest := items[0].node, items[1..];
      if Goes(n, levels, top, collapse) {
        var last := top && rest == [];
        var g, h := items[0].gap, NextGap(rest, end);
        var stop := CutBefore(g, h, first, last);
        GoneIsEmptied(rest, end, levels, top, collapse, false,
                      carry + g[skip..if stop < skip then skip else stop], CutAfter(g, h, first, last));
      } else {
        GoneIsEmptied(rest, end, levels, top, collapse, false, "", 0);
      }
    }
  }

  /** A block on the path goes exactly when it has no arguments, is not at the
      top of the file, and the removal leaves it without the children it had. */
  lemma BlockGoesWhenEmptied(n: Node, levels: seq<Level>, top: bool)
    requires levels != [] && Enters(levels, n)
    ensures Goes(n, levels, top, true) <==>
              !top && n.entries == [] && n.body.value.items != [] && Stays(n, levels, true).body.value.items == []
  {
    hide Gone, Cut;
    var d := n.body.value;
    GoneIsEmptied(d.items, d.end, levels[1..], false, true, false, "", 0);
  }

  function Survivors(items: seq<Item>, levels: seq<Level>, top: bool, collapse: bool): seq<Node>
    requires levels != []
  {
    if items == [] then []
    else (if Goes(items[0].node, levels, top, collapse) then [] else [Stays(items[0].node, levels, collapse)])
         + Survivors(items[1..], levels, top, collapse)
  }

  function Nodes(items: seq<Item>): seq<Node> {
    if items == [] then [] else [items[0].node] + Nodes(items[1..])
  }

  /** The other nodes keep their order, and those the path does not enter
      every byte. */
  lemma {:induction false} SurvivorsKept(items: seq<Item>, end: string, levels: seq<Level>, top: bool, collapse: bool,
                                         first: bool, carry: string, skip: nat)
    requires levels != [] && skip <= |NextGap(items, end)|
    ensures Nodes(Cut(items, end, levels, top, collapse, first, carry, skip).items)
            == Survivors(items, levels, top, collapse)
    decreases items
  {
    hide CutBefore, CutAfter, Goes, Stays;
    if items != [] {
      var n, rest := items[0].node, items[1..];
      if Goes(n, levels, top, collapse) {
        var last := top && rest == [];
        var g, h := items[0].gap, NextGap(rest, end);
        var stop := CutBefore(g, h, first, last);
        SurvivorsKept(rest, end, levels, top, collapse, false,
                      carry + g[skip..if stop < skip then skip else stop], CutAfter(g, h, first, last));
      } else {
        SurvivorsKept(rest, end, levels, top, collapse, false, "", 0);
        var c := Cut(items, end, levels, top, collapse, first, carry, skip);
        assert c.items[1..] == Cut(rest, end, levels, top, collapse, false, "", 0).items;
      }
    }
  }

  // ------------------------------------------------------- nothing to remove

  lemma {:induction false} NothingGoes(items: seq<Item>, levels: seq<Level>, top: bool, collapse: bool)
    requires levels != [] && NodesAt(items, levels) == []
    ensures Gone(items, levels, top, collapse) == 0
    ensures forall i :: 0 <= i < |items| ==> !Goes(items[i].node, levels, top, collapse)
    decreases items
  {
    if items != [] {
      var n := items[0].node;
      NothingGoes(items[1..], levels, top, collapse);
      if Enters(levels, n) {
        NothingGoes(n.body.value.items, levels[1..], false, collapse);
      }
      forall i | 0 <= i < |items| ensures !Goes(items[i].node, levels, top, collapse) {
        if i > 0 {
          assert items[i] == items[1..][i - 1];
        }
      }
    }
  }

  /** Where the path leads nowhere, the tree is left as it is. */
  lemma {:induction false} AbsentKeeps(items: seq<Item>, end: string, levels: seq<Level>, top: bool, collapse: bool,
                                       first: bool)
    requires levels != [] && NodesAt(items, levels) == []
    ensures Cut(items, end, levels, top, collapse, first, "", 0) == Doc(items, end)
    decreases items
  {
    hide CutBefore, CutAfter, Goes, Gone;
    if items != [] {
      var n := items[0].node;
      NothingGoes(items, levels, top, collapse);
      AbsentKeeps(items[1..], end, levels, top, collapse, false);
      assert NodesAt(items, levels) == Hits(n, levels) + NodesAt(items[1..], levels);
      if Enters(levels, n) {
        AbsentKeeps(n.body.value.items, n.body.value.end, levels[1..], false, collapse, false);
      }
      assert "" + items[0].gap[0..] == items[0].gap;
      assert [items[0]] + items[1..] == items;
    }
  }

  /** There are edits exactly when the path leads somewhere. */
  lemma {:induction false} EditsWhenFound(text: string, pos: nat, items: seq<Item>, levels: seq<Level>, top: bool,
                                          collapse: bool)
    requires levels != [] && pos + |ItemsText(items)| <= |text|
    ensures Removals(text, pos, items, levels, top, collapse).1 == [] <==> NodesAt(items, levels) == []
    ensures Removals(text, pos, items, levels, top, collapse).0 > 0 ==> NodesAt(items, levels) != []
    decreases items, 1
  {
    hide NodeRemovals, NodeText, Hits;
    if items != [] {
      var n, s := items[0].node, pos + |items[0].gap|;
      NodeEditsWhenFound(text, s, n, levels, top, collapse);
      EditsWhenFound(text, s + |NodeText(n)|, items[1..], levels, top, collapse);
    }
  }

  lemma {:induction false} NodeEditsWhenFound(text: string, s: nat, n: Node, levels: seq<Level>, top: bool,
                                              collapse: bool)
    requires levels != [] && s + |NodeText(n)| <= |text|
    ensures NodeRemovals(text, s, n, levels, top, collapse).1 == [] <==> Hits(n, levels) == []
    ensures NodeRemovals(text, s, n, levels, top, collapse).0 > 0 ==> Hits(n, levels) != []
    decreases n, 0
  {
    hide Removal, NodeText, ItemsText, NodesAt, Removals;
    if Enters(levels, n) {
      BlockSize(n);
      EditsWhenFound(text, s + BodyAt(n), n.body.value.items, levels[1..], false, collapse);
    }
  }

  // ----------------------------------------------------------- the operation

  /** The recursive walk that collects the removals. */
  method Collect(text: string, start: nat, items: seq<Item>, levels: seq<Level>, top: bool, collapse: bool)
    returns (gone: nat, edits: seq<Edit>)
    requires levels != [] && start + |ItemsText(items)| <= |text|
    ensures (gone, edits) == Removals(text, start, items, levels, top, collapse)
    decreases items
  {
    hide Removal, NodeText, ItemsText, NodeRemovals, Removals;
    gone, edits := 0, [];
    var pos: nat := start;
    assert items[0..] == items && [] + Removals(text, start, items, levels, top, collapse).1
                                  == Removals(text, start, items, levels, top, collapse).1;
    for i := 0 to |items|
      invariant pos + |ItemsText(items[i..])| <= |text|
      invariant Removals(text, start, items, levels, top, collapse)
                == Onto(gone, edits, Removals(text, pos, items[i..], levels, top, collapse))
    {
      var n := items[i].node;
      var s: nat := pos + |items[i].gap|;
      var e: nat := s + |NodeText(n)|;
      ItemsSize(items[i..]);
      assert items[i..][0] == items[i] && items[i..][1..] == items[i + 1..];
      ghost var own := NodeRemovals(text, s, n, levels, top, collapse);
      Regroup(edits, own.1, Removals(text, e, items[i + 1..], levels, top, collapse).1);
      OneMore(text, pos, items[i..], levels, top, collapse);
      if !Matches(levels[0], n) {
        NoneOwn(text, s, n, levels, top, collapse);
        assert edits + [] == edits;
      } else if |levels| == 1 {
        WholeOwn(text, s, n, levels, top, collapse);
        gone, edits := gone + 1, edits + [Removal(text, s, e)];
      } else if n.body.Some? {
        var d := n.body.value;
        BlockSize(n);
        var removed, inner := Collect(text, s + BodyAt(n), d.items, levels[1..], false, collapse);
        BlockOwn(text, s, n, levels, top, collapse, d);
        if collapse && !top && removed > 0 && removed == |d.items| && n.entries == [] {
          gone, edits := gone + 1, edits + [Removal(text, s, e)];
        } else {
          edits := edits + inner;
        }
      } else {
        NoneOwn(text, s, n, levels, top, collapse);
        assert edits + [] == edits;
      }
      pos := e;
    }
    NoMore(text, pos, items[|items|..], levels, top, collapse);
    assert edits + [] == edits;
  }

  lemma NoneOwn(text: string, s: nat, n: Node, levels: seq<Level>, top: bool, collapse: bool)
    requires levels != [] && s + |NodeText(n)| <= |text|
    requires !Matches(levels[0], n) || (|levels| > 1 && n.body == None)
    ensures NodeRemovals(text, s, n, levels, top, collapse) == (0, [])
  {
  }

  lemma NoMore(text: string, pos: nat, items: seq<Item>, levels: seq<Level>, top: bool, collapse: bool)
    requires levels != [] && items == [] && pos + |ItemsText(items)| <= |text|
    ensures Removals(text, pos, items, levels, top, collapse) == (0, [])
  {
  }

  lemma WholeOwn(text: string, s: nat, n: Node, levels: seq<Level>, top: bool, collapse: bool)
    requires |levels| == 1 && s + |NodeText(n)| <= |text| && Matches(levels[0], n)
    ensures NodeRemovals(text, s, n, levels, top, collapse) == (1, [Removal(text, s, s + |NodeText(n)|)])
  {
  }

  lemma BlockOwn(text: string, s: nat, n: Node, levels: seq<Level>, top: bool, collapse: bool, d: Doc)
    requires levels != [] && s + |NodeText(n)| <= |text| && Enters(levels, n) && n.body == Some(d)
    requires s + BodyAt(n) + |ItemsText(d.items)| <= |text|
    ensures var (removed, inner) := Removals(text, s + BodyAt(n), d.items, levels[1..], false, collapse);
            NodeRemovals(text, s, n, levels, top, collapse) ==
            if collapse && !top && removed > 0 && removed == |d.items| && n.entries == []
            then (1, [Removal(text, s, s + |NodeText(n)|)]) else (0, inner)
  {
    hide Removal, NodeText, ItemsText;
  }

  // ------------------------------------------------------ the edits of a file

  /** The edits that remove what the levels lead to. */
  function FileRemovals(text: string, d: Doc, levels: seq<Level>, collapse: bool): seq<Edit>
    requires levels != [] && text == DocText(d)
  {
    Removals(text, 0, d.items, levels, true, collapse).1
  }

  /** The edits of a whole file, kept within the gaps, fit it and leave the text
      of the tree left. */
  lemma FileText(text: string, d: Doc, levels: seq<Level>, collapse: bool)
    requires levels != [] && text == DocText(d) && DocOk(d)
    ensures var edits := GapRemovals(0, d.items, d.end, levels, true, collapse, true);
            Fits(edits, 0, |text|) && Rebuild(text, 0, |text|, edits) == DocText(CutDoc(d, levels, collapse))
  {
    hide NodeText, ItemsText, Rebuild, Cut, Fits, GapRemovals;
    assert text[0..|text|] == text;
    PruneText(text, 0, |text|, d.items, d.end, levels, true, collapse, true, "", 0);
    var edits := GapRemovals(0, d.items, d.end, levels, true, collapse, true);
    assert "" + Rebuild(text, 0, |text|, edits) == Rebuild(text, 0, |text|, edits);
  }

  lemma FileByGaps(text: string, d: Doc, levels: seq<Level>, collapse: bool)
    requires levels != [] && text == DocText(d) && DocOk(d)
    ensures Overtakes(FileRemovals(text, d, levels, collapse),
                      GapRemovals(0, d.items, d.end, levels, true, collapse, true),
                      SafeDoc(d, levels, collapse))
  {
    hide NodeText, ItemsText, GapRemovals, Removals, Safe, Overtakes;
    assert text[0..|text|] == text;
    RemovalsByGaps(text, 0, |text|, d.items, d.end, levels, true, collapse, true);
  }

  /** Making the edits, in whatever order they were collected, gives the text of
      the tree left exactly when the removals are safe; when they are not, more
      than the nodes and their lines goes, or the splice panics. */
  lemma RemovedExactly(text: string, d: Doc, levels: seq<Level>, collapse: bool, edits: seq<Edit>)
    requires levels != [] && text == DocText(d) && DocOk(d)
    requires multiset(edits) == multiset(FileRemovals(text, d, levels, collapse))
    ensures AllMade(text, edits) == Some(DocText(CutDoc(d, levels, collapse))) <==> SafeDoc(d, levels, collapse)
  {
    hide *;
    var all := FileRemovals(text, d, levels, collapse);
    var gaps := GapRemovals(0, d.items, d.end, levels, true, collapse, true);
    FileText(text, d, levels, collapse);
    FileByGaps(text, d, levels, collapse);
    if SafeDoc(d, levels, collapse) {
      assert all == gaps by { SameEdits(all, gaps); }
      MadeIsRebuilt(text, edits, gaps);
    } else {
      assert Taken(edits) > Taken(gaps) by { MoreTaken(all, gaps); TakenPermuted(edits, all); }
      MadeIsRebuilt(text, gaps, gaps);
      AllMadeSize(text, gaps);
      if AllMade(text, edits).Some? {
        AllMadeSize(text, edits);
      }
    }
  }

  lemma SameEdits(es: seq<Edit>, fs: seq<Edit>)
    requires Overtakes(es, fs, true)
    ensures es == fs
  {
  }

  lemma MoreTaken(es: seq<Edit>, fs: seq<Edit>)
    requires Overtakes(es, fs, false)
    ensures Taken(es) > Taken(fs)
  {
  }

  /** What is returned for the text that edits leave: nothing the parser refuses. */
  function Reparse(parser: Parser, out: string): (r: Result<string, EditError>)
    ensures r.Ok? ==> r.value == out && parser(out).Some?
    ensures r.Err? ==> r.error == Parse && parser(out) == None
  {
    if parser(out).Some? then Ok(out) else Err(Parse)
  }

  function Checked(parser: Parser, made: Option<string>): (r: Result<string, EditError>)
    ensures r == Err(Panic) <==> made == None
    ensures r.Ok? ==> made == Some(r.value) && parser(r.value).Some?
  {
    match made
    case None => Err(Panic)
    case Some(out) => Reparse(parser, out)
  }

  // ----------------------------------------------------------- the operations

  /** `remove_value`: every definition of the path goes, and a file without one
      comes back as it was. The result is the text of the tree without them
      only if the removals are safe. */
  method RemoveValue(parser: Parser, text: string, parts: seq<string>) returns (r: Result<string, EditError>)
    requires Reads(parser, text) && parts != []
    ensures r.Ok? ==> parser(r.value).Some?
    ensures "" in parts ==> r == Err(BadPath)
    ensures "" !in parts && parser(text) == None ==> r == Err(Parse)
    ensures "" !in parts && parser(text).Some? ==>
              var d, levels := parser(text).value, PathLevels(parts);
              if NodesAt(d.items, levels) == [] then r == Ok(text)
              else
                && r == Checked(parser, AllMade(text, FileRemovals(text, d, levels, true)))
                && (SafeDoc(d, levels, true) ==> r == Reparse(parser, DocText(CutDoc(d, levels, true))))
                && (r == Ok(DocText(CutDoc(d, levels, true))) ==> SafeDoc(d, levels, true))
  {
    hide NodesAt, Removals, Cut, Safe, AllMade, NodeText, ItemsText;
    if "" in parts {
      return Err(BadPath);
    }
    if parser(text) == None {
      return Err(Parse);
    }
    var d, levels := parser(text).value, PathLevels(parts);
    RemovedExactly(text, d, levels, true, FileRemovals(text, d, levels, true));
    EditsWhenFound(text, 0, d.items, levels, true, true);
    var gone, edits := Collect(text, 0, d.items, levels, true, true);
    if edits == [] {
      return Ok(text);
    }
    var made := SpliceAll(text, edits);
    r := Checked(parser, made);
  }

  /** What a removal leaves is parsed again by the next. */
  ghost predicate ReadsLeft(parser: Parser, text: string, levels: seq<Level>, collapse: bool)
    requires Reads(parser, text) && levels != []
  {
    match parser(text)
    case None => true
    case Some(d) =>
      match AllMade(text, FileRemovals(text, d, levels, collapse))
      case None => true
      case Some(out) => Reads(parser, out)
  }

  /** `remove_value` over a run of two: what the first leaves, the second returns
      byte for byte exactly when the tree read from it has no definition of the
      path; so it does when it is read as the tree that is left. */
  method RemoveTwice(parser: Parser, text: string, parts: seq<string>)
    returns (r: Result<string, EditError>, again: Result<string, EditError>)
    requires Reads(parser, text) && parts != [] && ReadsLeft(parser, text, PathLevels(parts), true)
    ensures r.Err? ==> again == r
    ensures r.Ok? ==>
              && parser(text).Some? && parser(r.value).Some?
              && (again == r <==> NodesAt(parser(r.value).value.items, PathLevels(parts)) == [])
              && (parser(r.value).value == CutDoc(parser(text).value, PathLevels(parts), true) ==> again == r)
  {
    hide NodesAt, Removals, Cut, Safe, AllMade, NodeText, ItemsText, DocText, DocOk, Reads;
    var levels := PathLevels(parts);
    r := RemoveValue(parser, text, parts);
    match r {
      case Err(_) => again := RemoveValue(parser, text, parts);
      case Ok(out) =>
        assert Reads(parser, out);
        again := RemoveValue(parser, out, parts);
        ReadsIt(parser, out);
        if NodesAt(parser(out).value.items, levels) != [] {
          RemovalShrinks(out, parser(out).value, levels);
        }
        NoneLeft(parser(text).value.items, parser(text).value.end, levels, true, true, true, "", 0);
    }
  }

  /** A removal that does something leaves a shorter text. */
  lemma RemovalShrinks(text: string, d: Doc, levels: seq<Level>)
    requires levels != [] && text == DocText(d) && DocOk(d) && NodesAt(d.items, levels) != []
    ensures AllMade(text, FileRemovals(text, d, levels, true)) != Some(text)
  {
    hide *;
    var es := FileRemovals(text, d, levels, true);
    FileBites(text, d, levels);
    TakesSome(es);
    if AllMade(text, es).Some? {
      AllMadeSize(text, es);
    }
  }

  /** Every edit deletes something. */
  ghost predicate Bites(es: seq<Edit>) {
    forall i :: 0 <= i < |es| ==> es[i].start < es[i].stop && es[i].with == ""
  }

  lemma {:induction false} TakesSome(es: seq<Edit>)
    requires Bites(es)
    ensures Taken(es) >= 0 && (es != [] ==> Taken(es) > 0)
  {
    if es != [] {
      TakesSome(es[1..]);
    }
  }

  lemma FileBites(text: string, d: Doc, levels: seq<Level>)
    requires levels != [] && text == DocText(d) && DocOk(d) && NodesAt(d.items, levels) != []
    ensures FileRemovals(text, d, levels, true) != [] && Bites(FileRemovals(text, d, levels, true))
  {
    hide ItemsText, Removals, NodesAt, Bites;
    EditsWhenFound(text, 0, d.items, levels, true, true);
    RemovalsBite(text, 0, d.items, levels, true, true);
  }

  lemma {:induction false} RemovalsBite(text: string, pos: nat, items: seq<Item>, levels: seq<Level>, top: bool,
                                        collapse: bool)
    requires levels != [] && pos + |ItemsText(items)| <= |text| && ItemsOk(items)
    ensures Bites(Removals(text, pos, items, levels, top, collapse).1)
    decreases items, 1
  {
    hide NodeRemovals, NodeText, ItemsText, Removals, NodeOk;
    if items == [] {
      NoMore(text, pos, items, levels, top, collapse);
    } else {
      var n, s := items[0].node, pos + |items[0].gap|;
      OneMore(text, pos, items, levels, top, collapse);
      NodeRemovalsBite(text, s, n, levels, top, collapse);
      RemovalsBite(text, s + |NodeText(n)|, items[1..], levels, top, collapse);
    }
  }

  lemma {:induction false} NodeRemovalsBite(text: string, s: nat, n: Node, levels: seq<Level>, top: bool,
                                            collapse: bool)
    requires levels != [] && s + |NodeText(n)| <= |text| && NodeOk(n)
    ensures Bites(NodeRemovals(text, s, n, levels, top, collapse).1)
    decreases n, 0
  {
    hide NodeText, ItemsText, Removals, Removal, Goes, White;
    NodeCounts(text, s, n, levels, top, collapse);
    NodeEnds(n);
    RemovalSpans(text, s, s + |NodeText(n)|);
    if Enters(levels, n) {
      BlockSize(n);
      RemovalsBite(text, s + BodyAt(n), n.body.value.items, levels[1..], false, collapse);
    }
  }

  lemma RemovalSpans(text: string, s: nat, e: nat)
    requires s < e <= |text|
    ensures var r := Removal(text, s, e); r.start < r.stop && r.with == ""
  {
    hide LineStart, LineStop, TailIsTrivial, TrimBlanks, White;
  }

  /** Every `kind "name"` block inside a top-level `parent` block. */
  function BlockLevels(parent: string, kind: string, name: string): seq<Level> {
    [Level({parent}, None), Level({kind}, Some(name))]
  }

  /** `remove_block`: every block of that name goes; an emptied `parent` stays. */
  method RemoveBlock(parser: Parser, text: string, parent: string, kind: string, name: string)
    returns (r: Result<string, EditError>)
    requires Reads(parser, text)
    ensures r.Ok? ==> parser(r.value).Some?
    ensures parser(text) == None ==> r == Err(Parse)
    ensures parser(text).Some? ==>
              var d, levels := parser(text).value, BlockLevels(parent, kind, name);
              if NodesAt(d.items, levels) == [] then r == Err(NotFound)
              else
                && r == Checked(parser, AllMade(text, FileRemovals(text, d, levels, false)))
                && (SafeDoc(d, levels, false) ==> r == Reparse(parser, DocText(CutDoc(d, levels, false))))
                && (r == Ok(DocText(CutDoc(d, levels, false))) ==> SafeDoc(d, levels, false))
  {
    hide NodesAt, Removals, Cut, Safe, AllMade, NodeText, ItemsText;
    if parser(text) == None {
      return Err(Parse);
    }
    var d, levels := parser(text).value, BlockLevels(parent, kind, name);
    RemovedExactly(text, d, levels, false, FileRemovals(text, d, levels, false));
    EditsWhenFound(text, 0, d.items, levels, true, false);
    var gone, edits := Collect(text, 0, d.items, levels, true, false);
    if edits == [] {
      return Err(NotFound);
    }
    var made := SpliceAll(text, edits);
    r := Checked(parser, made);
  }
}
