/** `move_block`: a block taken out and put back at a place counted among the
    distinct names. */
module MoveBlock {
  import opened Options
  import opened Kdl
  import opened Splice
  import opened Prune
  import opened Remove
  import opened SetTree
  import opened SetText
  import opened Effect
  import opened BlockTree
  import opened BlockText
  import opened BlockInsert
  import opened BlockNames
  import opened BlockRest
  import opened NamedBlocks

  /** Where each name first appears. */
  method Firsts(bs: seq<Node>) returns (at: seq<nat>)
    ensures |at| == |Keys(bs)| && forall i :: 0 <= i < |at| ==> at[i] == FirstAt(bs, i)
  {
    hide Title;
    at := [];
    for n := 0 to |bs|
      invariant |at| == |Keys(bs[..n])| && forall i :: 0 <= i < |at| ==> at[i] == FirstAt(bs[..n], i)
    {
      assert bs[..n + 1][..n] == bs[..n];
      if Title(bs[n].entries) !in Keys(bs[..n]) {
        at := at + [n];
      }
    }
    assert bs[..|bs|] == bs;
  }

  function IndentAt(text: string, d: Doc, l: seq<Level>, k: nat): string
    requires l != [] && k < |NodesAt(d.items, l)| && text == DocText(d)
  {
    HitWithin(text, d, l, k);
    LeadingIndent(text, HitAt(0, d.items, l, k))
  }

  lemma HitWithin(text: string, d: Doc, l: seq<Level>, k: nat)
    requires l != [] && k < |NodesAt(d.items, l)| && text == DocText(d)
    ensures var s, n := HitAt(0, d.items, l, k), NodesAt(d.items, l)[k];
            s + |NodeText(n)| <= |text| && text[s..s + |NodeText(n)|] == NodeText(n)
  {
    assert text[0..|text|] == text;
    HitSits(text, 0, |text|, d.items, d.end, l, k);
  }

  /** The file with `m` before the block that brings name `index`, or after the
      one that brings the last; `None` where there is none. */
  function Placed(text: string, d: Doc, b: seq<Level>, m: Node, index: nat): Option<Doc>
    requires b != [] && text == DocText(d)
  {
    var bs := NodesAt(d.items, b);
    if index < |Keys(bs)| then
      var k := FirstAt(bs, index);
      Some(Doc(InsertBefore(d.items, b, k, m, IndentAt(text, d, b, k)), d.end))
    else if bs == [] then None
    else
      KeysNonempty(bs);
      var k := FirstAt(bs, |Keys(bs)| - 1);
      Some(InsertAfter(d.items, d.end, b, k, m, IndentAt(text, d, b, k), true))
  }

  lemma KeysNonempty(bs: seq<Node>)
    ensures Keys(bs) == [] <==> bs == []
  {
    KeysDistinct(bs);
    if bs != [] {
      assert Title(bs[0].entries) in Keys(bs);
    }
  }

  /** The text with `m` put back, as the edit is made. */
  function PutBackText(rest: string, d: Doc, b: seq<Level>, m: string, index: nat): Option<string>
    requires b != [] && rest == DocText(d)
  {
    var bs := NodesAt(d.items, b);
    if index < |Keys(bs)| then
      var k := FirstAt(bs, index);
      HitWithin(rest, d, b, k);
      var s := HitAt(0, d.items, b, k);
      Some(Replace(rest, Edit(s, s, m + "\n" + LeadingIndent(rest, s))))
    else if bs == [] then None
    else
      KeysNonempty(bs);
      var k := FirstAt(bs, |Keys(bs)| - 1);
      HitWithin(rest, d, b, k);
      var s := HitAt(0, d.items, b, k);
      Some(Replace(rest, InsertAfterEdit(rest, s, s + |NodeText(bs[k])|, m)))
  }

  /** Put in front of a block, or behind one with no exposed gap after it. */
  predicate PlaceClear(d: Doc, b: seq<Level>, index: nat)
    requires b != []
  {
    var bs := NodesAt(d.items, b);
    index < |Keys(bs)| || bs == [] ||
      (KeysNonempty(bs); ClearAfter(d.items, d.end, b, FirstAt(bs, |Keys(bs)| - 1), true))
  }

  /** Then, and only then, that is the text of the tree with `m` put back. */
  lemma PutBackExactly(rest: string, d: Doc, b: seq<Level>, m: Node, index: nat)
    requires b != [] && rest == DocText(d) && DocOk(d)
    ensures PutBackText(rest, d, b, NodeText(m), index) == None <==> Placed(rest, d, b, m, index) == None
    ensures Placed(rest, d, b, m, index).Some? ==>
              (PutBackText(rest, d, b, NodeText(m), index) == Some(DocText(Placed(rest, d, b, m, index).value))
               <==> PlaceClear(d, b, index))
  {
    hide NodesAt, NodeText, ItemsText, InsertBefore, InsertAfter, HitAt, Keys, FirstAt, DocOk, LeadingIndent, Leaves,
      InsertAfterEdit, DocText, ClearAfter, Meets, Astray;
    var bs := NodesAt(d.items, b);
    KeysNonempty(bs);
    WholeSits(rest, d);
    if index < |Keys(bs)| {
      var k := FirstAt(bs, index);
      HitWithin(rest, d, b, k);
      var s := HitAt(0, d.items, b, k);
      var e := Edit(s, s, NodeText(m) + "\n" + LeadingIndent(rest, s));
      BeforeText(rest, 0, |rest|, d.items, d.end, b, k, m, LeadingIndent(rest, s), e);
      LeavesWhole(rest, e, Doc(InsertBefore(d.items, b, k, m, LeadingIndent(rest, s)), d.end));
    } else if bs != [] {
      var k := FirstAt(bs, |Keys(bs)| - 1);
      HitWithin(rest, d, b, k);
      var s := HitAt(0, d.items, b, k);
      var e := InsertAfterEdit(rest, s, s + |NodeText(bs[k])|, NodeText(m));
      var g := AfterText(rest, 0, |rest|, d.items, d.end, b, k, m, LeadingIndent(rest, s), true, true, e);
      MeetsExactly(rest, e, g, ClearAfter(d.items, d.end, b, k, true),
                   InsertAfter(d.items, d.end, b, k, m, LeadingIndent(rest, s), true));
    }
  }

  /** Putting it back, from the text without it. */
  method PutBack(parser: Parser, rest: string, d: Doc, b: seq<Level>, m: string, index: nat)
    returns (r: Result<string, EditError>)
    requires b != [] && rest == DocText(d)
    ensures r == match PutBackText(rest, d, b, m, index) case None => Err(NotFound)
            case Some(out) => Reparse(parser, out)
  {
    hide NodesAt, NodeText, ItemsText, HitAt, Keys, FirstAt, LeadingIndent, InsertAfterEdit;
    var bs := NodesAt(d.items, b);
    var firsts := Firsts(bs);
    KeysNonempty(bs);
    if index < |firsts| {
      var k := firsts[index];
      HitWithin(rest, d, b, k);
      var s := HitAt(0, d.items, b, k);
      r := Reparse(parser, Replace(rest, Edit(s, s, m + "\n" + LeadingIndent(rest, s))));
    } else if firsts == [] {
      r := Err(NotFound);
    } else {
      var k := firsts[|firsts| - 1];
      HitWithin(rest, d, b, k);
      var s := HitAt(0, d.items, b, k);
      r := Reparse(parser, Replace(rest, InsertAfterEdit(rest, s, s + |NodeText(bs[k])|, m)));
    }
  }

  /** The text without the blocks of the name, which is parsed again. */
  ghost predicate ReadsRest(parser: Parser, text: string, d: Doc, l: seq<Level>)
    requires l != [] && text == DocText(d)
  {
    match AllMade(text, FileRemovals(text, d, l, false))
    case None => true
    case Some(rest) => Reads(parser, rest)
  }

  /** `move_block`, as the edits are made. */
  function Moved(parser: Parser, text: string, d: Doc, parent: string, kind: string, name: string, index: nat)
    : Result<string, EditError>
    requires text == DocText(d) && ReadsRest(parser, text, d, BlockLevels(parent, kind, name))
  {
    var b, l := KindLevels(parent, kind), BlockLevels(parent, kind, name);
    var names, found := Names(NodesAt(d.items, b)), NodesAt(d.items, l);
    if name !in names || found == [] then Err(NotFound)
    else if index >= |names| then Err(Index(index, |names|))
    else if names[index] == name && |found| == 1 then Ok(text)
    else
      var rest := Checked(parser, AllMade(text, FileRemovals(text, d, l, false)));
      if rest.Err? then rest
      else
        match PutBackText(rest.value, parser(rest.value).value, b, NodeText(LastOf(found)), index)
        case None => Err(NotFound)
        case Some(out) => Reparse(parser, out)
  }

  /** `move_block`, as the file's tree is changed. */
  function Outcome(parser: Parser, text: string, d: Doc, parent: string, kind: string, name: string, index: nat)
    : Result<string, EditError>
    requires Reads(parser, DocText(CutDoc(d, BlockLevels(parent, kind, name), false)))
  {
    var b, l := KindLevels(parent, kind), BlockLevels(parent, kind, name);
    var names, found := Names(NodesAt(d.items, b)), NodesAt(d.items, l);
    var rest := DocText(CutDoc(d, l, false));
    if name !in names || found == [] then Err(NotFound)
    else if index >= |names| then Err(Index(index, |names|))
    else if names[index] == name && |found| == 1 then Ok(text)
    else if parser(rest) == None then Err(Parse)
    else
      match Placed(rest, parser(rest).value, b, LastOf(found), index)
      case None => Err(NotFound)
      case Some(q) => Reparse(parser, DocText(q))
  }

  /** The edits change the text as the tree is changed, where the removals are
      safe and the place the block is put back at is clear. */
  lemma MovedIs(parser: Parser, text: string, d: Doc, parent: string, kind: string, name: string, index: nat)
    requires text == DocText(d) && DocOk(d) && ReadsRest(parser, text, d, BlockLevels(parent, kind, name))
    requires SafeDoc(d, BlockLevels(parent, kind, name), false)
    requires var rest := DocText(CutDoc(d, BlockLevels(parent, kind, name), false));
             parser(rest).Some? ==> PlaceClear(parser(rest).value, KindLevels(parent, kind), index)
    ensures Reads(parser, DocText(CutDoc(d, BlockLevels(parent, kind, name), false)))
    ensures Moved(parser, text, d, parent, kind, name, index) == Outcome(parser, text, d, parent, kind, name, index)
  {
    hide NodesAt, Placed, PutBackText, Cut, Names, DocText, DocOk, Safe, AllMade, Removals, PlaceClear, NodeText;
    var b, l := KindLevels(parent, kind), BlockLevels(parent, kind, name);
    RemovedExactly(text, d, l, false, FileRemovals(text, d, l, false));
    var rest := DocText(CutDoc(d, l, false));
    if parser(rest).Some? && NodesAt(d.items, l) != [] {
      PutBackExactly(rest, parser(rest).value, b, LastOf(NodesAt(d.items, l)), index);
    }
  }

  /** The block is there, and not at its place already. */
  predicate Moves(d: Doc, parent: string, kind: string, name: string, index: nat) {
    var names := Names(NodesAt(d.items, KindLevels(parent, kind)));
    var found := NodesAt(d.items, BlockLevels(parent, kind, name));
    name in names && found != [] && index < |names| && !(names[index] == name && |found| == 1)
  }

  /** What a move comes to, both ways: what is left is the text of the tree
      without the block exactly when the removals are safe, and putting the block
      back then gives the text of the tree with it exactly when the place is
      clear in the tree that was read. */
  ghost predicate MovedBothWays(parser: Parser, text: string, d: Doc, parent: string, kind: string, name: string,
                                index: nat, r: Result<string, EditError>)
    requires text == DocText(d) && Moves(d, parent, kind, name, index)
    requires ReadsRest(parser, text, d, BlockLevels(parent, kind, name))
  {
    var b, l := KindLevels(parent, kind), BlockLevels(parent, kind, name);
    var q := CutDoc(d, l, false);
    match AllMade(text, FileRemovals(text, d, l, false))
    case None => r == Err(Panic) && !SafeDoc(d, l, false)
    case Some(rest) =>
      && (rest == DocText(q) <==> SafeDoc(d, l, false))
      && (parser(rest) == Some(q) ==> SafeDoc(d, l, false))
      && match parser(rest)
         case None => r == Err(Parse)
         case Some(left) =>
           match Placed(rest, left, b, LastOf(NodesAt(d.items, l)), index)
           case None => r == Err(NotFound)
           case Some(back) =>
             && (PlaceClear(left, b, index) ==> r == Reparse(parser, DocText(back)))
             && (r == Ok(DocText(back)) ==> PlaceClear(left, b, index))
  }

  lemma MovedExactly(parser: Parser, text: string, d: Doc, parent: string, kind: string, name: string, index: nat)
    requires text == DocText(d) && DocOk(d) && Moves(d, parent, kind, name, index)
    requires ReadsRest(parser, text, d, BlockLevels(parent, kind, name))
    ensures MovedBothWays(parser, text, d, parent, kind, name, index,
                          Moved(parser, text, d, parent, kind, name, index))
  {
    hide NodesAt, Placed, PutBackText, Cut, Names, DocText, DocOk, Safe, AllMade, Removals, PlaceClear, NodeText;
    var b, l := KindLevels(parent, kind), BlockLevels(parent, kind, name);
    var made := AllMade(text, FileRemovals(text, d, l, false));
    RemovedExactly(text, d, l, false, FileRemovals(text, d, l, false));
    if made.Some? && parser(made.value).Some? {
      ReadsIt(parser, made.value);
      PutBackExactly(made.value, parser(made.value).value, b, LastOf(NodesAt(d.items, l)), index);
    }
  }

  lemma WhenMovedIs(parser: Parser, text: string, d: Doc, parent: string, kind: string, name: string, index: nat)
    requires text == DocText(d) && DocOk(d) && ReadsRest(parser, text, d, BlockLevels(parent, kind, name))
    ensures SafeDoc(d, BlockLevels(parent, kind, name), false) ==>
              var rest := DocText(CutDoc(d, BlockLevels(parent, kind, name), false));
              && Reads(parser, rest)
              && (parser(rest) == None || PlaceClear(parser(rest).value, KindLevels(parent, kind), index) ==>
                    Moved(parser, text, d, parent, kind, name, index)
                      == Outcome(parser, text, d, parent, kind, name, index))
  {
    hide Safe, Moved, Outcome, PlaceClear, AllMade, Removals, Cut, DocText, DocOk;
    if SafeDoc(d, BlockLevels(parent, kind, name), false) {
      RemovedExactly(text, d, BlockLevels(parent, kind, name), false,
                     FileRemovals(text, d, BlockLevels(parent, kind, name), false));
      var rest := DocText(CutDoc(d, BlockLevels(parent, kind, name), false));
      if parser(rest) == None || PlaceClear(parser(rest).value, KindLevels(parent, kind), index) {
        MovedIs(parser, text, d, parent, kind, name, index);
      }
    }
  }

  lemma WhenMoves(parser: Parser, text: string, d: Doc, parent: string, kind: string, name: string, index: nat)
    requires text == DocText(d) && DocOk(d) && ReadsRest(parser, text, d, BlockLevels(parent, kind, name))
    ensures Moves(d, parent, kind, name, index) ==>
              MovedBothWays(parser, text, d, parent, kind, name, index,
                            Moved(parser, text, d, parent, kind, name, index))
  {
    hide *;
    if Moves(d, parent, kind, name, index) {
      MovedExactly(parser, text, d, parent, kind, name, index);
    }
  }

  /** `move_block` */
  method MoveBlock(parser: Parser, text: string, parent: string, kind: string, name: string, index: nat)
    returns (r: Result<string, EditError>)
    requires Reads(parser, text)
    requires parser(text).Some? ==> ReadsRest(parser, text, parser(text).value, BlockLevels(parent, kind, name))
    ensures r.Ok? ==> parser(r.value).Some?
    ensures r == match parser(text) case None => Err(Parse)
            case Some(d) => Moved(parser, text, d, parent, kind, name, index)
    ensures parser(text).Some? && SafeDoc(parser(text).value, BlockLevels(parent, kind, name), false) ==>
              var d := parser(text).value;
              var rest := DocText(CutDoc(d, BlockLevels(parent, kind, name), false));
              && Reads(parser, rest)
              && (parser(rest) == None || PlaceClear(parser(rest).value, KindLevels(parent, kind), index) ==>
                    r == Outcome(parser, text, d, parent, kind, name, index))
    ensures parser(text).Some? && Moves(parser(text).value, parent, kind, name, index) ==>
              MovedBothWays(parser, text, parser(text).value, parent, kind, name, index, r)
  {
    hide NodesAt, PutBackText, Names, DocOk, AllMade, Removals, Safe, Cut, ItemsText, Outcome, PlaceClear,
      MovedBothWays;
    if parser(text) == None {
      return Err(Parse);
    }
    var d := parser(text).value;
    WhenMovedIs(parser, text, d, parent, kind, name, index);
    WhenMoves(parser, text, d, parent, kind, name, index);
    var b, l := KindLevels(parent, kind), BlockLevels(parent, kind, name);
    var names := Names(NodesAt(d.items, b));
    if name !in names {
      return Err(NotFound);
    }
    var found := NodesAt(d.items, l);
    NamedIsFound(d.items, parent, kind, name);
    if index >= |names| {
      return Err(Index(index, |names|));
    }
    if names[index] == name && |found| == 1 {
      return Ok(text);
    }
    var rest := RemoveBlock(parser, text, parent, kind, name);
    if rest.Err? {
      return rest;
    }
    r := PutBack(parser, rest.value, parser(rest.value).value, b, NodeText(LastOf(found)), index);
  }

  /** A name is listed exactly when there is a block of it. */
  lemma NamedIsFound(items: seq<Item>, parent: string, kind: string, name: string)
    ensures name in Names(NodesAt(items, KindLevels(parent, kind))) <==>
            NodesAt(items, BlockLevels(parent, kind, name)) != []
  {
    hide NodesAt, Keys, Somes, Title, Wanted;
    var b, l := KindLevels(parent, kind), BlockLevels(parent, kind, name);
    var bs := NodesAt(items, b);
    KindWidens(parent, kind, name);
    WantedNodes(items, l, b);
    KindNamed(items, parent, kind);
    KeysDistinct(bs);
    SomesDistinct(Keys(bs));
    WantedWhen(bs, Last(l));
  }

  lemma {:induction false} WantedWhen(bs: seq<Node>, l: Level)
    ensures Wanted(bs, l) != [] <==> exists i :: 0 <= i < |bs| && Matches(l, bs[i])
  {
    hide Matches;
    if bs != [] {
      WantedWhen(bs[1..], l);
      assert forall i :: 0 <= i < |bs| - 1 ==> bs[1..][i] == bs[i + 1];
    }
  }

  /** The list after a move, where the parser reads the text without the block
      for what it is: the other blocks in their order and byte for byte, and one
      copy of the one moved. Among the distinct names it stands at `index`,
      unless a block without a name comes before the place: then it stands one
      place too early. */
  lemma MoveLands(text: string, d: Doc, parent: string, kind: string, name: string, index: nat, rest: string)
    requires var b, l := KindLevels(parent, kind), BlockLevels(parent, kind, name);
             && NodesAt(d.items, l) != [] && index < |Names(NodesAt(d.items, b))| &&
               rest == DocText(CutDoc(d, l, false))
    ensures var b, l := KindLevels(parent, kind), BlockLevels(parent, kind, name);
            var q, m := CutDoc(d, l, false), LastOf(NodesAt(d.items, l));
            var others := NodesAt(q.items, b);
            var moved := Placed(rest, q, b, m, index);
            && others == Others(NodesAt(d.items, b), Level({kind}, Some(name)))
            && (moved == None <==> others == [])
            && (moved.Some? ==>
                  var after := NodesAt(moved.value.items, b);
                  && (exists j :: 0 <= j <= |others| && after == others[..j] + [m] + others[j..])
                  && var at := index - if UntitledBefore(others, index) then 1 else 0;
                  var left := Drop(Names(NodesAt(d.items, b)), name);
                  && 0 <= at <= |left| && Names(after) == left[..at] + [name] + left[at..])
  {
    hide NodesAt, Cut, Names, Keys, Title, Placed, Others, UntitledBefore, InsertBefore, InsertAfter, LeadingIndent,
      Wanted, DocText;
    var b, l := KindLevels(parent, kind), BlockLevels(parent, kind, name);
    var q, m := CutDoc(d, l, false), LastOf(NodesAt(d.items, l));
    var all, others := NodesAt(d.items, b), NodesAt(q.items, b);
    KindWidens(parent, kind, name);
    CutLeavesOthers(d.items, d.end, l, b, true, true, "", 0);
    KindNamed(d.items, parent, kind);
    HitsMatch(d.items, parent, kind, name);
    TitleMatches(all, kind, name);
    RemovedNames(all, Last(l), name);
    NoneOfName(all, Last(l), name);
    NamedIsFound(d.items, parent, kind, name);
    PlacedIn(others, name, |Drop(Names(all), name)|, Names(all), index);
    LandsAt(rest, q, b, m, name, index);
  }

  lemma TitleMatches(bs: seq<Node>, kind: string, name: string)
    requires forall i :: 0 <= i < |bs| ==> bs[i].name == kind
    ensures forall i :: 0 <= i < |bs| ==>
            (Matches(Level({kind}, Some(name)), bs[i]) <==> Title(bs[i].entries) == Some(name))
  {
    hide Title;
  }

  lemma {:induction false} NoneOfName(bs: seq<Node>, l: Level, name: string)
    requires forall i :: 0 <= i < |bs| ==> (Matches(l, bs[i]) <==> Title(bs[i].entries) == Some(name))
    ensures forall i :: 0 <= i < |Others(bs, l)| ==> Title(Others(bs, l)[i].entries) != Some(name)
  {
    hide Title, Matches;
    if bs != [] {
      assert forall i :: 0 <= i < |bs| - 1 ==> bs[1..][i] == bs[i + 1];
      NoneOfName(bs[1..], l, name);
    }
  }

  /** A place among the names is no further than the end of the others'. */
  lemma PlacedIn(others: seq<Node>, name: string, left: nat, names: seq<string>, index: nat)
    requires Names(others) == Drop(names, name) && left == |Drop(names, name)| && name in names && index < |names|
    requires exists bs: seq<Node> :: names == Names(bs)
    ensures index <= |Names(others)| <= |Keys(others)|
    ensures index == |Keys(others)| ==> None !in Keys(others)
  {
    hide Keys;
    var bs: seq<Node> :| names == Names(bs);
    KeysDistinct(bs);
    SomesDistinct(Keys(bs));
    DropOne(names, name);
    KeysDistinct(others);
    SomesSize(Keys(others));
  }

  lemma {:induction false} DropOne(s: seq<string>, x: string)
    requires Distinct(s) && x in s
    ensures |Drop(s, x)| == |s| - 1
  {
    var rest := s[1..];
    assert forall i, j :: 0 <= i < j < |rest| ==> rest[i] == s[i + 1] && rest[j] == s[j + 1];
    assert s == [s[0]] + rest;
    if s[0] == x {
      forall i | 0 <= i < |rest| ensures rest[i] != x {
        assert rest[i] == s[i + 1];
      }
      DropNone(rest, x);
    } else {
      DropOne(rest, x);
    }
  }

  lemma {:induction false} DropNone(s: seq<string>, x: string)
    requires x !in s
    ensures Drop(s, x) == s
  {
    if s != [] {
      assert s == [s[0]] + s[1..];
      DropNone(s[1..], x);
    }
  }

  /** Where the block lands in a list without its name. */
  lemma {:induction false} LandsAt(rest: string, q: Doc, b: seq<Level>, m: Node, name: string, index: nat)
    requires b != [] && rest == DocText(q) && Matches(b[|b| - 1], m) && Title(m.entries) == Some(name)
    requires forall i :: 0 <= i < |NodesAt(q.items, b)| ==> Title(NodesAt(q.items, b)[i].entries) != Some(name)
    requires index <= |Keys(NodesAt(q.items, b))|
    requires index == |Keys(NodesAt(q.items, b))| ==> None !in Keys(NodesAt(q.items, b))
    ensures var others, moved := NodesAt(q.items, b), Placed(rest, q, b, m, index);
            && (moved == None <==> others == [])
            && (moved.Some? ==>
                  var after := NodesAt(moved.value.items, b);
                  && (exists j :: 0 <= j <= |others| && after == others[..j] + [m] + others[j..])
                  && var at := index - if UntitledBefore(others, index) then 1 else 0;
                  0 <= at <= |Names(others)| && Names(after) == Names(others)[..at] + [name] + Names(others)[at..])
  {
    hide NodesAt, Names, Keys, Title, FirstAt, UntitledBefore, InsertBefore, InsertAfter, IndentAt, Matches, DocText;
    var others := NodesAt(q.items, b);
    KeysNonempty(others);
    if index < |Keys(others)| {
      var k := FirstAt(others, index);
      BeforeList(q.items, b, k, m, IndentAt(rest, q, b, k));
      InsertedNames(others, k, m, name, index);
    } else if others != [] {
      var k := FirstAt(others, |Keys(others)| - 1);
      AfterList(q.items, q.end, b, k, m, IndentAt(rest, q, b, k), true);
      LastKey(others);
      InsertedNames(others, k + 1, m, name, index);
    }
  }

  /** Every path apart from the blocks of the kind leads where it did. */
  lemma MoveKeepsRest(d: Doc, parent: string, kind: string, name: string, index: nat, rest: string, q: seq<Level>)
    requires NodesAt(d.items, BlockLevels(parent, kind, name)) != [] && Apart(KindLevels(parent, kind), q) && q != []
    requires rest == DocText(CutDoc(d, BlockLevels(parent, kind, name), false))
    ensures var b, l := KindLevels(parent, kind), BlockLevels(parent, kind, name);
            var moved := Placed(rest, CutDoc(d, l, false), b, LastOf(NodesAt(d.items, l)), index);
            moved.Some? ==> NodesAt(moved.value.items, q) == NodesAt(d.items, q)
  {
    hide NodesAt, Cut, Keys, FirstAt, InsertBefore, InsertAfter, LeadingIndent, DocText, Apart, Widens, HitAt, Title;
    var b, l := KindLevels(parent, kind), BlockLevels(parent, kind, name);
    var c, m := CutDoc(d, l, false), LastOf(NodesAt(d.items, l));
    KindWidens(parent, kind, name);
    ApartWidens(l, b, q);
    OthersKept(d.items, d.end, l, q, true, false, true, "", 0);
    HitsMatch(d.items, parent, kind, name);
    var bs := NodesAt(c.items, b);
    KeysNonempty(bs);
    if index < |Keys(bs)| {
      var k := FirstAt(bs, index);
      BeforeRest(c.items, b, k, m, IndentAt(rest, c, b, k), q);
    } else if bs != [] {
      var k := FirstAt(bs, |Keys(bs)| - 1);
      AfterRest(c.items, c.end, b, k, m, IndentAt(rest, c, b, k), true, q);
    }
  }

  // ------------------------------------------------------- a file it gets wrong

  function Untitled(): Node {
    Node("widget", "widget", [], "", None)
  }

  function Titled(name: string): Node {
    Node("widget", "widget", [Entry(" ", None, "\"" + name + "\"", Some(name))], "", None)
  }

  /** `bar { widget; widget "a"; widget "b" }` */
  function ThreeWidgets(): Doc {
    Bar([Item(" ", Untitled()), Item("; ", Titled("a")), Item("; ", Titled("b"))])
  }

  function Bar(widgets: seq<Item>): Doc {
    Doc([Item("", Node("bar", "bar", [], " ", Some(Doc(widgets, " "))))], "")
  }

  lemma WidgetTexts()
    ensures NodeText(Untitled()) == "widget"
    ensures NodeText(Titled("a")) == "widget \"a\"" && NodeText(Titled("b")) == "widget \"b\""
  {
    assert EntriesText([]) == "";
    TitledText("a");
    TitledText("b");
  }

  lemma TitledText(name: string)
    ensures NodeText(Titled(name)) == "widget" + (" " + ("\"" + name + "\""))
  {
    var es := Titled(name).entries;
    assert es[1..] == [];
    assert EntriesText(es) == EntryText(es[0]) + EntriesText([]);
    assert EntriesText([]) == "";
  }

  lemma BarText(widgets: seq<Item>)
    ensures DocText(Bar(widgets)) == "bar {" + ItemsText(widgets) + " }"
  {
    hide ItemsText;
    var n := Bar(widgets).items[0].node;
    assert EntriesText([]) == "";
    assert NodeText(n) == "bar" + "" + " " + "{" + (ItemsText(widgets) + " ") + "}";
    OneText(Bar(widgets).items[0]);
    assert "bar" + "" + " " + "{" == "bar {";
    assert "bar {" + (ItemsText(widgets) + " ") + "}" == "bar {" + ItemsText(widgets) + " }";
  }

  lemma {:induction false} BarBlocks(widgets: seq<Item>)
    requires forall i :: 0 <= i < |widgets| ==> widgets[i].node.name == "widget"
    ensures NodesAt(Bar(widgets).items, KindLevels("bar", "widget")) == Nodes(widgets)
  {
    var b := KindLevels("bar", "widget");
    assert b[1..] == [Level({"widget"}, None)];
    OneNode(Bar(widgets).items[0], b);
    AllWidgets(widgets);
  }

  lemma {:induction false} AllWidgets(widgets: seq<Item>)
    requires forall i :: 0 <= i < |widgets| ==> widgets[i].node.name == "widget"
    ensures NodesAt(widgets, [Level({"widget"}, None)]) == Nodes(widgets)
  {
    if widgets != [] {
      assert forall i :: 0 <= i < |widgets| - 1 ==> widgets[1..][i] == widgets[i + 1];
      AllWidgets(widgets[1..]);
    }
  }

  function WithoutA(): Doc {
    Bar([Item(" ", Untitled()), Item(";  ", Titled("b"))])
  }

  lemma CutA()
    ensures CutDoc(ThreeWidgets(), BlockLevels("bar", "widget", "a"), false) == WithoutA()
    ensures SafeDoc(ThreeWidgets(), BlockLevels("bar", "widget", "a"), false)
  {
    hide NodeText, ItemsText, Cut, Safe;
    var l, d := BlockLevels("bar", "widget", "a"), ThreeWidgets();
    var w := d.items[0].node.body.value.items;
    assert l[1..] == [Level({"widget"}, Some("a"))];
    CutInner(w, l[1..]);
    StaysDoc(d.items, d.end, l, true, true, "", 0);
    FirstSafe(d.items, d.end, l, true, false, true);
    NothingCut(l, true);
    assert "" + d.items[0].gap[0..] == "";
  }

  lemma CutInner(w: seq<Item>, l: seq<Level>)
    requires w == ThreeWidgets().items[0].node.body.value.items && l == [Level({"widget"}, Some("a"))]
    ensures Cut(w, " ", l, false, false, false, "", 0) == WithoutA().items[0].node.body.value
    ensures Safe(w, " ", l, false, false, false)
  {
    hide NodeText, ItemsText, Cut, Safe, CutBefore, CutAfter, Fine;
    var ab, b := [w[1], w[2]], [w[2]];
    assert w[1..] == ab && ab[1..] == b && b[1..] == [];
    assert "a"[0] != "b"[0];
    InlineGap();
    NothingCut(l, false);
    StaysDoc(w, " ", l, false, false, "", 0);
    GoesCut(ab, " ", l, false, false, false, false, "", 0);
    StaysDoc(b, " ", l, false, false, "; ", 1);
    FirstSafe(w, " ", l, false, false, false);
    FirstSafe(ab, " ", l, false, false, false);
    FirstSafe(b, " ", l, false, false, false);
    assert "" + "; "[0..2] == "; " && "; " + "; "[1..] == ";  " && "" + " "[0..] == " ";
  }

  lemma NothingCut(l: seq<Level>, top: bool)
    requires l != []
    ensures forall end: string :: Cut([], end, l, top, false, false, "", 0) == Doc([], end)
    ensures forall end: string :: Safe([], end, l, top, false, false)
  {
    assert forall end: string :: "" + end[0..] == end;
  }

  lemma StaysDoc(items: seq<Item>, end: string, l: seq<Level>, top: bool, first: bool, carry: string, skip: nat)
    requires l != [] && items != [] && !Goes(items[0].node, l, top, false) && skip <= |items[0].gap|
    ensures var rest := Cut(items[1..], end, l, top, false, false, "", 0);
            Cut(items, end, l, top, false, first, carry, skip)
            == Doc([Item(carry + items[0].gap[skip..], Stays(items[0].node, l, false))] + rest.items, rest.end)
  {
    hide Goes, Stays, CutBefore, CutAfter;
  }

  lemma InlineGap()
    ensures CutBefore("; ", "; ", false, false) == 2 && CutAfter("; ", "; ", false, false) == 1
    ensures Fine("; ", "; ", false, false)
  {
    assert TrimBlanks("; ") == "; ";
  }

  lemma WidgetNames()
    ensures Nodes(ThreeWidgets().items[0].node.body.value.items) == [Untitled(), Titled("a"), Titled("b")]
    ensures Names([Untitled(), Titled("a"), Titled("b")]) == ["a", "b"]
    ensures Keys([Untitled(), Titled("b")]) == [None, Some("b")] && FirstAt([Untitled(), Titled("b")], 1) == 1
  {
    var u, a, b := Untitled(), Titled("a"), Titled("b");
    assert Title(u.entries) == None && Title(a.entries) == Some("a") && Title(b.entries) == Some("b");
    KeyList([u, b]);
    ThreeNames(u, a, b);
    var w := ThreeWidgets().items[0].node.body.value.items;
    assert w[1..] == [w[1], w[2]] && w[1..][1..] == [w[2]] && w[1..][1..][1..] == [];
  }

  /** The file comes out as it went in but for a line end: `a` is where it was. */
  lemma {:induction false} PlacedA()
    ensures var rest, b := DocText(WithoutA()), KindLevels("bar", "widget");
            Placed(rest, WithoutA(), b, Titled("a"), 1)
            == Some(WithABack())
  {
    hide NodeText, ItemsText, LeadingIndent, DocText, Keys, FirstAt, HitAt;
    var d, b := WithoutA(), KindLevels("bar", "widget");
    var rest, n := DocText(d), d.items[0].node;
    var w := n.body.value.items;
    assert b[1..] == [Level({"widget"}, None)];
    BarBlocks(w);
    assert Nodes(w) == [Untitled(), Titled("b")] by { assert w[1..] == [w[1]] && w[1..][1..] == []; }
    WidgetNames();
    assert |Hits(n, b)| == 2 by { OneNode(d.items[0], b); }
    assert IndentAt(rest, d, b, 1) == "" by { NoIndent(); }
    assert "\n" + "" == "\n";
    assert w[1..] == [w[1]];
    assert |Hits(w[0].node, b[1..])| == 1 && |Hits(w[1].node, b[1..])| == 1;
    assert InsertBefore([w[1]], b[1..], 0, Titled("a"), "")
           == [Item(";  ", Titled("a")), Item("\n", Titled("b"))];
    assert InsertBefore(w, b[1..], 1, Titled("a"), "")
           == [Item(" ", Untitled()), Item(";  ", Titled("a")), Item("\n", Titled("b"))];
    BeforeIs(d.items, b, 1, Titled("a"), "");
    assert NodeBefore(n, b, 1, Titled("a"), "").body
           == Some(Doc([Item(" ", Untitled()), Item(";  ", Titled("a")), Item("\n", Titled("b"))], " "));
    assert Bar(w) == d;
    assert NodesAt(d.items, b) == [Untitled(), Titled("b")];
    assert InsertBefore(d.items, b, 1, Titled("a"), "")
           == Bar([Item(" ", Untitled()), Item(";  ", Titled("a")), Item("\n", Titled("b"))]).items;
  }

  lemma NoIndent()
    ensures IndentAt(DocText(WithoutA()), WithoutA(), KindLevels("bar", "widget"), 1) == ""
  {
    hide DocText, HitAt, NodeText, ItemsText, LineStart;
    var d, b := WithoutA(), KindLevels("bar", "widget");
    var rest := DocText(d);
    RestText();
    assert |NodesAt(d.items, b)| == 2 by {
      var w := d.items[0].node.body.value.items;
      BarBlocks(w);
      assert w[1..] == [w[1]] && w[1..][1..] == [];
    }
    HitWithin(rest, d, b, 1);
    NoBlanks(rest, HitAt(0, d.items, b, 1));
  }

  lemma NoBlanks(text: string, at: nat)
    requires at <= |text| && text != "" && text[0] == 'b' && '\n' !in text
    ensures LeadingIndent(text, at) == ""
  {
    LineStartIs(text, at, 0);
  }

  lemma RestText()
    ensures DocText(WithoutA()) == "bar { widget;  widget \"b\" }"
    ensures '\n' !in DocText(WithoutA())
  {
    hide NodeText, ItemsText, DocText, Untitled, Titled;
    var w := [Item(" ", Untitled()), Item(";  ", Titled("b"))];
    BarText(w);
    WidgetTexts();
    FirstText(w);
    assert w[1..] == [w[1]];
    OneText(w[1]);
    RestLiteral();
  }

  lemma {:induction false} RestLiteral()
    ensures "bar {" + (" " + ("widget" + (";  " + "widget \"b\""))) + " }" == "bar { widget;  widget \"b\" }"
    ensures '\n' !in "bar { widget;  widget \"b\" }"
  {
    assert " " + ("widget" + (";  " + "widget \"b\"")) == " widget;  widget \"b\"";
  }

  function WithABack(): Doc {
    Bar([Item(" ", Untitled()), Item(";  ", Titled("a")), Item("\n", Titled("b"))])
  }

  lemma ThreeText(gap: string, end: string)
    ensures var w := [Item(" ", Untitled()), Item(gap, Titled("a")), Item(end, Titled("b"))];
            DocText(Bar(w)) == "bar {" + (" widget" + gap + "widget \"a\"" + end + "widget \"b\"") + " }"
  {
    hide NodeText, ItemsText, DocText, Untitled, Titled;
    var w := [Item(" ", Untitled()), Item(gap, Titled("a")), Item(end, Titled("b"))];
    WidgetTexts();
    BarText(w);
    FirstText(w);
    FirstText(w[1..]);
    assert w[1..][1..] == [w[2]];
    OneText(w[2]);
    assert " " + "widget" == " widget";
    FiveTexts(" ", "widget", gap, "widget \"a\"", end, "widget \"b\"");
  }

  lemma FiveTexts(a: string, b: string, c: string, d: string, e: string, f: string)
    ensures a + (b + (c + (d + (e + f)))) == (a + b) + c + d + e + f
  {
  }

  lemma WidgetsText()
    ensures DocText(ThreeWidgets()) == "bar { widget; widget \"a\"; widget \"b\" }"
    ensures DocText(WithABack()) == "bar { widget;  widget \"a\"\nwidget \"b\" }"
  {
    hide NodeText, ItemsText, DocText, Untitled, Titled;
    ThreeText("; ", "; ");
    ThreeText(";  ", "\n");
    LiteralBefore();
    LiteralAfter();
  }

  lemma LiteralBefore()
    ensures "bar {" + (" widget" + "; " + "widget \"a\"" + "; " + "widget \"b\"") + " }"
            == "bar { widget; widget \"a\"; widget \"b\" }"
  {
    FourPieces("bar {", " widget" + "; " + "widget \"a\"", "; " + "widget \"b\"", " }");
    FirstHalf();
    assert ("; " + "widget \"b\"") + " }" == "; widget \"b\" }";
    WholeBefore();
    Regroup3(" widget" + "; " + "widget \"a\"", "; ", "widget \"b\"");
  }

  lemma FirstHalf()
    ensures "bar {" + (" widget" + "; " + "widget \"a\"") == "bar { widget; widget \"a\""
    ensures "bar {" + (" widget" + ";  " + "widget \"a\"") == "bar { widget;  widget \"a\""
  {
  }

  lemma WholeBefore()
    ensures "bar { widget; widget \"a\"" + "; widget \"b\" }" == "bar { widget; widget \"a\"; widget \"b\" }"
  {
  }

  lemma WholeAfter()
    ensures "bar { widget;  widget \"a\"" + "\nwidget \"b\" }" == "bar { widget;  widget \"a\"\nwidget \"b\" }"
  {
  }

  lemma Regroup3(a: string, b: string, c: string)
    ensures a + b + c == a + (b + c)
  {
  }

  lemma LiteralAfter()
    ensures "bar {" + (" widget" + ";  " + "widget \"a\"" + "\n" + "widget \"b\"") + " }"
            == "bar { widget;  widget \"a\"\nwidget \"b\" }"
  {
    FourPieces("bar {", " widget" + ";  " + "widget \"a\"", "\n" + "widget \"b\"", " }");
    FirstHalf();
    assert ("\n" + "widget \"b\"") + " }" == "\nwidget \"b\" }";
    WholeAfter();
    Regroup3(" widget" + ";  " + "widget \"a\"", "\n", "widget \"b\"");
  }

  lemma FourPieces(a: string, b: string, c: string, d: string)
    ensures a + (b + c) + d == (a + b) + (c + d)
  {
  }

  lemma WidgetsOk(w: seq<Item>)
    requires forall i :: 0 <= i < |w| ==> w[i].node in [Untitled(), Titled("a"), Titled("b")]
    ensures DocOk(Bar(w))
  {
    hide NodeText, ItemsText;
    var n := Bar(w).items[0].node;
    BarText(w);
    OneText(Bar(w).items[0]);
    assert DocText(Bar(w)) == NodeText(n) by { assert "" + NodeText(n) + "" == NodeText(n); }
    assert !White('}') && Starter('b');
    assert NodeText(n)[|NodeText(n)| - 1] == '}';
    WidgetItemsOk(w);
    assert DocOk(n.body.value);
    assert NodeOk(n);
    assert Bar(w).items[1..] == [] && ItemsOk([]);
  }

  lemma {:induction false} WidgetItemsOk(w: seq<Item>)
    requires forall i :: 0 <= i < |w| ==> w[i].node in [Untitled(), Titled("a"), Titled("b")]
    ensures ItemsOk(w)
  {
    hide NodeText;
    WidgetTexts();
    assert !White('t') && !White('"') && Starter('w');
    if w != [] {
      assert forall i :: 0 <= i < |w| - 1 ==> w[1..][i] == w[i + 1];
      WidgetItemsOk(w[1..]);
    }
  }

  /** A file the editor gets wrong: asked to move `a` to place 1, behind `b`, it
      writes a line end and leaves the names in their order. */
  lemma {:induction false} MisplacedByUntitled(parser: Parser)
    requires parser("bar { widget; widget \"a\"; widget \"b\" }") == Some(ThreeWidgets())
    requires parser("bar { widget;  widget \"b\" }") == Some(WithoutA())
    requires parser("bar { widget;  widget \"a\"\nwidget \"b\" }") == Some(WithABack())
    ensures var text, out := "bar { widget; widget \"a\"; widget \"b\" }",
            "bar { widget;  widget \"a\"\nwidget \"b\" }";
            var b := KindLevels("bar", "widget");
            && text == DocText(ThreeWidgets()) && Reads(parser, text)
            && ReadsRest(parser, text, ThreeWidgets(), BlockLevels("bar", "widget", "a"))
            && Names(NodesAt(ThreeWidgets().items, b)) == ["a", "b"]
            && Moved(parser, text, ThreeWidgets(), "bar", "widget", "a", 1) == Ok(out)
            && Names(NodesAt(parser(out).value.items, b)) == ["a", "b"]
  {
    hide NodesAt, Placed, Cut, Names, DocText, DocOk, Safe, AllMade, Removals, NodeText, PutBackText, Keys, Title;
    var text, d, q := "bar { widget; widget \"a\"; widget \"b\" }", ThreeWidgets(), WithoutA();
    var b, l := KindLevels("bar", "widget"), BlockLevels("bar", "widget", "a");
    WidgetsText();
    RestText();
    WidgetsOk(d.items[0].node.body.value.items);
    WidgetsOk(q.items[0].node.body.value.items);
    CutA();
    RemovedExactly(text, d, l, false, FileRemovals(text, d, l, false));
    BarBlocks(d.items[0].node.body.value.items);
    BarBlocks(q.items[0].node.body.value.items);
    BarBlocks(WithABack().items[0].node.body.value.items);
    WidgetNames();
    WidgetNodes();
    assert NodesAt(d.items, l) == [Titled("a")] by { OnlyA(); }
    PlacedA();
    PutBackExactly(DocText(q), q, b, Titled("a"), 1);
    assert PlaceClear(q, b, 1);
    assert ["a", "b"][1] != "a" by { assert "a"[0] != "b"[0]; }
  }

  lemma WidgetNodes()
    ensures Nodes(WithoutA().items[0].node.body.value.items) == [Untitled(), Titled("b")]
    ensures Nodes(WithABack().items[0].node.body.value.items) == [Untitled(), Titled("a"), Titled("b")]
  {
    var v := WithoutA().items[0].node.body.value.items;
    assert v[1..] == [v[1]] && v[1..][1..] == [];
    var w := WithABack().items[0].node.body.value.items;
    assert w[1..] == [w[1], w[2]] && w[1..][1..] == [w[2]] && w[1..][1..][1..] == [];
  }

  lemma {:induction false} OnlyA()
    ensures NodesAt(ThreeWidgets().items, BlockLevels("bar", "widget", "a")) == [Titled("a")]
  {
    hide NodeText;
    var b, l := KindLevels("bar", "widget"), BlockLevels("bar", "widget", "a");
    KindWidens("bar", "widget", "a");
    WantedNodes(ThreeWidgets().items, l, b);
    BarBlocks(ThreeWidgets().items[0].node.body.value.items);
    WidgetNames();
    var all := [Untitled(), Titled("a"), Titled("b")];
    assert "a"[0] != "b"[0];
    assert all[1..] == [all[1], all[2]] && all[1..][1..] == [all[2]] && all[1..][1..][1..] == [];
  }

  lemma ThreeNames(u: Node, a: Node, b: Node)
    requires Title(u.entries) == None && Title(a.entries) == Some("a") && Title(b.entries) == Some("b")
    ensures Names([u, a, b]) == ["a", "b"]
  {
    hide Title;
    var all := [u, a, b];
    assert all[..2] == [u, a] && all[..2][..1] == [u] && all[..2][..1][..0] == [];
    assert Keys([u]) == [None] by { assert [u][..0] == []; }
    assert Keys([u, a]) == [None, Some("a")];
    assert "a" != "b" by { assert "a"[0] != "b"[0]; }
    assert Keys(all) == [None, Some("a"), Some("b")];
    var k := Keys(all);
    assert k[1..] == [Some("a"), Some("b")] && k[1..][1..] == [Some("b")] && k[1..][1..][1..] == [];
    assert Somes([Some("b")]) == ["b"];
    assert Somes([Some("a"), Some("b")]) == ["a", "b"];
  }

  lemma {:induction false} KeyList(two: seq<Node>)
    requires |two| == 2 && Title(two[0].entries) == None && Title(two[1].entries) == Some("b")
    ensures Keys(two) == [None, Some("b")] && FirstAt(two, 1) == 1
  {
    hide Title;
    assert two[..1] == [two[0]] && two[..1][..0] == [];
    assert Keys(two[..1]) == [None];
  }
}
