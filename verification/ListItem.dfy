/** `replace_list_item`: one argument of a list renamed or dropped in every
    definition of the list. */
module ListItem {
  import opened Options
  import opened Bytes
  import opened Kdl
  import opened Splice
  import opened Prune
  import opened Remove
  import opened SetTree
  import opened SetText
  import opened Effect
  import opened BlockText

  // -------------------------------------------------------------- the tree

  /** An argument that is the string `was`. */
  predicate Is(e: Entry, was: string) {
    e.key == None && e.str == Some(was)
  }

  /** The arguments with `was` written as `now`, or without it. */
  function Replaced(es: seq<Entry>, was: string, now: Option<Value>): seq<Entry> {
    if es == [] then []
    else
      (if !Is(es[0], was) then [es[0]]
       else match now case None => [] case Some(v) => [es[0].(repr := v.repr, str := v.str)])
      + Replaced(es[1..], was, now)
  }

  function ReplacedItems(items: seq<Item>, l: seq<Level>, was: string, now: Option<Value>): (r: seq<Item>)
    requires l != []
    ensures |r| == |items|
    decreases items, 1
  {
    if items == [] then []
    else [Item(items[0].gap, ReplacedNode(items[0].node, l, was, now))] + ReplacedItems(items[1..], l, was, now)
  }

  function ReplacedNode(n: Node, l: seq<Level>, was: string, now: Option<Value>): Node
    requires l != []
    decreases n, 0
  {
    if !Matches(l[0], n) then n
    else if |l| == 1 then n.(entries := Replaced(n.entries, was, now))
    else
      match n.body
      case None => n
      case Some(d) => n.(body := Some(Doc(ReplacedItems(d.items, l[1..], was, now), d.end)))
  }

  function ReplacedDoc(d: Doc, l: seq<Level>, was: string, now: Option<Value>): Doc
    requires l != []
  {
    Doc(ReplacedItems(d.items, l, was, now), d.end)
  }

  // ------------------------------------------------------------- the edits

  /** The edits of the arguments, the first of which starts at `at`: a value is
      written anew, or the argument goes with the blanks before it. */
  function EntryEdits(at: nat, es: seq<Entry>, was: string, now: Option<Value>): seq<Edit>
    decreases |es|
  {
    if es == [] then []
    else
      var end := at + |EntryText(es[0])|;
      (if !Is(es[0], was) then []
       else match now case None => [Edit(at, end, "")] case Some(v) => [Edit(end - |es[0].repr|, end, v.repr)])
      + EntryEdits(end, es[1..], was, now)
  }

  function SpotEdits(b: Spot, was: string, now: Option<Value>): seq<Edit> {
    EntryEdits(b.at + |b.node.written|, b.node.entries, was, now)
  }

  function AllEdits(spots: seq<Spot>, was: string, now: Option<Value>): seq<Edit> {
    if spots == [] then [] else SpotEdits(spots[0], was, now) + AllEdits(spots[1..], was, now)
  }

  /** Every node the levels lead to, and where it starts. */
  function Spots(pos: nat, items: seq<Item>, l: seq<Level>): seq<Spot>
    requires l != []
    decreases items, 1
  {
    if items == [] then []
    else
      var n, s := items[0].node, pos + |items[0].gap|;
      NodeSpots(s, n, l) + Spots(s + |NodeText(n)|, items[1..], l)
  }

  function NodeSpots(s: nat, n: Node, l: seq<Level>): seq<Spot>
    requires l != []
    decreases n, 0
  {
    if !Matches(l[0], n) then []
    else if |l| == 1 then [Spot(s, n)]
    else
      match n.body
      case None => []
      case Some(d) => Spots(s + BodyAt(n), d.items, l[1..])
  }

  lemma {:induction false} AllEditsAppend(a: seq<Spot>, b: seq<Spot>, was: string, now: Option<Value>)
    ensures AllEdits(a + b, was, now) == AllEdits(a, was, now) + AllEdits(b, was, now)
  {
    if a == [] {
      assert a + b == b;
    } else {
      hide SpotEdits;
      assert (a + b)[1..] == a[1..] + b;
      AllEditsAppend(a[1..], b, was, now);
    }
  }

  /** The nodes found are those the levels lead to. */
  lemma {:induction false} SpotsAre(pos: nat, items: seq<Item>, l: seq<Level>)
    requires l != []
    ensures |Spots(pos, items, l)| == |NodesAt(items, l)|
    ensures forall i :: 0 <= i < |NodesAt(items, l)| ==> Spots(pos, items, l)[i].node == NodesAt(items, l)[i]
    decreases items, 1
  {
    hide NodeText, NodeSpots, Hits;
    if items != [] {
      var n, s := items[0].node, pos + |items[0].gap|;
      NodeSpotsAre(s, n, l);
      SpotsAre(s + |NodeText(n)|, items[1..], l);
    }
  }

  lemma {:induction false} NodeSpotsAre(s: nat, n: Node, l: seq<Level>)
    requires l != []
    ensures |NodeSpots(s, n, l)| == |Hits(n, l)|
    ensures forall i :: 0 <= i < |Hits(n, l)| ==> NodeSpots(s, n, l)[i].node == Hits(n, l)[i]
    decreases n, 0
  {
    hide NodesAt, Spots;
    if |l| > 1 && n.body.Some? {
      SpotsAre(s + BodyAt(n), n.body.value.items, l[1..]);
    }
  }

  // ------------------------------------------------------- edits and tree agree

  /** The edits fit `text[a..b]`, each replaces something, and they leave `out`. */
  ghost predicate Yields(text: string, a: nat, b: nat, es: seq<Edit>, out: string) {
    && b <= |text| && Fits(es, a, b) && (forall i :: 0 <= i < |es| ==> es[i].start < es[i].stop)
    && Rebuild(text, a, b, es) == out
  }

  lemma YieldsBoth(text: string, a: nat, b: nat, c: nat, es: seq<Edit>, x: string, fs: seq<Edit>, y: string)
    requires Yields(text, a, b, es, x) && Yields(text, b, c, fs, y)
    ensures Yields(text, a, c, es + fs, x + y)
  {
    hide Rebuild, Fits;
    FitsBounds(es, a, b);
    FitsBounds(fs, b, c);
    FitsAppend(es, fs, a, b, c);
    RebuildAppend(text, a, b, c, es, fs);
  }

  lemma YieldsKept(text: string, a: nat, b: nat)
    requires a <= b <= |text|
    ensures Yields(text, a, b, [], text[a..b])
  {
  }

  lemma YieldsOne(text: string, a: nat, b: nat, e: Edit)
    requires a <= e.start < e.stop == b <= |text|
    ensures Yields(text, a, b, [e], text[a..e.start] + e.with)
  {
    assert [e][1..] == [] && text[b..b] == "";
  }

  lemma {:induction false} EntriesYield(text: string, at: nat, es: seq<Entry>, was: string, now: Option<Value>)
    requires at + |EntriesText(es)| <= |text| && text[at..at + |EntriesText(es)|] == EntriesText(es)
    requires forall i :: 0 <= i < |es| ==> es[i].repr != ""
    ensures Yields(text, at, at + |EntriesText(es)|, EntryEdits(at, es, was, now),
                   EntriesText(Replaced(es, was, now)))
    decreases |es|
  {
    hide Yields, EntryText, Is, EntryEdits, Replaced;
    if es == [] {
      YieldsKept(text, at, at);
      NoEntries(at, was, now);
    } else {
      var e, rest := es[0], es[1..];
      var end, stop := at + |EntryText(e)|, at + |EntriesText(es)|;
      SliceParts(text, at, stop, EntryText(e), EntriesText(rest));
      EntriesYield(text, end, rest, was, now);
      var own, left := OwnEdits(at, e, was, now), OwnText(e, was, now);
      OwnYields(text, at, e, was, now);
      YieldsBoth(text, at, end, stop, own, left, EntryEdits(end, rest, was, now),
                 EntriesText(Replaced(rest, was, now)));
      FirstEntry(at, es, was, now);
    }
  }

  lemma NoEntries(at: nat, was: string, now: Option<Value>)
    ensures EntryEdits(at, [], was, now) == [] && EntriesText(Replaced([], was, now)) == ""
  {
  }

  function OwnEdits(at: nat, e: Entry, was: string, now: Option<Value>): seq<Edit> {
    var end := at + |EntryText(e)|;
    EntrySize(e);
    if !Is(e, was) then []
    else match now case None => [Edit(at, end, "")] case Some(v) => [Edit(end - |e.repr|, end, v.repr)]
  }

  function OwnText(e: Entry, was: string, now: Option<Value>): string {
    if !Is(e, was) then EntryText(e)
    else match now case None => "" case Some(v) => EntryText(e.(repr := v.repr, str := v.str))
  }

  lemma FirstEntry(at: nat, es: seq<Entry>, was: string, now: Option<Value>)
    requires es != []
    ensures EntryEdits(at, es, was, now)
            == OwnEdits(at, es[0], was, now) + EntryEdits(at + |EntryText(es[0])|, es[1..], was, now)
    ensures EntriesText(Replaced(es, was, now))
            == OwnText(es[0], was, now) + EntriesText(Replaced(es[1..], was, now))
  {
    hide EntryText, Is, KeyText;
    var e, rest := es[0], Replaced(es[1..], was, now);
    EntrySize(e);
    if !Is(e, was) {
      OneMoreEntry(e, rest);
    } else if now.Some? {
      OneMoreEntry(e.(repr := now.value.repr, str := now.value.str), rest);
    } else {
      assert [] + rest == rest;
    }
  }

  lemma OwnYields(text: string, at: nat, e: Entry, was: string, now: Option<Value>)
    requires e.repr != "" && at + |EntryText(e)| <= |text| && text[at..at + |EntryText(e)|] == EntryText(e)
    ensures Yields(text, at, at + |EntryText(e)|, OwnEdits(at, e, was, now), OwnText(e, was, now))
  {
    hide Yields, EntryText, Is, KeyText;
    EntrySize(e);
    if !Is(e, was) {
      YieldsKept(text, at, at + |EntryText(e)|);
    } else {
      OneYields(text, at, e, was, now);
    }
  }

  lemma OneMoreEntry(e: Entry, es: seq<Entry>)
    ensures EntriesText([e] + es) == EntryText(e) + EntriesText(es)
  {
    assert ([e] + es)[1..] == es;
  }

  lemma OneYields(text: string, at: nat, e: Entry, was: string, now: Option<Value>)
    requires e.repr != "" && at + |EntryText(e)| <= |text| && text[at..at + |EntryText(e)|] == EntryText(e)
    ensures var end := at + |EntryText(e)|;
            match now
            case None => Yields(text, at, end, [Edit(at, end, "")], "")
            case Some(v) => Yields(text, at, end, [Edit(end - |e.repr|, end, v.repr)],
                                   EntryText(e.(repr := v.repr, str := v.str)))
  {
    hide Yields;
    var end := at + |EntryText(e)|;
    match now
    case None =>
      YieldsOne(text, at, end, Edit(at, end, ""));
      assert text[at..at] + "" == "";
    case Some(v) =>
      YieldsOne(text, at, end, Edit(end - |e.repr|, end, v.repr));
      assert text[at..end - |e.repr|] == EntryText(e)[..|EntryText(e)| - |e.repr|] == e.lead + KeyText(e);
  }

  lemma {:induction false} ItemsYield(text: string, pos: nat, stop: nat, items: seq<Item>, end: string, l: seq<Level>,
                                      was: string, now: Option<Value>)
    requires l != [] && Sits(text, pos, stop, items, end) && ItemsOk(items)
    ensures Yields(text, pos, stop, AllEdits(Spots(pos, items, l), was, now),
                   ItemsText(ReplacedItems(items, l, was, now)) + end)
    decreases items, 1
  {
    hide Yields, NodeText, ItemsText, NodeSpots, ReplacedNode, AllEdits, NodeOk, Sits;
    if items == [] {
      SitsIs(text, pos, stop, items, end);
      YieldsKept(text, pos, stop);
      NoneYield(end, was, now);
    } else {
      var g, n, s := items[0].gap, items[0].node, pos + |items[0].gap|;
      var t := s + |NodeText(n)|;
      FirstSits(text, pos, stop, items, end);
      SitsWithin(text, pos, stop, items, end);
      var m, rest := ReplacedNode(n, l, was, now), ReplacedItems(items[1..], l, was, now);
      var own, later := AllEdits(NodeSpots(s, n, l), was, now), AllEdits(Spots(t, items[1..], l), was, now);
      YieldsKept(text, pos, s);
      NodeYields(text, s, t, n, l, was, now);
      ItemsYield(text, t, stop, items[1..], end, l, was, now);
      YieldsBoth(text, pos, s, t, [], g, own, NodeText(m));
      YieldsBoth(text, pos, t, stop, [] + own, g + NodeText(m), later, ItemsText(rest) + end);
      AllEditsAppend(NodeSpots(s, n, l), Spots(t, items[1..], l), was, now);
      assert [] + own == own;
      FirstText([Item(g, m)] + rest);
      assert ([Item(g, m)] + rest)[1..] == rest;
      Joined(g, NodeText(m), ItemsText(rest), end);
    }
  }

  lemma Joined(a: string, b: string, c: string, d: string)
    ensures (a + b) + (c + d) == (a + (b + c)) + d
  {
  }

  lemma NoneYield(end: string, was: string, now: Option<Value>)
    ensures ItemsText([]) + end == end && AllEdits([], was, now) == []
  {
  }

  lemma SitsIs(text: string, pos: nat, stop: nat, items: seq<Item>, end: string)
    requires Sits(text, pos, stop, items, end)
    ensures pos <= stop <= |text| && text[pos..stop] == ItemsText(items) + end
  {
  }

  lemma {:induction false} NodeYields(text: string, s: nat, t: nat, n: Node, l: seq<Level>, was: string,
                                      now: Option<Value>)
    requires l != [] && s <= t <= |text| && t == s + |NodeText(n)| && text[s..t] == NodeText(n) && NodeOk(n)
    ensures Yields(text, s, t, AllEdits(NodeSpots(s, n, l), was, now), NodeText(ReplacedNode(n, l, was, now)))
    decreases n, 0
  {
    hide Yields, NodeText, ItemsText, Spots, ReplacedItems, AllEdits, SpotEdits, BodyAt, Head;
    if !Matches(l[0], n) || (|l| > 1 && n.body == None) {
      YieldsKept(text, s, t);
      NoneYield("", was, now);
    } else if |l| == 1 {
      LeafYields(text, s, t, n, was, now);
      OneSpot(Spot(s, n), was, now);
    } else {
      var d, b := n.body.value, s + BodyAt(n);
      BodySits(text, s, t, n);
      BodyItemsOk(n);
      ItemsYield(text, b, t - 1, d.items, d.end, l[1..], was, now);
      var inner, left := AllEdits(Spots(b, d.items, l[1..]), was, now), ReplacedItems(d.items, l[1..], was, now);
      YieldsKept(text, s, b);
      YieldsKept(text, t - 1, t);
      YieldsBoth(text, s, b, t - 1, [], Head(n), inner, ItemsText(left) + d.end);
      YieldsBoth(text, s, t - 1, t, [] + inner, Head(n) + (ItemsText(left) + d.end), [], "}");
      assert ([] + inner) + [] == inner;
      KeptText(n, Doc(left, d.end));
      DocTextIs(Doc(left, d.end));
    }
  }

  lemma DocTextIs(d: Doc)
    ensures DocText(d) == ItemsText(d.items) + d.end
  {
  }

  lemma OneSpot(b: Spot, was: string, now: Option<Value>)
    ensures AllEdits([b], was, now) == SpotEdits(b, was, now)
  {
    hide SpotEdits;
    assert [b][1..] == [];
  }

  lemma LeafYields(text: string, s: nat, t: nat, n: Node, was: string, now: Option<Value>)
    requires s <= t <= |text| && t == s + |NodeText(n)| && text[s..t] == NodeText(n) && NodeOk(n)
    ensures Yields(text, s, t, SpotEdits(Spot(s, n), was, now), NodeText(n.(entries := Replaced(n.entries, was, now))))
  {
    hide Yields, NodeText, EntryEdits, EntriesText, Replaced, AfterEntries;
    var es := n.entries;
    var a := s + |n.written|;
    var b := a + |EntriesText(es)|;
    NodeParts(n, es);
    NodeParts(n, Replaced(es, was, now));
    assert n.(entries := es) == n;
    var w, x, z := n.written, EntriesText(es), AfterEntries(n);
    assert w + x + z == w + (x + z);
    SliceParts(text, s, t, w, x + z);
    SliceParts(text, a, t, x, z);
    YieldsKept(text, s, a);
    EntriesYield(text, a, es, was, now);
    YieldsKept(text, b, t);
    var own, y := EntryEdits(a, es, was, now), EntriesText(Replaced(es, was, now));
    YieldsBoth(text, s, a, b, [], w, own, y);
    YieldsBoth(text, s, b, t, [] + own, w + y, [], z);
    assert ([] + own) + [] == own;
  }

  // ------------------------------------------------------------ the operation

  /** `nodes_at` */
  method FindSpots(start: nat, items: seq<Item>, l: seq<Level>) returns (spots: seq<Spot>)
    requires l != []
    ensures spots == Spots(start, items, l)
    decreases items
  {
    hide NodeText, NodeSpots, Spots, BodyAt;
    spots := [];
    var pos: nat := start;
    assert items[0..] == items && [] + Spots(start, items, l) == Spots(start, items, l);
    for i := 0 to |items|
      invariant Spots(start, items, l) == spots + Spots(pos, items[i..], l)
    {
      var n := items[i].node;
      var s: nat := pos + |items[i].gap|;
      var t: nat := s + |NodeText(n)|;
      assert items[i..][0] == items[i] && items[i..][1..] == items[i + 1..];
      SpotsStep(pos, items[i..], l);
      NodeSpotsIs(s, n, l);
      Regroup(spots, NodeSpots(s, n, l), Spots(t, items[i + 1..], l));
      if Matches(l[0], n) {
        if |l| == 1 {
          spots := spots + [Spot(s, n)];
        } else if n.body.Some? {
          var inner := FindSpots(s + BodyAt(n), n.body.value.items, l[1..]);
          spots := spots + inner;
        } else {
          assert spots + [] == spots;
        }
      } else {
        assert spots + [] == spots;
      }
      pos := t;
    }
    NoSpots(pos, l);
    assert items[|items|..] == [] && spots + [] == spots;
  }

  lemma SpotsStep(pos: nat, items: seq<Item>, l: seq<Level>)
    requires l != [] && items != []
    ensures var n, s := items[0].node, pos + |items[0].gap|;
            Spots(pos, items, l) == NodeSpots(s, n, l) + Spots(s + |NodeText(n)|, items[1..], l)
  {
    hide NodeText, NodeSpots;
  }

  lemma NoSpots(pos: nat, l: seq<Level>)
    requires l != []
    ensures Spots(pos, [], l) == []
  {
  }

  lemma NodeSpotsIs(s: nat, n: Node, l: seq<Level>)
    requires l != []
    ensures !Matches(l[0], n) || (|l| > 1 && n.body == None) ==> NodeSpots(s, n, l) == []
    ensures Matches(l[0], n) && |l| == 1 ==> NodeSpots(s, n, l) == [Spot(s, n)]
    ensures Matches(l[0], n) && |l| > 1 && n.body.Some? ==>
              NodeSpots(s, n, l) == Spots(s + BodyAt(n), n.body.value.items, l[1..])
  {
    hide Spots, BodyAt;
  }

  /** The edits of one node, in the order of its arguments. */
  method ArgumentEdits(b: Spot, was: string, now: Option<Value>) returns (edits: seq<Edit>)
    ensures edits == SpotEdits(b, was, now)
  {
    hide EntryText;
    edits := [];
    var es := b.node.entries;
    var prev: nat := b.at + |b.node.written|;
    assert es[0..] == es && [] + EntryEdits(prev, es, was, now) == EntryEdits(prev, es, was, now);
    for i := 0 to |es|
      invariant SpotEdits(b, was, now) == edits + EntryEdits(prev, es[i..], was, now)
    {
      assert es[i..][0] == es[i] && es[i..][1..] == es[i + 1..];
      var end: nat := prev + |EntryText(es[i])|;
      EntrySize(es[i]);
      var own: seq<Edit> := [];
      if es[i].key == None && es[i].str == Some(was) {
        match now {
          case Some(v) => own := [Edit(end - |es[i].repr|, end, v.repr)];
          case None => own := [Edit(prev, end, "")];
        }
      }
      Regroup(edits, own, EntryEdits(end, es[i + 1..], was, now));
      edits := edits + own;
      prev := end;
    }
    assert es[|es|..] == [] && edits + [] == edits;
  }

  lemma EntrySize(e: Entry)
    ensures |e.repr| <= |EntryText(e)|
  {
  }

  /** `replace_list_item`: on every text that is read, the text of the tree with
      the argument replaced or dropped in every definition of the list; the same
      bytes when no definition has it. */
  method ReplaceListItem(parser: Parser, text: string, parts: seq<string>, was: string, now: Option<Value>)
    returns (r: Result<string, EditError>)
    requires Reads(parser, text) && parts != []
    ensures r.Ok? ==> parser(r.value).Some?
    ensures "" in parts ==> r == Err(BadPath)
    ensures "" !in parts && parser(text) == None ==> r == Err(Parse)
    ensures "" !in parts && parser(text).Some? ==>
              var d, l := parser(text).value, PathLevels(parts);
              if NoneHas(NodesAt(d.items, l), was) then r == Ok(text)
              else r == Reparse(parser, DocText(ReplacedDoc(d, l, was, now)))
  {
    hide NodesAt, NodeText, ItemsText, Spots, AllMade, ReplacedItems, SpotEdits, DocText, DocOk, PathLevels, Fits,
      Rebuild, NoneHas;
    if "" in parts {
      return Err(BadPath);
    }
    if parser(text) == None {
      return Err(Parse);
    }
    ReadsIt(parser, text);
    var d, l := parser(text).value, PathLevels(parts);
    var spots := FindSpots(0, d.items, l);
    var edits: seq<Edit> := [];
    assert AllEdits(spots[..0], was, now) == [];
    for i := 0 to |spots|
      invariant edits == AllEdits(spots[..i], was, now)
    {
      var own := ArgumentEdits(spots[i], was, now);
      edits := edits + own;
      assert spots[..i + 1] == spots[..i] + [spots[i]];
      AllEditsAppend(spots[..i], [spots[i]], was, now);
      OneSpot(spots[i], was, now);
    }
    assert spots[..|spots|] == spots;
    SpotsAre(0, d.items, l);
    EditsWhenThere(spots, NodesAt(d.items, l), was, now);
    if edits == [] {
      return Ok(text);
    }
    FileYields(text, d, l, was, now);
    var made := SpliceAll(text, edits);
    r := Checked(parser, made);
  }

  /** The string is not among the arguments. */
  predicate Lacks(es: seq<Entry>, was: string) {
    forall i :: 0 <= i < |es| ==> !Is(es[i], was)
  }

  /** No definition has it. */
  predicate NoneHas(ns: seq<Node>, was: string) {
    forall i :: 0 <= i < |ns| ==> Lacks(ns[i].entries, was)
  }

  lemma {:induction false} EditsWhenThere(spots: seq<Spot>, ns: seq<Node>, was: string, now: Option<Value>)
    requires |spots| == |ns| && forall i :: 0 <= i < |ns| ==> spots[i].node == ns[i]
    ensures AllEdits(spots, was, now) == [] <==> NoneHas(ns, was)
    decreases |spots|
  {
    hide SpotEdits, Lacks;
    if spots != [] {
      SpotEditsWhenThere(spots[0], was, now);
      EditsWhenThere(spots[1..], ns[1..], was, now);
      assert forall i :: 1 <= i < |ns| ==> ns[i] == ns[1..][i - 1];
      assert ns[0].entries == spots[0].node.entries;
      if NoneHas(ns[1..], was) {
        if Lacks(ns[0].entries, was) {
          forall i | 0 <= i < |ns| ensures Lacks(ns[i].entries, was) {
            if i > 0 {
              assert Lacks(ns[1..][i - 1].entries, was);
            }
          }
        }
      } else {
        var i :| 0 <= i < |ns[1..]| && !Lacks(ns[1..][i].entries, was);
        assert !Lacks(ns[i + 1].entries, was);
      }
    }
  }

  lemma SpotEditsWhenThere(b: Spot, was: string, now: Option<Value>)
    ensures SpotEdits(b, was, now) == [] <==> Lacks(b.node.entries, was)
  {
    EntryEditsWhenThere(b.at + |b.node.written|, b.node.entries, was, now);
  }

  lemma {:induction false} EntryEditsWhenThere(at: nat, es: seq<Entry>, was: string, now: Option<Value>)
    ensures EntryEdits(at, es, was, now) == [] <==> Lacks(es, was)
    decreases |es|
  {
    hide EntryText, Is;
    if es != [] {
      EntryEditsWhenThere(at + |EntryText(es[0])|, es[1..], was, now);
      assert forall i :: 1 <= i < |es| ==> es[i] == es[1..][i - 1];
      assert Lacks(es, was) <==> !Is(es[0], was) && Lacks(es[1..], was) by {
        if !Is(es[0], was) && Lacks(es[1..], was) {
          forall i | 0 <= i < |es| ensures !Is(es[i], was) {
            if i > 0 {
              assert !Is(es[1..][i - 1], was);
            }
          }
        }
        if Lacks(es, was) {
          forall i | 0 <= i < |es[1..]| ensures !Is(es[1..][i], was) {
            assert !Is(es[i + 1], was);
          }
        }
      }
    }
  }

  /** For a whole file the edits are disjoint and leave the text of the tree. */
  lemma FileYields(text: string, d: Doc, l: seq<Level>, was: string, now: Option<Value>)
    requires l != [] && text == DocText(d) && DocOk(d)
    ensures var edits := AllEdits(Spots(0, d.items, l), was, now);
            Fits(edits, 0, |text|) && Rebuild(text, 0, |text|, edits) == DocText(ReplacedDoc(d, l, was, now))
  {
    hide ItemsText, Spots, AllEdits, ReplacedItems, Fits, Rebuild;
    WholeSits(text, d);
    ItemsYield(text, 0, |text|, d.items, d.end, l, was, now);
  }

  // ------------------------------------------------------------- what it does

  /** The positional arguments as strings. */
  function Strings(es: seq<Entry>): seq<Option<string>> {
    if es == [] then []
    else (if es[0].key == None then [es[0].str] else []) + Strings(es[1..])
  }

  /** A list with an element renamed or dropped. */
  function Renamed(xs: seq<Option<string>>, was: string, now: Option<string>): seq<Option<string>> {
    if xs == [] then []
    else
      (if xs[0] != Some(was) then [xs[0]] else match now case None => [] case Some(v) => [Some(v)])
      + Renamed(xs[1..], was, now)
  }

  /** The value as it is written and as it is read. */
  function Written(now: Option<Value>): Option<string> {
    match now case None => None case Some(v) => v.str
  }

  lemma {:induction false} ReplacedStrings(es: seq<Entry>, was: string, now: Option<Value>)
    requires now.Some? ==> now.value.str.Some?
    ensures Strings(Replaced(es, was, now)) == Renamed(Strings(es), was, Written(now))
    decreases |es|
  {
    if es != [] {
      ReplacedStrings(es[1..], was, now);
      var e, rest := es[0], Replaced(es[1..], was, now);
      StringsOf(e, es[1..]);
      if e.key == None {
        RenamedOf(e.str, Strings(es[1..]), was, Written(now));
      }
      if !Is(e, was) {
        StringsOf(e, rest);
      } else if now.Some? {
        StringsOf(e.(repr := now.value.repr, str := now.value.str), rest);
      }
      assert [] + rest == rest;
      assert [] + Strings(es[1..]) == Strings(es[1..]);
      var later := Renamed(Strings(es[1..]), was, Written(now));
      assert [] + later == later;
      assert Strings(es) == Strings([e] + es[1..]) by { assert es == [e] + es[1..]; }
    }
  }

  /** A rename writes the value anew and keeps the blanks before it; every other
      argument stays as it is, in its place. */
  lemma {:induction false} RenamedEntries(es: seq<Entry>, was: string, v: Value)
    ensures |Replaced(es, was, Some(v))| == |es|
    ensures forall i :: 0 <= i < |es| ==>
              Replaced(es, was, Some(v))[i] ==
              if es[i].key == None && es[i].str == Some(was) then Entry(es[i].lead, None, v.repr, v.str) else es[i]
    decreases |es|
  {
    if es != [] {
      RenamedEntries(es[1..], was, v);
    }
  }

  /** A removal leaves the others as they are, in their order. */
  lemma {:induction false} DroppedEntries(a: seq<Entry>, e: Entry, b: seq<Entry>, was: string)
    ensures Replaced(a + [e] + b, was, None) ==
            Replaced(a, was, None) + (if e.key == None && e.str == Some(was) then [] else [e]) + Replaced(b, was, None)
    decreases |a|
  {
    if a == [] {
      assert (a + [e] + b)[0] == e && (a + [e] + b)[1..] == b;
    } else {
      assert (a + [e] + b)[0] == a[0] && (a + [e] + b)[1..] == a[1..] + [e] + b;
      DroppedEntries(a[1..], e, b, was);
    }
  }

  lemma StringsOf(e: Entry, es: seq<Entry>)
    ensures Strings([e] + es) == (if e.key == None then [e.str] else []) + Strings(es)
  {
    assert ([e] + es)[1..] == es;
  }

  lemma RenamedOf(x: Option<string>, xs: seq<Option<string>>, was: string, now: Option<string>)
    ensures Renamed([x] + xs, was, now)
            == (if x != Some(was) then [x] else match now case None => [] case Some(v) => [Some(v)])
               + Renamed(xs, was, now)
  {
    assert ([x] + xs)[1..] == xs;
  }

  /** `was` is gone, unless it was written for itself; a rename keeps every
      place, a removal the order of the others. */
  lemma {:induction false} RenamedIs(xs: seq<Option<string>>, was: string, now: Option<string>)
    ensures now != Some(was) ==> Some(was) !in Renamed(xs, was, now)
    ensures now.Some? ==>
              && |Renamed(xs, was, now)| == |xs|
              && forall i :: 0 <= i < |xs| ==> Renamed(xs, was, now)[i] == if xs[i] == Some(was) then now else xs[i]
    ensures now == None ==> forall x :: x != Some(was) ==> multiset(Renamed(xs, was, now))[x] == multiset(xs)[x]
    decreases |xs|
  {
    if xs != [] {
      RenamedIs(xs[1..], was, now);
      assert xs == [xs[0]] + xs[1..];
    }
  }

  /** The levels name nodes and not their arguments, as those of a path do. */
  predicate Untitled(l: seq<Level>) {
    forall i :: 0 <= i < |l| ==> l[i].titled == None
  }

  lemma {:induction false} PathUntitled(parts: seq<string>)
    ensures Untitled(PathLevels(parts))
  {
    if parts != [] {
      PathUntitled(parts[1..]);
    }
  }

  /** Every definition has its arguments replaced, and is otherwise as it was. */
  lemma {:induction false} DefinitionsReplaced(items: seq<Item>, l: seq<Level>, was: string, now: Option<Value>)
    requires l != [] && Untitled(l)
    ensures var before, after := NodesAt(items, l), NodesAt(ReplacedItems(items, l, was, now), l);
            && |after| == |before|
            && forall i :: 0 <= i < |before| ==>
              after[i] == before[i].(entries := Replaced(before[i].entries, was, now))
    decreases items, 1
  {
    hide NodesAt, Hits, ReplacedNode, Replaced;
    if items == [] {
      NoItems(l);
    } else {
      var c := ReplacedItems(items, l, was, now);
      FirstHits(items, l);
      FirstHits(c, l);
      assert c[1..] == ReplacedItems(items[1..], l, was, now);
      NodeReplaced(items[0].node, l, was, now);
      DefinitionsReplaced(items[1..], l, was, now);
    }
  }

  lemma {:induction false} NodeReplaced(n: Node, l: seq<Level>, was: string, now: Option<Value>)
    requires l != [] && Untitled(l)
    ensures var before, after := Hits(n, l), Hits(ReplacedNode(n, l, was, now), l);
            && |after| == |before|
            && forall i :: 0 <= i < |before| ==>
              after[i] == before[i].(entries := Replaced(before[i].entries, was, now))
    decreases n, 0
  {
    hide NodesAt, ReplacedItems, Replaced, Title;
    assert l[0].titled == None;
    if |l| > 1 && n.body.Some? {
      DefinitionsReplaced(n.body.value.items, l[1..], was, now);
    }
  }

  /** Every path that is no prefix of the list's leads to the very same nodes. */
  lemma {:induction false} OtherPathsKept(items: seq<Item>, parts: seq<string>, was: string, now: Option<Value>,
                                          q: seq<string>)
    requires parts != [] && q != [] && !(q <= parts)
    ensures PathLevels(parts) != [] && PathLevels(q) != []
    ensures NodesAt(ReplacedItems(items, PathLevels(parts), was, now), PathLevels(q)) == NodesAt(items, PathLevels(q))
    decreases items, 1
  {
    hide NodesAt, Hits, ReplacedNode, Replaced, PathLevels;
    PathStep(parts);
    PathStep(q);
    var l := PathLevels(parts);
    if items != [] {
      var c := ReplacedItems(items, l, was, now);
      FirstHits(items, PathLevels(q));
      FirstHits(c, PathLevels(q));
      assert c[1..] == ReplacedItems(items[1..], l, was, now);
      OtherNodesKept(items[0].node, parts, was, now, q);
      OtherPathsKept(items[1..], parts, was, now, q);
    }
  }

  lemma {:induction false} OtherNodesKept(n: Node, parts: seq<string>, was: string, now: Option<Value>, q: seq<string>)
    requires parts != [] && q != [] && !(q <= parts)
    ensures PathLevels(parts) != [] && PathLevels(q) != []
    ensures Hits(ReplacedNode(n, PathLevels(parts), was, now), PathLevels(q)) == Hits(n, PathLevels(q))
    decreases n, 0
  {
    hide NodesAt, Hits, ReplacedItems, Replaced, PathLevels;
    PathStep(parts);
    NodeHits(n, q);
    var m := ReplacedNode(n, PathLevels(parts), was, now);
    NodeHits(m, q);
    PathSize(parts);
    if n.name == parts[0] && q[0] == parts[0] {
      Tails(q, parts);
      if |parts| > 1 && n.body.Some? {
        OtherPathsKept(n.body.value.items, parts[1..], was, now, q[1..]);
      }
    }
  }

  lemma PathSize(parts: seq<string>)
    ensures |PathLevels(parts)| == |parts|
  {
  }

  /** What a call leaves is parsed again by the next. */
  ghost predicate ReadsReplaced(parser: Parser, text: string, parts: seq<string>, was: string, now: Option<Value>)
    requires parts != []
  {
    parser(text).Some? ==> Reads(parser, DocText(ReplacedDoc(parser(text).value, PathLevels(parts), was, now)))
  }

  /** The second identical call returns the bytes of the first, if what was
      written is read for what it was written from and the string is another. */
  method ReplaceTwice(parser: Parser, text: string, parts: seq<string>, was: string, now: Option<Value>)
    returns (r: Result<string, EditError>, again: Result<string, EditError>)
    requires Reads(parser, text) && parts != [] && ReadsReplaced(parser, text, parts, was, now)
    requires now.Some? ==> now.value.str.Some? && now.value.str != Some(was)
    ensures r.Err? ==> again == r
    ensures r.Ok? ==> parser(text).Some?
    ensures r.Ok? && parser(r.value) == Some(ReplacedDoc(parser(text).value, PathLevels(parts), was, now)) ==>
              again == r
  {
    hide NodesAt, DocText, DocOk, PathLevels, ReplacedItems, Lacks, Reads;
    r := ReplaceListItem(parser, text, parts, was, now);
    match r {
      case Err(_) => again := ReplaceListItem(parser, text, parts, was, now);
      case Ok(out) =>
        again := ReplaceListItem(parser, out, parts, was, now);
        ghost var l := PathLevels(parts);
        ghost var d := parser(text).value;
        PathUntitled(parts);
        DefinitionsReplaced(d.items, l, was, now);
        forall i | 0 <= i < |NodesAt(d.items, l)|
          ensures Lacks(Replaced(NodesAt(d.items, l)[i].entries, was, now), was)
        {
          NoneLeftOf(NodesAt(d.items, l)[i].entries, was, now);
        }
    }
  }

  lemma {:induction false} NoneLeftOf(es: seq<Entry>, was: string, now: Option<Value>)
    requires now.Some? ==> now.value.str != Some(was)
    ensures Lacks(Replaced(es, was, now), was)
    decreases |es|
  {
    if es != [] {
      NoneLeftOf(es[1..], was, now);
    }
  }
}
