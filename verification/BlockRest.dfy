/** What an edit of the blocks of one kind leaves alone: every path that leads
    elsewhere leads to the very same nodes. */
module BlockRest {
  import opened Options
  import opened Kdl
  import opened Prune
  import opened Remove
  import opened Effect
  import opened BlockTree
  import opened BlockInsert

  lemma {:induction false} ApartWidens(l: seq<Level>, b: seq<Level>, q: seq<Level>)
    requires Widens(b, l) && Apart(b, q)
    ensures Apart(l, q)
  {
    if !Excludes(b[0], q[0]) && |l| > 1 {
      ApartWidens(l[1..], b[1..], q[1..]);
    }
  }

  lemma ApartStep(b: seq<Level>, q: seq<Level>)
    requires Apart(b, q)
    ensures b != [] && q != []
    ensures Excludes(b[0], q[0]) || (|b| > 1 && |q| > 1 && Apart(b[1..], q[1..]))
  {
  }

  lemma Excluded(a: Level, b: Level, n: Node)
    requires Excludes(a, b) && Matches(a, n)
    ensures !Matches(b, n)
  {
  }

  lemma NotHit(n: Node, q: seq<Level>)
    requires q != [] && !Matches(q[0], n)
    ensures Hits(n, q) == []
  {
  }

  lemma {:induction false} SetLastRest(items: seq<Item>, l: seq<Level>, b: seq<Level>, m: Node, q: seq<Level>)
    requires Widens(b, l) && Apart(b, q) && l != [] && b != [] && q != [] && Matches(Last(b), m)
    ensures NodesAt(SetLast(items, l, m), q) == NodesAt(items, q)
    decreases items, 1
  {
    hide *;
    if items == [] {
      NoneSet(l, m);
    } else {
      var rest, c := items[1..], SetLast(items, l, m);
      FirstHits(items, q);
      SetLastIs(items, l, m);
      FirstHits(c, q);
      if NodesAt(rest, l) != [] {
        SetLastRest(rest, l, b, m, q);
      } else {
        SetNodeRest(items[0].node, l, b, m, q);
      }
    }
  }

  lemma NoneSet(l: seq<Level>, m: Node)
    requires l != []
    ensures SetLast([], l, m) == []
  {
  }

  lemma {:induction false} SetNodeRest(n: Node, l: seq<Level>, b: seq<Level>, m: Node, q: seq<Level>)
    requires Widens(b, l) && Apart(b, q) && l != [] && b != [] && q != [] && Matches(Last(b), m)
    ensures Hits(SetLastNode(n, l, m), q) == Hits(n, q)
    decreases n, 0
  {
    hide NodesAt, SetLast, Apart, Excludes, Widens;
    ApartStep(b, q);
    WidensStep(b, l);
    if Matches(l[0], n) {
      if |l| == 1 {
        Excluded(b[0], q[0], n);
        Excluded(b[0], q[0], m);
      } else if n.body.Some? {
        if Excludes(b[0], q[0]) {
          Excluded(b[0], q[0], n);
        } else {
          SetLastRest(n.body.value.items, l[1..], b[1..], m, q[1..]);
        }
      }
    }
  }

  lemma {:induction false} BeforeRest(items: seq<Item>, b: seq<Level>, k: nat, m: Node, indent: string, q: seq<Level>)
    requires Apart(b, q) && b != [] && q != [] && k < |NodesAt(items, b)| && Matches(b[|b| - 1], m)
    ensures NodesAt(InsertBefore(items, b, k, m, indent), q) == NodesAt(items, q)
    decreases items, 1
  {
    hide *;
    HitAtIs(0, items, b, k);
    BeforeIs(items, b, k, m, indent);
    ApartStep(b, q);
    var n, rest, c := items[0].node, items[1..], InsertBefore(items, b, k, m, indent);
    FirstHits(items, q);
    FirstHits(c, q);
    if k >= |Hits(n, b)| {
      BeforeRest(rest, b, k - |Hits(n, b)|, m, indent, q);
      assert c[1..] == InsertBefore(rest, b, k - |Hits(n, b)|, m, indent);
    } else if |b| == 1 {
      assert c[1..] == [Item("\n" + indent, n)] + rest;
      FirstHits(c[1..], q);
      assert c[1..][1..] == rest;
      Excluded(b[0], q[0], m);
      NotHit(m, q);
    } else {
      assert c[1..] == rest;
      NodeBeforeRest(n, b, k, m, indent, q);
    }
  }

  lemma {:induction false} NodeBeforeRest(n: Node, b: seq<Level>, k: nat, m: Node, indent: string, q: seq<Level>)
    requires Apart(b, q) && |b| > 1 && q != [] && k < |Hits(n, b)| && Matches(b[|b| - 1], m)
    ensures Hits(NodeBefore(n, b, k, m, indent), q) == Hits(n, q)
    decreases n, 0
  {
    hide NodesAt, InsertBefore, Apart, Excludes;
    ApartStep(b, q);
    if Excludes(b[0], q[0]) {
      Excluded(b[0], q[0], n);
    } else {
      BeforeRest(n.body.value.items, b[1..], k, m, indent, q[1..]);
    }
  }

  lemma {:induction false} AfterRest(items: seq<Item>, end: string, b: seq<Level>, k: nat, m: Node, indent: string,
                                     top: bool, q: seq<Level>)
    requires Apart(b, q) && b != [] && q != [] && k < |NodesAt(items, b)| && Matches(b[|b| - 1], m)
    ensures NodesAt(InsertAfter(items, end, b, k, m, indent, top).items, q) == NodesAt(items, q)
    decreases items, 1
  {
    hide *;
    HitAtIs(0, items, b, k);
    AfterIs(items, end, b, k, m, indent, top);
    ApartStep(b, q);
    var n, rest := items[0].node, items[1..];
    var c := InsertAfter(items, end, b, k, m, indent, top).items;
    FirstHits(items, q);
    if k >= |Hits(n, b)| {
      FirstHits(c, q);
      AfterRest(rest, end, b, k - |Hits(n, b)|, m, indent, top, q);
      assert c[1..] == InsertAfter(rest, end, b, k - |Hits(n, b)|, m, indent, top).items;
    } else if |b| == 1 {
      OwnAfterList(items, end, m, indent, top, q);
      Excluded(b[0], q[0], m);
      NotHit(m, q);
      assert [] + NodesAt(rest, q) == NodesAt(rest, q);
    } else {
      FirstHits(c, q);
      assert c[1..] == rest;
      NodeAfterRest(n, b, k, m, indent, q);
    }
  }

  lemma {:induction false} NodeAfterRest(n: Node, b: seq<Level>, k: nat, m: Node, indent: string, q: seq<Level>)
    requires Apart(b, q) && |b| > 1 && q != [] && k < |Hits(n, b)| && Matches(b[|b| - 1], m)
    ensures Hits(NodeAfter(n, b, k, m, indent), q) == Hits(n, q)
    decreases n, 0
  {
    hide NodesAt, InsertAfter, Apart, Excludes;
    ApartStep(b, q);
    if Excludes(b[0], q[0]) {
      Excluded(b[0], q[0], n);
    } else {
      AfterRest(n.body.value.items, n.body.value.end, b[1..], k, m, indent, false, q[1..]);
    }
  }

  /** A block of the kind, alone in a list, is on no path apart from the kind. */
  lemma KindIsApart(parent: string, kind: string, q: seq<Level>, n: Node, i: Item)
    requires Apart(KindLevels(parent, kind), q) && q != [] && n.name == parent && Matches(q[0], n)
    requires Matches(Level({kind}, None), i.node)
    ensures |q| > 1 && NodesAt([i], q[1..]) == []
  {
    hide NodesAt;
    var b := KindLevels(parent, kind);
    assert b[1..] == [Level({kind}, None)];
    assert !Excludes(b[0], q[0]);
    ApartStep(b, q);
    ApartStep(b[1..], q[1..]);
    Excluded(b[1..][0], q[1..][0], i.node);
    OneNode(i, q[1..]);
    NotHit(i.node, q[1..]);
  }

  /** A section with one more block of the kind at its end. */
  lemma SectionRest(n: Node, d: Doc, i: Item, parent: string, kind: string, q: seq<Level>)
    requires Apart(KindLevels(parent, kind), q) && q != [] && n.name == parent && n.body.Some?
    requires d.items == n.body.value.items + [i] && Matches(Level({kind}, None), i.node)
    ensures Hits(n.(body := Some(d)), q) == Hits(n, q)
  {
    hide NodesAt, Apart;
    if Matches(q[0], n) {
      KindIsApart(parent, kind, q, n, i);
      NodesAtAppend(n.body.value.items, [i], q[1..]);
      assert NodesAt(n.body.value.items, q[1..]) + [] == NodesAt(n.body.value.items, q[1..]);
    }
  }

  /** A new section with a block of the kind alone. */
  lemma NewSectionRest(n: Node, i: Item, parent: string, kind: string, q: seq<Level>)
    requires Apart(KindLevels(parent, kind), q) && q != [] && n.name == parent && n.body.Some?
    requires n.body.value.items == [i] && Matches(Level({kind}, None), i.node)
    ensures Hits(n, q) == []
  {
    hide NodesAt, Apart;
    if Matches(q[0], n) {
      KindIsApart(parent, kind, q, n, i);
    }
  }
}
