/** The names of a list of blocks, in order of first appearance, and what moving
    one does to them. */
module BlockNames {
  import opened Options
  import opened Kdl
  import opened Prune
  import opened BlockTree

  /** The distinct titles; a block without one counts as one of its own. */
  function Keys(bs: seq<Node>): seq<Option<string>> {
    if bs == [] then []
    else
      var before, t := Keys(bs[..|bs| - 1]), Title(bs[|bs| - 1].entries);
      if t in before then before else before + [t]
  }

  function Somes(ks: seq<Option<string>>): (r: seq<string>)
    ensures |r| <= |ks|
  {
    if ks == [] then [] else (if ks[0].Some? then [ks[0].value] else []) + Somes(ks[1..])
  }

  /** `block_names` */
  function Names(bs: seq<Node>): seq<string> {
    Somes(Keys(bs))
  }

  lemma SomesFirst(ks: seq<Option<string>>)
    requires ks != []
    ensures Somes(ks) == (if ks[0].Some? then [ks[0].value] else []) + Somes(ks[1..])
  {
  }

  lemma {:induction false} SomesAppend(a: seq<Option<string>>, b: seq<Option<string>>)
    ensures Somes(a + b) == Somes(a) + Somes(b)
  {
    if a == [] {
      assert a + b == b;
    } else {
      var head := if a[0].Some? then [a[0].value] else [];
      var x, y := Somes(a[1..]), Somes(b);
      SomesAppend(a[1..], b);
      SomesFirst(a);
      SomesFirst(a + b);
      assert (a + b)[0] == a[0] && (a + b)[1..] == a[1..] + b;
      assert head + (x + y) == (head + x) + y;
    }
  }

  ghost predicate Distinct<T>(s: seq<T>) {
    forall i, j :: 0 <= i < j < |s| ==> s[i] != s[j]
  }

  lemma {:induction false} KeysDistinct(bs: seq<Node>)
    ensures Distinct(Keys(bs))
    ensures forall t :: t in Keys(bs) <==> exists i :: 0 <= i < |bs| && Title(bs[i].entries) == t
    decreases |bs|
  {
    hide Title;
    if bs != [] {
      var rest := bs[..|bs| - 1];
      KeysDistinct(rest);
      assert forall i :: 0 <= i < |rest| ==> rest[i] == bs[i];
    }
  }

  lemma {:induction false} SomesDistinct(ks: seq<Option<string>>)
    requires Distinct(ks)
    ensures Distinct(Somes(ks))
    ensures forall n :: n in Somes(ks) <==> Some(n) in ks
  {
    if ks != [] {
      var rest := ks[1..];
      assert forall i, j :: 0 <= i < j < |rest| ==> rest[i] == ks[i + 1] && rest[j] == ks[j + 1];
      SomesDistinct(rest);
      assert ks == [ks[0]] + rest;
      forall k | 0 <= k < |rest| ensures rest[k] != ks[0] {
        assert rest[k] == ks[k + 1];
      }
    }
  }

  /** The keys that the blocks of `bs` add to those of the blocks before them. */
  function NewKeys(seen: seq<Option<string>>, bs: seq<Node>): seq<Option<string>> {
    if bs == [] then []
    else
      var before, t := NewKeys(seen, bs[..|bs| - 1]), Title(bs[|bs| - 1].entries);
      if t in seen || t in before then before else before + [t]
  }

  lemma {:induction false} KeysAppend(a: seq<Node>, b: seq<Node>)
    ensures Keys(a + b) == Keys(a) + NewKeys(Keys(a), b)
    decreases |b|
  {
    hide Title;
    if b == [] {
      assert a + b == a;
    } else {
      assert (a + b)[..|a| + |b| - 1] == a + b[..|b| - 1];
      KeysAppend(a, b[..|b| - 1]);
    }
  }

  /** A title the blocks do not have makes no difference to what they add. */
  lemma {:induction false} NewKeysPast(seen: seq<Option<string>>, t: Option<string>, bs: seq<Node>)
    requires forall i :: 0 <= i < |bs| ==> Title(bs[i].entries) != t
    ensures NewKeys(seen + [t], bs) == NewKeys(seen, bs)
    decreases |bs|
  {
    hide Title;
    if bs != [] {
      NewKeysPast(seen, t, bs[..|bs| - 1]);
    }
  }

  /** A block of a new name between two parts of a list takes its place among
      the keys after those of the first part. */
  lemma KeysInsert(a: seq<Node>, m: Node, b: seq<Node>)
    requires forall i :: 0 <= i < |a| ==> Title(a[i].entries) != Title(m.entries)
    requires forall i :: 0 <= i < |b| ==> Title(b[i].entries) != Title(m.entries)
    ensures var k, q := Keys(a + b), |Keys(a)|;
            q <= |k| && k[..q] == Keys(a) && Keys(a + [m] + b) == k[..q] + [Title(m.entries)] + k[q..]
  {
    hide Title;
    var t := Title(m.entries);
    KeysAppend(a, b);
    KeysDistinct(a);
    assert (a + [m])[..|a|] == a && (a + [m])[|a|] == m;
    assert Keys(a + [m]) == Keys(a) + [t];
    KeysAppend(a + [m], b);
    NewKeysPast(Keys(a), t, b);
  }

  /** The block that brings key `index`. */
  function FirstAt(bs: seq<Node>, index: nat): (j: nat)
    requires index < |Keys(bs)|
    ensures j < |bs| && |Keys(bs[..j])| == index && Title(bs[j].entries) !in Keys(bs[..j])
    ensures Keys(bs)[index] == Title(bs[j].entries)
  {
    var n := |bs| - 1;
    if index < |Keys(bs[..n])| then
      var j := FirstAt(bs[..n], index);
      assert bs[..n][..j] == bs[..j];
      j
    else n
  }

  lemma {:induction false} LastKey(bs: seq<Node>)
    requires Keys(bs) != []
    ensures Keys(bs[..FirstAt(bs, |Keys(bs)| - 1) + 1]) == Keys(bs)
    decreases |bs|
  {
    hide *;
    FirstOfLast(bs);
    var n := |bs| - 1;
    var k := |Keys(bs)| - 1;
    if k < |Keys(bs[..n])| {
      LastKey(bs[..n]);
      assert bs[..n][..FirstAt(bs, k) + 1] == bs[..FirstAt(bs, k) + 1];
    } else {
      assert bs[..n + 1] == bs;
    }
  }

  lemma FirstOfLast(bs: seq<Node>)
    requires Keys(bs) != []
    ensures bs != []
    ensures var before, k := bs[..|bs| - 1], |Keys(bs)| - 1;
            if k < |Keys(before)| then Keys(bs) == Keys(before) && FirstAt(bs, k) == FirstAt(before, k)
            else FirstAt(bs, k) == |bs| - 1
  {
    hide Title;
  }

  // --------------------------------------------------------------- removed

  function Drop<T(==)>(s: seq<T>, x: T): seq<T> {
    if s == [] then [] else (if s[0] == x then [] else [s[0]]) + Drop(s[1..], x)
  }

  lemma {:induction false} DropAppend<T>(a: seq<T>, b: seq<T>, x: T)
    ensures Drop(a + b, x) == Drop(a, x) + Drop(b, x)
  {
    if a == [] {
      assert a + b == b;
    } else {
      assert (a + b)[1..] == a[1..] + b;
      DropAppend(a[1..], b, x);
    }
  }

  lemma {:induction false} DropMembers<T>(s: seq<T>, x: T)
    ensures forall y :: y in Drop(s, x) <==> y in s && y != x
  {
    if s != [] {
      DropMembers(s[1..], x);
      assert s == [s[0]] + s[1..];
    }
  }

  lemma {:induction false} SomesDrop(ks: seq<Option<string>>, name: string)
    ensures Somes(Drop(ks, Some(name))) == Drop(Somes(ks), name)
  {
    if ks != [] {
      SomesDrop(ks[1..], name);
      var head := if ks[0].Some? then [ks[0].value] else [];
      DropAppend(head, Somes(ks[1..]), name);
      var kept := if ks[0] == Some(name) then [] else [ks[0]];
      SomesAppend(kept, Drop(ks[1..], Some(name)));
      assert [ks[0]][1..] == [];
      if ks[0].Some? {
        assert [ks[0].value][1..] == [];
      }
    }
  }

  /** Taking the blocks of a name out takes the name out of the names. */
  lemma {:induction false} RemovedNames(bs: seq<Node>, l: Level, name: string)
    requires forall i :: 0 <= i < |bs| ==> (Matches(l, bs[i]) <==> Title(bs[i].entries) == Some(name))
    ensures Keys(Others(bs, l)) == Drop(Keys(bs), Some(name)) && Names(Others(bs, l)) == Drop(Names(bs), name)
    decreases |bs|
  {
    hide *;
    SomesDrop(Keys(bs), name);
    NamesAre(bs);
    NamesAre(Others(bs, l));
    if bs == [] {
      NothingRemoved(l, name);
    } else {
      var n := |bs| - 1;
      var rest := bs[..n];
      assert forall i :: 0 <= i < n ==> rest[i] == bs[i];
      RemovedNames(rest, l, name);
      assert bs == rest + [bs[n]];
      WantedAppend(rest, [bs[n]], l);
      OneWanted(bs[n], l);
      KeysStep(rest, bs[n]);
      KeysStep(Others(rest, l), bs[n]);
      DropStep(Keys(rest), Title(bs[n].entries), Some(name));
      DropMembers(Keys(rest), Some(name));
      assert Others(rest, l) + [] == Others(rest, l);
    }
  }

  lemma NamesAre(bs: seq<Node>)
    ensures Names(bs) == Somes(Keys(bs))
  {
  }

  lemma NothingRemoved(l: Level, name: string)
    ensures Keys(Others([], l)) == Drop(Keys([]), Some(name))
  {
  }

  lemma KeysStep(rest: seq<Node>, b: Node)
    ensures Keys(rest + [b]) == if Title(b.entries) in Keys(rest) then Keys(rest) else Keys(rest) + [Title(b.entries)]
  {
    hide Title;
    assert (rest + [b])[..|rest|] == rest;
  }

  lemma DropStep<T>(s: seq<T>, t: T, x: T)
    ensures Drop(s + [t], x) == if t == x then Drop(s, x) else Drop(s, x) + [t]
  {
    DropAppend(s, [t], x);
    assert [t][1..] == [] && Drop([], x) == [];
    assert Drop(s, x) + [] == Drop(s, x);
  }

  // ----------------------------------------------------------------- moved

  /** Whether a block without a name is among the first `index` of a list, each
      name counted once. */
  predicate UntitledBefore(bs: seq<Node>, index: nat) {
    index <= |Keys(bs)| && None in Keys(bs)[..index]
  }

  lemma {:induction false} SomesSize(ks: seq<Option<string>>)
    requires Distinct(ks)
    ensures |Somes(ks)| == |ks| - if None in ks then 1 else 0
  {
    if ks != [] {
      var rest := ks[1..];
      assert forall i, j :: 0 <= i < j < |rest| ==> rest[i] == ks[i + 1] && rest[j] == ks[j + 1];
      SomesSize(rest);
      assert ks == [ks[0]] + rest;
      if ks[0] == None {
        forall i | 0 <= i < |rest| ensures rest[i] != None {
          assert rest[i] == ks[i + 1];
        }
      }
    }
  }

  /** Where a block of a new name put at `j` stands among the names. */
  lemma InsertedNames(r: seq<Node>, j: nat, m: Node, name: string, index: nat)
    requires j <= |r| && Title(m.entries) == Some(name) && |Keys(r[..j])| == index
    requires forall i :: 0 <= i < |r| ==> Title(r[i].entries) != Some(name)
    ensures index <= |Keys(r)|
    ensures var at := index - if UntitledBefore(r, index) then 1 else 0;
            && 0 <= at <= |Names(r)|
            && Names(r[..j] + [m] + r[j..]) == Names(r)[..at] + [name] + Names(r)[at..]
  {
    hide Title;
    var a, b := r[..j], r[j..];
    assert a + b == r;
    KeysInsert(a, m, b);
    var k := Keys(r);
    KeysDistinct(a);
    SomesSize(Keys(a));
    SomesAppend(k[..index], k[index..]);
    assert k[..index] + k[index..] == k;
    SomesAppend(k[..index] + [Some(name)], k[index..]);
    SomesAppend(k[..index], [Some(name)]);
    assert [Some(name)][1..] == [];
    assert Somes([Some(name)]) == [name];
  }
}
