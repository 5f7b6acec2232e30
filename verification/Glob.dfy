/** Output patterns: `*` matches any run of characters, the rest is literal. */
module Glob {
  import opened Options

  const STAR := '*'

  function Stars(p: string): nat {
    if p == "" then 0 else (if p[0] == STAR then 1 else 0) + Stars(p[1..])
  }

  /** The pattern with its stars replaced, in order, by `fills`. */
  function Fill(p: string, fills: seq<string>): string
    requires |fills| == Stars(p)
  {
    if p == "" then ""
    else if p[0] == STAR then fills[0] + Fill(p[1..], fills[1..])
    else [p[0]] + Fill(p[1..], fills)
  }

  /** What the documentation promises: some text for each star makes the
      pattern the text. */
  ghost predicate Matches(p: string, t: string) {
    exists fills: seq<string> :: |fills| == Stars(p) && Fill(p, fills) == t
  }

  /** The same, one pattern character at a time. */
  ghost predicate Match(p: string, t: string)
    decreases |p|
  {
    if p == "" then t == ""
    else if p[0] == STAR then exists k :: 0 <= k <= |t| && Match(p[1..], t[k..])
    else t != "" && t[0] == p[0] && Match(p[1..], t[1..])
  }

  lemma {:induction false} FilledMatches(p: string, fills: seq<string>)
    requires |fills| == Stars(p)
    ensures Match(p, Fill(p, fills))
    decreases |p|
  {
    if p != "" {
      var t := Fill(p, fills);
      if p[0] == STAR {
        FilledMatches(p[1..], fills[1..]);
        assert t[|fills[0]|..] == Fill(p[1..], fills[1..]);
      } else {
        FilledMatches(p[1..], fills);
        assert t[1..] == Fill(p[1..], fills);
      }
    }
  }

  lemma {:induction false} MatchFills(p: string, t: string) returns (fills: seq<string>)
    requires Match(p, t)
    ensures |fills| == Stars(p) && Fill(p, fills) == t
    decreases |p|
  {
    if p == "" {
      fills := [];
    } else if p[0] == STAR {
      var k :| 0 <= k <= |t| && Match(p[1..], t[k..]);
      var rest := MatchFills(p[1..], t[k..]);
      fills := [t[..k]] + rest;
      assert fills[1..] == rest && t == t[..k] + t[k..];
    } else {
      fills := MatchFills(p[1..], t[1..]);
      assert t == [t[0]] + t[1..];
    }
  }

  lemma MatchIsMatches(p: string, t: string)
    ensures Match(p, t) <==> Matches(p, t)
  {
    if Match(p, t) {
      var fills := MatchFills(p, t);
    }
    if Matches(p, t) {
      var fills: seq<string> :| |fills| == Stars(p) && Fill(p, fills) == t;
      FilledMatches(p, fills);
    }
  }

  // ------------------------------------------------------ string helpers

  predicate StartsWith(t: string, p: string) {
    |p| <= |t| && t[..|p|] == p
  }

  predicate EndsWith(t: string, p: string) {
    |p| <= |t| && t[|t| - |p|..] == p
  }

  predicate OccursAt(t: string, p: string, k: nat) {
    k + |p| <= |t| && t[k..k + |p|] == p
  }

  /** The leftmost place `p` occurs at, from `from` on. */
  function Find(t: string, p: string, from: nat): (r: Option<nat>)
    ensures r.Some? ==> r.value >= from && OccursAt(t, p, r.value)
    ensures forall k: nat :: k >= from && (r == None || k < r.value) ==> !OccursAt(t, p, k)
    decreases |t| - from
  {
    if from + |p| > |t| then None
    else if OccursAt(t, p, from) then Some(from)
    else if from == |t| then None
    else Find(t, p, from + 1)
  }

  /** The pieces between the stars. */
  function Split(p: string): (r: seq<string>)
    ensures r != []
    ensures forall i :: 0 <= i < |r| ==> STAR !in r[i]
    ensures p == r[0] + Starred(r[1..])
  {
    if p == "" then [""]
    else
      var rest := Split(p[1..]);
      if p[0] == STAR then
        assert ([""] + rest)[1..] == rest;
        [""] + rest
      else
        var r := [[p[0]] + rest[0]] + rest[1..];
        assert r[1..] == rest[1..];
        r
  }

  lemma {:induction false} SplitStars(p: string)
    ensures |Split(p)| == 1 <==> STAR !in p
    decreases |p|
  {
    if p != "" {
      assert p == [p[0]] + p[1..];
      SplitStars(p[1..]);
    }
  }

  /** The last piece is empty exactly when the pattern ends with a star. */
  lemma {:induction false} SplitEnd(p: string)
    requires STAR in p
    ensures |Split(p)| > 1
    ensures EndsWith(p, [STAR]) <==> Split(p)[|Split(p)| - 1] == ""
    decreases |p|
  {
    SplitStars(p);
    var rest := p[1..];
    EndsWithChar(p);
    if STAR in rest {
      SplitEnd(rest);
      EndsWithChar(rest);
    } else {
      SplitPlain(rest);
      if rest != "" {
        assert rest[|rest| - 1] in rest;
      }
    }
  }

  lemma SplitPlain(p: string)
    requires STAR !in p
    ensures Split(p) == [p]
  {
    SplitStars(p);
    assert Split(p)[1..] == [] && Split(p)[0] + "" == Split(p)[0];
  }

  lemma EndsWithChar(p: string)
    requires p != ""
    ensures EndsWith(p, [STAR]) <==> p[|p| - 1] == STAR
  {
  }

  /** Every piece with a star before it. */
  function Starred(ps: seq<string>): string {
    if ps == [] then "" else [STAR] + ps[0] + Starred(ps[1..])
  }

  lemma StarredStep(ps: seq<string>)
    requires ps != []
    ensures Starred(ps) == [STAR] + (ps[0] + Starred(ps[1..]))
  {
  }

  // ------------------------------------------------------- greedy search

  lemma {:induction false} MatchLiteral(p: string, q: string, t: string)
    requires STAR !in p
    ensures Match(p + q, t) <==> StartsWith(t, p) && Match(q, t[|p|..])
    decreases |p|
  {
    if p == "" {
      assert p + q == q && t[0..] == t;
    } else {
      assert (p + q)[0] == p[0] && (p + q)[1..] == p[1..] + q;
      if t != "" {
        MatchLiteral(p[1..], q, t[1..]);
        StartsWithStep(t, p);
      }
    }
  }

  lemma StartsWithStep(t: string, p: string)
    requires t != "" && p != ""
    ensures StartsWith(t, p) <==> t[0] == p[0] && StartsWith(t[1..], p[1..])
    ensures StartsWith(t, p) ==> t[|p|..] == t[1..][|p| - 1..]
  {
    if t[0] == p[0] && StartsWith(t[1..], p[1..]) {
      assert t[..|p|] == [t[0]] + t[1..][..|p| - 1];
    }
  }

  lemma MatchStar(q: string, t: string)
    ensures Match([STAR] + q, t) <==> exists k :: 0 <= k <= |t| && Match(q, t[k..])
  {
    assert ([STAR] + q)[1..] == q;
  }

  /** A star also swallows what is put in front. */
  lemma StarSwallows(q: string, t: string, k: nat)
    requires k <= |t| && Match([STAR] + q, t[k..])
    ensures Match([STAR] + q, t)
  {
    MatchStar(q, t[k..]);
    var j :| 0 <= j <= |t[k..]| && Match(q, t[k..][j..]);
    assert t[k..][j..] == t[k + j..];
    MatchStar(q, t);
  }

  lemma EmptyPiece(ps: seq<string>, t: string)
    requires |ps| > 1 && ps[0] == ""
    ensures Match(Starred(ps), t) <==> Match(Starred(ps[1..]), t)
  {
    var q := Starred(ps[1..]);
    StarredStep(ps);
    StarredStep(ps[1..]);
    assert ps[0] + q == q;
    MatchStar(q, t);
    if Match(Starred(ps), t) {
      var k :| 0 <= k <= |t| && Match(q, t[k..]);
      StarSwallows(q[1..], t, k);
    }
    if Match(q, t) {
      assert t[0..] == t;
    }
  }

  lemma LastEmptyPiece(t: string)
    ensures Match(Starred([""]), t)
  {
    StarredStep([""]);
    MatchStar("", t);
    assert Match("", t[|t|..]);
  }

  lemma LastPiece(p: string, t: string)
    requires STAR !in p
    ensures Match(Starred([p]), t) <==> EndsWith(t, p)
  {
    StarredStep([p]);
    assert p + Starred([]) == p + "";
    MatchStar(p + "", t);
    forall k | 0 <= k <= |t| ensures Match(p + "", t[k..]) <==> t[k..] == p {
      MatchLiteral(p, "", t[k..]);
    }
    if EndsWith(t, p) {
      assert Match(p + "", t[|t| - |p|..]);
    }
  }

  /** A starred piece occurs somewhere, the rest matching after it. */
  lemma PieceOccurs(p: string, q: string, t: string) returns (k: nat)
    requires STAR !in p && Match([STAR] + (p + q), t)
    ensures OccursAt(t, p, k) && Match(q, t[k + |p|..])
  {
    MatchStar(p + q, t);
    k :| 0 <= k <= |t| && Match(p + q, t[k..]);
    MatchLiteral(p, q, t[k..]);
    assert t[k..][|p|..] == t[k + |p|..] && t[k..][..|p|] == t[k..k + |p|];
  }

  /** Then the rest, which starts with a star, matches after any earlier occurrence too. */
  lemma EarlierServes(q: string, t: string, n: nat, at: nat, k: nat)
    requires q != "" && q[0] == STAR && at <= k && k + n <= |t| && Match(q, t[k + n..])
    ensures Match(q, t[at + n..])
  {
    var tail := t[at + n..];
    assert t[k + n..] == tail[k - at..] && q == [STAR] + q[1..];
    StarSwallows(q[1..], tail, k - at);
  }

  /** An occurrence with the rest matching after it is a match. */
  lemma LeftmostSound(p: string, q: string, t: string, at: nat)
    requires STAR !in p && OccursAt(t, p, at) && Match(q, t[at + |p|..])
    ensures Match([STAR] + (p + q), t)
  {
    assert t[at..][|p|..] == t[at + |p|..] && t[at..][..|p|] == t[at..at + |p|];
    MatchLiteral(p, q, t[at..]);
    MatchStar(p + q, t);
  }

  /** So taking the leftmost occurrence of a piece loses no match. */
  lemma MiddlePiece(ps: seq<string>, t: string)
    requires |ps| > 1 && STAR !in ps[0]
    ensures Match(Starred(ps), t) <==>
              Find(t, ps[0], 0).Some? && Match(Starred(ps[1..]), t[Find(t, ps[0], 0).value + |ps[0]|..])
  {
    StarredStep(ps);
    StarredStep(ps[1..]);
    LeftmostDecides(ps[0], Starred(ps[1..]), t);
  }

  lemma LeftmostDecides(p: string, q: string, t: string)
    requires STAR !in p && q != "" && q[0] == STAR
    ensures Match([STAR] + (p + q), t) <==> Find(t, p, 0).Some? && Match(q, t[Find(t, p, 0).value + |p|..])
  {
    if Match([STAR] + (p + q), t) {
      LeftmostComplete(p, q, t);
    }
    if Find(t, p, 0).Some? && Match(q, t[Find(t, p, 0).value + |p|..]) {
      LeftmostSound(p, q, t, Find(t, p, 0).value);
    }
  }

  lemma LeftmostComplete(p: string, q: string, t: string)
    requires STAR !in p && q != "" && q[0] == STAR && Match([STAR] + (p + q), t)
    ensures Find(t, p, 0).Some? && Match(q, t[Find(t, p, 0).value + |p|..])
  {
    var k := PieceOccurs(p, q, t);
    var at := Find(t, p, 0).value;
    EarlierServes(q, t, |p|, at, k);
  }

  method GlobMatch(pattern: string, text: string) returns (r: bool)
    ensures r <==> Matches(pattern, text)
  {
    MatchIsMatches(pattern, text);
    var parts := Split(pattern);
    var first := parts[0];
    parts := parts[1..];
    MatchLiteral(first, Starred(parts), text);
    if !StartsWith(text, first) {
      return false;
    }
    SplitStars(pattern);
    if STAR !in pattern {
      return |text| == |first|;
    }
    SplitEnd(pattern);
    r := MatchPieces(parts, text[|first|..], EndsWith(pattern, [STAR]));
  }

  /** The loop over the pieces after the first. */
  method MatchPieces(parts: seq<string>, text: string, open: bool) returns (r: bool)
    requires parts != [] && (open <==> parts[|parts| - 1] == "")
    requires forall i :: 0 <= i < |parts| ==> STAR !in parts[i]
    ensures r <==> Match(Starred(parts), text)
  {
    var rest := text;
    for i := 0 to |parts|
      invariant i < |parts| ==> (Match(Starred(parts), text) <==> Match(Starred(parts[i..]), rest))
      invariant i == |parts| ==> Match(Starred(parts), text)
    {
      var p := parts[i];
      ghost var left, after := parts[i..], parts[i + 1..];
      assert left[0] == p && left[1..] == after;
      Piece(left, p, after, rest);
      if p == "" {
        continue;
      }
      if i + 1 == |parts| && !open {
        return EndsWith(rest, p);
      }
      match Find(rest, p, 0)
      case Some(at) =>
        rest := rest[at + |p|..];
      case None =>
        return false;
    }
    return true;
  }

  /** What one piece leaves to decide. */
  lemma Piece(left: seq<string>, p: string, after: seq<string>, t: string)
    requires left != [] && left[0] == p && left[1..] == after && STAR !in p
    ensures p == "" && after == [] ==> Match(Starred(left), t)
    ensures p == "" && after != [] ==> (Match(Starred(left), t) <==> Match(Starred(after), t))
    ensures p != "" && after == [] ==> (Match(Starred(left), t) <==> EndsWith(t, p))
    ensures p != "" && after != [] ==>
              (Match(Starred(left), t) <==>
                Find(t, p, 0).Some? && Match(Starred(after), t[Find(t, p, 0).value + |p|..]))
  {
    if after == [] {
      assert left == [p];
      if p == "" {
        LastEmptyPiece(t);
      } else {
        LastPiece(p, t);
      }
    } else if p == "" {
      EmptyPiece(left, t);
    } else {
      MiddlePiece(left, t);
    }
  }
}
