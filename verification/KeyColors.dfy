/** The browser's reserved key colours: each is pushed away from the plain tint
    and from the keys before it until no two can be confused. */
module KeyColors {

  /** Three channels, 0 to 255. */
  type Rgb = c: seq<int> | |c| == 3 && forall i :: 0 <= i < 3 ==> 0 <= c[i] <= 255 witness [0, 0, 0]

  function Clamp(v: int): (r: int)
    ensures 0 <= r <= 255
  {
    if v < 0 then 0 else if v > 255 then 255 else v
  }

  function ClampLift(v: real): (r: real)
    ensures 0.0 <= r <= 1.0
  {
    (if v < 0.0 then 0.0 else if v > 100.0 then 100.0 else v) / 100.0
  }

  function Abs(v: int): nat {
    if v < 0 then -v else v
  }

  function Max(a: nat, b: nat): nat {
    if a < b then b else a
  }

  function Dist(a: Rgb, b: Rgb): (d: nat)
    ensures forall i :: 0 <= i < 3 ==> Abs(a[i] - b[i]) <= d
    ensures exists i :: 0 <= i < 3 && Abs(a[i] - b[i]) == d
  {
    var d := Max(Max(Abs(a[0] - b[0]), Abs(a[1] - b[1])), Abs(a[2] - b[2]));
    assert d == Abs(a[0] - b[0]) || d == Abs(a[1] - b[1]) || d == Abs(a[2] - b[2]);
    d
  }

  function Nudge(c: Rgb, ch: nat, dir: int): Rgb
    requires ch < 3
  {
    c[ch := Clamp(c[ch] + if c[ch] >= 255 then -1 else dir)]
  }

  const LIGHT_BASE: Rgb := [0xEF, 0xEA, 0xDF]
  const LIFT_SPAN := 0.16

  /** `Math.round`: to the nearest, halves upwards. */
  function Round(x: real): int {
    (x + 0.5).Floor
  }

  function Span(dark: bool): real {
    if dark then LIFT_SPAN else LIFT_SPAN * 2.5
  }

  /** A channel lightened by its region's lift. */
  function Lifted(v: int, lift: real, dark: bool): real {
    v as real + (255 - v) as real * lift * Span(dark)
  }

  lemma LiftedWithin(v: int, lift: real, dark: bool)
    requires 0 <= v <= 255 && 0.0 <= lift <= 1.0
    ensures v as real <= Lifted(v, lift, dark) <= v as real + (255 - v) as real * Span(dark)
    ensures v <= Round(Lifted(v, lift, dark)) <= 255
  {
    hide Lifted, Span, Round;
    var x := Lifted(v, lift, dark);
    SpanSmall(dark);
    LiftedIs(v, lift, dark);
    LiftBounds(v as real, (255 - v) as real, lift, Span(dark), x);
    RoundWithin(x, v, 255);
  }

  lemma LiftBounds(v: real, room: real, lift: real, span: real, x: real)
    requires room >= 0.0 && 0.0 <= lift <= 1.0 && 0.0 <= span <= 1.0 && v + room == 255.0
    requires x == v + room * lift * span
    ensures v <= x <= v + room * span && x <= 255.0
  {
    Scales(room, lift, span);
  }

  lemma SpanSmall(dark: bool)
    ensures 0.0 <= Span(dark) <= 1.0
  {
  }

  lemma LiftedIs(v: int, lift: real, dark: bool)
    ensures Lifted(v, lift, dark) == v as real + (255 - v) as real * lift * Span(dark)
  {
  }

  lemma RoundWithin(x: real, lo: int, hi: int)
    requires lo as real <= x <= hi as real
    ensures lo <= Round(x) <= hi
  {
  }

  lemma Scales(room: real, lift: real, span: real)
    requires room >= 0.0 && 0.0 <= lift <= 1.0 && 0.0 <= span <= 1.0
    ensures 0.0 <= room * lift * span <= room * span <= room
  {
    assert 0.0 <= lift * span <= span by { Less(lift, span); }
    assert room * lift * span == room * (lift * span);
    Between(room, lift * span, span);
    Between(room, span, 1.0);
  }

  lemma Less(lift: real, span: real)
    requires 0.0 <= lift <= 1.0 && 0.0 <= span
    ensures 0.0 <= lift * span <= span
  {
    assert (1.0 - lift) * span >= 0.0;
  }

  lemma Between(room: real, a: real, b: real)
    requires room >= 0.0 && 0.0 <= a <= b
    ensures 0.0 <= room * a <= room * b
  {
    assert room * (b - a) >= 0.0;
  }

  function Intended(tint: Rgb, lift: real, dark: bool): Rgb
    requires 0.0 <= lift <= 1.0
  {
    LiftedWithin(tint[0], lift, dark);
    LiftedWithin(tint[1], lift, dark);
    LiftedWithin(tint[2], lift, dark);
    [Round(Lifted(tint[0], lift, dark)), Round(Lifted(tint[1], lift, dark)), Round(Lifted(tint[2], lift, dark))]
  }

  function Sign(dark: bool): int {
    if dark then 1 else -1
  }

  function Pushed(want: Rgb, dark: bool): Rgb {
    [Clamp(want[0] + 2 * Sign(dark)), Clamp(want[1] + 2 * Sign(dark)), Clamp(want[2] + 2 * Sign(dark))]
  }

  /** The intended colour after `n` pushes. */
  function After(want: Rgb, n: nat, dark: bool): Rgb {
    if n == 0 then want else Pushed(After(want, n - 1, dark), dark)
  }

  ghost predicate Near(placed: seq<Rgb>, c: Rgb) {
    exists p :: p in placed && Dist(p, c) < 2
  }

  // --------------------------------------------------- the counting argument

  /** A channel with room for eight pushes. */
  ghost predicate Room(want: Rgb, c: nat, dark: bool) {
    c < 3 && if dark then want[c] <= 238 else 16 <= want[c] <= 254
  }

  lemma PushedAt(a: Rgb, c: nat, dark: bool)
    requires c < 3
    ensures Pushed(a, dark)[c] == Clamp(a[c] + 2 * Sign(dark))
  {
  }

  lemma {:induction false} Moves(want: Rgb, c: nat, dark: bool, n: nat)
    requires Room(want, c, dark) && n <= 8
    ensures After(want, n, dark)[c] == want[c] + 2 * Sign(dark) * n && After(want, n, dark)[c] < 255
  {
    hide Pushed;
    if n > 0 {
      Moves(want, c, dark, n - 1);
      PushedAt(After(want, n - 1, dark), c, dark);
    }
  }

  lemma NudgedMoves(want: Rgb, c: nat, dark: bool, n: nat, ch: nat)
    requires Room(want, c, dark) && n <= 8 && ch < 3
    ensures Nudge(After(want, n, dark), ch, 1)[c] == want[c] + (if ch == c then 1 else 0) + 2 * Sign(dark) * n
  {
    Moves(want, c, dark, n);
  }

  /** The steps of a walk by twos at which it is within one of `p`. */
  function Close(steps: set<int>, p: int, a: int, s: int): set<int> {
    set n | n in steps && Abs(p - (a + 2 * s * n)) <= 1
  }

  lemma CloseWithin(steps: set<int>, p: int, a: int, s: int)
    ensures Close(steps, p, a, s) <= steps
    ensures forall n :: n in steps && n !in Close(steps, p, a, s) ==> Abs(p - (a + 2 * s * n)) > 1
  {
  }

  lemma CloseAtMostTwice(steps: set<int>, p: int, a: int, s: int)
    requires s == 1 || s == -1
    ensures |Close(steps, p, a, s)| <= 2
  {
    var d := if s == 1 then p - a else a - p;
    var pair := {d / 2, d / 2 + 1};
    assert Close(steps, p, a, s) <= pair;
    SubsetSize(Close(steps, p, a, s), pair);
  }

  lemma SubsetSize(a: set<int>, b: set<int>)
    requires a <= b
    ensures |a| <= |b|
  {
    assert b == a + (b - a) && a !! (b - a);
    assert |b| == |a| + |b - a|;
  }

  function UpTo(k: nat): (r: set<int>)
    ensures |r| == k && forall n :: n in r <==> 0 <= n < k
  {
    if k == 0 then {} else UpTo(k - 1) + {k - 1}
  }

  lemma {:induction false} Member(s: set<int>, k: nat) returns (n: int)
    requires s <= UpTo(k) && |s| > 0
    ensures n in s
  {
    if k == 0 {
      assert false;
    } else if k - 1 in s {
      n := k - 1;
    } else {
      n := Member(s, k - 1);
    }
  }

  /** Each placed value takes away at most two steps, so one is left of more
      than twice as many. */
  lemma {:induction false} FreeStep(steps: set<int>, k: nat, placed: seq<int>, a: int, s: int) returns (n: int)
    requires (s == 1 || s == -1) && steps <= UpTo(k) && |steps| > 2 * |placed|
    ensures n in steps && forall p :: p in placed ==> Abs(p - (a + 2 * s * n)) > 1
    decreases |placed|
  {
    if placed == [] {
      n := Member(steps, k);
    } else {
      hide Close, UpTo;
      var taken := Close(steps, placed[0], a, s);
      CloseAtMostTwice(steps, placed[0], a, s);
      CloseWithin(steps, placed[0], a, s);
      assert |steps - taken| == |steps| - |taken|;
      n := FreeStep(steps - taken, k, placed[1..], a, s);
      forall p | p in placed ensures Abs(p - (a + 2 * s * n)) > 1 {
        assert p == placed[0] || p in placed[1..];
      }
    }
  }

  function Channel(placed: seq<Rgb>, c: nat): (r: seq<int>)
    requires c < 3
    ensures |r| == |placed| && forall i :: 0 <= i < |r| ==> r[i] == placed[i][c]
  {
    if placed == [] then [] else [placed[0][c]] + Channel(placed[1..], c)
  }

  /** With room in one channel, some step within twice the number of colours
      placed is near none of them. */
  lemma SomeStepFree(placed: seq<Rgb>, want: Rgb, c: nat, dark: bool, ch: nat) returns (n: nat)
    requires |placed| <= 4 && Room(want, c, dark) && ch < 3
    ensures n <= 2 * |placed| && !Near(placed, Nudge(After(want, n, dark), ch, 1))
  {
    var a := want[c] + if ch == c then 1 else 0;
    var values := Channel(placed, c);
    n := FreeStep(UpTo(2 * |placed| + 1), 2 * |placed| + 1, values, a, Sign(dark));
    NudgedMoves(want, c, dark, n, ch);
    var q := Nudge(After(want, n, dark), ch, 1);
    forall p | p in placed ensures Dist(p, q) >= 2 {
      var i :| 0 <= i < |placed| && placed[i] == p;
      assert values[i] in values;
      assert Abs(p[c] - q[c]) <= Dist(p, q);
    }
  }

  // ------------------------------------------------------------ one key

  predicate Nearby(placed: seq<Rgb>, c: Rgb)
    ensures Nearby(placed, c) <==> Near(placed, c)
  {
    if placed == [] then false
    else
      assert placed == [placed[0]] + placed[1..];
      assert Near(placed, c) <==> Dist(placed[0], c) < 2 || Near(placed[1..], c);
      Dist(placed[0], c) < 2 || Nearby(placed[1..], c)
  }

  /** The key is the intended colour after `n` pushes, one unit off in its
      channel, and `n` the first that is near nothing placed, or forty. */
  ghost predicate IsKey(placed: seq<Rgb>, want: Rgb, ch: nat, dark: bool, key: Rgb, n: nat)
    requires ch < 3
  {
    && n <= 40 && key == Nudge(After(want, n, dark), ch, 1) && (n < 40 ==> !Near(placed, key))
    && forall k :: 0 <= k < n ==> Near(placed, Nudge(After(want, k, dark), ch, 1))
  }

  /** The push-apart loop. */
  method Separate(placed: seq<Rgb>, want: Rgb, ch: nat, dark: bool) returns (nudged: Rgb, n: nat)
    requires ch < 3
    ensures IsKey(placed, want, ch, dark, nudged, n)
  {
    hide After, Pushed, Nudge, Dist, Nearby, Near;
    AfterStep(want, 0, dark);
    var moved := want;
    nudged := Nudge(moved, ch, 1);
    n := 0;
    while n < 40 && Nearby(placed, nudged)
      invariant n <= 40 && moved == After(want, n, dark) && nudged == Nudge(moved, ch, 1)
      invariant forall k :: 0 <= k < n ==> Near(placed, Nudge(After(want, k, dark), ch, 1))
    {
      AfterStep(want, n, dark);
      moved := Pushed(moved, dark);
      nudged := Nudge(moved, ch, 1);
      n := n + 1;
    }
  }

  lemma AfterStep(want: Rgb, n: nat, dark: bool)
    ensures After(want, 0, dark) == want && After(want, n + 1, dark) == Pushed(After(want, n, dark), dark)
  {
  }

  /** With room in one channel the loop ends early, at a colour near none. */
  lemma SeparatesSoon(placed: seq<Rgb>, want: Rgb, c: nat, ch: nat, dark: bool, nudged: Rgb, n: nat)
    requires |placed| <= 4 && Room(want, c, dark) && ch < 3 && IsKey(placed, want, ch, dark, nudged, n)
    ensures n <= 2 * |placed| && !Near(placed, nudged)
  {
    hide After, Nudge, Near;
    var free := SomeStepFree(placed, want, c, dark, ch);
  }

  // ------------------------------------------------------------ all four

  /** The lifts of the regions of the base, field, popup and panel keys. */
  type Lifts = l: seq<real> | |l| == 4 witness [0.0, 0.0, 0.0, 0.0]

  const CHANNELS: seq<nat> := [0, 1, 2, 0]

  /** The tint and the keys placed so far: the base one unit from the tint, and
      no other two within one unit. */
  ghost predicate Apart(placed: seq<Rgb>) {
    && (|placed| >= 2 ==> Dist(placed[0], placed[1]) == 1)
    && forall i, j :: 0 <= i < j < |placed| && j >= 2 ==> Dist(placed[i], placed[j]) >= 2
  }

  // --------------------------------------------------- the growth argument

  lemma {:induction false} AfterUp(want: Rgb, c: nat, n: nat)
    requires c < 3 && want[c] + 2 * n <= 255
    ensures After(want, n, true)[c] == want[c] + 2 * n
  {
    if n > 0 {
      AfterUp(want, c, n - 1);
    }
  }

  lemma NudgedUp(want: Rgb, c: nat, n: nat, ch: nat)
    requires c < 3 && ch < 3 && want[c] + (if ch == c then 1 else 0) + 2 * n <= 255
    ensures Nudge(After(want, n, true), ch, 1)[c] == want[c] + (if ch == c then 1 else 0) + 2 * n
  {
    AfterUp(want, c, n);
  }

  lemma {:induction false} AfterMost(want: Rgb, c: nat, n: nat)
    requires c < 3
    ensures After(want, n, true)[c] == if want[c] + 2 * n <= 255 then want[c] + 2 * n else 255
  {
    if n > 0 {
      AfterMost(want, c, n - 1);
    }
  }

  /** The same at the end of a channel that the key is not nudged in: 255 is two
      above what is placed. */
  lemma GrowthAtEnd(placed: seq<Rgb>, want: Rgb, c: nat, ch: nat, key: Rgb, n: nat)
    requires c < 3 && ch < 3 && ch != c && IsKey(placed, want, ch, true, key, n)
    requires forall p :: p in placed ==> p[c] <= 253
    requires 244 <= want[c]
    ensures n <= 6 && !Near(placed, key)
  {
    hide After, Near;
    AfterMost(want, c, 6);
    var q := Nudge(After(want, 6, true), ch, 1);
    assert q[c] == 255;
    forall p | p in placed ensures Dist(p, q) >= 2 {
      assert Abs(p[c] - q[c]) <= Dist(p, q);
    }
    assert !Near(placed, q) by { NoneNear(placed, q); }
    assert n <= 6;
  }

  /** In a channel where nothing placed is above `top`, a key ends no more than
      three above it: two above it is already far from everything. */
  lemma Growth(placed: seq<Rgb>, want: Rgb, c: nat, ch: nat, key: Rgb, n: nat, top: int)
    requires c < 3 && ch < 3 && IsKey(placed, want, ch, true, key, n)
    requires forall p :: p in placed ==> p[c] <= top
    requires top - 9 <= want[c] <= top + 2 && top + 3 <= 255
    ensures n <= 6 && !Near(placed, key) && key[c] <= top + 3
  {
    hide After, Nudge, Near;
    var a := want[c] + if ch == c then 1 else 0;
    var m: nat := if a >= top + 2 then 0 else (top + 3 - a) / 2;
    NudgedUp(want, c, m, ch);
    var q := Nudge(After(want, m, true), ch, 1);
    assert top + 2 <= q[c] <= top + 3;
    forall p | p in placed ensures Dist(p, q) >= 2 {
      assert Abs(p[c] - q[c]) <= Dist(p, q);
    }
    assert !Near(placed, q) by { NoneNear(placed, q); }
    assert n <= m;
    NudgedUp(want, c, n, ch);
  }

  lemma NoneNear(placed: seq<Rgb>, q: Rgb)
    requires forall p :: p in placed ==> Dist(p, q) >= 2
    ensures !Near(placed, q)
  {
    hide Dist;
  }

  // ------------------------------------------------------- the four together

  /** What the four keys are. */
  ghost predicate KeysOf(tint: Rgb, lifts: Lifts, dark: bool, keys: seq<Rgb>, steps: seq<nat>) {
    && |keys| == |steps| == 4 && keys[0] == Nudge(tint, 0, 1) && steps[0] == 0
    && forall i :: 1 <= i < 4 ==>
         IsKey([tint] + keys[..i], Intended(tint, ClampLift(lifts[i]), dark), CHANNELS[i], dark, keys[i], steps[i])
  }

  /** A channel of the tint on its way to white: by up to 16 hundredths of what
      is left in dark mode and 40 in light mode, as the lift of 0 to 100 says. */
  ghost function Lightened(v: int, lift: real, dark: bool): real {
    var share := if lift < 0.0 then 0.0 else if lift > 100.0 then 1.0 else lift / 100.0;
    v as real + (255 - v) as real * share * if dark then 0.16 else 0.4
  }

  /** A channel pushed by twos, upwards in dark mode and else downwards. */
  ghost function Stepped(v: int, n: nat, dark: bool): int {
    if dark then if v + 2 * n > 255 then 255 else v + 2 * n
    else if v - 2 * n < 0 then 0 else v - 2 * n
  }

  /** One up, and from the top one down. */
  ghost function OneOff(v: int): int {
    if v == 255 then 254 else v + 1
  }

  /** The intended colour is the lightened tint to the nearest, halves up. */
  lemma NearestLightened(tint: Rgb, lift: real, dark: bool, c: nat)
    requires c < 3
    ensures var v := Intended(tint, ClampLift(lift), dark)[c] as real;
            v - 0.5 <= Lightened(tint[c], lift, dark) < v + 0.5
  {
    hide Lifted, Lightened, Round, ClampLift;
    LiftedIsLightened(tint[c], lift, dark);
    RoundIs(Lifted(tint[c], ClampLift(lift), dark));
  }

  lemma LiftedIsLightened(v: int, lift: real, dark: bool)
    ensures Lifted(v, ClampLift(lift), dark) == Lightened(v, lift, dark)
  {
    LiftedIs(v, ClampLift(lift), dark);
  }

  lemma RoundIs(x: real)
    ensures Round(x) as real - 0.5 <= x < Round(x) as real + 0.5
  {
  }

  lemma {:induction false} AfterIs(want: Rgb, n: nat, dark: bool, c: nat)
    requires c < 3
    ensures After(want, n, dark)[c] == Stepped(want[c], n, dark)
  {
    hide Pushed;
    if n > 0 {
      AfterIs(want, n - 1, dark, c);
      PushedAt(After(want, n - 1, dark), c, dark);
    }
  }

  /** The keys channel by channel: the first is the tint, one off in red; each
      other is the tint lightened by its region's lift, pushed as often as the
      steps say and one off in green, in blue and in red. */
  lemma KeyChannels(tint: Rgb, lifts: Lifts, dark: bool, keys: seq<Rgb>, steps: seq<nat>, i: nat, c: nat)
    requires KeysOf(tint, lifts, dark, keys, steps) && i < 4 && c < 3
    ensures i == 0 ==> keys[0][c] == if c == 0 then OneOff(tint[0]) else tint[c]
    ensures i > 0 ==>
              exists v: int :: v as real - 0.5 <= Lightened(tint[c], lifts[i], dark) < v as real + 0.5
                && keys[i][c] == if c == [0, 1, 2, 0][i] then OneOff(Stepped(v, steps[i], dark))
                                 else Stepped(v, steps[i], dark)
  {
    hide After, Intended, Near, Lightened, Stepped;
    if i > 0 {
      var want := Intended(tint, ClampLift(lifts[i]), dark);
      NearestLightened(tint, lifts[i], dark, c);
      AfterIs(want, steps[i], dark, c);
      NudgeIs(After(want, steps[i], dark), CHANNELS[i], c);
    } else {
      NudgeIs(tint, 0, c);
    }
  }

  lemma NudgeIs(a: Rgb, ch: nat, c: nat)
    requires ch < 3 && c < 3
    ensures Nudge(a, ch, 1)[c] == if c == ch then OneOff(a[c]) else a[c]
  {
  }

  /** Light mode is always on the fixed base; in dark mode the tint is the
      owner's, and one channel of it must leave room. */
  ghost predicate Roomy(tint: Rgb, dark: bool) {
    if dark then tint[0] <= 245 || tint[1] <= 247 || tint[2] <= 247 else tint == [0xEF, 0xEA, 0xDF]
  }

  /** Enough room for the counting argument. */
  ghost predicate Spacious(tint: Rgb, dark: bool) {
    if dark then exists c :: 0 <= c < 3 && tint[c] <= 235 else tint == LIGHT_BASE
  }

  lemma SpaciousHasRoom(tint: Rgb, lift: real, dark: bool) returns (c: nat)
    requires Spacious(tint, dark) && 0.0 <= lift <= 1.0
    ensures c < 3 && Room(Intended(tint, lift, dark), c, dark)
  {
    if dark {
      c :| 0 <= c < 3 && tint[c] <= 235;
    } else {
      c := 2;
    }
    LiftedWithin(tint[c], lift, dark);
    RoundBelow(tint[c], lift, dark);
  }

  lemma RoundBelow(v: int, lift: real, dark: bool)
    requires 0 <= v <= 255 && 0.0 <= lift <= 1.0 && (if dark then v <= 235 else v == 223)
    ensures if dark then Round(Lifted(v, lift, dark)) <= 238 else 16 <= Round(Lifted(v, lift, dark)) <= 254
  {
    LiftedWithin(v, lift, dark);
    var x := Lifted(v, lift, dark);
    assert v as real + (255 - v) as real * Span(dark) == v as real * (1.0 - Span(dark)) + 255.0 * Span(dark);
    if dark {
      assert v as real * 0.84 <= 197.4;
      assert x <= 238.2;
    } else {
      assert x <= 235.8;
    }
  }

  /** A high channel is lifted by three at most. */
  lemma LiftedLittle(v: int, lift: real)
    requires 236 <= v <= 255 && 0.0 <= lift <= 1.0
    ensures v <= Round(Lifted(v, lift, true)) <= v + 3
    ensures v >= 246 ==> Round(Lifted(v, lift, true)) <= v + 1
    ensures v >= 252 ==> Round(Lifted(v, lift, true)) == v
  {
    LiftedWithin(v, lift, true);
    var x := Lifted(v, lift, true);
    assert (255 - v) as real * Span(true) <= 19.0 * Span(true);
    assert v >= 246 ==> (255 - v) as real * Span(true) <= 9.0 * Span(true);
    assert v >= 252 ==> (255 - v) as real * Span(true) <= 3.0 * Span(true);
  }

  /** How far above the tint the base key and the first lift are taken to be:
      from 246 up a lift adds one at most, and the base key is nudged in the first
      channel only. */
  function Rise(v: int, c: nat): int {
    if c == 0 || v <= 245 then 1 else 0
  }

  /** In a channel from 236 up, while there is room, each key is at most three
      above the ones before it. */
  lemma {:induction false} Rises(tint: Rgb, lifts: Lifts, keys: seq<Rgb>, steps: seq<nat>, c: nat, i: nat)
    requires KeysOf(tint, lifts, true, keys, steps) && c < 3 && 1 <= i <= 4
    requires 236 <= tint[c] && tint[c] + Rise(tint[c], c) + 3 * (i - 1) <= 255
    ensures forall p :: p in [tint] + keys[..i] ==> p[c] <= tint[c] + Rise(tint[c], c) + 3 * (i - 1)
    ensures forall j :: 1 <= j < i ==> steps[j] <= 6 && !Near([tint] + keys[..j], keys[j])
  {
    hide IsKey, Near, Intended, Nudge;
    if i == 1 {
      assert keys[..1] == [keys[0]];
      BaseIsHigh(tint, c);
    } else {
      var k := i - 1;
      Rises(tint, lifts, keys, steps, c, k);
      var want := Intended(tint, ClampLift(lifts[k]), true);
      IntendedIs(tint, ClampLift(lifts[k]), c);
      LiftedLittle(tint[c], ClampLift(lifts[k]));
      Growth([tint] + keys[..k], want, c, CHANNELS[k], keys[k], steps[k],
             tint[c] + Rise(tint[c], c) + 3 * (k - 1));
      assert keys[..i] == keys[..k] + [keys[k]];
    }
  }

  lemma BaseIsHigh(tint: Rgb, c: nat)
    requires c < 3
    ensures Nudge(tint, 0, 1)[c] <= tint[c] + Rise(tint[c], c)
  {
  }

  lemma IntendedIs(tint: Rgb, lift: real, c: nat)
    requires c < 3 && 0.0 <= lift <= 1.0
    ensures Intended(tint, lift, true)[c] == Round(Lifted(tint[c], lift, true))
  {
  }

  lemma EachIsApart(tint: Rgb, lifts: Lifts, dark: bool, keys: seq<Rgb>, steps: seq<nat>, j: nat)
    requires KeysOf(tint, lifts, dark, keys, steps) && Roomy(tint, dark) && 1 <= j < 4
    ensures steps[j] <= 8 && !Near([tint] + keys[..j], keys[j])
  {
    hide IsKey, Near, Intended, Room;
    if Spacious(tint, dark) {
      var c := SpaciousHasRoom(tint, ClampLift(lifts[j]), dark);
      SeparatesSoon([tint] + keys[..j], Intended(tint, ClampLift(lifts[j]), dark), c, CHANNELS[j], dark, keys[j],
        steps[j]);
    } else {
      var c := if tint[0] <= 245 then 0 else if tint[1] <= 247 then 1 else 2;
      assert tint[c] > 235;
      if tint[c] <= 245 || j < 3 {
        Rises(tint, lifts, keys, steps, c, j + 1);
      } else {
        Rises(tint, lifts, keys, steps, c, 3);
        IntendedIs(tint, ClampLift(lifts[3]), c);
        LiftedLittle(tint[c], ClampLift(lifts[3]));
        GrowthAtEnd([tint] + keys[..3], Intended(tint, ClampLift(lifts[3]), true), c, CHANNELS[3], keys[3], steps[3]);
      }
    }
  }

  lemma {:induction false} AllApart(tint: Rgb, lifts: Lifts, dark: bool, keys: seq<Rgb>, steps: seq<nat>, i: nat)
    requires KeysOf(tint, lifts, dark, keys, steps) && Roomy(tint, dark) && 1 <= i <= 4
    ensures Apart([tint] + keys[..i])
    ensures forall j :: 0 <= j < i ==> steps[j] <= 8
  {
    hide IsKey, Near, Roomy, Apart, Nudge, Dist;
    if i == 1 {
      BaseIsOneAway(tint);
      FirstApart(tint, keys[0]);
      assert [tint] + keys[..1] == [tint, keys[0]];
    } else {
      AllApart(tint, lifts, dark, keys, steps, i - 1);
      EachIsApart(tint, lifts, dark, keys, steps, i - 1);
      AddApart([tint] + keys[..i - 1], keys[i - 1]);
      assert [tint] + keys[..i] == [tint] + keys[..i - 1] + [keys[i - 1]];
    }
  }

  /** `keyColors`: the four keys, and how many pushes each took. */
  method KeyColors(tint: Rgb, lifts: Lifts, dark: bool) returns (keys: seq<Rgb>, steps: seq<nat>)
    ensures KeysOf(tint, lifts, dark, keys, steps) && Dist(tint, keys[0]) == 1
    ensures Roomy(tint, dark) ==> Apart([tint] + keys) && forall i :: 0 <= i < 4 ==> steps[i] <= 8
    ensures dark && Whitish(tint) ==> !Apart([tint] + keys)
  {
    hide Nudge, Dist, Intended, After, Near, Roomy, Apart, ClampLift, IsKey, Whitish;
    var base := Nudge(tint, 0, 1);
    BaseIsOneAway(tint); // so the other nudge, for a base on the tint itself, is never taken
    var placed := [tint, base];
    keys, steps := [base], [0];
    for id := 1 to 4
      invariant |keys| == |steps| == id && placed == [tint] + keys && keys[0] == base && steps[0] == 0
      invariant forall i :: 1 <= i < id ==>
                  IsKey([tint] + keys[..i], Intended(tint, ClampLift(lifts[i]), dark), CHANNELS[i], dark,
                    keys[i], steps[i])
    {
      var want := Intended(tint, ClampLift(lifts[id]), dark);
      var nudged, n := Separate(placed, want, CHANNELS[id], dark);
      assert keys[..id] == keys;
      ghost var before := keys;
      placed := placed + [nudged];
      keys := keys + [nudged];
      steps := steps + [n];
      assert forall i :: 1 <= i <= id ==> keys[..i] == before[..i];
    }
    assert keys[..4] == keys;
    if Roomy(tint, dark) {
      AllApart(tint, lifts, dark, keys, steps, 4);
    }
    if dark && Whitish(tint) {
      WhiteHasNoRoom(tint, lifts, keys, steps);
    }
  }

  lemma BaseIsOneAway(tint: Rgb)
    ensures Dist(tint, Nudge(tint, 0, 1)) == 1
  {
  }

  lemma FirstApart(tint: Rgb, base: Rgb)
    requires Dist(tint, base) == 1
    ensures Apart([tint, base])
  {
  }

  lemma AddApart(placed: seq<Rgb>, c: Rgb)
    requires |placed| >= 2 && Apart(placed) && !Near(placed, c)
    ensures Apart(placed + [c])
  {
    var all := placed + [c];
    forall i, j | 0 <= i < j < |all| && j >= 2 ensures Dist(all[i], all[j]) >= 2 {
      assert all[i] in placed;
    }
  }

  // ------------------------------------------------------ tints without room

  /** White or nearly so. */
  ghost predicate Whitish(tint: Rgb) {
    forall c :: 0 <= c < 3 ==> tint[c] >= 252
  }

  /** No lift moves such a tint, and after two pushes it is white: the pushes lead
      to two other colours at most. */
  lemma {:induction false} TwoLevels(tint: Rgb, lift: real, n: nat)
    requires Whitish(tint) && 0.0 <= lift <= 1.0
    ensures Intended(tint, lift, true) == tint
    ensures After(tint, n, true) == if n == 0 then tint else if n == 1 then Pushed(tint, true) else [255, 255, 255]
  {
    hide Lifted, Round;
    LiftedLittle(tint[0], lift);
    LiftedLittle(tint[1], lift);
    LiftedLittle(tint[2], lift);
    if n > 0 {
      TwoLevels(tint, lift, n - 1);
    }
  }

  /** Two keys nudged off one colour are within one unit. */
  lemma SameLevel(c: Rgb, g: nat, h: nat)
    requires g < 3 && h < 3
    ensures Dist(Nudge(c, g, 1), Nudge(c, h, 1)) <= 1 && Dist(c, Nudge(c, g, 1)) <= 1
  {
  }

  /** A tint that is white or nearly so leaves no room: whatever the lifts, two of
      the four keys and the tint can be confused. */
  lemma WhiteHasNoRoom(tint: Rgb, lifts: Lifts, keys: seq<Rgb>, steps: seq<nat>)
    requires KeysOf(tint, lifts, true, keys, steps) && Whitish(tint)
    ensures !Apart([tint] + keys)
  {
    hide Nudge, Dist, Intended, After, Near, ClampLift, Pushed, Whitish;
    var all := [tint] + keys;
    forall i | 1 <= i < 4
      ensures all[i + 1] == Nudge(After(tint, steps[i], true), CHANNELS[i], 1)
      ensures After(tint, steps[i], true) in [tint, Pushed(tint, true), [255, 255, 255]]
    {
      assert IsKey([tint] + keys[..i], Intended(tint, ClampLift(lifts[i]), true), CHANNELS[i], true, keys[i], steps[i]);
      TwoLevels(tint, ClampLift(lifts[i]), steps[i]);
    }
    var a, b, c := After(tint, steps[1], true), After(tint, steps[2], true), After(tint, steps[3], true);
    if a == tint {
      SameLevel(tint, 1, 1);
      assert Dist(all[0], all[2]) < 2;
    } else if b == tint {
      SameLevel(tint, 2, 2);
      assert Dist(all[0], all[3]) < 2;
    } else if c == tint {
      SameLevel(tint, 0, 0);
      assert Dist(all[0], all[4]) < 2;
    } else if a == b {
      SameLevel(a, 1, 2);
      assert Dist(all[2], all[3]) < 2;
    } else if a == c {
      SameLevel(a, 1, 0);
      assert Dist(all[2], all[4]) < 2;
    } else {
      SameLevel(b, 2, 0);
      assert Dist(all[3], all[4]) < 2;
    }
  }

  // ------------------------------------------- between, where the lifts decide

  lemma KeyIs(placed: seq<Rgb>, want: Rgb, ch: nat, key: Rgb, n: nat, m: nat)
    requires ch < 3 && m < 40 && IsKey(placed, want, ch, true, key, n)
    requires !Near(placed, Nudge(After(want, m, true), ch, 1))
    requires forall k :: 0 <= k < m ==> Near(placed, Nudge(After(want, k, true), ch, 1))
    ensures key == Nudge(After(want, m, true), ch, 1)
  {
    hide Near, Nudge, After;
    var q := Nudge(After(want, n, true), ch, 1);
    assert key == q;
  }

  /** The colours the first pushes of the two intended colours lead to, nudged in
      one channel. */
  lemma FirstPushes(ch: nat)
    requires ch < 3
    ensures forall k :: 0 <= k < 4 ==> Nudge(After(TINT, k, true), ch, 1) == Up(
              if k == 0 then [246, 253, 254] else if k == 1 then [248, 255, 255] else if k == 2 then [250, 255, 255]
              else [252, 255, 255], ch)
    ensures forall k :: 0 <= k < 4 ==> Nudge(After([247, 253, 254], k, true), ch, 1) == Up(
              if k == 0 then [247, 253, 254] else if k == 1 then [249, 255, 255] else if k == 2 then [251, 255, 255]
              else [253, 255, 255], ch)
  {
    hide After, Nudge, Up;
    FourAfter();
    forall c: Rgb ensures Nudge(c, ch, 1) == Up(c, ch) {
      NudgeUp(c, ch);
    }
  }

  lemma NudgeUp(c: Rgb, ch: nat)
    requires ch < 3
    ensures Nudge(c, ch, 1) == Up(c, ch)
  {
  }

  lemma FourAfter()
    ensures After(TINT, 0, true) == [246, 253, 254] && After(TINT, 1, true) == [248, 255, 255]
    ensures After(TINT, 2, true) == [250, 255, 255] && After(TINT, 3, true) == [252, 255, 255]
    ensures After([247, 253, 254], 0, true) == [247, 253, 254] && After([247, 253, 254], 1, true) == [249, 255, 255]
    ensures After([247, 253, 254], 2, true) == [251, 255, 255] && After([247, 253, 254], 3, true) == [253, 255, 255]
  {
    hide After;
    AfterStep(TINT, 0, true);
    AfterStep(TINT, 1, true);
    AfterStep(TINT, 2, true);
    var lifted: Rgb := [247, 253, 254];
    AfterStep(lifted, 0, true);
    AfterStep(lifted, 1, true);
    AfterStep(lifted, 2, true);
  }

  /** A colour one unit off in one channel. */
  function Up(c: Rgb, ch: nat): Rgb
    requires ch < 3
  {
    c[ch := if c[ch] == 255 then 254 else c[ch] + 1]
  }

  lemma IsNear(placed: seq<Rgb>, p: Rgb, c: Rgb)
    requires p in placed && Dist(p, c) < 2
    ensures Near(placed, c)
  {
    hide Dist;
  }

  const TINT: Rgb := [246, 253, 254]

  lemma TintLifted(lift: real)
    requires lift == 0.0 || lift == 100.0
    ensures Intended(TINT, ClampLift(lift), true) == if lift == 0.0 then TINT else [247, 253, 254]
  {
  }

  lemma FieldKey(lifts: Lifts, keys: seq<Rgb>, steps: seq<nat>)
    requires KeysOf(TINT, lifts, true, keys, steps) && lifts[1] == 0.0
    ensures keys[0] == [247, 253, 254] && keys[1] == [250, 254, 255]
  {
    hide Near, After, Intended, Dist, IsKey, Nudge;
    var placed: seq<Rgb> := [TINT, [247, 253, 254]];
    TintLifted(0.0);
    FirstPushes(1);
    assert Up([246, 253, 254], 1) == [246, 254, 254] && Up([248, 255, 255], 1) == [248, 254, 255];
    assert Up([250, 255, 255], 1) == [250, 254, 255] && Up([246, 253, 254], 0) == [247, 253, 254];
    assert keys[0] == [247, 253, 254] by { FirstPushes(0); AfterStep(TINT, 0, true); }
    assert [TINT] + keys[..1] == placed;
    assert Dist(TINT, [246, 254, 254]) < 2 && Dist([247, 253, 254], [248, 254, 255]) < 2 by { SmallDistances(); }
    IsNear(placed, TINT, [246, 254, 254]);
    IsNear(placed, [247, 253, 254], [248, 254, 255]);
    assert !Near(placed, [250, 254, 255]) by { FieldFree(); }
    KeyIs(placed, TINT, 1, keys[1], steps[1], 2);
  }

  lemma SmallDistances()
    ensures Dist(TINT, [246, 254, 254]) < 2 && Dist([247, 253, 254], [248, 254, 255]) < 2
  {
  }

  lemma FieldFree()
    ensures !Near([TINT, [247, 253, 254]], [250, 254, 255])
  {
  }

  lemma FlatPopup(lifts: Lifts, keys: seq<Rgb>, steps: seq<nat>)
    requires KeysOf(TINT, lifts, true, keys, steps) && lifts[1] == 0.0 && lifts[2] == 0.0
    ensures keys[0] == [247, 253, 254] && keys[1] == [250, 254, 255] && keys[2] == [248, 255, 254]
  {
    hide Near, After, Intended, Dist, IsKey, Nudge;
    FieldKey(lifts, keys, steps);
    TintLifted(0.0);
    FirstPushes(2);
    var three: seq<Rgb> := [TINT, [247, 253, 254], [250, 254, 255]];
    assert Up([246, 253, 254], 2) == [246, 253, 255] && Up([248, 255, 255], 2) == [248, 255, 254];
    assert [TINT] + keys[..2] == three;
    IsNear(three, TINT, [246, 253, 255]) by { FlatDistances(); }
    assert !Near(three, [248, 255, 254]) by { FlatFree(); }
    KeyIs(three, TINT, 2, keys[2], steps[2], 1);
  }

  lemma FlatSidebar(lifts: Lifts, keys: seq<Rgb>, steps: seq<nat>)
    requires KeysOf(TINT, lifts, true, keys, steps) && forall i :: 0 <= i < 4 ==> lifts[i] == 0.0
    ensures keys[3] == [253, 255, 255]
  {
    hide Near, After, Intended, Dist, IsKey, Nudge;
    FlatPopup(lifts, keys, steps);
    TintLifted(0.0);
    FirstPushes(0);
    var four: seq<Rgb> := [TINT, [247, 253, 254], [250, 254, 255], [248, 255, 254]];
    assert [TINT] + keys[..3] == four;
    assert Up([246, 253, 254], 0) == [247, 253, 254] && Up([248, 255, 255], 0) == [249, 255, 255];
    assert Up([250, 255, 255], 0) == [251, 255, 255] && Up([252, 255, 255], 0) == [253, 255, 255];
    IsNear(four, four[1], four[1]) by { FlatDistances(); }
    IsNear(four, four[2], [249, 255, 255]) by { FlatDistances(); }
    IsNear(four, four[2], [251, 255, 255]) by { FlatDistances(); }
    assert !Near(four, [253, 255, 255]) by { FlatFree(); }
    KeyIs(four, TINT, 0, keys[3], steps[3], 3);
  }

  /** With every lift at 0 the keys of this tint come apart. */
  lemma FlatComesApart(lifts: Lifts, keys: seq<Rgb>, steps: seq<nat>)
    requires KeysOf(TINT, lifts, true, keys, steps) && forall i :: 0 <= i < 4 ==> lifts[i] == 0.0
    ensures Apart([TINT] + keys)
  {
    hide Near, Dist, IsKey, Apart, Nudge;
    var b, f, p, s: Rgb := [247, 253, 254], [250, 254, 255], [248, 255, 254], [253, 255, 255];
    FlatPopup(lifts, keys, steps);
    FlatSidebar(lifts, keys, steps);
    BaseIsOneAway(TINT);
    FirstApart(TINT, b);
    FieldFree();
    FlatFree();
    AddApart([TINT, b], f);
    assert [TINT, b] + [f] == [TINT, b, f];
    AddApart([TINT, b, f], p);
    assert [TINT, b, f] + [p] == [TINT, b, f, p];
    AddApart([TINT, b, f, p], s);
    assert [TINT] + keys == [TINT, b, f, p] + [s];
  }

  lemma FlatDistances()
    ensures Dist(TINT, [246, 253, 255]) < 2 && Dist([247, 253, 254], [247, 253, 254]) < 2
    ensures Dist([250, 254, 255], [249, 255, 255]) < 2 && Dist([250, 254, 255], [251, 255, 255]) < 2
  {
  }

  lemma FlatFree()
    ensures !Near([TINT, [247, 253, 254], [250, 254, 255]], [248, 255, 254])
    ensures !Near([TINT, [247, 253, 254], [250, 254, 255], [248, 255, 254]], [253, 255, 255])
  {
  }

  /** With the popups' and the sidebar's lift at 100 the last key of the same tint
      finds no place. */
  lemma LiftedDoesNot(lifts: Lifts, keys: seq<Rgb>, steps: seq<nat>)
    requires KeysOf(TINT, lifts, true, keys, steps) && lifts == [0.0, 0.0, 100.0, 100.0]
    ensures !Apart([TINT] + keys)
  {
    hide Near, After, Intended, Dist, IsKey, Apart, Nudge;
    var b, f, p: Rgb := [247, 253, 254], [250, 254, 255], [253, 255, 254];
    var want: Rgb := [247, 253, 254];
    FieldKey(lifts, keys, steps);
    TintLifted(100.0);
    PopupKey(lifts, keys, steps);
    var four: seq<Rgb> := [TINT, b, f, p];
    assert [TINT] + keys[..3] == four;
    assert IsKey(four, want, 0, true, keys[3], steps[3]);
    assert keys[3] == Nudge(After(want, steps[3], true), 0, 1) by { KeyOf(four, want, 0, keys[3], steps[3]); }
    SidebarNear(steps[3]);
    var q :| q in four && Dist(q, keys[3]) < 2;
    var all := [TINT] + keys;
    var i :| 0 <= i < 4 && four[i] == q;
    assert all[i] == q && all[4] == keys[3];
    NotApart(all, i, 4);
  }

  lemma KeyOf(placed: seq<Rgb>, want: Rgb, ch: nat, key: Rgb, n: nat)
    requires ch < 3 && IsKey(placed, want, ch, true, key, n)
    ensures key == Nudge(After(want, n, true), ch, 1)
  {
  }

  lemma NotApart(placed: seq<Rgb>, i: nat, j: nat)
    requires i < j < |placed| && j >= 2 && Dist(placed[i], placed[j]) < 2
    ensures !Apart(placed)
  {
    hide Dist;
  }

  lemma PopupKey(lifts: Lifts, keys: seq<Rgb>, steps: seq<nat>)
    requires KeysOf(TINT, lifts, true, keys, steps) && lifts[1] == 0.0 && lifts[2] == 100.0
    ensures keys[2] == [253, 255, 254]
  {
    hide Near, After, Intended, Dist, IsKey, Nudge;
    var b, f, want: Rgb := [247, 253, 254], [250, 254, 255], [247, 253, 254];
    FieldKey(lifts, keys, steps);
    TintLifted(100.0);
    FirstPushes(2);
    assert Up([247, 253, 254], 2) == [247, 253, 255] && Up([249, 255, 255], 2) == [249, 255, 254];
    assert Up([251, 255, 255], 2) == [251, 255, 254] && Up([253, 255, 255], 2) == [253, 255, 254];
    var three: seq<Rgb> := [TINT, b, f];
    assert [TINT] + keys[..2] == three;
    IsNear(three, b, [247, 253, 255]) by { PopupDistances(); }
    IsNear(three, f, [249, 255, 254]) by { PopupDistances(); }
    IsNear(three, f, [251, 255, 254]) by { PopupDistances(); }
    assert !Near(three, [253, 255, 254]) by { PopupFree(); }
    KeyIs(three, want, 2, keys[2], steps[2], 3);
  }

  lemma PopupDistances()
    ensures Dist([247, 253, 254], [247, 253, 255]) < 2
    ensures Dist([250, 254, 255], [249, 255, 254]) < 2 && Dist([250, 254, 255], [251, 255, 254]) < 2
  {
  }

  lemma PopupFree()
    ensures !Near([TINT, [247, 253, 254], [250, 254, 255]], [253, 255, 254])
  {
  }

  lemma {:induction false} SidebarPushes(n: nat)
    ensures After([247, 253, 254], n, true)
            == if n == 0 then [247, 253, 254] else if n == 1 then [249, 255, 255] else if n == 2 then [251, 255, 255]
               else if n == 3 then [253, 255, 255] else [255, 255, 255]
  {
    if n > 0 {
      SidebarPushes(n - 1);
    }
  }

  /** Wherever the loop stops, the last key is near one of the others. */
  lemma SidebarNear(n: nat)
    ensures var key := Nudge(After([247, 253, 254], n, true), 0, 1);
            exists q :: q in [TINT, [247, 253, 254], [250, 254, 255], [253, 255, 254]] && Dist(q, key) < 2
  {
    hide After;
    SidebarPushes(n);
    var key := Nudge(After([247, 253, 254], n, true), 0, 1);
    var four: seq<Rgb> := [TINT, [247, 253, 254], [250, 254, 255], [253, 255, 254]];
    var q: Rgb := if n == 0 then four[1] else if n == 1 then four[2] else four[3];
    assert q in four && Dist(q, key) < 2;
  }
}
