/** What a command widget runs, as the bytes that are hashed for its approval,
    and the hash as text. */
module WidgetHash {
  import opened Bytes
  import opened Options

  /** A string, as its UTF-8 bytes. */
  type Str = seq<byte>

  const MAX_LEN := 0x1_0000_0000_0000_0000

  predicate StrOk(s: Str) {
    |s| < MAX_LEN
  }

  predicate ListOk(v: seq<Str>) {
    |v| < MAX_LEN && forall i :: 0 <= i < |v| ==> StrOk(v[i])
  }

  datatype Kind = Exec(argv: seq<Str>, intervalMs: nat) | Stream(argv: seq<Str>) | Source

  /** The name and the icon do not run. */
  datatype Widget = Widget(name: Str, icon: Str, kind: Kind, click: Option<seq<Str>>, up: Option<seq<Str>>,
    down: Option<seq<Str>>)

  predicate ActionOk(a: Option<seq<Str>>) {
    a.Some? ==> ListOk(a.value)
  }

  /** Lengths fit in memory, the interval in 32 bits. */
  predicate WidgetOk(w: Widget) {
    && (w.kind.Exec? ==> ListOk(w.kind.argv) && w.kind.intervalMs < 0x1_0000_0000)
    && (w.kind.Stream? ==> ListOk(w.kind.argv))
    && ActionOk(w.click) && ActionOk(w.up) && ActionOk(w.down)
  }

  // ------------------------------------------------------------- encoding

  /** The `n` low bytes, least significant first. */
  function LowBytes(v: nat, n: nat): (r: seq<byte>)
    ensures |r| == n
  {
    if n == 0 then [] else [Low8(v)] + LowBytes(v / 256, n - 1)
  }

  function FromLow(s: seq<byte>): nat {
    if s == [] then 0 else s[0] as nat + 256 * FromLow(s[1..])
  }

  function Pow256(n: nat): nat {
    if n == 0 then 1 else 256 * Pow256(n - 1)
  }

  lemma {:induction false} LowBytesBack(v: nat, n: nat)
    requires v < Pow256(n)
    ensures FromLow(LowBytes(v, n)) == v
  {
    if n > 0 {
      LowBytesBack(v / 256, n - 1);
      assert LowBytes(v, n)[1..] == LowBytes(v / 256, n - 1);
    }
  }

  function Le64(v: nat): (r: seq<byte>)
    ensures |r| == 8
  {
    LowBytes(v, 8)
  }

  lemma Le64Back(v: nat)
    requires v < MAX_LEN
    ensures FromLow(Le64(v)) == v
  {
    assert Pow256(2) == 0x1_0000;
    assert Pow256(4) == 0x1_0000_0000;
    assert Pow256(6) == 0x1_0000_0000_0000;
    LowBytesBack(v, 8);
  }

  function StrBytes(s: Str): seq<byte> {
    Le64(|s|) + s
  }

  function StrsBytes(v: seq<Str>): seq<byte> {
    if v == [] then [] else StrBytes(v[0]) + StrsBytes(v[1..])
  }

  function ListBytes(v: seq<Str>): seq<byte> {
    Le64(|v|) + StrsBytes(v)
  }

  function ActionBytes(a: Option<seq<Str>>): seq<byte> {
    match a
    case None => [0]
    case Some(argv) => [1] + ListBytes(argv)
  }

  const EXEC: Str := [0x65, 0x78, 0x65, 0x63]
  const STREAM: Str := [0x73, 0x74, 0x72, 0x65, 0x61, 0x6D]

  /** The preimage of a widget's hash; none for a declarative widget. */
  function Preimage(w: Widget): Option<seq<byte>> {
    var actions := ActionBytes(w.click) + (ActionBytes(w.up) + ActionBytes(w.down));
    match w.kind
    case Exec(argv, ms) => Some(StrBytes(EXEC) + (ListBytes(argv) + ([1] + (Le64(ms) + actions))))
    case Stream(argv) => Some(StrBytes(STREAM) + (ListBytes(argv) + ([0] + actions)))
    case Source => None
  }

  // -------------------------------------------------------------- decoding

  function ReadStr(s: seq<byte>): (r: Option<(Str, seq<byte>)>) {
    if |s| < 8 || |s| - 8 < FromLow(s[..8]) then None
    else
      var n := FromLow(s[..8]);
      Some((s[8..8 + n], s[8 + n..]))
  }

  function ReadStrs(n: nat, s: seq<byte>): Option<(seq<Str>, seq<byte>)> {
    if n == 0 then Some(([], s))
    else
      match ReadStr(s)
      case None => None
      case Some((first, more)) =>
        match ReadStrs(n - 1, more)
        case None => None
        case Some((others, rest)) => Some(([first] + others, rest))
  }

  function ReadList(s: seq<byte>): Option<(seq<Str>, seq<byte>)> {
    if |s| < 8 then None else ReadStrs(FromLow(s[..8]), s[8..])
  }

  function ReadAction(s: seq<byte>): Option<(Option<seq<Str>>, seq<byte>)> {
    if s == [] then None
    else if s[0] == 0 then Some((None, s[1..]))
    else if s[0] == 1 then
      match ReadList(s[1..])
      case None => None
      case Some((argv, rest)) => Some((Some(argv), rest))
    else None
  }

  /** What runs: a widget without its name and icon. */
  datatype Runnable = Runnable(kind: Kind, click: Option<seq<Str>>, up: Option<seq<Str>>, down: Option<seq<Str>>)

  function Runs(w: Widget): Runnable {
    Runnable(w.kind, w.click, w.up, w.down)
  }

  function ReadActions(kind: Kind, s: seq<byte>): Option<(Runnable, seq<byte>)> {
    match ReadAction(s)
    case None => None
    case Some((click, s1)) =>
      match ReadAction(s1)
      case None => None
      case Some((up, s2)) =>
        match ReadAction(s2)
        case None => None
        case Some((down, rest)) => Some((Runnable(kind, click, up, down), rest))
  }

  /** The kind, the arguments and the interval from the front of `s`. */
  function ReadKind(s: seq<byte>): Option<(Kind, seq<byte>)> {
    match ReadStr(s)
    case None => None
    case Some((name, s1)) =>
      match ReadList(s1)
      case None => None
      case Some((argv, s2)) =>
        if name == [0x65, 0x78, 0x65, 0x63] && |s2| >= 9 && s2[0] == 1 then
          Some((Exec(argv, FromLow(s2[1..9])), s2[9..]))
        else if name == [0x73, 0x74, 0x72, 0x65, 0x61, 0x6D] && s2 != [] && s2[0] == 0 then
          Some((Stream(argv), s2[1..]))
        else None
  }

  function ReadRunnable(s: seq<byte>): Option<(Runnable, seq<byte>)> {
    match ReadKind(s)
    case None => None
    case Some((kind, rest)) => ReadActions(kind, rest)
  }

  lemma StrBack(s: Str, rest: seq<byte>)
    requires StrOk(s)
    ensures ReadStr(StrBytes(s) + rest) == Some((s, rest))
  {
    hide Le64, FromLow;
    Le64Back(|s|);
    var all := StrBytes(s) + rest;
    assert all[..8] == Le64(|s|) && all[8..8 + |s|] == s && all[8 + |s|..] == rest;
  }

  lemma {:induction false} StrsBack(v: seq<Str>, rest: seq<byte>)
    requires forall i :: 0 <= i < |v| ==> StrOk(v[i])
    ensures ReadStrs(|v|, StrsBytes(v) + rest) == Some((v, rest))
    decreases |v|
  {
    hide StrBytes, ReadStr;
    if v == [] {
      assert StrsBytes(v) + rest == rest;
    } else {
      StrBack(v[0], StrsBytes(v[1..]) + rest);
      StrsBack(v[1..], rest);
      Regroup(StrBytes(v[0]), StrsBytes(v[1..]), rest);
      assert v == [v[0]] + v[1..];
    }
  }

  lemma ListBack(v: seq<Str>, rest: seq<byte>)
    requires ListOk(v)
    ensures ReadList(ListBytes(v) + rest) == Some((v, rest))
  {
    hide StrsBytes, Le64, FromLow, ReadStrs;
    Le64Back(|v|);
    StrsBack(v, rest);
    var all := ListBytes(v) + rest;
    assert all[..8] == Le64(|v|) && all[8..] == StrsBytes(v) + rest;
  }

  lemma ActionBack(a: Option<seq<Str>>, rest: seq<byte>)
    requires ActionOk(a)
    ensures ReadAction(ActionBytes(a) + rest) == Some((a, rest))
  {
    hide ListBytes, ReadList;
    var all := ActionBytes(a) + rest;
    if a.Some? {
      ListBack(a.value, rest);
      assert all[1..] == ListBytes(a.value) + rest;
    } else {
      assert all[1..] == rest;
    }
  }

  lemma ActionsBack(w: Widget, kind: Kind, rest: seq<byte>)
    requires ActionOk(w.click) && ActionOk(w.up) && ActionOk(w.down)
    ensures ReadActions(kind, ActionBytes(w.click) + (ActionBytes(w.up) + ActionBytes(w.down)) + rest)
            == Some((Runnable(kind, w.click, w.up, w.down), rest))
  {
    hide ActionBytes, ReadAction, ActionOk;
    var a, b, c := ActionBytes(w.click), ActionBytes(w.up), ActionBytes(w.down);
    Regroup(a, b + c, rest);
    Regroup(b, c, rest);
    ActionBack(w.click, b + (c + rest));
    ActionBack(w.up, c + rest);
    ActionBack(w.down, rest);
  }

  /** A kind's part of the preimage. */
  function KindBytes(k: Kind): seq<byte>
    requires !k.Source?
  {
    match k
    case Exec(argv, ms) => StrBytes(EXEC) + (ListBytes(argv) + ([1] + Le64(ms)))
    case Stream(argv) => StrBytes(STREAM) + (ListBytes(argv) + [0])
  }

  lemma KindBack(k: Kind, rest: seq<byte>)
    requires !k.Source? && ListOk(k.argv) && (k.Exec? ==> k.intervalMs < 0x1_0000_0000)
    ensures ReadKind(KindBytes(k) + rest) == Some((k, rest))
  {
    hide StrBytes, ListBytes, Le64, FromLow, ReadStr, ReadList;
    var name := if k.Exec? then EXEC else STREAM;
    var tail := if k.Exec? then [1] + Le64(k.intervalMs) else [0];
    Regroup(StrBytes(name), ListBytes(k.argv) + tail, rest);
    Regroup(ListBytes(k.argv), tail, rest);
    StrBack(name, ListBytes(k.argv) + (tail + rest));
    ListBack(k.argv, tail + rest);
    if k.Exec? {
      Le64Back(k.intervalMs);
      assert (tail + rest)[1..9] == Le64(k.intervalMs) && (tail + rest)[9..] == rest;
    } else {
      assert (tail + rest)[1..] == rest;
    }
  }

  /** The preimage can be read back from the front of anything it starts. */
  lemma PreimageBack(w: Widget, rest: seq<byte>)
    requires WidgetOk(w) && !w.kind.Source?
    ensures Preimage(w).Some? && ReadRunnable(Preimage(w).value + rest) == Some((Runs(w), rest))
  {
    hide StrBytes, ListBytes, Le64, ActionBytes, ReadKind, ReadActions;
    var actions := ActionBytes(w.click) + (ActionBytes(w.up) + ActionBytes(w.down));
    KindFirst(w, actions);
    KindBack(w.kind, actions + rest);
    Regroup(KindBytes(w.kind), actions, rest);
    ActionsBack(w, w.kind, rest);
  }

  lemma KindFirst(w: Widget, actions: seq<byte>)
    requires !w.kind.Source? && actions == ActionBytes(w.click) + (ActionBytes(w.up) + ActionBytes(w.down))
    ensures Preimage(w) == Some(KindBytes(w.kind) + actions)
  {
    hide StrBytes, ListBytes, Le64, ActionBytes;
    match w.kind
    case Exec(argv, ms) =>
      Regroup(StrBytes(EXEC), ListBytes(argv) + ([1] + Le64(ms)), actions);
      Regroup(ListBytes(argv), [1] + Le64(ms), actions);
      Regroup([1], Le64(ms), actions);
    case Stream(argv) =>
      Regroup(StrBytes(STREAM), ListBytes(argv) + [0], actions);
      Regroup(ListBytes(argv), [0], actions);
  }

  /** Two widgets have one preimage exactly when they run the same; neither
      preimage is a proper start of the other. */
  lemma PreimageMeansRunning(v: Widget, w: Widget)
    requires WidgetOk(v) && WidgetOk(w) && !v.kind.Source? && !w.kind.Source?
    ensures Preimage(v).Some? && Preimage(w).Some?
    ensures Preimage(v) == Preimage(w) <==> Runs(v) == Runs(w)
    ensures Preimage(v).value <= Preimage(w).value ==> Preimage(v) == Preimage(w)
  {
    hide Preimage, ReadRunnable, WidgetOk;
    PreimageBack(v, []);
    PreimageBack(w, []);
    SameRuns(v, w);
    var a, b := Preimage(v).value, Preimage(w).value;
    assert a + [] == a && b + [] == b;
    if a <= b {
      var rest := b[|a|..];
      assert a + rest == b;
      PreimageBack(v, rest);
      assert rest == [];
    }
  }

  lemma SameRuns(v: Widget, w: Widget)
    ensures Runs(v) == Runs(w) ==> Preimage(v) == Preimage(w)
  {
  }

  // ----------------------------------------------------------------- hashes

  const CONTEXT := "EclipseOS 2026-09-26 command widget approval v1"
  const MODEL_COMMAND_CONTEXT := "EclipseOS 2026-10-02 oracle-eyes model command approval v1"
  const QUICK_ACTION_CONTEXT := "EclipseOS 2026-11-03 quick action approval v1"

  type Hash = h: seq<byte> | |h| == 32 witness seq(32, _ => 0)

  /** blake3 in derive-key mode. */
  type Derive = (string, seq<byte>) -> Hash

  /** The hasher, fed piece by piece. */
  class Hasher {
    const context: string
    var fed: seq<byte>

    constructor (context: string)
      ensures this.context == context && fed == []
    {
      this.context := context;
      fed := [];
    }

    method Update(data: seq<byte>)
      modifies this
      ensures fed == old(fed) + data
    {
      fed := fed + data;
    }

    method PutStr(s: Str)
      modifies this
      ensures fed == old(fed) + StrBytes(s)
    {
      Update(Le64(|s|));
      Update(s);
      Regroup(old(fed), Le64(|s|), s);
    }

    method PutList(v: seq<Str>)
      modifies this
      ensures fed == old(fed) + ListBytes(v)
    {
      hide Le64, StrBytes;
      Update(Le64(|v|));
      ghost var start := fed;
      assert StrsBytes([]) == [];
      for i := 0 to |v|
        invariant fed == start + StrsBytes(v[..i])
      {
        PutStr(v[i]);
        StrsAppend(v[..i], v[i]);
        assert v[..i + 1] == v[..i] + [v[i]];
        Regroup(start, StrsBytes(v[..i]), StrBytes(v[i]));
      }
      assert v[..|v|] == v;
      Regroup(old(fed), Le64(|v|), StrsBytes(v));
    }

    method PutAction(a: Option<seq<Str>>)
      modifies this
      ensures fed == old(fed) + ActionBytes(a)
    {
      hide ListBytes;
      match a {
        case None =>
          Update([0]);
        case Some(argv) =>
          Update([1]);
          PutList(argv);
          Regroup(old(fed), [1], ListBytes(argv));
      }
    }
  }

  lemma {:induction false} StrsAppend(v: seq<Str>, s: Str)
    ensures StrsBytes(v + [s]) == StrsBytes(v) + StrBytes(s)
    decreases |v|
  {
    hide StrBytes;
    if v == [] {
      assert v + [s] == [s];
      assert StrsBytes([s]) == StrBytes(s) + StrsBytes([]);
    } else {
      assert (v + [s])[1..] == v[1..] + [s];
      StrsAppend(v[1..], s);
      Regroup(StrBytes(v[0]), StrsBytes(v[1..]), StrBytes(s));
    }
  }

  /** `hash`: of the preimage, under the widgets' own context. */
  method HashOf(w: Widget, derive: Derive) returns (r: Option<Hash>)
    ensures r == match Preimage(w) case None => None
            case Some(p) => Some(derive("EclipseOS 2026-09-26 command widget approval v1", p))
  {
    hide ListBytes, Le64, ActionBytes, StrBytes;
    var h := new Hasher(CONTEXT);
    match w.kind {
      case Exec(argv, ms) =>
        h.PutStr(EXEC);
        h.PutList(argv);
        h.Update([1]);
        h.Update(Le64(ms));
        ExecFed(StrBytes(EXEC), ListBytes(argv), Le64(ms));
      case Stream(argv) =>
        h.PutStr(STREAM);
        h.PutList(argv);
        h.Update([0]);
        StreamFed(StrBytes(STREAM), ListBytes(argv));
      case Source =>
        return None;
    }
    ghost var start := h.fed;
    h.PutAction(w.click);
    h.PutAction(w.up);
    h.PutAction(w.down);
    ghost var a, b, c := ActionBytes(w.click), ActionBytes(w.up), ActionBytes(w.down);
    Regroup(start, a, b);
    Regroup(start, a + b, c);
    Regroup(a, b, c);
    KindFirst(w, a + (b + c));
    r := Some(derive(CONTEXT, h.fed));
  }

  lemma ExecFed(name: seq<byte>, argv: seq<byte>, ms: seq<byte>)
    ensures [] + name + argv + [1] + ms == name + (argv + ([1] + ms))
  {
  }

  lemma StreamFed(name: seq<byte>, argv: seq<byte>)
    ensures [] + name + argv + [0] == name + (argv + [0])
  {
  }

  method ModelCommandHash(argv: seq<Str>, derive: Derive) returns (r: Hash)
    ensures r == derive("EclipseOS 2026-10-02 oracle-eyes model command approval v1", ListBytes(argv))
  {
    r := HashList(argv, MODEL_COMMAND_CONTEXT, derive);
  }

  method QuickActionHash(argv: seq<Str>, derive: Derive) returns (r: Hash)
    ensures r == derive("EclipseOS 2026-11-03 quick action approval v1", ListBytes(argv))
  {
    r := HashList(argv, QUICK_ACTION_CONTEXT, derive);
  }

  /** What both have in common. */
  method HashList(argv: seq<Str>, context: string, derive: Derive) returns (r: Hash)
    ensures r == derive(context, ListBytes(argv))
  {
    hide ListBytes;
    var h := new Hasher(context);
    h.PutList(argv);
    assert [] + ListBytes(argv) == ListBytes(argv);
    r := derive(context, h.fed);
  }

  /** Two different inputs that the hash maps to one output. */
  ghost predicate Collides(derive: Derive, c: string, x: seq<byte>, d: string, y: seq<byte>) {
    (c != d || x != y) && derive(c, x) == derive(d, y)
  }

  /** Whatever the hash, an approval covers one definition or a collision has been
      found: widgets share a hash exactly when they run the same or collide, lists
      exactly when they are equal or collide, and a hash of one context is one of
      another only by a collision. */
  lemma ApprovalsApart(derive: Derive, v: Widget, w: Widget, a: seq<Str>, b: seq<Str>)
    requires WidgetOk(v) && WidgetOk(w) && !v.kind.Source? && !w.kind.Source? && ListOk(a) && ListOk(b)
    ensures Preimage(v).Some? && Preimage(w).Some?
    ensures var p, q := Preimage(v).value, Preimage(w).value;
            derive(CONTEXT, p) == derive(CONTEXT, q) <==> Runs(v) == Runs(w) || Collides(derive, CONTEXT, p, CONTEXT, q)
    ensures forall c :: c in [QUICK_ACTION_CONTEXT, MODEL_COMMAND_CONTEXT] ==>
              (derive(c, ListBytes(a)) == derive(c, ListBytes(b))
               <==> a == b || Collides(derive, c, ListBytes(a), c, ListBytes(b)))
    ensures forall c :: c in [QUICK_ACTION_CONTEXT, MODEL_COMMAND_CONTEXT] ==>
              (derive(CONTEXT, Preimage(v).value) == derive(c, ListBytes(a))
               <==> Collides(derive, CONTEXT, Preimage(v).value, c, ListBytes(a)))
    ensures derive(QUICK_ACTION_CONTEXT, ListBytes(a)) == derive(MODEL_COMMAND_CONTEXT, ListBytes(b))
            <==> Collides(derive, QUICK_ACTION_CONTEXT, ListBytes(a), MODEL_COMMAND_CONTEXT, ListBytes(b))
  {
    hide Preimage, ListBytes, ReadList, WidgetOk, Runs, ListOk;
    PreimageMeansRunning(v, w);
    ListBack(a, []);
    ListBack(b, []);
    assert ListBytes(a) + [] == ListBytes(a) && ListBytes(b) + [] == ListBytes(b);
    assert CONTEXT[15] == '0' && MODEL_COMMAND_CONTEXT[15] == QUICK_ACTION_CONTEXT[15] == '1';
    assert MODEL_COMMAND_CONTEXT[16] == '0' && QUICK_ACTION_CONTEXT[16] == '1';
  }

  // ------------------------------------------------------------------- hex

  /** A lower-case hex digit. */
  function Digit(v: nat): (c: byte)
    requires v < 16
  {
    if v < 10 then 0x30 + v else 0x61 + v - 10
  }

  function Value(c: byte): (v: Option<nat>)
    ensures v.Some? ==> v.value < 16
  {
    if 0x30 <= c <= 0x39 then Some(c - 0x30)
    else if 0x61 <= c <= 0x66 then Some(c - 0x61 + 10)
    else None
  }

  lemma DigitValue(v: nat, c: byte)
    requires v < 16
    ensures Value(Digit(v)) == Some(v)
    ensures Value(c) == Some(v) ==> Digit(v) == c
  {
  }

  function Hex(h: seq<byte>): (s: seq<byte>)
    ensures |s| == 2 * |h|
  {
    if h == [] then [] else Hex(h[..|h| - 1]) + [Digit((h[|h| - 1] as nat) / 16), Digit((h[|h| - 1] as nat) % 16)]
  }

  lemma {:induction false} HexAt(h: seq<byte>, i: nat)
    requires i < |h|
    ensures Hex(h)[2 * i] == Digit((h[i] as nat) / 16) && Hex(h)[2 * i + 1] == Digit((h[i] as nat) % 16)
    decreases |h|
  {
    if i < |h| - 1 {
      HexAt(h[..|h| - 1], i);
    }
  }

  /** The upper half of each byte first, then the lower, as lower-case digits. */
  lemma HexReads(h: seq<byte>, i: nat)
    requires i < |h|
    ensures Hex(h)[2 * i] as char == "0123456789abcdef"[(h[i] as nat) / 16]
    ensures Hex(h)[2 * i + 1] as char == "0123456789abcdef"[(h[i] as nat) % 16]
  {
    hide Hex;
    HexAt(h, i);
    DigitIs((h[i] as nat) / 16);
    DigitIs((h[i] as nat) % 16);
  }

  lemma DigitIs(v: nat)
    requires v < 16
    ensures Digit(v) as char == "0123456789abcdef"[v]
  {
  }

  method ToHex(h: Hash) returns (s: seq<byte>)
    ensures s == Hex(h)
  {
    s := [];
    for i := 0 to 32
      invariant s == Hex(h[..i])
    {
      assert h[..i + 1][..i] == h[..i];
      s := s + [Digit((h[i] as nat) / 16)];
      s := s + [Digit((h[i] as nat) % 16)];
    }
    assert h[..32] == h;
  }

  /** `from_hex` takes back exactly what `to_hex` gives, and nothing else. */
  method FromHex(s: seq<byte>) returns (r: Option<Hash>)
    ensures forall h: Hash :: r == Some(h) <==> s == Hex(h)
  {
    if |s| != 64 {
      return None;
    }
    var out := new byte[32](_ => 0);
    for i := 0 to 32
      invariant forall k :: 0 <= k < i ==>
          Value(s[2 * k]) == Some((out[k] as nat) / 16) && Value(s[2 * k + 1]) == Some((out[k] as nat) % 16)
    {
      var a, b := Value(s[2 * i]), Value(s[2 * i + 1]);
      if a == None || b == None {
        forall h: Hash ensures s != Hex(h) {
          HexAt(h, i);
          DigitValue((h[i] as nat) / 16, 0);
          DigitValue((h[i] as nat) % 16, 0);
        }
        return None;
      }
      Nibbles(a.value, b.value);
      out[i] := a.value * 16 + b.value;
    }
    forall h: Hash ensures out[..] == h <==> s == Hex(h) {
      HexOnly(s, h, out[..]);
    }
    r := Some(out[..]);
  }

  lemma Nibbles(a: nat, b: nat)
    requires a < 16 && b < 16
    ensures (a * 16 + b) / 16 == a && (a * 16 + b) % 16 == b && a * 16 + b < 256
  {
  }

  lemma HexOnly(s: seq<byte>, h: Hash, out: Hash)
    requires |s| == 64
    requires forall k :: 0 <= k < 32 ==>
            Value(s[2 * k]) == Some((out[k] as nat) / 16) && Value(s[2 * k + 1]) == Some((out[k] as nat) % 16)
    ensures out == h <==> s == Hex(h)
  {
    hide Value, Digit;
    forall k | 0 <= k < 32
      ensures Hex(out)[2 * k] == s[2 * k] && Hex(out)[2 * k + 1] == s[2 * k + 1]
      ensures s == Hex(h) ==> out[k] == h[k]
    {
      HexAt(out, k);
      HexAt(h, k);
      DigitValue((out[k] as nat) / 16, s[2 * k]);
      DigitValue((out[k] as nat) % 16, s[2 * k + 1]);
      DigitValue((h[k] as nat) / 16, s[2 * k]);
      DigitValue((h[k] as nat) % 16, s[2 * k + 1]);
    }
    forall j | 0 <= j < 64 ensures Hex(out)[j] == s[j] {
      assert j == 2 * (j / 2) || j == 2 * (j / 2) + 1;
    }
    assert Hex(out) == s;
  }
}
