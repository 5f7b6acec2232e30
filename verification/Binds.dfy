/** Key binds: the files' own, and under them the Oracle Eyes chords, the
    launcher's, the mode's and the built-in ones, one bind per chord. */
module Binds {
  import opened Options

  datatype Mods = Mods(logo: bool, shift: bool, ctrl: bool, alt: bool)

  /** A key by its xkb name. */
  type Key = string

  datatype Direction = Left | Right | Up | Down

  datatype Action =
    | AgentOverride | AgentTerminate | AgentAttention
    | Spawn(command: string) | Close | Quit | Minimize | Unminimize
    | ToggleFloating | ToggleFullscreen | ToggleLayout | ToggleMaximize | ToggleOverview
    | Switcher(back: bool) | Focus(to: Direction) | Move(to: Direction) | Tile(to: Direction) | Priority(step: int)
    | DesktopSwitch(to: Direction) | DesktopMove(to: Direction)
    | SwitchWorkspace(n: nat) | MoveToWorkspace(n: nat) | MoveToOutputWorkspace(n: nat)
    | AnnotationSelect | AnnotationDismiss | AnnotationExpand | AnnotationAutoToggle | AnnotationModelSwitch
      | AnnotationImageToggle
    | Other(name: string)

  datatype Chord = Chord(mods: Mods, key: Key)

  datatype Bind = Bind(chord: Chord, action: Action)

  // ---------------------------------------------------------------- lookup

  /** The first bind on a chord. */
  function ActionOn(bs: seq<Bind>, c: Chord): (r: Option<Action>)
    ensures r == None <==> forall i :: 0 <= i < |bs| ==> bs[i].chord != c
  {
    if bs == [] then None else if bs[0].chord == c then Some(bs[0].action) else ActionOn(bs[1..], c)
  }

  function LastOn(bs: seq<Bind>, c: Chord): (r: Option<Action>)
    ensures r == None <==> forall i :: 0 <= i < |bs| ==> bs[i].chord != c
  {
    if bs == [] then None
    else if bs[|bs| - 1].chord == c then Some(bs[|bs| - 1].action)
    else LastOn(bs[..|bs| - 1], c)
  }

  predicate Has(bs: seq<Bind>, c: Chord) {
    ActionOn(bs, c).Some?
  }

  ghost predicate Unique(bs: seq<Bind>) {
    forall i, j :: 0 <= i < j < |bs| ==> bs[i].chord != bs[j].chord
  }

  lemma {:induction false} ActionAppend(a: seq<Bind>, b: seq<Bind>, c: Chord)
    ensures ActionOn(a + b, c) == if Has(a, c) then ActionOn(a, c) else ActionOn(b, c)
    decreases |a|
  {
    if a == [] {
      assert a + b == b;
    } else {
      assert (a + b)[1..] == a[1..] + b;
      ActionAppend(a[1..], b, c);
    }
  }

  lemma {:induction false} ActionAt(bs: seq<Bind>, i: nat)
    requires Unique(bs) && i < |bs|
    ensures ActionOn(bs, bs[i].chord) == Some(bs[i].action)
    decreases |bs|
  {
    if i > 0 {
      assert bs[0].chord != bs[i].chord;
      assert bs[1..][i - 1] == bs[i];
      ActionAt(bs[1..], i - 1);
    }
  }

  // ----------------------------------------------------------------- merge

  function IndexOf(bs: seq<Bind>, c: Chord): (r: Option<nat>)
    ensures r == None <==> !Has(bs, c)
    ensures r.Some? ==> r.value < |bs| && bs[r.value].chord == c
  {
    if bs == [] then None
    else if bs[0].chord == c then Some(0)
    else
      match IndexOf(bs[1..], c)
      case None => None
      case Some(i) => Some(i + 1)
  }

  /** A file's bind takes the place of an earlier one on its chord. */
  function Upsert(out: seq<Bind>, b: Bind): seq<Bind> {
    match IndexOf(out, b.chord)
    case Some(i) => out[i := b]
    case None => out + [b]
  }

  function FileBinds(bs: seq<Bind>): seq<Bind> {
    if bs == [] then [] else Upsert(FileBinds(bs[..|bs| - 1]), bs[|bs| - 1])
  }

  /** Of `ds`, the first bind on each chord that `out` leaves free. */
  function Fresh(out: seq<Bind>, ds: seq<Bind>): seq<Bind> {
    if ds == [] then []
    else
      var before := Fresh(out, ds[..|ds| - 1]);
      var d := ds[|ds| - 1];
      if Has(out + before, d.chord) then before else before + [d]
  }

  function Under(out: seq<Bind>, ds: seq<Bind>): seq<Bind> {
    out + Fresh(out, ds)
  }

  function Merge(defaults: seq<Bind>, fromFile: seq<Bind>): seq<Bind> {
    Under(FileBinds(fromFile), defaults)
  }

  /** `merge_binds` */
  method MergeBinds(defaults: seq<Bind>, fromFile: seq<Bind>) returns (out: seq<Bind>)
    ensures out == Merge(defaults, fromFile)
  {
    hide IndexOf, ActionOn;
    out := [];
    for i := 0 to |fromFile|
      invariant out == FileBinds(fromFile[..i])
    {
      assert fromFile[..i + 1][..i] == fromFile[..i];
      match IndexOf(out, fromFile[i].chord) {
        case Some(k) => out := out[k := fromFile[i]];
        case None => out := out + [fromFile[i]];
      }
    }
    assert fromFile[..|fromFile|] == fromFile;
    ghost var files := out;
    for i := 0 to |defaults|
      invariant out == Under(files, defaults[..i])
    {
      assert defaults[..i + 1][..i] == defaults[..i];
      if !Has(out, defaults[i].chord) {
        out := out + [defaults[i]];
      }
    }
    assert defaults[..|defaults|] == defaults;
  }

  lemma UpsertKeeps(out: seq<Bind>, b: Bind, c: Chord)
    requires Unique(out)
    ensures Unique(Upsert(out, b))
    ensures ActionOn(Upsert(out, b), c) == if c == b.chord then Some(b.action) else ActionOn(out, c)
  {
    hide ActionOn;
    var after := Upsert(out, b);
    var k := match IndexOf(out, b.chord) case Some(i) => i case None => |out|;
    assert Unique(after) by { UpsertUnique(out, b); }
    if c == b.chord {
      assert after[k] == b;
      ActionAt(after, k);
    } else {
      match ActionOn(out, c)
      case None =>
        assert forall i :: 0 <= i < |after| ==> after[i] == b || after[i] == out[i];
      case Some(a) =>
        var i := IndexOf(out, c).value;
        assert after[i] == out[i];
        ActionAt(after, i);
        ActionAt(out, i);
    }
  }

  lemma UpsertUnique(out: seq<Bind>, b: Bind)
    requires Unique(out)
    ensures Unique(Upsert(out, b))
  {
    hide ActionOn;
    if IndexOf(out, b.chord) == None {
      assert forall i :: 0 <= i < |out| ==> out[i].chord != b.chord;
    }
  }

  /** The last bind on a chord wins among the files. */
  lemma {:induction false} FileWins(bs: seq<Bind>, c: Chord)
    ensures Unique(FileBinds(bs)) && ActionOn(FileBinds(bs), c) == LastOn(bs, c)
    decreases |bs|
  {
    hide ActionOn, Upsert;
    if bs != [] {
      FileWins(bs[..|bs| - 1], c);
      UpsertKeeps(FileBinds(bs[..|bs| - 1]), bs[|bs| - 1], c);
    } else {
      assert ActionOn([], c) == None by { NoBinds(c); }
    }
  }

  lemma NoBinds(c: Chord)
    ensures ActionOn([], c) == None
  {
  }

  /** Under what is there, the first bind on a chord wins. */
  lemma {:induction false} FirstWins(out: seq<Bind>, ds: seq<Bind>, c: Chord)
    requires Unique(out)
    ensures Unique(Under(out, ds))
    ensures ActionOn(Under(out, ds), c) == if Has(out, c) then ActionOn(out, c) else ActionOn(ds, c)
    decreases |ds|
  {
    hide ActionOn;
    if ds == [] {
      assert out + [] == out;
      NoBinds(c);
    } else {
      var n := |ds| - 1;
      var d := ds[n];
      FirstWins(out, ds[..n], c);
      FirstWins(out, ds[..n], d.chord);
      assert ds == ds[..n] + [d];
      ActionAppend(ds[..n], [d], c);
      var before := Under(out, ds[..n]);
      assert ActionOn([d], c) == if c == d.chord then Some(d.action) else None by { OneBind(d, c); }
      if !Has(before, d.chord) {
        assert Under(out, ds) == before + [d];
        ActionAppend(before, [d], c);
        AppendUnique(before, d);
      }
    }
  }

  lemma OneBind(d: Bind, c: Chord)
    ensures ActionOn([d], c) == if c == d.chord then Some(d.action) else None
  {
    assert [d][1..] == [];
  }

  lemma AppendUnique(bs: seq<Bind>, d: Bind)
    requires Unique(bs) && !Has(bs, d.chord)
    ensures Unique(bs + [d])
  {
  }

  /** Layer under layer. */
  lemma {:induction false} UnderAppend(out: seq<Bind>, a: seq<Bind>, b: seq<Bind>)
    ensures Under(out, a + b) == Under(Under(out, a), b)
    decreases |b|
  {
    hide ActionOn;
    if b == [] {
      assert a + b == a;
      assert Under(out, a) + [] == Under(out, a);
    } else {
      var n := |b| - 1;
      assert (a + b)[..|a| + n] == a + b[..n] && (a + b)[|a| + n] == b[n];
      UnderAppend(out, a, b[..n]);
      var before := Under(Under(out, a), b[..n]);
      assert Under(out, a + b[..n]) == before;
      assert out + (Fresh(out, a + b[..n]) + [b[n]]) == before + [b[n]];
      assert Under(out, a) + (Fresh(Under(out, a), b[..n]) + [b[n]]) == before + [b[n]];
    }
  }

  /** A layer whose chords are all taken adds nothing. */
  lemma {:induction false} TakenAddsNothing(out: seq<Bind>, ds: seq<Bind>)
    requires forall i :: 0 <= i < |ds| ==> Has(out, ds[i].chord)
    ensures Fresh(out, ds) == []
    decreases |ds|
  {
    hide ActionOn;
    if ds != [] {
      TakenAddsNothing(out, ds[..|ds| - 1]);
      assert out + [] == out;
    }
  }

  /** A chord of a layer is taken under it. */
  lemma LayerTakes(out: seq<Bind>, ds: seq<Bind>, more: seq<Bind>, i: nat)
    requires Unique(out) && i < |ds|
    ensures Has(Under(Under(out, ds), more), ds[i].chord)
  {
    FirstWins(out, ds, ds[i].chord);
    FirstWins(Under(out, ds), more, ds[i].chord);
  }

  // -------------------------------------------------------------- reserved

  const SUPER := Mods(true, false, false, false)
  const SUPER_SHIFT := Mods(true, true, false, false)
  const SUPER_CTRL := Mods(true, false, true, false)
  const SUPER_SHIFT_CTRL := Mods(true, true, true, false)
  const ALT := Mods(false, false, false, true)
  const ALT_SHIFT := Mods(false, true, false, true)
  const NONE := Mods(false, false, false, false)

  /** The chords no file can take from the agent. */
  predicate Reserved(c: Chord) {
    || c == Chord(SUPER, "Escape")
    || c == Chord(SUPER_SHIFT, "Escape")
    || c == Chord(SUPER, "space")
  }

  datatype Refusal = IsReserved

  /** The end of `parse_bind` and `parse_chord`. */
  function Checked(c: Chord): Result<Chord, Refusal> {
    if c == Chord(SUPER, "Escape") then Err(IsReserved)
    else if c == Chord(SUPER_SHIFT, "Escape") then Err(IsReserved)
    else if c == Chord(SUPER, "space") then Err(IsReserved)
    else Ok(c)
  }

  /** The `bind` nodes of the files, in load order, that are not refused. */
  function Accepted(nodes: seq<Bind>): (r: seq<Bind>)
    ensures forall i :: 0 <= i < |r| ==> !Reserved(r[i].chord)
  {
    if nodes == [] then []
    else
      Accepted(nodes[..|nodes| - 1])
      + match Checked(nodes[|nodes| - 1].chord)
        case Ok(_) => [nodes[|nodes| - 1]]
        case Err(_) => []
  }

  // ---------------------------------------------------------------- layers

  datatype Mode = Wm | Hybrid | De

  datatype Config = Config(mode: Mode, open: Option<Chord>, run: Option<Chord>, eyes: seq<(Option<Chord>, Action)>)

  /** Binds for the chords that are set, in order. */
  function ChordBinds(cs: seq<(Option<Chord>, Action)>): (r: seq<Bind>)
    ensures forall i :: 0 <= i < |r| ==> exists k :: 0 <= k < |cs| && cs[k].0 == Some(r[i].chord)
    ensures forall c :: ActionOn(r, c) == FirstSet(cs, c)
  {
    if cs == [] then []
    else
      var rest := cs[1..];
      var after := ChordBinds(rest);
      var (c, action) := cs[0];
      assert forall k :: 0 <= k < |rest| ==> rest[k] == cs[k + 1];
      assert forall i :: 0 <= i < |after| ==> exists k :: 0 <= k < |rest| && rest[k].0 == Some(after[i].chord);
      match c
      case None => after
      case Some(chord) =>
        var r := [Bind(chord, action)] + after;
        assert r[1..] == after;
        r
  }

  /** What the first chord of the list that is `c` is set to do. */
  ghost function FirstSet(cs: seq<(Option<Chord>, Action)>, c: Chord): (r: Option<Action>)
    ensures r == None <==> forall k :: 0 <= k < |cs| ==> cs[k].0 != Some(c)
  {
    if cs == [] then None else if cs[0].0 == Some(c) then Some(cs[0].1) else FirstSet(cs[1..], c)
  }

  const LAUNCH := Spawn("ec-launcher")

  function LauncherBinds(cfg: Config): seq<Bind> {
    ChordBinds([(cfg.open, LAUNCH), (cfg.run, LAUNCH)])
  }

  function Arrows(mods: Mods, left: Action, right: Action, up: Action, down: Action): seq<Bind> {
    [Bind(Chord(mods, "Left"), left), Bind(Chord(mods, "Right"), right), Bind(Chord(mods, "Up"), up),
     Bind(Chord(mods, "Down"), down)]
  }

  function DesktopGrid(key: Key, to: Direction): seq<Bind> {
    [Bind(Chord(SUPER_CTRL, key), DesktopSwitch(to)), Bind(Chord(SUPER_SHIFT_CTRL, key), DesktopMove(to))]
  }

  function ModeBinds(mode: Mode): seq<Bind> {
    match mode
    case De =>
      [Bind(Chord(ALT, "F4"), Close), Bind(Chord(ALT, "Tab"), Switcher(false)),
       Bind(Chord(ALT_SHIFT, "Tab"), Switcher(true)), Bind(Chord(SUPER, "w"), ToggleOverview),
       Bind(Chord(SUPER, "Page_Up"), ToggleMaximize)]
      + Arrows(SUPER, Tile(Left), Tile(Right), Tile(Up), Tile(Down))
      + DesktopGrid("Left", Left) + DesktopGrid("Right", Right) + DesktopGrid("Up", Up) + DesktopGrid("Down", Down)
    case Wm => []
    case Hybrid => []
  }

  function AgentBinds(): seq<Bind> {
    [Bind(Chord(SUPER, "Escape"), AgentOverride), Bind(Chord(SUPER_SHIFT, "Escape"), AgentTerminate),
     Bind(Chord(SUPER, "space"), AgentAttention)]
  }

  function ProgramBinds(): seq<Bind> {
    [Bind(Chord(SUPER, "q"), Spawn("foot")), Bind(Chord(SUPER, "Return"), Spawn("foot")),
     Bind(Chord(SUPER, "e"), LAUNCH), Bind(Chord(SUPER, "slash"), Spawn("ec-console")),
     Bind(Chord(SUPER, "r"), LAUNCH), Bind(Chord(SUPER, "n"), Spawn("ec-center")),
     Bind(Chord(SUPER, "F1"), Spawn("ec-cheatsheet")), Bind(Chord(NONE, "XF86_PowerOff"), Spawn("ec-ctl open-power"))]
  }

  function WindowBinds(): seq<Bind> {
    [Bind(Chord(SUPER, "c"), Close), Bind(Chord(SUPER, "v"), ToggleFloating),
     Bind(Chord(SUPER, "f"), ToggleFullscreen), Bind(Chord(SUPER, "h"), Minimize),
     Bind(Chord(SUPER_SHIFT, "H"), Unminimize), Bind(Chord(SUPER, "j"), ToggleLayout),
     Bind(Chord(SUPER_SHIFT, "Q"), Quit)]
    + Arrows(SUPER, Focus(Left), Focus(Right), Focus(Up), Focus(Down))
    + Arrows(SUPER_SHIFT, Move(Left), Move(Right), Priority(1), Priority(-1))
  }

  function SessionBinds(): seq<Bind> {
    [Bind(Chord(SUPER_SHIFT, "L"), Spawn("loginctl lock-session")),
     Bind(Chord(NONE, "XF86_AudioRaiseVolume"), Spawn("wpctl set-volume -l 1 @DEFAULT_AUDIO_SINK@ 5%+")),
     Bind(Chord(NONE, "XF86_AudioLowerVolume"), Spawn("wpctl set-volume @DEFAULT_AUDIO_SINK@ 5%-")),
     Bind(Chord(NONE, "XF86_AudioMute"), Spawn("wpctl set-mute @DEFAULT_AUDIO_SINK@ toggle")),
     Bind(Chord(NONE, "XF86_AudioMicMute"), Spawn("wpctl set-mute @DEFAULT_AUDIO_SOURCE@ toggle")),
     Bind(Chord(NONE, "XF86_MonBrightnessUp"), Spawn("brightnessctl -e4 -n2 set 5%+")),
     Bind(Chord(NONE, "XF86_MonBrightnessDown"), Spawn("brightnessctl -e4 -n2 set 5%-")),
     Bind(Chord(NONE, "XF86_AudioNext"), Spawn("playerctl next")),
     Bind(Chord(NONE, "XF86_AudioPrev"), Spawn("playerctl previous")),
     Bind(Chord(NONE, "XF86_AudioPlay"), Spawn("playerctl play-pause")),
     Bind(Chord(NONE, "XF86_AudioPause"), Spawn("playerctl play-pause"))]
  }

  const DIGITS: seq<Key> := ["1", "2", "3", "4", "5", "6", "7", "8", "9", "0"]
  const SHIFTED: seq<Key> :=
    ["exclam", "at", "numbersign", "dollar", "percent", "asciicircum", "ampersand", "asterisk", "parenleft",
     "parenright"]

  /** The binds of the first `n` digits. */
  function DigitBinds(n: nat): seq<Bind>
    requires n <= 10
  {
    if n == 0 then []
    else
      DigitBinds(n - 1)
      + [Bind(Chord(SUPER, DIGITS[n - 1]), SwitchWorkspace(n)),
         Bind(Chord(SUPER_SHIFT, DIGITS[n - 1]), MoveToWorkspace(n)),
         Bind(Chord(SUPER_SHIFT, SHIFTED[n - 1]), MoveToWorkspace(n)),
         Bind(Chord(SUPER_CTRL, DIGITS[n - 1]), MoveToOutputWorkspace(n))]
  }

  function OtherBinds(): seq<Bind> {
    ProgramBinds() + WindowBinds() + SessionBinds() + DigitBinds(10)
  }

  function DefaultBinds(): seq<Bind> {
    AgentBinds() + OtherBinds()
  }

  function NoLaunch(bs: seq<Bind>): (r: seq<Bind>)
    ensures forall i :: 0 <= i < |r| ==> r[i] in bs && r[i].action != LAUNCH
  {
    if bs == [] then []
    else NoLaunch(bs[..|bs| - 1]) + if bs[|bs| - 1].action != LAUNCH then [bs[|bs| - 1]] else []
  }

  /** `defaults_with_launcher` */
  function LauncherDefaults(cfg: Config): seq<Bind> {
    LauncherBinds(cfg) + NoLaunch(DefaultBinds())
  }

  /** The binds up to the first whose chord the launcher does not have. */
  function TakeChosen(bs: seq<Bind>, cfg: Config): seq<Bind> {
    if bs == [] || (cfg.open != Some(bs[0].chord) && cfg.run != Some(bs[0].chord)) then []
    else [bs[0]] + TakeChosen(bs[1..], cfg)
  }

  /** Chords that parsing has let through. */
  ghost predicate ConfigOk(cfg: Config) {
    && (cfg.open.Some? ==> !Reserved(cfg.open.value))
    && (cfg.run.Some? ==> !Reserved(cfg.run.value))
    && forall i :: 0 <= i < |cfg.eyes| ==> cfg.eyes[i].0.Some? ==> !Reserved(cfg.eyes[i].0.value)
  }

  ghost predicate NoneReserved(bs: seq<Bind>) {
    forall i :: 0 <= i < |bs| ==> !Reserved(bs[i].chord)
  }

  // ------------------------------------------------------------- the tables

  lemma {:induction false} NoLaunchAppend(a: seq<Bind>, b: seq<Bind>)
    ensures NoLaunch(a + b) == NoLaunch(a) + NoLaunch(b)
    decreases |b|
  {
    if b == [] {
      assert a + b == a;
    } else {
      assert (a + b)[..|a| + |b| - 1] == a + b[..|b| - 1];
      NoLaunchAppend(a, b[..|b| - 1]);
    }
  }

  lemma {:induction false} NoLaunchKeeps(bs: seq<Bind>)
    requires forall i :: 0 <= i < |bs| ==> bs[i].action != LAUNCH
    ensures NoLaunch(bs) == bs
    decreases |bs|
  {
    if bs != [] {
      NoLaunchKeeps(bs[..|bs| - 1]);
      assert bs == bs[..|bs| - 1] + [bs[|bs| - 1]];
    }
  }

  lemma {:induction false} DigitsFree(n: nat)
    requires n <= 10
    ensures NoneReserved(DigitBinds(n))
  {
    if n > 0 {
      DigitsFree(n - 1);
      DigitIsFree(n - 1);
    }
  }

  lemma DigitIsFree(k: nat)
    requires k < 10
    ensures forall m :: !Reserved(Chord(m, DIGITS[k]))
    ensures forall m :: !Reserved(Chord(m, SHIFTED[k]))
  {
    assert |DIGITS[k]| == 1 && |"space"| == 5 && |"Escape"| == 6;
    assert SHIFTED[k][0] != 'E';
  }

  lemma ProgramsFree()
    ensures NoneReserved(ProgramBinds())
  {
    assert |"space"| == 5 && |"Escape"| == 6;
    assert "slash"[1] == 'l' && "space"[1] == 'p' && "Return"[0] == 'R' && "Escape"[0] == 'E';
  }

  lemma ArrowsFree(mods: Mods, a: Action, b: Action, c: Action, d: Action)
    ensures NoneReserved(Arrows(mods, a, b, c, d))
  {
    assert |"Left"| == 4 && |"Right"| == 5 && |"Up"| == 2 && |"Down"| == 4 && |"space"| == 5 && |"Escape"| == 6;
    assert "Right"[0] == 'R' && "space"[0] == 's';
  }

  lemma WindowsFree()
    ensures NoneReserved(WindowBinds())
  {
    hide Arrows;
    ArrowsFree(SUPER, Focus(Left), Focus(Right), Focus(Up), Focus(Down));
    ArrowsFree(SUPER_SHIFT, Move(Left), Move(Right), Priority(1), Priority(-1));
    assert |"space"| == 5 && |"Escape"| == 6;
  }

  lemma SessionFree()
    ensures NoneReserved(SessionBinds())
  {
    assert |"L"| == 1 && |"Escape"| == 6;
  }

  lemma OthersFree()
    ensures NoneReserved(OtherBinds())
  {
    hide ProgramBinds, WindowBinds, SessionBinds, DigitBinds, Reserved;
    ProgramsFree();
    WindowsFree();
    SessionFree();
    DigitsFree(10);
  }

  lemma ModeFree(mode: Mode)
    ensures NoneReserved(ModeBinds(mode))
  {
    hide Arrows;
    ArrowsFree(SUPER, Tile(Left), Tile(Right), Tile(Up), Tile(Down));
    assert |"w"| == 1 && |"Page_Up"| == 7 && |"space"| == 5 && |"Escape"| == 6;
  }

  lemma NoLaunchFree(bs: seq<Bind>)
    requires NoneReserved(bs)
    ensures NoneReserved(NoLaunch(bs))
  {
    hide Reserved;
    var r := NoLaunch(bs);
    forall i | 0 <= i < |r| ensures !Reserved(r[i].chord) {
      assert r[i] in bs;
    }
  }

  /** The built-in binds without the launcher's shipped chords: the agent's
      first, then nothing on a reserved chord. */
  lemma BuiltIns()
    ensures NoLaunch(DefaultBinds()) == AgentBinds() + NoLaunch(OtherBinds())
    ensures NoneReserved(NoLaunch(OtherBinds()))
  {
    hide OtherBinds, Reserved;
    NoLaunchAppend(AgentBinds(), OtherBinds());
    NoLaunchKeeps(AgentBinds());
    OthersFree();
    NoLaunchFree(OtherBinds());
  }

  // ---------------------------------------------------------- the launcher

  lemma {:induction false} TakeAll(own: seq<Bind>, rest: seq<Bind>, cfg: Config)
    requires forall i :: 0 <= i < |own| ==> cfg.open == Some(own[i].chord) || cfg.run == Some(own[i].chord)
    requires rest != [] && cfg.open != Some(rest[0].chord) && cfg.run != Some(rest[0].chord)
    ensures TakeChosen(own + rest, cfg) == own
    decreases |own|
  {
    if own == [] {
      assert own + rest == rest;
    } else {
      assert (own + rest)[0] == own[0] && (own + rest)[1..] == own[1..] + rest;
      TakeAll(own[1..], rest, cfg);
    }
  }

  /** What `take_while` takes of the defaults is the launcher's own binds: the
      next one is Super+Escape, which the launcher cannot have. */
  lemma TakesLaunchers(cfg: Config)
    requires ConfigOk(cfg)
    ensures TakeChosen(LauncherDefaults(cfg), cfg) == LauncherBinds(cfg)
  {
    hide OtherBinds, NoLaunch;
    BuiltIns();
    var rest := AgentBinds() + NoLaunch(OtherBinds());
    assert rest[0] == AgentBinds()[0];
    assert Reserved(rest[0].chord);
    LauncherChords(cfg);
    TakeAll(LauncherBinds(cfg), rest, cfg);
  }

  lemma LauncherChords(cfg: Config)
    ensures forall i :: 0 <= i < |LauncherBinds(cfg)| ==>
              cfg.open == Some(LauncherBinds(cfg)[i].chord) || cfg.run == Some(LauncherBinds(cfg)[i].chord)
  {
    var cs := [(cfg.open, LAUNCH), (cfg.run, LAUNCH)];
    forall i | 0 <= i < |LauncherBinds(cfg)|
      ensures cfg.open == Some(LauncherBinds(cfg)[i].chord) || cfg.run == Some(LauncherBinds(cfg)[i].chord)
    {
      var k :| 0 <= k < |cs| && cs[k].0 == Some(LauncherBinds(cfg)[i].chord);
    }
  }

  // ------------------------------------------------------------------ load

  /** The layers from the top, each shadowed by those above it. */
  function Layered(cfg: Config, files: seq<Bind>): seq<Bind> {
    Under(Under(Under(Under(FileBinds(files), ChordBinds(cfg.eyes)), LauncherBinds(cfg)), ModeBinds(cfg.mode)),
      NoLaunch(DefaultBinds()))
  }

  /** What fires on a chord, from the bind nodes as they were read: the last of
      the files on a chord that is not the agent's, else the first that is set
      among Oracle Eyes and the launcher, else the mode's, else the built-in. */
  ghost function Fires(cfg: Config, nodes: seq<Bind>, c: Chord): Option<Action> {
    if LastOn(nodes, c).Some? && !Reserved(c) then LastOn(nodes, c)
    else if FirstSet(cfg.eyes, c).Some? then FirstSet(cfg.eyes, c)
    else if cfg.open == Some(c) || cfg.run == Some(c) then Some(Spawn("ec-launcher"))
    else if ActionOn(ModeBinds(cfg.mode), c).Some? then ActionOn(ModeBinds(cfg.mode), c)
    else ActionOn(NoLaunch(DefaultBinds()), c)
  }

  /** The bind table of `load_with`, from the bind nodes of every file. */
  method LoadBinds(cfg: Config, nodes: seq<Bind>) returns (binds: seq<Bind>)
    requires ConfigOk(cfg)
    ensures binds == Layered(cfg, Accepted(nodes))
    ensures Unique(binds) && forall c :: ActionOn(binds, c) == Fires(cfg, nodes, c)
  {
    hide ModeBinds, DefaultBinds, ChordBinds, LauncherBinds, NoLaunch, TakeChosen, Reserved, Under, FileBinds;
    var files: seq<Bind> := [];
    for i := 0 to |nodes|
      invariant files == Accepted(nodes[..i])
    {
      assert nodes[..i + 1][..i] == nodes[..i];
      if Checked(nodes[i].chord).Ok? {
        files := files + [nodes[i]];
      } else {
        assert files + [] == files;
      }
    }
    assert nodes[..|nodes|] == nodes;
    var defaults := ChordBinds(cfg.eyes);
    var launcher := LauncherDefaults(cfg);
    defaults := defaults + TakeChosen(launcher, cfg);
    defaults := defaults + ModeBinds(cfg.mode);
    defaults := defaults + launcher;
    binds := MergeBinds(defaults, files);
    LoadIsLayered(cfg, files);
    TableFires(cfg, nodes);
  }

  lemma TableFires(cfg: Config, nodes: seq<Bind>)
    ensures var table := Layered(cfg, Accepted(nodes));
              Unique(table) && forall c :: ActionOn(table, c) == Fires(cfg, nodes, c)
  {
    hide *;
    var table := Layered(cfg, Accepted(nodes));
    OnePerChord(cfg, Accepted(nodes), Chord(NONE, ""));
    forall c ensures ActionOn(table, c) == Fires(cfg, nodes, c) {
      FiresOn(cfg, nodes, c);
    }
  }

  /** The table lets the last bind of the files fire on every chord that is not
      the agent's. */
  lemma FiresOn(cfg: Config, nodes: seq<Bind>, c: Chord)
    ensures ActionOn(Layered(cfg, Accepted(nodes)), c) == Fires(cfg, nodes, c)
  {
    hide ModeBinds, DefaultBinds, ChordBinds, LauncherBinds, NoLaunch, Layered, ActionOn, LastOn, Accepted, Reserved,
      FirstSet;
    OnePerChord(cfg, Accepted(nodes), c);
    AcceptedLast(nodes, c);
    assert ActionOn(ChordBinds(cfg.eyes), c) == FirstSet(cfg.eyes, c);
    LauncherFires(cfg, c);
  }

  /** Either chord that is set launches, and no other does. */
  lemma LauncherFires(cfg: Config, c: Chord)
    ensures ActionOn(LauncherBinds(cfg), c) ==
            if cfg.open == Some(c) || cfg.run == Some(c) then Some(Spawn("ec-launcher")) else None
  {
    hide ActionOn;
    var cs := [(cfg.open, LAUNCH), (cfg.run, LAUNCH)];
    assert LauncherBinds(cfg) == ChordBinds(cs);
    assert cs[1..] == [(cfg.run, LAUNCH)] && cs[1..][1..] == [];
    assert FirstSet(cs[1..], c) == if cfg.run == Some(c) then Some(LAUNCH) else None;
  }

  /** Leaving out the binds on the agent's chords leaves the last on any other. */
  lemma {:induction false} AcceptedLast(nodes: seq<Bind>, c: Chord)
    ensures LastOn(Accepted(nodes), c) == if Reserved(c) then None else LastOn(nodes, c)
    decreases |nodes|
  {
    if nodes != [] {
      var n := |nodes| - 1;
      AcceptedLast(nodes[..n], c);
      var before := Accepted(nodes[..n]);
      assert (before + [nodes[n]])[..|before|] == before;
      assert before + [] == before;
    }
  }

  lemma LoadIsLayered(cfg: Config, files: seq<Bind>)
    requires ConfigOk(cfg)
    ensures Merge(ChordBinds(cfg.eyes) + TakeChosen(LauncherDefaults(cfg), cfg) + ModeBinds(cfg.mode)
            + LauncherDefaults(cfg), files)
            == Layered(cfg, files)
  {
    hide ModeBinds, DefaultBinds, ChordBinds, LauncherBinds, NoLaunch, TakeChosen, Reserved, Under, FileBinds, Fresh;
    var f, e, l, m, b := FileBinds(files), ChordBinds(cfg.eyes), LauncherBinds(cfg), ModeBinds(cfg.mode),
      NoLaunch(DefaultBinds());
    TakesLaunchers(cfg);
    UnderAppend(f, e + l + m, l + b);
    UnderAppend(f, e + l, m);
    UnderAppend(f, e, l);
    var upper := Under(Under(Under(f, e), l), m);
    UnderAppend(upper, l, b);
    SecondLauncher(files, cfg);
  }

  /** The launcher's binds are there already when they come again. */
  lemma SecondLauncher(files: seq<Bind>, cfg: Config)
    ensures var upper := Under(Under(Under(FileBinds(files), ChordBinds(cfg.eyes)), LauncherBinds(cfg)),
            ModeBinds(cfg.mode));
            Under(upper, LauncherBinds(cfg)) == upper
  {
    hide ModeBinds, ChordBinds, LauncherBinds, FileBinds, Fresh, ActionOn;
    var f, e, l, m := FileBinds(files), ChordBinds(cfg.eyes), LauncherBinds(cfg), ModeBinds(cfg.mode);
    var c := Chord(NONE, "");
    FileWins(files, c);
    FirstWins(f, e, c);
    var upper := Under(Under(Under(f, e), l), m);
    forall i | 0 <= i < |l| ensures Has(upper, l[i].chord) {
      LayerTakes(Under(f, e), l, m, i);
    }
    TakenAddsNothing(upper, l);
    assert upper + [] == upper;
  }

  /** What fires on a chord: the last bind of the files on it, else the first of
      Oracle Eyes, the launcher, the mode and the built-ins. */
  ghost function Expected(cfg: Config, files: seq<Bind>, c: Chord): Option<Action> {
    if LastOn(files, c).Some? then LastOn(files, c)
    else if Has(ChordBinds(cfg.eyes), c) then ActionOn(ChordBinds(cfg.eyes), c)
    else if Has(LauncherBinds(cfg), c) then ActionOn(LauncherBinds(cfg), c)
    else if Has(ModeBinds(cfg.mode), c) then ActionOn(ModeBinds(cfg.mode), c)
    else ActionOn(NoLaunch(DefaultBinds()), c)
  }

  /** One bind per chord, and the layers in their order. */
  lemma OnePerChord(cfg: Config, files: seq<Bind>, c: Chord)
    ensures Unique(Layered(cfg, files)) && ActionOn(Layered(cfg, files), c) == Expected(cfg, files, c)
  {
    hide ModeBinds, DefaultBinds, ChordBinds, LauncherBinds, NoLaunch, FileBinds, Fresh, ActionOn, Under, LastOn;
    var f, e, l, m, b := FileBinds(files), ChordBinds(cfg.eyes), LauncherBinds(cfg), ModeBinds(cfg.mode),
      NoLaunch(DefaultBinds());
    FileWins(files, c);
    FirstWins(f, e, c);
    FirstWins(Under(f, e), l, c);
    FirstWins(Under(Under(f, e), l), m, c);
    FirstWins(Under(Under(Under(f, e), l), m), b, c);
  }

  lemma NotThere(bs: seq<Bind>, c: Chord)
    requires NoneReserved(bs) && Reserved(c)
    ensures ActionOn(bs, c) == None
  {
    hide Reserved;
  }

  lemma {:induction false} ChordBindsFree(cs: seq<(Option<Chord>, Action)>)
    requires forall i :: 0 <= i < |cs| ==> cs[i].0.Some? ==> !Reserved(cs[i].0.value)
    ensures NoneReserved(ChordBinds(cs))
  {
    hide Reserved;
    var r := ChordBinds(cs);
    forall i | 0 <= i < |r| ensures !Reserved(r[i].chord) {
      var k :| 0 <= k < |cs| && cs[k].0 == Some(r[i].chord);
    }
  }

  /** Whatever the files and the settings say, the reserved chords do what the
      built-in binds say they do. */
  lemma AgentKeepsItsChords(cfg: Config, nodes: seq<Bind>)
    requires ConfigOk(cfg)
    ensures var table := Layered(cfg, Accepted(nodes));
            && ActionOn(table, Chord(Mods(true, false, false, false), "Escape")) == Some(AgentOverride)
            && ActionOn(table, Chord(Mods(true, true, false, false), "Escape")) == Some(AgentTerminate)
            && ActionOn(table, Chord(Mods(true, false, false, false), "space")) == Some(AgentAttention)
  {
    hide ActionOn, Layered, Accepted, AgentBinds;
    AgentActions();
    AgentKeeps(cfg, nodes, Chord(SUPER, "Escape"));
    AgentKeeps(cfg, nodes, Chord(SUPER_SHIFT, "Escape"));
    AgentKeeps(cfg, nodes, Chord(SUPER, "space"));
  }

  lemma AgentActions()
    ensures ActionOn(AgentBinds(), Chord(SUPER, "Escape")) == Some(AgentOverride)
    ensures ActionOn(AgentBinds(), Chord(SUPER_SHIFT, "Escape")) == Some(AgentTerminate)
    ensures ActionOn(AgentBinds(), Chord(SUPER, "space")) == Some(AgentAttention)
  {
    var bs := AgentBinds();
    assert |"space"| == 5 && |"Escape"| == 6;
    ActionAt(bs, 0);
    ActionAt(bs, 1);
    ActionAt(bs, 2);
  }

  lemma AgentKeeps(cfg: Config, nodes: seq<Bind>, c: Chord)
    requires ConfigOk(cfg) && Reserved(c) && ActionOn(AgentBinds(), c).Some?
    ensures ActionOn(Layered(cfg, Accepted(nodes)), c) == ActionOn(AgentBinds(), c)
  {
    hide Reserved, ModeBinds, OtherBinds, ChordBinds, LauncherBinds, NoLaunch, Layered, LastOn, DefaultBinds;
    var files := Accepted(nodes);
    OnePerChord(cfg, files, c);
    assert LastOn(files, c) == None;
    ChordBindsFree(cfg.eyes);
    NotThere(ChordBinds(cfg.eyes), c);
    LauncherFree(cfg);
    NotThere(LauncherBinds(cfg), c);
    ModeFree(cfg.mode);
    NotThere(ModeBinds(cfg.mode), c);
    BuiltIns();
    ActionAppend(AgentBinds(), NoLaunch(OtherBinds()), c);
  }

  lemma LauncherFree(cfg: Config)
    requires ConfigOk(cfg)
    ensures NoneReserved(LauncherBinds(cfg))
  {
    hide Reserved;
    LauncherChords(cfg);
  }

  // ---------------------------------------------------------------- firing

  /** `action_for`: under `de` a bind written for Tab fires on Shift's own Tab. */
  function ActionFor(binds: seq<Bind>, mode: Mode, c: Chord): Option<Action> {
    if ActionOn(binds, c).Some? then ActionOn(binds, c)
    else if mode == De && c.key == "ISO_Left_Tab" then ActionOn(binds, c.(key := "Tab"))
    else None
  }

  /** Under `de`, Alt+Shift+Tab steps the switcher back unless a file or a
      setting takes the chord; in the other modes nothing of the kind fires. */
  lemma ShiftTabSteps(cfg: Config, nodes: seq<Bind>)
    requires Untaken(cfg, nodes, Chord(Mods(false, true, false, true), "Tab"))
    requires Untaken(cfg, nodes, Chord(Mods(false, true, false, true), "ISO_Left_Tab"))
    ensures ActionFor(Layered(cfg, Accepted(nodes)), cfg.mode, Chord(Mods(false, true, false, true), "ISO_Left_Tab")) ==
            if cfg.mode == De then Some(Switcher(true)) else None
  {
    hide Layered, DefaultBinds, NoLaunch, Accepted, Fires, Untaken, ActionOn;
    var shifted, plain := Chord(ALT_SHIFT, "ISO_Left_Tab"), Chord(ALT_SHIFT, "Tab");
    FiresOn(cfg, nodes, shifted);
    FiresOn(cfg, nodes, plain);
    UntakenFires(cfg, nodes, shifted);
    UntakenFires(cfg, nodes, plain);
    BuiltInsHaveNoAltShift(shifted);
    BuiltInsHaveNoAltShift(plain);
    ModeTab(cfg.mode);
  }

  lemma ModeTab(mode: Mode)
    ensures ActionOn(ModeBinds(mode), Chord(ALT_SHIFT, "Tab")) == if mode == De then Some(Switcher(true)) else None
    ensures ActionOn(ModeBinds(mode), Chord(ALT_SHIFT, "ISO_Left_Tab")) == None
  {
    var bs := ModeBinds(mode);
    assert |"Tab"| == 3 && |"ISO_Left_Tab"| == 12;
    if mode == De {
      var head := bs[..3];
      assert bs == head + bs[3..];
      ActionAppend(head, bs[3..], Chord(ALT_SHIFT, "Tab"));
      ActionAt(head, 2);
    }
  }

  ghost predicate NoAltShift(bs: seq<Bind>) {
    forall i :: 0 <= i < |bs| ==> bs[i].chord.mods != ALT_SHIFT
  }

  lemma {:induction false} DigitsNoAltShift(n: nat)
    requires n <= 10
    ensures NoAltShift(DigitBinds(n))
  {
    if n > 0 {
      DigitsNoAltShift(n - 1);
    }
  }

  lemma TablesNoAltShift()
    ensures NoAltShift(AgentBinds()) && NoAltShift(ProgramBinds()) && NoAltShift(WindowBinds())
    ensures NoAltShift(SessionBinds())
  {
  }

  lemma {:induction false} BuiltInsHaveNoAltShift(c: Chord)
    requires c.mods == ALT_SHIFT
    ensures ActionOn(NoLaunch(DefaultBinds()), c) == None
  {
    hide ActionOn, NoLaunch, DigitBinds, ProgramBinds, WindowBinds, SessionBinds, AgentBinds;
    DigitsNoAltShift(10);
    TablesNoAltShift();
    var all, r := DefaultBinds(), NoLaunch(DefaultBinds());
    assert NoAltShift(all);
    forall i | 0 <= i < |r| ensures r[i].chord != c {
      assert r[i] in all;
    }
  }

  // ------------------------------------------------------ the built-in binds

  /** No file and no setting takes the chord. */
  ghost predicate Untaken(cfg: Config, nodes: seq<Bind>, c: Chord) {
    && (forall i :: 0 <= i < |nodes| ==> nodes[i].chord != c)
    && (forall i :: 0 <= i < |cfg.eyes| ==> cfg.eyes[i].0 != Some(c))
    && cfg.open != Some(c) && cfg.run != Some(c)
  }

  lemma UntakenFires(cfg: Config, nodes: seq<Bind>, c: Chord)
    requires Untaken(cfg, nodes, c)
    ensures Fires(cfg, nodes, c) == if ActionOn(ModeBinds(cfg.mode), c).Some? then ActionOn(ModeBinds(cfg.mode), c)
                                    else ActionOn(NoLaunch(DefaultBinds()), c)
  {
    hide ModeBinds, NoLaunch, DefaultBinds, Reserved;
  }

  /** Leaving out the launcher's binds leaves what else comes first on a chord. */
  lemma {:induction false} NoLaunchFires(bs: seq<Bind>, c: Chord)
    requires ActionOn(bs, c) != Some(LAUNCH)
    ensures ActionOn(NoLaunch(bs), c) == ActionOn(bs, c)
    decreases |bs|
  {
    if bs != [] {
      assert bs == [bs[0]] + bs[1..];
      NoLaunchAppend([bs[0]], bs[1..]);
      NoLaunchOne(bs[0]);
      ActionAppend(NoLaunch([bs[0]]), NoLaunch(bs[1..]), c);
      OneBind(bs[0], c);
      NoBinds(c);
      if bs[0].chord != c {
        NoLaunchFires(bs[1..], c);
      }
    }
  }

  lemma NoLaunchOne(b: Bind)
    ensures NoLaunch([b]) == if b.action == LAUNCH then [] else [b]
  {
    assert [b][..0] == [];
  }

  /** A built-in chord fires what its entry says where no earlier entry of the
      defaults has the chord. */
  lemma {:induction false} FirstAt(bs: seq<Bind>, i: nat)
    requires i < |bs| && forall j :: 0 <= j < i ==> bs[j].chord != bs[i].chord
    ensures ActionOn(bs, bs[i].chord) == Some(bs[i].action)
    decreases |bs|
  {
    if i > 0 {
      FirstAt(bs[1..], i - 1);
    }
  }

  // ------------------------------------------------------------ the digit row

  /** The key of the digit a workspace has: 0 stands for the tenth. */
  function DigitOf(n: nat): Key
    requires 1 <= n <= 10
  {
    [if n == 10 then '0' else ('0' as int + n) as char]
  }

  /** No chord on a digit, and none on a symbol behind Super and Shift. */
  ghost predicate OffTheDigits(bs: seq<Bind>) {
    forall i :: 0 <= i < |bs| ==>
      && bs[i].chord.key != "" && !('0' <= bs[i].chord.key[0] <= '9')
      && (bs[i].chord.mods == Mods(true, true, false, false) ==> !('a' <= bs[i].chord.key[0] <= 'z'))
  }

  lemma TablesOffTheDigits(mode: Mode)
    ensures OffTheDigits(AgentBinds()) && OffTheDigits(ProgramBinds()) && OffTheDigits(WindowBinds())
    ensures OffTheDigits(SessionBinds()) && OffTheDigits(ModeBinds(mode))
  {
    hide *;
    ProgramsOffTheDigits();
    WindowsOffTheDigits();
    SessionOffTheDigits();
    ModeOffTheDigits(mode);
  }

  lemma ProgramsOffTheDigits()
    ensures OffTheDigits(AgentBinds()) && OffTheDigits(ProgramBinds())
  {
  }

  lemma WindowsOffTheDigits()
    ensures OffTheDigits(WindowBinds())
  {
  }

  lemma SessionOffTheDigits()
    ensures OffTheDigits(SessionBinds())
  {
  }

  lemma ModeOffTheDigits(mode: Mode)
    ensures OffTheDigits(ModeBinds(mode))
  {
  }

  lemma FreeOfDigit(bs: seq<Bind>, mods: Mods, n: nat)
    requires OffTheDigits(bs) && 1 <= n <= 10
    ensures ActionOn(bs, Chord(mods, DigitOf(n))) == None
  {
    assert forall i :: 0 <= i < |bs| ==> bs[i].chord.key[0] != DigitOf(n)[0];
  }

  lemma DigitKey(n: nat)
    requires 1 <= n <= 10
    ensures DIGITS[n - 1] == DigitOf(n)
  {
  }

  /** What a chord of the digit row does. */
  ghost function OnDigit(mods: Mods, n: nat): Option<Action> {
    if mods == Mods(true, false, false, false) then Some(SwitchWorkspace(n))
    else if mods == Mods(true, true, false, false) then Some(MoveToWorkspace(n))
    else if mods == Mods(true, false, true, false) then Some(MoveToOutputWorkspace(n))
    else None
  }

  lemma {:induction false} DigitRow(k: nat, mods: Mods, n: nat)
    requires k <= 10 && 1 <= n <= 10
    ensures ActionOn(DigitBinds(k), Chord(mods, DigitOf(n))) == if n <= k then OnDigit(mods, n) else None
  {
    hide ActionOn, DigitOf;
    var c := Chord(mods, DigitOf(n));
    if k == 0 {
      NoBinds(c);
    } else {
      DigitRow(k - 1, mods, n);
      var a, b := Bind(Chord(SUPER, DIGITS[k - 1]), SwitchWorkspace(k)),
        Bind(Chord(SUPER_SHIFT, DIGITS[k - 1]), MoveToWorkspace(k));
      var d, e := Bind(Chord(SUPER_SHIFT, SHIFTED[k - 1]), MoveToWorkspace(k)),
        Bind(Chord(SUPER_CTRL, DIGITS[k - 1]), MoveToOutputWorkspace(k));
      FourOn(DigitBinds(k - 1), a, b, d, e, c);
      DigitKey(k);
      DigitsApart(k, n);
    }
  }

  lemma FourOn(bs: seq<Bind>, a: Bind, b: Bind, d: Bind, e: Bind, c: Chord)
    ensures ActionOn(bs + [a, b, d, e], c) ==
            if Has(bs, c) then ActionOn(bs, c)
            else if a.chord == c then Some(a.action)
            else if b.chord == c then Some(b.action)
            else if d.chord == c then Some(d.action)
            else if e.chord == c then Some(e.action)
            else None
  {
    hide ActionOn;
    assert bs + [a, b, d, e] == bs + [a] + [b] + [d] + [e];
    OneBind(a, c);
    OneBind(b, c);
    OneBind(d, c);
    OneBind(e, c);
    ActionAppend(bs, [a], c);
    ActionAppend(bs + [a], [b], c);
    ActionAppend(bs + [a] + [b], [d], c);
    ActionAppend(bs + [a] + [b] + [d], [e], c);
  }

  /** The tables in their order. */
  lemma DefaultsOn(c: Chord)
    ensures ActionOn(DefaultBinds(), c) ==
            if Has(AgentBinds(), c) then ActionOn(AgentBinds(), c)
            else if Has(ProgramBinds(), c) then ActionOn(ProgramBinds(), c)
            else if Has(WindowBinds(), c) then ActionOn(WindowBinds(), c)
            else if Has(SessionBinds(), c) then ActionOn(SessionBinds(), c)
            else ActionOn(DigitBinds(10), c)
  {
    hide ProgramBinds, WindowBinds, SessionBinds, AgentBinds, DigitBinds, ActionOn;
    ActionAppend(ProgramBinds() + WindowBinds() + SessionBinds(), DigitBinds(10), c);
    ActionAppend(ProgramBinds() + WindowBinds(), SessionBinds(), c);
    ActionAppend(ProgramBinds(), WindowBinds(), c);
    ActionAppend(AgentBinds(), OtherBinds(), c);
  }

  lemma DigitsApart(k: nat, n: nat)
    requires 1 <= k <= 10 && 1 <= n <= 10
    ensures DigitOf(n) != SHIFTED[k - 1] && (DigitOf(n) == DigitOf(k) <==> n == k)
  {
    assert |SHIFTED[k - 1]| > 1 && |DigitOf(n)| == 1;
    assert n != k ==> DigitOf(n)[0] != DigitOf(k)[0];
  }

  /** Super and a digit switch to the workspace, Shift takes the window there
      and Ctrl takes it to the output of that number. */
  lemma WorkspaceKeys(cfg: Config, nodes: seq<Bind>, mods: Mods, n: nat)
    requires 1 <= n <= 10 && Untaken(cfg, nodes, Chord(mods, DigitOf(n)))
    ensures Fires(cfg, nodes, Chord(mods, DigitOf(n))) == OnDigit(mods, n)
  {
    hide ModeBinds, ProgramBinds, WindowBinds, SessionBinds, AgentBinds, DigitBinds, NoLaunch, ActionOn, DigitOf,
      Fires, OffTheDigits;
    var c := Chord(mods, DigitOf(n));
    UntakenFires(cfg, nodes, c);
    TablesOffTheDigits(cfg.mode);
    FreeOfDigit(ModeBinds(cfg.mode), mods, n);
    FreeOfDigit(AgentBinds(), mods, n);
    FreeOfDigit(ProgramBinds(), mods, n);
    FreeOfDigit(WindowBinds(), mods, n);
    FreeOfDigit(SessionBinds(), mods, n);
    DigitRow(10, mods, n);
    DefaultsOn(c);
    NoLaunchFires(DefaultBinds(), c);
  }

  /** The symbol a US layout has on Shift and the digit of a workspace. */
  function SymbolOf(n: nat): (r: Key)
    requires 1 <= n <= 10
    ensures r != "" && 'a' <= r[0] <= 'z'
  {
    match n
    case 1 => "exclam"
    case 2 => "at"
    case 3 => "numbersign"
    case 4 => "dollar"
    case 5 => "percent"
    case 6 => "asciicircum"
    case 7 => "ampersand"
    case 8 => "asterisk"
    case 9 => "parenleft"
    case 10 => "parenright"
  }

  lemma NotOnSymbol(bs: seq<Bind>, n: nat)
    requires OffTheDigits(bs) && 1 <= n <= 10
    ensures ActionOn(bs, Chord(Mods(true, true, false, false), SymbolOf(n))) == None
  {
    hide SymbolOf;
  }

  lemma SymbolKey(n: nat)
    requires 1 <= n <= 10
    ensures SHIFTED[n - 1] == SymbolOf(n) && |SymbolOf(n)| > 1
  {
  }

  lemma SymbolsApart(k: nat, n: nat)
    requires 1 <= k < n <= 10
    ensures SymbolOf(k) != SymbolOf(n)
  {
    var a, b := SymbolOf(k), SymbolOf(n);
    assert a[0] != b[0] || |a| != |b|;
  }

  lemma {:induction false} SymbolRow(k: nat, n: nat)
    requires k <= 10 && 1 <= n <= 10
    ensures ActionOn(DigitBinds(k), Chord(Mods(true, true, false, false), SymbolOf(n))) ==
            if n <= k then Some(MoveToWorkspace(n)) else None
  {
    hide ActionOn, SymbolOf, DigitOf;
    var c := Chord(SUPER_SHIFT, SymbolOf(n));
    if k == 0 {
      NoBinds(c);
    } else {
      SymbolRow(k - 1, n);
      var a, b := Bind(Chord(SUPER, DIGITS[k - 1]), SwitchWorkspace(k)),
        Bind(Chord(SUPER_SHIFT, DIGITS[k - 1]), MoveToWorkspace(k));
      var d, e := Bind(Chord(SUPER_SHIFT, SHIFTED[k - 1]), MoveToWorkspace(k)),
        Bind(Chord(SUPER_CTRL, DIGITS[k - 1]), MoveToOutputWorkspace(k));
      FourOn(DigitBinds(k - 1), a, b, d, e, c);
      DigitKey(k);
      DigitSize(k);
      SymbolKey(k);
      SymbolKey(n);
      if k < n {
        SymbolsApart(k, n);
      } else if n < k {
        SymbolsApart(n, k);
      }
    }
  }

  lemma DigitSize(n: nat)
    requires 1 <= n <= 10
    ensures |DigitOf(n)| == 1
  {
  }

  /** Super, Shift and what the layout has on Shift take the window there too. */
  lemma SymbolKeys(cfg: Config, nodes: seq<Bind>, n: nat)
    requires 1 <= n <= 10 && Untaken(cfg, nodes, Chord(Mods(true, true, false, false), SymbolOf(n)))
    ensures Fires(cfg, nodes, Chord(Mods(true, true, false, false), SymbolOf(n))) == Some(MoveToWorkspace(n))
  {
    hide ModeBinds, ProgramBinds, WindowBinds, SessionBinds, AgentBinds, DigitBinds, NoLaunch, ActionOn, SymbolOf,
      Fires, OffTheDigits;
    var c := Chord(Mods(true, true, false, false), SymbolOf(n));
    UntakenFires(cfg, nodes, c);
    TablesOffTheDigits(cfg.mode);
    NotOnSymbol(ModeBinds(cfg.mode), n);
    NotOnSymbol(AgentBinds(), n);
    NotOnSymbol(ProgramBinds(), n);
    NotOnSymbol(WindowBinds(), n);
    NotOnSymbol(SessionBinds(), n);
    SymbolRow(10, n);
    DefaultsOn(c);
    NoLaunchFires(DefaultBinds(), c);
  }

  // --------------------------------------------------------------- the arrows

  function ArrowKey(to: Direction): Key {
    match to
    case Left => "Left"
    case Right => "Right"
    case Up => "Up"
    case Down => "Down"
  }

  /** Super and an arrow tile the window under `de` and move the focus in the
      other modes. */
  lemma ArrowKeys(cfg: Config, nodes: seq<Bind>, to: Direction)
    requires Untaken(cfg, nodes, Chord(Mods(true, false, false, false), ArrowKey(to)))
    ensures Fires(cfg, nodes, Chord(Mods(true, false, false, false), ArrowKey(to))) ==
            Some(if cfg.mode == De then Tile(to) else Focus(to))
  {
    hide ModeBinds, DefaultBinds, NoLaunch, ActionOn, Fires;
    var c := Chord(Mods(true, false, false, false), ArrowKey(to));
    UntakenFires(cfg, nodes, c);
    ModeArrow(cfg.mode, to);
    BuiltInArrow(to);
    NoLaunchFires(DefaultBinds(), c);
  }

  lemma ModeArrow(mode: Mode, to: Direction)
    ensures ActionOn(ModeBinds(mode), Chord(Mods(true, false, false, false), ArrowKey(to))) ==
            if mode == De then Some(Tile(to)) else None
  {
    hide ActionOn;
    NoBinds(Chord(Mods(true, false, false, false), ArrowKey(to)));
    if mode == De {
      var bs := ModeBinds(De);
      var i := match to case Left => 5 case Right => 6 case Up => 7 case Down => 8;
      assert bs[i] == Bind(Chord(SUPER, ArrowKey(to)), Tile(to));
      assert "w"[0] == 'w' && "Page_Up"[0] == 'P' && "Left"[0] == 'L' && "Right"[0] == 'R' && "Up"[0] == 'U' &&
        "Down"[0] == 'D';
      FirstAt(bs, i);
    }
  }

  lemma BuiltInArrow(to: Direction)
    ensures ActionOn(DefaultBinds(), Chord(Mods(true, false, false, false), ArrowKey(to))) == Some(Focus(to))
  {
    hide ActionOn, DigitBinds, SessionBinds;
    var bs := DefaultBinds();
    var i := match to case Left => 18 case Right => 19 case Up => 20 case Down => 21;
    assert bs[i] == Bind(Chord(SUPER, ArrowKey(to)), Focus(to));
    assert |"Left"| == 4 && |"Right"| == 5 && |"Up"| == 2 && |"Down"| == 4 && "Left"[0] == 'L' && "Right"[0] == 'R' &&
      "Up"[0] == 'U' && "Down"[0] == 'D' && "slash"[0] == 's' && "space"[0] == 's' && "F1"[0] == 'F';
    FirstAt(bs, i);
  }

  /** Under `de`, Ctrl and Super and an arrow switch the desktop and Shift takes
      the window along; Alt+F4 closes, Alt+Tab steps the switcher, Super+W shows
      the overview and Super+PageUp maximizes. */
  lemma DeKeys(cfg: Config, nodes: seq<Bind>, c: Chord)
    requires cfg.mode == De && Untaken(cfg, nodes, c)
    ensures forall to :: c == Chord(Mods(true, false, true, false), ArrowKey(to)) ==>
              Fires(cfg, nodes, c) == Some(DesktopSwitch(to))
    ensures forall to :: c == Chord(Mods(true, true, true, false), ArrowKey(to)) ==>
              Fires(cfg, nodes, c) == Some(DesktopMove(to))
    ensures c == Chord(Mods(false, false, false, true), "F4") ==> Fires(cfg, nodes, c) == Some(Close)
    ensures c == Chord(Mods(false, false, false, true), "Tab") ==> Fires(cfg, nodes, c) == Some(Switcher(false))
    ensures c == Chord(Mods(true, false, false, false), "w") ==> Fires(cfg, nodes, c) == Some(ToggleOverview)
    ensures c == Chord(Mods(true, false, false, false), "Page_Up") ==> Fires(cfg, nodes, c) == Some(ToggleMaximize)
  {
    hide ModeBinds, DefaultBinds, NoLaunch, ActionOn, Fires, Untaken, ArrowKey;
    UntakenFires(cfg, nodes, c);
    DePlainKeys();
    forall to | c.key == ArrowKey(to)
      ensures ActionOn(ModeBinds(De), Chord(SUPER_CTRL, c.key)) == Some(DesktopSwitch(to))
      ensures ActionOn(ModeBinds(De), Chord(SUPER_SHIFT_CTRL, c.key)) == Some(DesktopMove(to))
    {
      DeGrid(to);
    }
  }

  lemma DePlainKeys()
    ensures ActionOn(ModeBinds(De), Chord(ALT, "F4")) == Some(Close)
    ensures ActionOn(ModeBinds(De), Chord(ALT, "Tab")) == Some(Switcher(false))
    ensures ActionOn(ModeBinds(De), Chord(SUPER, "w")) == Some(ToggleOverview)
    ensures ActionOn(ModeBinds(De), Chord(SUPER, "Page_Up")) == Some(ToggleMaximize)
  {
    hide ActionOn;
    var bs := ModeBinds(De);
    assert |"F4"| == 2 && |"Tab"| == 3 && |"w"| == 1 && |"Page_Up"| == 7;
    FirstAt(bs, 0);
    FirstAt(bs, 1);
    FirstAt(bs, 3);
    FirstAt(bs, 4);
  }

  lemma DeGrid(to: Direction)
    ensures ActionOn(ModeBinds(De), Chord(SUPER_CTRL, ArrowKey(to))) == Some(DesktopSwitch(to))
    ensures ActionOn(ModeBinds(De), Chord(SUPER_SHIFT_CTRL, ArrowKey(to))) == Some(DesktopMove(to))
  {
    hide ActionOn;
    var bs := ModeBinds(De);
    var i := match to case Left => 9 case Right => 11 case Up => 13 case Down => 15;
    assert bs[i] == Bind(Chord(SUPER_CTRL, ArrowKey(to)), DesktopSwitch(to));
    assert bs[i + 1] == Bind(Chord(SUPER_SHIFT_CTRL, ArrowKey(to)), DesktopMove(to));
    assert "Left"[0] == 'L' && "Right"[0] == 'R' && "Up"[0] == 'U' && "Down"[0] == 'D';
    FirstAt(bs, i);
    FirstAt(bs, i + 1);
  }

  // -------------------------------------------------------------- launching

  /** Where no file and no Oracle Eyes chord comes first, a chord launches
      exactly when it is one of the two chosen ones: the shipped Super+E and
      Super+R do not, once others are chosen. */
  lemma LaunchesWhenChosen(cfg: Config, nodes: seq<Bind>, c: Chord)
    requires LastOn(nodes, c) == None && FirstSet(cfg.eyes, c) == None
    ensures Fires(cfg, nodes, c) == Some(Spawn("ec-launcher")) <==> cfg.open == Some(c) || cfg.run == Some(c)
  {
    hide NoLaunch, DefaultBinds, ModeBinds, ActionOn, LastOn, FirstSet, Reserved;
    FiredIsThere(NoLaunch(DefaultBinds()), c);
    FiredIsThere(ModeBinds(cfg.mode), c);
    ModeLaunchesNothing(cfg.mode);
  }

  lemma ModeLaunchesNothing(mode: Mode)
    ensures forall i :: 0 <= i < |ModeBinds(mode)| ==> ModeBinds(mode)[i].action != Spawn("ec-launcher")
  {
  }

  lemma {:induction false} FiredIsThere(bs: seq<Bind>, c: Chord)
    ensures ActionOn(bs, c).Some? ==> exists i :: 0 <= i < |bs| && bs[i].action == ActionOn(bs, c).value
    decreases |bs|
  {
    if bs != [] && bs[0].chord != c {
      FiredIsThere(bs[1..], c);
      if ActionOn(bs[1..], c).Some? {
        var i :| 0 <= i < |bs[1..]| && bs[1..][i].action == ActionOn(bs[1..], c).value;
        assert bs[i + 1].action == ActionOn(bs, c).value;
      }
    }
  }
}
