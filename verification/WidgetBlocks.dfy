/** Custom bar widgets: blocks that define them, ids that place them, and what a
    refused block leaves for startup to drop. */
module WidgetBlocks {
  import opened Options
  import Kdl

  /** A value; of a string also what it is as a duration. */
  datatype Val = Str(text: string, ms: Option<nat>) | Num(n: int) | Bool(b: bool) | Null

  datatype Entry = Entry(property: bool, val: Val)

  datatype Node = Node(key: string, entries: seq<Entry>)

  /** The first value that is not a property's. */
  function Arg(es: seq<Entry>): (r: Option<Val>)
    ensures r == None <==> forall i :: 0 <= i < |es| ==> es[i].property
    ensures r.Some? ==> exists i :: 0 <= i < |es| && !es[i].property && es[i].val == r.value &&
                          forall j :: 0 <= j < i ==> es[j].property
  {
    if es == [] then None else if !es[0].property then Some(es[0].val) else Arg(es[1..])
  }

  function StringArg(es: seq<Entry>): Option<string> {
    match Arg(es)
    case Some(Str(s, _)) => Some(s)
    case _ => None
  }

  datatype Kind = Exec(argv: seq<string>, intervalMs: nat) | Stream(argv: seq<string>)
    | Source(source: string, format: string)

  datatype Widget = Widget(name: string, kind: Kind, icon: Option<string>,
                           click: Option<seq<string>>, up: Option<seq<string>>, down: Option<seq<string>>)

  const KEYS: seq<string> :=
    ["exec", "interval-ms", "stream", "source", "format", "icon", "on-click", "on-scroll-up", "on-scroll-down"]
  const SOURCES: seq<string> :=
    ["usage.cpu", "usage.mem", "usage.gpu", "usage.disk", "audio.volume", "media.title", "media.artist"]
  const IDS: seq<string> :=
    ["now-playing", "system-usage", "volume", "network", "bluetooth", "battery", "quick-actions", "tray", "progress",
     "power", "clock"]
  const MIN_INTERVAL_MS := 250
  const MAX_INTERVAL_MS := 86_400_000
  const DEFAULT_INTERVAL_MS := 5_000
  const CUSTOM := "custom:"

  // ----------------------------------------------------------------- a block

  /** What the children of a block have set, and how many were refused. */
  datatype Fields = Fields(errors: nat, exec: Option<seq<string>>, interval: Option<nat>, stream: bool,
                           source: Option<string>, format: Option<string>, icon: Option<string>,
                           click: Option<seq<string>>, up: Option<seq<string>>, down: Option<seq<string>>,
                           seen: seq<string>)

  function NoFields(): Fields {
    Fields(0, None, None, false, None, None, None, None, None, None, [])
  }

  function Strings(es: seq<Entry>): Option<seq<string>> {
    if es == [] then Some([])
    else if es[|es| - 1].property || !es[|es| - 1].val.Str? then None
    else
      match Strings(es[..|es| - 1])
      case None => None
      case Some(before) => Some(before + [es[|es| - 1].val.text])
  }

  /** A command: strings only, and a first one that is not empty. */
  function Argv(es: seq<Entry>): Option<seq<string>> {
    match Strings(es)
    case None => None
    case Some(out) => if out == [] || out[0] == "" then None else Some(out)
  }

  function Millis(es: seq<Entry>): Option<nat> {
    var v :=
      match Arg(es)
      case Some(Num(n)) => if 0 <= n < 0x1_0000_0000 then Some(n) else None
      case Some(Str(_, ms)) => ms
      case _ => None;
    if v.Some? && MIN_INTERVAL_MS <= v.value <= MAX_INTERVAL_MS then v else None
  }

  function Flag(es: seq<Entry>): Option<bool> {
    match Arg(es)
    case None => Some(true)
    case Some(Bool(b)) => Some(b)
    case _ => None
  }

  function Refuse(f: Fields): Fields {
    f.(errors := f.errors + 1)
  }

  function SetChild(f: Fields, n: Node): Fields {
    if n.key == "exec" then (match Argv(n.entries) case None => Refuse(f) case a => f.(exec := a))
    else if n.key == "on-click" then (match Argv(n.entries) case None => Refuse(f) case a => f.(click := a))
    else if n.key == "on-scroll-up" then (match Argv(n.entries) case None => Refuse(f) case a => f.(up := a))
    else if n.key == "on-scroll-down" then (match Argv(n.entries) case None => Refuse(f) case a => f.(down := a))
    else if n.key == "interval-ms" then (match Millis(n.entries) case None => Refuse(f) case v => f.(interval := v))
    else if n.key == "stream" then (match Flag(n.entries) case None => Refuse(f) case Some(b) => f.(stream := b))
    else if n.key == "source" then
      (match StringArg(n.entries)
       case None => Refuse(f)
       case Some(s) => if s in SOURCES then f.(source := Some(s)) else Refuse(f))
    else if n.key == "format" then (match StringArg(n.entries) case None => Refuse(f) case s => f.(format := s))
    else (match StringArg(n.entries) case None => Refuse(f) case s => f.(icon := s))
  }

  /** One child: an unknown key or a key given twice is refused unread. */
  function Child(f: Fields, n: Node): Fields {
    if n.key !in KEYS || n.key in f.seen then Refuse(f) else SetChild(f.(seen := f.seen + [n.key]), n)
  }

  function Children(ns: seq<Node>): Fields {
    if ns == [] then NoFields() else Child(Children(ns[..|ns| - 1]), ns[|ns| - 1])
  }

  /** The kind a block comes to; a contradiction in it is one more refusal. */
  function KindOf(f: Fields): Option<Kind> {
    match (f.exec, f.source)
    case (Some(_), Some(_)) => None
    case (None, None) => None
    case (Some(argv), None) =>
      if f.format.Some? then None
      else if f.stream then (if f.interval.Some? then None else Some(Stream(argv)))
      else Some(Exec(argv, match f.interval case Some(v) => v case None => DEFAULT_INTERVAL_MS))
    case (None, Some(source)) =>
      if f.stream || f.interval.Some? then None
      else Some(Source(source, match f.format case Some(s) => s case None => "{}"))
  }

  // ----------------------------------------- a block, told from its children

  /** The entries of the first child of a key. */
  ghost function ChildOf(ns: seq<Node>, key: string): Option<seq<Entry>> {
    if ns == [] then None
    else if ns[0].key == key then Some(ns[0].entries)
    else ChildOf(ns[1..], key)
  }

  /** Strings without a name. */
  ghost predicate AllTexts(es: seq<Entry>) {
    forall i :: 0 <= i < |es| ==> !es[i].property && es[i].val.Str?
  }

  ghost function Texts(es: seq<Entry>): seq<string>
    requires AllTexts(es)
  {
    seq(|es|, i requires 0 <= i < |es| => es[i].val.text)
  }

  ghost predicate IsCommand(es: seq<Entry>) {
    es != [] && AllTexts(es) && es[0].val.text != ""
  }

  /** The command under a key, if there is a child of the key and it has one. */
  ghost function CommandOf(ns: seq<Node>, key: string): Option<seq<string>> {
    var es := ChildOf(ns, key);
    if es.Some? && IsCommand(es.value) then Some(Texts(es.value)) else None
  }

  /** The milliseconds a value stands for, between a quarter of a second and a
      day. */
  ghost function IntervalIn(v: Option<Val>): Option<nat> {
    match v
    case Some(Num(n)) => if 250 <= n <= 86_400_000 then Some(n) else None
    case Some(Str(_, Some(n))) => if 250 <= n <= 86_400_000 then Some(n) else None
    case _ => None
  }

  ghost function IntervalOf(ns: seq<Node>): Option<nat> {
    var es := ChildOf(ns, "interval-ms");
    if es.Some? then IntervalIn(Arg(es.value)) else None
  }

  /** A stream child without a value switches it on, one with a boolean says. */
  ghost predicate StreamOf(ns: seq<Node>) {
    var es := ChildOf(ns, "stream");
    es.Some? && (Arg(es.value) == None || Arg(es.value) == Some(Bool(true)))
  }

  ghost predicate IsText(es: seq<Entry>) {
    Arg(es).Some? && Arg(es).value.Str?
  }

  ghost predicate IsSource(es: seq<Entry>) {
    && IsText(es)
    && Arg(es).value.text in
       ["usage.cpu", "usage.mem", "usage.gpu", "usage.disk", "audio.volume", "media.title", "media.artist"]
  }

  ghost function TextOf(ns: seq<Node>, key: string): Option<string> {
    var es := ChildOf(ns, key);
    if es.Some? && IsText(es.value) then Some(Arg(es.value).value.text) else None
  }

  ghost function SourceOf(ns: seq<Node>): Option<string> {
    var es := ChildOf(ns, "source");
    if es.Some? && IsSource(es.value) then Some(Arg(es.value).value.text) else None
  }

  /** Whether a child may stand with what it holds. */
  ghost predicate Fits(n: Node) {
    if n.key in ["exec", "on-click", "on-scroll-up", "on-scroll-down"] then IsCommand(n.entries)
    else if n.key == "interval-ms" then IntervalIn(Arg(n.entries)).Some?
    else if n.key == "stream" then Arg(n.entries) == None || Arg(n.entries).value.Bool?
    else if n.key == "source" then IsSource(n.entries)
    else n.key in ["format", "icon"] && IsText(n.entries)
  }

  /** The children that are refused: an unknown key, one given before, or
      something it cannot hold. */
  ghost function Faults(ns: seq<Node>): nat {
    if ns == [] then 0
    else
      var n := ns[|ns| - 1];
      Faults(ns[..|ns| - 1]) + if Fits(n) && ChildOf(ns[..|ns| - 1], n.key) == None then 0 else 1
  }

  /** Either something to run or a source, and only what goes with it. */
  ghost predicate Coherent(ns: seq<Node>) {
    var exec := CommandOf(ns, "exec");
    && (exec == None <==> SourceOf(ns).Some?)
    && (exec.Some? ==> TextOf(ns, "format") == None && !(StreamOf(ns) && IntervalOf(ns).Some?))
    && (exec == None ==> !StreamOf(ns) && IntervalOf(ns) == None)
  }

  /** The widget a block describes: a source with its format or "{}", a stream,
      or a command every interval or five seconds. */
  ghost function Described(name: string, ns: seq<Node>): Widget
    requires Coherent(ns)
  {
    var kind :=
      if SourceOf(ns).Some? then
        Source(SourceOf(ns).value, match TextOf(ns, "format") case Some(s) => s case None => "{}")
      else if StreamOf(ns) then Stream(CommandOf(ns, "exec").value)
      else Exec(CommandOf(ns, "exec").value, match IntervalOf(ns) case Some(v) => v case None => 5000);
    Widget(name, kind, TextOf(ns, "icon"), CommandOf(ns, "on-click"), CommandOf(ns, "on-scroll-up"),
           CommandOf(ns, "on-scroll-down"))
  }

  /** How many errors a block records, and its widget unless it is refused. */
  function Block(name: string, ns: seq<Node>): (r: (nat, Option<Widget>))
    ensures r.0 == Faults(ns) + if Coherent(ns) then 0 else 1
    ensures r.1 == if r.0 == 0 then Some(Described(name, ns)) else None
  {
    ChildrenRead(ns);
    var f := Children(ns);
    match KindOf(f)
    case None => (f.errors + 1, None)
    case Some(kind) => (f.errors,
      if f.errors > 0 then None else Some(Widget(name, kind, f.icon, f.click, f.up, f.down)))
  }

  lemma {:induction false} StringsAre(es: seq<Entry>)
    ensures Strings(es) == if AllTexts(es) then Some(Texts(es)) else None
    decreases |es|
  {
    if es == [] {
      assert Texts(es) == [];
    } else {
      var n := |es| - 1;
      StringsAre(es[..n]);
      assert AllTexts(es) <==> AllTexts(es[..n]) && !es[n].property && es[n].val.Str?;
      if AllTexts(es) {
        assert Texts(es) == Texts(es[..n]) + [es[n].val.text];
      }
    }
  }

  lemma ArgvIs(es: seq<Entry>)
    ensures Argv(es) == if IsCommand(es) then Some(Texts(es)) else None
  {
    StringsAre(es);
  }

  lemma MillisIs(es: seq<Entry>)
    ensures Millis(es) == IntervalIn(Arg(es))
  {
    hide Arg;
  }

  /** The first child of a key stays the first one. */
  lemma {:induction false} ChildAdded(ns: seq<Node>, n: Node, key: string)
    ensures ChildOf(ns + [n], key) ==
            if ChildOf(ns, key).Some? then ChildOf(ns, key) else if n.key == key then Some(n.entries) else None
    decreases |ns|
  {
    if ns == [] {
      assert (ns + [n])[1..] == [];
    } else {
      assert (ns + [n])[1..] == ns[1..] + [n];
      ChildAdded(ns[1..], n, key);
    }
  }

  ghost predicate FieldsHold(f: Fields, ns: seq<Node>) {
    && f.exec == CommandOf(ns, "exec") && f.click == CommandOf(ns, "on-click")
    && f.up == CommandOf(ns, "on-scroll-up") && f.down == CommandOf(ns, "on-scroll-down")
    && f.interval == IntervalOf(ns) && f.stream == StreamOf(ns) && f.source == SourceOf(ns)
    && f.format == TextOf(ns, "format") && f.icon == TextOf(ns, "icon")
  }

  /** What the loop over the children fills in is what the children say. */
  ghost predicate Holds(f: Fields, ns: seq<Node>) {
    && f.errors == Faults(ns)
    && (forall k :: k in f.seen <==> k in KEYS && ChildOf(ns, k).Some?)
    && FieldsHold(f, ns)
  }

  lemma {:induction false} ChildrenRead(ns: seq<Node>)
    ensures Holds(Children(ns), ns)
    decreases |ns|
  {
    hide Holds, Child;
    if ns == [] {
      NoChildren();
    } else {
      ChildrenRead(ns[..|ns| - 1]);
      assert ns == ns[..|ns| - 1] + [ns[|ns| - 1]];
      ChildRead(Children(ns[..|ns| - 1]), ns[..|ns| - 1], ns[|ns| - 1]);
    }
  }

  lemma NoChildren()
    ensures Holds(NoFields(), [])
  {
  }

  lemma ChildRead(f: Fields, ns: seq<Node>, n: Node)
    requires Holds(f, ns)
    ensures Holds(Child(f, n), ns + [n])
  {
    hide SetChild, Fits, FieldsHold, ChildOf;
    assert (ns + [n])[..|ns|] == ns;
    forall k ensures ChildOf(ns + [n], k) ==
                     if ChildOf(ns, k).Some? then ChildOf(ns, k) else if n.key == k then Some(n.entries) else None {
      ChildAdded(ns, n, k);
    }
    if n.key !in KEYS {
      UnknownNeverFits(n);
    }
    if n.key !in KEYS || n.key in f.seen {
      FieldsKept(f, ns, n);
      assert FieldsHold(Refuse(f), ns + [n]) by { CountKeepsFields(f, ns + [n], f.seen); }
    } else {
      var g := f.(seen := f.seen + [n.key]);
      assert FieldsHold(g, ns) by { CountKeepsFields(f, ns, g.seen); }
      FieldsSet(g, ns, n);
      ChildCounted(g, n);
    }
  }

  lemma CountKeepsFields(f: Fields, ns: seq<Node>, seen: seq<string>)
    requires FieldsHold(f, ns)
    ensures FieldsHold(Refuse(f), ns) && FieldsHold(f.(seen := seen), ns)
  {
    hide CommandOf, IntervalOf, StreamOf, SourceOf, TextOf;
  }

  lemma UnknownNeverFits(n: Node)
    requires n.key !in KEYS
    ensures !Fits(n)
  {
  }

  lemma ChildCounted(f: Fields, n: Node)
    requires n.key in KEYS
    ensures SetChild(f, n).errors == f.errors + (if Fits(n) then 0 else 1) && SetChild(f, n).seen == f.seen
  {
    hide Arg, Argv, Millis, IsCommand, Texts, IntervalIn, StringArg, IsText, IsSource, SOURCES;
    ArgvIs(n.entries);
    MillisIs(n.entries);
    TextIs(n.entries);
  }

  lemma TextIs(es: seq<Entry>)
    ensures StringArg(es) == if IsText(es) then Some(Arg(es).value.text) else None
    ensures IsSource(es) <==> IsText(es) && Arg(es).value.text in SOURCES
  {
    hide Arg;
  }

  lemma FieldsKept(f: Fields, ns: seq<Node>, n: Node)
    requires FieldsHold(f, ns) && (n.key !in KEYS || ChildOf(ns, n.key).Some?)
    ensures FieldsHold(f, ns + [n])
  {
    hide Arg, IsCommand, Texts, IntervalIn, IsText, IsSource, ChildOf;
    KnownKeys();
    KeyKept(ns, n, "exec");
    KeyKept(ns, n, "interval-ms");
    KeyKept(ns, n, "stream");
    KeyKept(ns, n, "source");
    KeyKept(ns, n, "format");
    KeyKept(ns, n, "icon");
    KeyKept(ns, n, "on-click");
    KeyKept(ns, n, "on-scroll-up");
    KeyKept(ns, n, "on-scroll-down");
  }

  lemma KeyKept(ns: seq<Node>, n: Node, key: string)
    requires key in KEYS && (n.key !in KEYS || ChildOf(ns, n.key).Some?)
    ensures ChildOf(ns + [n], key) == ChildOf(ns, key)
  {
    hide ChildOf;
    ChildAdded(ns, n, key);
  }

  lemma KnownKeys()
    ensures "exec" in KEYS && "interval-ms" in KEYS && "stream" in KEYS && "source" in KEYS && "format" in KEYS
    ensures "icon" in KEYS && "on-click" in KEYS && "on-scroll-up" in KEYS && "on-scroll-down" in KEYS
  {
  }

  lemma FieldsSet(f: Fields, ns: seq<Node>, n: Node)
    requires FieldsHold(f, ns) && n.key in KEYS && ChildOf(ns, n.key) == None
    ensures FieldsHold(SetChild(f, n), ns + [n])
  {
    hide SetChild, CommandOf, IntervalOf, StreamOf, SourceOf, TextOf;
    CommandSet(f, ns, n);
    TimingSet(f, ns, n);
    TextSet(f, ns, n);
  }

  /** A child sets the field of its key and no other. */
  lemma CommandKeys(f: Fields, n: Node)
    ensures var a := Argv(n.entries);
            && SetChild(f, n).exec == (if n.key == "exec" && a.Some? then a else f.exec)
            && SetChild(f, n).click == (if n.key == "on-click" && a.Some? then a else f.click)
            && SetChild(f, n).up == (if n.key == "on-scroll-up" && a.Some? then a else f.up)
            && SetChild(f, n).down == (if n.key == "on-scroll-down" && a.Some? then a else f.down)
  {
    hide Argv, Millis, Flag, StringArg;
    assert |"exec"| == 4 && |"on-click"| == 8 && |"on-scroll-up"| == 12 && |"on-scroll-down"| == 14;
  }

  lemma TextKeys(f: Fields, n: Node)
    requires n.key in KEYS
    ensures var t := StringArg(n.entries);
            && SetChild(f, n).source ==
               (if n.key == "source" && t.Some? && t.value in SOURCES then t else f.source)
            && SetChild(f, n).format == (if n.key == "format" && t.Some? then t else f.format)
            && SetChild(f, n).icon == (if n.key == "icon" && t.Some? then t else f.icon)
  {
    hide Argv, Millis, Flag, StringArg;
    assert |"source"| == 6 && |"format"| == 6 && |"icon"| == 4 && "source"[0] == 's' && "format"[0] == 'f';
    assert "stream"[1] == 't' && "source"[1] == 'o' && |"exec"| == 4 && |"on-click"| == 8 && |"on-scroll-up"| == 12;
    assert |"on-scroll-down"| == 14 && |"interval-ms"| == 11 && |"stream"| == 6 && "exec"[0] == 'e' && "icon"[0] == 'i';
  }

  lemma TimingKeys(f: Fields, n: Node)
    ensures var v, b := Millis(n.entries), Flag(n.entries);
            && SetChild(f, n).interval == (if n.key == "interval-ms" && v.Some? then v else f.interval)
            && SetChild(f, n).stream == (if n.key == "stream" && b.Some? then b.value else f.stream)
  {
    hide Argv, Millis, Flag, StringArg;
    assert |"interval-ms"| == 11 && |"stream"| == 6 && |"exec"| == 4 && |"on-click"| == 8 && |"on-scroll-up"| == 12;
    assert |"on-scroll-down"| == 14;
  }

  lemma CommandSet(f: Fields, ns: seq<Node>, n: Node)
    requires FieldsHold(f, ns) && ChildOf(ns, n.key) == None
    ensures SetChild(f, n).exec == CommandOf(ns + [n], "exec")
    ensures SetChild(f, n).click == CommandOf(ns + [n], "on-click")
    ensures SetChild(f, n).up == CommandOf(ns + [n], "on-scroll-up")
    ensures SetChild(f, n).down == CommandOf(ns + [n], "on-scroll-down")
  {
    hide SetChild, Argv, IsCommand, Texts, ChildOf, IntervalOf, StreamOf, SourceOf, TextOf;
    CommandKeys(f, n);
    ArgvIs(n.entries);
    ChildAdded(ns, n, "exec");
    ChildAdded(ns, n, "on-click");
    ChildAdded(ns, n, "on-scroll-up");
    ChildAdded(ns, n, "on-scroll-down");
  }

  lemma TimingSet(f: Fields, ns: seq<Node>, n: Node)
    requires FieldsHold(f, ns) && ChildOf(ns, n.key) == None
    ensures SetChild(f, n).interval == IntervalOf(ns + [n])
    ensures SetChild(f, n).stream == StreamOf(ns + [n])
  {
    hide SetChild, Arg, Millis, ChildOf, IntervalIn, CommandOf, SourceOf, TextOf;
    TimingKeys(f, n);
    MillisIs(n.entries);
    ChildAdded(ns, n, "interval-ms");
    ChildAdded(ns, n, "stream");
  }

  lemma TextSet(f: Fields, ns: seq<Node>, n: Node)
    requires FieldsHold(f, ns) && n.key in KEYS && ChildOf(ns, n.key) == None
    ensures SetChild(f, n).source == SourceOf(ns + [n])
    ensures SetChild(f, n).format == TextOf(ns + [n], "format")
    ensures SetChild(f, n).icon == TextOf(ns + [n], "icon")
  {
    hide SetChild, Arg, ChildOf, IntervalOf, StreamOf, CommandOf;
    TextKeys(f, n);
    ChildAdded(ns, n, "source");
    ChildAdded(ns, n, "format");
    ChildAdded(ns, n, "icon");
  }

  // ------------------------------------------------------------------ state

  /** The widgets stored, the names claimed by a block, the custom ids still to
      check, the two lists that place widgets, and for each error whether it
      forbids starting. */
  datatype State = State(widgets: seq<Widget>, claimed: seq<string>, pending: seq<string>,
                         order: seq<string>, important: seq<string>, errors: seq<bool>)

  function Plain(n: nat): (r: seq<bool>)
    ensures |r| == n && forall i :: 0 <= i < n ==> !r[i]
  {
    if n == 0 then [] else Plain(n - 1) + [false]
  }

  function Fail(s: State, n: nat): State {
    s.(errors := s.errors + Plain(n))
  }

  function Store(ws: seq<Widget>, w: Widget): seq<Widget> {
    if ws == [] then [w]
    else if ws[0].name == w.name then [w] + ws[1..]
    else [ws[0]] + Store(ws[1..], w)
  }

  /** `apply_bar_widget` */
  function ApplyBlock(s: State, entries: seq<Entry>, ns: seq<Node>): State {
    match StringArg(entries)
    case None => Fail(s, 1)
    case Some(name) =>
      if Kdl.AllWhite(name) then Fail(s, 1)
      else
        var t := s.(claimed := if name in s.claimed then s.claimed else s.claimed + [name]);
        var (errors, w) := Block(name, ns);
        if w == None then Fail(t, errors) else t.(widgets := Store(s.widgets, w.value))
  }

  function CustomName(id: string): Option<string> {
    if CUSTOM <= id then Some(id[|CUSTOM|..]) else None
  }

  /** One id of `order` or `important`: kept, or refused and dropped. */
  datatype Ids = Ids(out: seq<string>, pending: seq<string>, errors: nat)

  function Id(r: Ids, e: Entry): Ids {
    if e.property || !e.val.Str? || e.val.text in r.out then r.(errors := r.errors + 1)
    else
      var id := e.val.text;
      match CustomName(id)
      case Some(name) =>
        if name == "" then r.(errors := r.errors + 1) else r.(out := r.out + [id], pending := r.pending + [name])
      case None => if id in IDS then r.(out := r.out + [id]) else r.(errors := r.errors + 1)
  }

  function WidgetIds(es: seq<Entry>): Ids {
    if es == [] then Ids([], [], 0) else Id(WidgetIds(es[..|es| - 1]), es[|es| - 1])
  }

  datatype Placement = Order(entries: seq<Entry>) | Important(entries: seq<Entry>) | Unrelated(errors: seq<bool>)

  /** `order` and `important` each replace what was there; a second one in a
      block is an error too. */
  function Place(s: State, p: Placement, again: bool): State {
    match p
    case Unrelated(errors) => s.(errors := s.errors + errors)
    case Order(es) =>
      var r := WidgetIds(es);
      Fail(s.(order := r.out, pending := s.pending + r.pending), r.errors + if again then 1 else 0)
    case Important(es) =>
      var r := WidgetIds(es);
      Fail(s.(important := r.out, pending := s.pending + r.pending), r.errors + if again then 1 else 0)
  }

  function Again(ps: seq<Placement>, p: Placement): bool {
    match p
    case Order(_) => exists i :: 0 <= i < |ps| && ps[i].Order?
    case Important(_) => exists i :: 0 <= i < |ps| && ps[i].Important?
    case Unrelated(_) => false
  }

  function Places(s: State, ps: seq<Placement>): State {
    if ps == [] then s else Place(Places(s, ps[..|ps| - 1]), ps[|ps| - 1], Again(ps[..|ps| - 1], ps[|ps| - 1]))
  }

  /** A node of a file, as far as widgets go. */
  datatype Top = WidgetBlock(entries: seq<Entry>, children: seq<Node>) | Widgets(placements: seq<Placement>)
    | Elsewhere(errors: seq<bool>)

  function ApplyTop(s: State, t: Top): State {
    match t
    case WidgetBlock(es, ns) => ApplyBlock(s, es, ns)
    case Widgets(ps) => Places(s, ps)
    case Elsewhere(errors) => s.(errors := s.errors + errors)
  }

  function ApplyTops(s: State, ts: seq<Top>): State {
    if ts == [] then s else ApplyTop(ApplyTops(s, ts[..|ts| - 1]), ts[|ts| - 1])
  }

  function Missing(names: seq<string>, claimed: seq<string>): nat {
    if names == [] then 0 else Missing(names[..|names| - 1], claimed) + if names[|names| - 1] in claimed then 0 else 1
  }

  /** `check_custom_widget_ids`, at the end of a file. */
  function CheckIds(s: State): State {
    Fail(s.(pending := []), Missing(s.pending, s.claimed))
  }

  function ApplyFile(s: State, file: seq<Top>): State {
    CheckIds(ApplyTops(s, file))
  }

  function Load(s: State, files: seq<seq<Top>>): State {
    if files == [] then s else ApplyFile(Load(s, files[..|files| - 1]), files[|files| - 1])
  }

  /** Before any file: the premade widgets, and an order of built-in ids. */
  function Init(catalog: seq<Widget>, order: seq<string>): State {
    State(catalog, Names(catalog), [], order, [], [])
  }

  function Names(ws: seq<Widget>): (r: seq<string>)
    ensures |r| == |ws| && forall i :: 0 <= i < |ws| ==> r[i] == ws[i].name
  {
    if ws == [] then [] else [ws[0].name] + Names(ws[1..])
  }

  // ---------------------------------------------------------------- startup

  predicate Listed(id: string, ws: seq<Widget>) {
    CustomName(id).Some? ==> CustomName(id).value in Names(ws)
  }

  function Retain(ids: seq<string>, ws: seq<Widget>): (r: seq<string>)
    ensures forall i :: 0 <= i < |r| ==> r[i] in ids && Listed(r[i], ws)
  {
    if ids == [] then []
    else Retain(ids[..|ids| - 1], ws) + if Listed(ids[|ids| - 1], ws) then [ids[|ids| - 1]] else []
  }

  datatype Startup = Refused(fatal: nat) | Started(state: State, ignored: nat)

  function Fatal(errors: seq<bool>): nat {
    if errors == [] then 0 else Fatal(errors[..|errors| - 1]) + if errors[|errors| - 1] then 1 else 0
  }

  function Start(s: State): Startup {
    if Fatal(s.errors) > 0 then Refused(Fatal(s.errors))
    else Started(s.(order := Retain(s.order, s.widgets), important := Retain(s.important, s.widgets)), |s.errors|)
  }

  // ------------------------------------------------------------ what holds

  ghost predicate Distinct(ws: seq<Widget>) {
    forall i, j :: 0 <= i < j < |ws| ==> ws[i].name != ws[j].name
  }

  ghost predicate Stored(name: string, ws: seq<Widget>) {
    exists i :: 0 <= i < |ws| && ws[i].name == name
  }

  /** Every custom id names a block or is still to check. */
  ghost predicate Placed(ids: seq<string>, claimed: seq<string>, pending: seq<string>) {
    forall i :: 0 <= i < |ids| && CustomName(ids[i]).Some? ==>
      CustomName(ids[i]).value in claimed || CustomName(ids[i]).value in pending
  }

  ghost predicate Inv(s: State) {
    && Distinct(s.widgets)
    && (forall i :: 0 <= i < |s.widgets| ==> s.widgets[i].name in s.claimed)
    && (s.errors == [] ==>
          && (forall i :: 0 <= i < |s.claimed| ==> Stored(s.claimed[i], s.widgets))
          && Placed(s.order, s.claimed, s.pending) && Placed(s.important, s.claimed, s.pending))
  }

  lemma {:induction false} StoreKeeps(ws: seq<Widget>, w: Widget)
    requires Distinct(ws)
    ensures Distinct(Store(ws, w)) && Stored(w.name, Store(ws, w))
    ensures forall n :: Stored(n, Store(ws, w)) <==> Stored(n, ws) || n == w.name
    decreases |ws|
  {
    var r := Store(ws, w);
    if ws == [] {
      assert r[0] == w;
    } else if ws[0].name == w.name {
      assert r[0] == w && r == ws[0 := w];
      forall n ensures Stored(n, r) <==> Stored(n, ws) || n == w.name {
        if Stored(n, ws) {
          var i :| 0 <= i < |ws| && ws[i].name == n;
          assert r[i].name == n;
        }
        if Stored(n, r) {
          var i :| 0 <= i < |r| && r[i].name == n;
          assert ws[i].name == n;
        }
      }
    } else {
      StoreKeeps(ws[1..], w);
      StoreCons(ws[0], ws[1..], Store(ws[1..], w), w);
      assert ws == [ws[0]] + ws[1..];
    }
  }

  lemma StoreCons(h: Widget, ws: seq<Widget>, after: seq<Widget>, w: Widget)
    requires Distinct([h] + ws) && Distinct(after) && h.name != w.name
    requires forall n :: Stored(n, after) <==> Stored(n, ws) || n == w.name
    ensures Distinct([h] + after) && Stored(w.name, [h] + after)
    ensures forall n :: Stored(n, [h] + after) <==> Stored(n, [h] + ws) || n == w.name
  {
    forall n ensures Stored(n, [h] + after) <==> Stored(n, after) || n == h.name {
      StoredCons(n, h, after);
    }
    forall n ensures Stored(n, [h] + ws) <==> Stored(n, ws) || n == h.name {
      StoredCons(n, h, ws);
    }
    forall i | 0 <= i < |ws| ensures ws[i].name != h.name {
      assert ([h] + ws)[i + 1] == ws[i] && ([h] + ws)[0] == h;
    }
    assert !Stored(h.name, after);
    var r := [h] + after;
    forall i, j | 0 <= i < j < |r| ensures r[i].name != r[j].name {
      assert r[j] == after[j - 1];
      if i == 0 {
        assert after[j - 1].name != h.name;
      } else {
        assert r[i] == after[i - 1];
      }
    }
  }

  lemma StoredCons(n: string, h: Widget, ws: seq<Widget>)
    ensures Stored(n, [h] + ws) <==> Stored(n, ws) || n == h.name
  {
    var r := [h] + ws;
    if Stored(n, ws) {
      var i :| 0 <= i < |ws| && ws[i].name == n;
      assert r[i + 1].name == n;
    }
    if n == h.name {
      assert r[0].name == n;
    }
    if Stored(n, r) {
      var i :| 0 <= i < |r| && r[i].name == n;
      assert i > 0 ==> ws[i - 1].name == n;
    }
  }

  /** A refused block records an error, claims its name and changes nothing
      else. */
  lemma RefusedChangesNothing(s: State, entries: seq<Entry>, ns: seq<Node>)
    ensures var t := ApplyBlock(s, entries, ns);
            && s.errors <= t.errors && t.pending == s.pending && t.order == s.order && t.important == s.important
            && (forall n :: n in t.claimed <==>
                  n in s.claimed || (StringArg(entries) == Some(n) && !Kdl.AllWhite(n)))
            && (t.errors != s.errors ==> t.widgets == s.widgets)
            && (t.errors == s.errors ==>
                  StringArg(entries).Some? && StringArg(entries).value in t.claimed
                  && Block(StringArg(entries).value, ns).1.Some?
                  && t.widgets == Store(s.widgets, Block(StringArg(entries).value, ns).1.value))
  {
    hide Block, Store;
    var t := ApplyBlock(s, entries, ns);
    assert |t.errors| > |s.errors| || t.errors == s.errors;
  }

  lemma BlockKeepsInv(s: State, entries: seq<Entry>, ns: seq<Node>)
    requires Inv(s)
    ensures Inv(ApplyBlock(s, entries, ns))
  {
    hide Block, Store, StringArg, Kdl.AllWhite, Distinct, Stored;
    var t := ApplyBlock(s, entries, ns);
    RefusedChangesNothing(s, entries, ns);
    if t.errors == s.errors {
      var name := StringArg(entries).value;
      var w := Block(name, ns).1.value;
      StoreKeeps(s.widgets, w);
      forall i | 0 <= i < |t.widgets| ensures t.widgets[i].name in t.claimed {
        assert Stored(t.widgets[i].name, t.widgets) by { StoredAt(t.widgets, i); }
        StoredClaimed(s.widgets, s.claimed, t.widgets[i].name);
      }
    }
  }

  lemma StoredAt(ws: seq<Widget>, i: nat)
    requires i < |ws|
    ensures Stored(ws[i].name, ws)
  {
  }

  lemma StoredClaimed(ws: seq<Widget>, claimed: seq<string>, name: string)
    requires forall i :: 0 <= i < |ws| ==> ws[i].name in claimed
    ensures Stored(name, ws) ==> name in claimed
  {
  }

  lemma {:induction false} IdsPlaced(es: seq<Entry>, claimed: seq<string>, before: seq<string>)
    ensures Placed(WidgetIds(es).out, claimed, before + WidgetIds(es).pending)
    decreases |es|
  {
    hide CustomName;
    if es != [] {
      IdsPlaced(es[..|es| - 1], claimed, before);
    }
  }

  /** An id that may be placed: built in, or "custom:" with a name behind it. */
  ghost predicate Placeable(e: Entry) {
    && !e.property && e.val.Str?
    && (|| (|e.val.text| > 7 && e.val.text[..7] == "custom:")
        || e.val.text in
           ["now-playing", "system-usage", "volume", "network", "bluetooth", "battery", "quick-actions", "tray",
            "progress", "power", "clock"])
  }

  ghost predicate Gives(e: Entry, id: string) {
    Placeable(e) && e.val.text == id
  }

  /** The ids of a list that may be placed, each where it comes first. */
  ghost function Chosen(es: seq<Entry>): seq<string> {
    if es == [] then []
    else
      var n := |es| - 1;
      if Placeable(es[n]) && !exists i :: 0 <= i < n && Gives(es[i], es[n].val.text) then
        Chosen(es[..n]) + [es[n].val.text]
      else Chosen(es[..n])
  }

  /** What the custom ids of a list are the ids of. */
  ghost function CustomNames(ids: seq<string>): seq<string> {
    if ids == [] then []
    else
      var id := ids[|ids| - 1];
      CustomNames(ids[..|ids| - 1]) + if |id| >= 7 && id[..7] == "custom:" then [id[7..]] else []
  }

  lemma {:induction false} ChosenHas(es: seq<Entry>, id: string)
    ensures id in Chosen(es) <==> exists i :: 0 <= i < |es| && Gives(es[i], id)
    decreases |es|
  {
    hide Placeable;
    if es != [] {
      var n := |es| - 1;
      ChosenHas(es[..n], id);
      assert forall i :: 0 <= i < n ==> es[..n][i] == es[i];
    }
  }

  /** A list of ids comes to the ones that may be placed, once each and in their
      order, an error for every other, and the custom names to check. */
  lemma {:induction false} IdsChosen(es: seq<Entry>)
    ensures var ids := Chosen(es);
              |ids| <= |es| && WidgetIds(es) == Ids(ids, CustomNames(ids), |es| - |ids|)
    decreases |es|
  {
    hide Id, Placeable, Gives;
    if es != [] {
      var n := |es| - 1;
      IdsChosen(es[..n]);
      IdChosen(es);
    }
  }

  lemma IdChosen(es: seq<Entry>)
    requires es != [] && |Chosen(es[..|es| - 1])| < |es|
    ensures var n := |es| - 1; var before := Chosen(es[..n]);
            Id(Ids(before, CustomNames(before), n - |before|), es[n]) ==
            Ids(Chosen(es), CustomNames(Chosen(es)), |es| - |Chosen(es)|)
  {
    hide Placeable, CustomName;
    var n := |es| - 1;
    var before, e := Chosen(es[..n]), es[n];
    PlaceableIs(e);
    if e.val.Str? {
      ChosenHas(es[..n], e.val.text);
      assert forall i :: 0 <= i < n ==> es[..n][i] == es[i];
      var after := before + [e.val.text];
      assert after[..|before|] == before && after[|before|] == e.val.text;
      CustomNameIs(e.val.text);
    }
  }

  lemma CustomNameIs(id: string)
    ensures CustomName(id) == if |id| >= 7 && id[..7] == "custom:" then Some(id[7..]) else None
  {
    assert |CUSTOM| == 7;
  }

  lemma PlaceableIs(e: Entry)
    ensures Placeable(e) <==>
            && !e.property && e.val.Str?
            && match CustomName(e.val.text) case Some(name) => name != "" case None => e.val.text in IDS
  {
    if e.val.Str? {
      CustomNameIs(e.val.text);
      BuiltInsPlain();
    }
  }

  lemma BuiltInsPlain()
    ensures forall i :: 0 <= i < |IDS| ==> |IDS[i]| < 7 || IDS[i][0] != 'c'
  {
  }

  ghost function LastOrder(ps: seq<Placement>): Option<seq<Entry>> {
    if ps == [] then None
    else if ps[|ps| - 1].Order? then Some(ps[|ps| - 1].entries)
    else LastOrder(ps[..|ps| - 1])
  }

  ghost function LastImportant(ps: seq<Placement>): Option<seq<Entry>> {
    if ps == [] then None
    else if ps[|ps| - 1].Important? then Some(ps[|ps| - 1].entries)
    else LastImportant(ps[..|ps| - 1])
  }

  /** The names that all the lists of a block leave to check. */
  ghost function NamesLeft(ps: seq<Placement>): seq<string> {
    if ps == [] then []
    else
      var p := ps[|ps| - 1];
      NamesLeft(ps[..|ps| - 1]) + if p.Unrelated? then [] else CustomNames(Chosen(p.entries))
  }

  /** Each id that is not placed is an error, and each list but the first of its
      kind. */
  ghost function Refusals(ps: seq<Placement>): int {
    if ps == [] then 0
    else
      var before, p := ps[..|ps| - 1], ps[|ps| - 1];
      Refusals(before) +
      match p
      case Order(es) => |es| - |Chosen(es)| + (if LastOrder(before).Some? then 1 else 0)
      case Important(es) => |es| - |Chosen(es)| + (if LastImportant(before).Some? then 1 else 0)
      case Unrelated(errors) => |errors|
  }

  /** The last list of each kind stands, whatever came before. */
  lemma {:induction false} LastListStands(s: State, ps: seq<Placement>)
    ensures var t := Places(s, ps);
            && t.order == (match LastOrder(ps) case None => s.order case Some(es) => Chosen(es))
            && t.important == (match LastImportant(ps) case None => s.important case Some(es) => Chosen(es))
            && t.pending == s.pending + NamesLeft(ps) && |t.errors| == |s.errors| + Refusals(ps)
            && t.widgets == s.widgets && t.claimed == s.claimed
    decreases |ps|
  {
    hide WidgetIds, Chosen, CustomNames, Again;
    if ps != [] {
      var before, p := ps[..|ps| - 1], ps[|ps| - 1];
      LastListStands(s, before);
      GivenAgain(before);
      assert Again(before, p) <==>
             if p.Order? then LastOrder(before).Some? else p.Important? && LastImportant(before).Some?
        by { AgainIs(before, p); }
      if !p.Unrelated? {
        IdsChosen(p.entries);
      }
    }
  }

  lemma AgainIs(ps: seq<Placement>, p: Placement)
    ensures Again(ps, p) <==> if p.Order? then LastOrder(ps).Some? else p.Important? && LastImportant(ps).Some?
  {
    GivenAgain(ps);
  }

  lemma {:induction false} GivenAgain(ps: seq<Placement>)
    ensures LastOrder(ps).Some? <==> exists i :: 0 <= i < |ps| && ps[i].Order?
    ensures LastImportant(ps).Some? <==> exists i :: 0 <= i < |ps| && ps[i].Important?
    decreases |ps|
  {
    if ps != [] {
      var n := |ps| - 1;
      GivenAgain(ps[..n]);
      assert forall i :: 0 <= i < n ==> ps[..n][i] == ps[i];
    }
  }

  lemma MorePending(ids: seq<string>, claimed: seq<string>, pending: seq<string>, more: seq<string>)
    requires Placed(ids, claimed, pending)
    ensures Placed(ids, claimed, pending + more)
  {
    hide CustomName;
  }

  lemma PlaceKeepsInv(s: State, p: Placement, again: bool)
    requires Inv(s)
    ensures Inv(Place(s, p, again)) && s.errors <= Place(s, p, again).errors
    ensures Place(s, p, again).widgets == s.widgets && Place(s, p, again).claimed == s.claimed
  {
    hide Placed, WidgetIds, Distinct, Stored;
    var t := Place(s, p, again);
    if t.errors == [] && !p.Unrelated? {
      assert s.errors == [];
      IdsPlaced(p.entries, s.claimed, s.pending);
      MorePending(s.order, s.claimed, s.pending, WidgetIds(p.entries).pending);
      MorePending(s.important, s.claimed, s.pending, WidgetIds(p.entries).pending);
    }
  }

  lemma {:induction false} PlacesKeepInv(s: State, ps: seq<Placement>)
    requires Inv(s)
    ensures Inv(Places(s, ps))
    decreases |ps|
  {
    hide Inv, Place;
    if ps != [] {
      PlacesKeepInv(s, ps[..|ps| - 1]);
      PlaceKeepsInv(Places(s, ps[..|ps| - 1]), ps[|ps| - 1], Again(ps[..|ps| - 1], ps[|ps| - 1]));
    }
  }

  lemma {:induction false} TopsKeepInv(s: State, ts: seq<Top>)
    requires Inv(s)
    ensures Inv(ApplyTops(s, ts))
    decreases |ts|
  {
    hide ApplyBlock, Places;
    if ts != [] {
      var before := ApplyTops(s, ts[..|ts| - 1]);
      TopsKeepInv(s, ts[..|ts| - 1]);
      match ts[|ts| - 1]
      case WidgetBlock(es, ns) => BlockKeepsInv(before, es, ns);
      case Widgets(ps) => PlacesKeepInv(before, ps);
      case Elsewhere(errors) =>
    }
  }

  lemma {:induction false} NoneMissing(names: seq<string>, claimed: seq<string>)
    ensures Missing(names, claimed) == 0 <==> forall n :: n in names ==> n in claimed
    decreases |names|
  {
    if names != [] {
      NoneMissing(names[..|names| - 1], claimed);
      assert names == names[..|names| - 1] + [names[|names| - 1]];
    }
  }

  /** After a file every name claimed is stored and every id placed has a block,
      or an error says otherwise. */
  lemma FileKeepsInv(s: State, file: seq<Top>)
    requires Inv(s)
    ensures Inv(ApplyFile(s, file)) && ApplyFile(s, file).pending == []
  {
    hide ApplyTops, Distinct, Stored;
    TopsKeepInv(s, file);
    var t := ApplyTops(s, file);
    if t.errors == [] && Missing(t.pending, t.claimed) == 0 {
      NoneMissing(t.pending, t.claimed);
    }
  }

  lemma {:induction false} LoadKeepsInv(catalog: seq<Widget>, order: seq<string>, files: seq<seq<Top>>)
    requires Distinct(catalog) && forall i :: 0 <= i < |order| ==> CustomName(order[i]) == None
    ensures var s := Load(Init(catalog, order), files); Inv(s) && s.pending == []
    decreases |files|
  {
    hide Inv, ApplyFile;
    if files == [] {
      InitOk(catalog, order);
    } else {
      LoadKeepsInv(catalog, order, files[..|files| - 1]);
      FileKeepsInv(Load(Init(catalog, order), files[..|files| - 1]), files[|files| - 1]);
    }
  }

  lemma InitOk(catalog: seq<Widget>, order: seq<string>)
    requires Distinct(catalog) && forall i :: 0 <= i < |order| ==> CustomName(order[i]) == None
    ensures Inv(Init(catalog, order))
  {
    var s := Init(catalog, order);
    forall i | 0 <= i < |s.claimed| ensures Stored(s.claimed[i], s.widgets) {
      assert s.widgets[i].name == s.claimed[i];
    }
    forall i | 0 <= i < |s.widgets| ensures s.widgets[i].name in s.claimed {
      assert s.claimed[i] == s.widgets[i].name;
    }
  }

  lemma {:induction false} RetainAll(ids: seq<string>, ws: seq<Widget>)
    requires forall i :: 0 <= i < |ids| ==> Listed(ids[i], ws)
    ensures Retain(ids, ws) == ids
    decreases |ids|
  {
    hide Listed;
    if ids != [] {
      RetainAll(ids[..|ids| - 1], ws);
      assert ids == ids[..|ids| - 1] + [ids[|ids| - 1]];
    }
  }

  lemma PlacedIsListed(ids: seq<string>, claimed: seq<string>, ws: seq<Widget>)
    requires Placed(ids, claimed, []) && forall i :: 0 <= i < |claimed| ==> Stored(claimed[i], ws)
    ensures forall i :: 0 <= i < |ids| ==> Listed(ids[i], ws)
  {
    forall i | 0 <= i < |ids| ensures Listed(ids[i], ws) {
      if CustomName(ids[i]).Some? {
        var name := CustomName(ids[i]).value;
        var k :| 0 <= k < |claimed| && claimed[k] == name;
        var j :| 0 <= j < |ws| && ws[j].name == name;
        assert Names(ws)[j] == name;
      }
    }
  }

  /** A load without errors starts with every id it was given. */
  lemma CleanLoadDropsNothing(catalog: seq<Widget>, order: seq<string>, files: seq<seq<Top>>)
    requires Distinct(catalog) && forall i :: 0 <= i < |order| ==> CustomName(order[i]) == None
    requires Load(Init(catalog, order), files).errors == []
    ensures var s := Load(Init(catalog, order), files); Start(s) == Started(s, 0)
  {
    hide Load, Placed, Retain, Listed;
    var s := Load(Init(catalog, order), files);
    LoadKeepsInv(catalog, order, files);
    PlacedIsListed(s.order, s.claimed, s.widgets);
    PlacedIsListed(s.important, s.claimed, s.widgets);
    RetainAll(s.order, s.widgets);
    RetainAll(s.important, s.widgets);
  }

  /** Whatever was refused, a session that starts lists no custom id without a
      block, and only ids that were listed. */
  lemma StartedIdsHaveBlocks(s: State)
    requires Start(s).Started?
    ensures forall id :: id in Start(s).state.order || id in Start(s).state.important ==>
            Listed(id, Start(s).state.widgets)
    ensures forall id :: id in Start(s).state.order <==> id in s.order && Listed(id, s.widgets)
    ensures forall id :: id in Start(s).state.important <==> id in s.important && Listed(id, s.widgets)
    ensures Inv(s) ==> Inv(Start(s).state)
  {
    hide Listed;
    RetainKeeps(s.order, s.widgets);
    RetainKeeps(s.important, s.widgets);
    var t := Start(s).state;
    assert forall i :: 0 <= i < |t.order| ==> t.order[i] in s.order;
    assert forall i :: 0 <= i < |t.important| ==> t.important[i] in s.important;
  }

  /** The ids that are left keep their order. */
  lemma {:induction false} RetainSplits(a: seq<string>, b: seq<string>, ws: seq<Widget>)
    ensures Retain(a + b, ws) == Retain(a, ws) + Retain(b, ws)
    decreases |b|
  {
    hide Listed;
    if b == [] {
      assert a + b == a;
    } else {
      assert (a + b)[..|a| + |b| - 1] == a + b[..|b| - 1];
      RetainSplits(a, b[..|b| - 1], ws);
    }
  }

  /** Startup is refused with the number of errors that forbid it, if any does. */
  lemma {:induction false} FatalCounts(errors: seq<bool>)
    ensures Fatal(errors) == multiset(errors)[true]
    decreases |errors|
  {
    if errors != [] {
      FatalCounts(errors[..|errors| - 1]);
      assert errors == errors[..|errors| - 1] + [errors[|errors| - 1]];
    }
  }

  lemma {:induction false} RetainKeeps(ids: seq<string>, ws: seq<Widget>)
    ensures forall id :: id in ids && Listed(id, ws) ==> id in Retain(ids, ws)
    decreases |ids|
  {
    hide Listed;
    if ids != [] {
      RetainKeeps(ids[..|ids| - 1], ws);
      assert ids == ids[..|ids| - 1] + [ids[|ids| - 1]];
    }
  }

  // ------------------------------------------------- the loader's own shape

  class Config {
    var widgets: seq<Widget>
    var widgetBlocks: seq<string>
    var pendingCustom: seq<string>
    var order: seq<string>
    var important: seq<string>
    var errors: seq<bool>

    ghost function Seen(): State
      reads this
    {
      State(widgets, widgetBlocks, pendingCustom, order, important, errors)
    }

    constructor (catalog: seq<Widget>, order: seq<string>)
      ensures Seen() == Init(catalog, order)
    {
      this.widgets := catalog;
      this.widgetBlocks := Names(catalog);
      this.pendingCustom := [];
      this.order := order;
      this.important := [];
      this.errors := [];
    }

    method Reject(n: nat)
      modifies this`errors
      ensures Seen() == Fail(old(Seen()), n)
    {
      errors := errors + Plain(n);
    }

    method ApplyBarWidget(entries: seq<Entry>, children: seq<Node>)
      modifies this
      ensures Seen() == ApplyBlock(old(Seen()), entries, children)
    {
      hide SetChild, KindOf, Store, StringArg, Kdl.AllWhite, Plain;
      var arg := StringArg(entries);
      if arg == None || Kdl.AllWhite(arg.value) {
        Reject(1);
        return;
      }
      var name := arg.value;
      if name !in widgetBlocks {
        widgetBlocks := widgetBlocks + [name];
      }
      var f := NoFields();
      for i := 0 to |children|
        invariant f == Children(children[..i])
      {
        assert children[..i + 1][..i] == children[..i];
        var n := children[i];
        if n.key !in KEYS || n.key in f.seen {
          f := Refuse(f);
        } else {
          f := SetChild(f.(seen := f.seen + [n.key]), n);
        }
      }
      assert children[..|children|] == children;
      var kind := KindOf(f);
      if kind == None {
        Reject(f.errors + 1);
        return;
      }
      if f.errors > 0 {
        Reject(f.errors);
        return;
      }
      var w := Widget(name, kind.value, f.icon, f.click, f.up, f.down);
      var k := 0;
      while k < |widgets| && widgets[k].name != name
        invariant 0 <= k <= |widgets| && forall j :: 0 <= j < k ==> widgets[j].name != name
      {
        k := k + 1;
      }
      StoreAt(widgets, w, k);
      widgets := if k < |widgets| then widgets[k := w] else widgets + [w];
    }

    method CheckCustomWidgetIds()
      modifies this
      ensures Seen() == CheckIds(old(Seen()))
    {
      var names := pendingCustom;
      pendingCustom := [];
      var missing := 0;
      for i := 0 to |names|
        invariant missing == Missing(names[..i], widgetBlocks) && Seen() == old(Seen()).(pending := [])
      {
        assert names[..i + 1][..i] == names[..i];
        if names[i] !in widgetBlocks {
          missing := missing + 1;
        }
      }
      assert names[..|names|] == names;
      Reject(missing);
    }

    /** `startup`, the part that settles the widgets' ids. */
    method Settle() returns (r: Option<nat>)
      modifies this`order, this`important
      ensures match Start(old(Seen()))
              case Refused(fatal) => r == None && Seen() == old(Seen())
              case Started(state, ignored) => r == Some(ignored) && Seen() == state
      ensures r.Some? ==> forall id :: id in order <==> id in old(order) && Listed(id, widgets)
      ensures r.Some? ==> forall id :: id in important <==> id in old(important) && Listed(id, widgets)
      ensures Inv(old(Seen())) ==> Inv(Seen())
    {
      hide Listed, Inv;
      if Fatal(errors) > 0 {
        return None;
      }
      StartedIdsHaveBlocks(Seen());
      var kept := [];
      for i := 0 to |order|
        invariant kept == Retain(order[..i], widgets)
      {
        assert order[..i + 1][..i] == order[..i];
        if Listed(order[i], widgets) {
          kept := kept + [order[i]];
        }
      }
      assert order[..|order|] == order;
      order := kept;
      kept := [];
      for i := 0 to |important|
        invariant kept == Retain(important[..i], widgets)
      {
        assert important[..i + 1][..i] == important[..i];
        if Listed(important[i], widgets) {
          kept := kept + [important[i]];
        }
      }
      assert important[..|important|] == important;
      important := kept;
      r := Some(|errors|);
    }
  }

  lemma {:induction false} StoreAt(ws: seq<Widget>, w: Widget, k: nat)
    requires k <= |ws| && (forall j :: 0 <= j < k ==> ws[j].name != w.name) && (k < |ws| ==> ws[k].name == w.name)
    ensures Store(ws, w) == if k < |ws| then ws[k := w] else ws + [w]
    decreases k
  {
    if k > 0 {
      StoreAt(ws[1..], w, k - 1);
      assert ws == [ws[0]] + ws[1..];
    } else if ws != [] {
      assert ws[0 := w] == [w] + ws[1..];
    }
  }
}
