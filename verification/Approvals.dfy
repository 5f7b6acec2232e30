/** The approvals store: name to accepted hash, in a file that one writer
    rewrites through a temporary file, whatever fails or stops on the way. */
module Approvals {
  import opened Options
  import opened WidgetHash

  datatype Approval = Approval(name: Str, hash: Hash)

  function Find(es: seq<Approval>, name: Str): (r: Option<nat>)
    ensures r == None ==> forall i :: 0 <= i < |es| ==> es[i].name != name
    ensures r.Some? ==> r.value < |es| && es[r.value].name == name && forall i :: 0 <= i < r.value ==>
            es[i].name != name
  {
    if es == [] then None
    else if es[0].name == name then Some(0)
    else
      match Find(es[1..], name)
      case None => None
      case Some(i) => Some(i + 1)
  }

  function Get(es: seq<Approval>, name: Str): Option<Hash> {
    match Find(es, name)
    case None => None
    case Some(i) => Some(es[i].hash)
  }

  /** One entry per name: the slot is replaced, or a new one added at the end. */
  function Set(es: seq<Approval>, a: Approval): seq<Approval> {
    match Find(es, a.name)
    case None => es + [a]
    case Some(i) => es[i := a]
  }

  ghost predicate Distinct(es: seq<Approval>) {
    forall i, j :: 0 <= i < j < |es| ==> es[i].name != es[j].name
  }

  ghost predicate Named(es: seq<Approval>) {
    forall i :: 0 <= i < |es| ==> es[i].name != []
  }

  lemma SetKeepsDistinct(es: seq<Approval>, a: Approval)
    requires Distinct(es)
    ensures Distinct(Set(es, a))
    ensures Named(es) && a.name != [] ==> Named(Set(es, a))
  {
  }

  lemma FindIs(es: seq<Approval>, i: nat)
    requires Distinct(es) && i < |es|
    ensures Find(es, es[i].name) == Some(i)
  {
  }

  /** What is read back after a write: the new hash under its name, and under
      every other name what was there. */
  lemma GetSet(es: seq<Approval>, a: Approval, name: Str)
    requires Distinct(es)
    ensures Get(Set(es, a), name) == if name == a.name then Some(a.hash) else Get(es, name)
  {
    var after := Set(es, a);
    SetKeepsDistinct(es, a);
    var k := match Find(es, a.name) case None => |es| case Some(i) => i;
    assert after[k] == a;
    if name == a.name {
      FindIs(after, k);
    } else {
      match Find(es, name)
      case None =>
        assert Find(after, name) == None;
      case Some(i) =>
        assert after[i] == es[i];
        FindIs(after, i);
    }
  }

  // ------------------------------------------------------------- the file

  /** A line of the file as the KDL library reads it: its arguments when they
      are all strings, and whether it has a block. */
  datatype Line = Line(node: string, args: Option<seq<Str>>, block: bool)

  function RenderLine(a: Approval): Line {
    Line("approve", Some([a.name, Hex(a.hash)]), false)
  }

  function Render(es: seq<Approval>): (r: seq<Line>)
    ensures |r| == |es| && forall i :: 0 <= i < |es| ==> r[i] == RenderLine(es[i])
  {
    if es == [] then [] else Render(es[..|es| - 1]) + [RenderLine(es[|es| - 1])]
  }

  ghost function Unhex(s: Str): Option<Hash> {
    if exists h: Hash :: s == Hex(h) then
      var h: Hash :| s == Hex(h);
      Some(h)
    else None
  }

  lemma HexInjective(g: Hash, h: Hash)
    requires Hex(g) == Hex(h)
    ensures g == h
  {
    forall k | 0 <= k < 32 ensures g[k] == h[k] {
      HexAt(g, k);
      HexAt(h, k);
      DigitValue((g[k] as nat) / 16, 0);
      DigitValue((h[k] as nat) / 16, 0);
      DigitValue((g[k] as nat) % 16, 0);
      DigitValue((h[k] as nat) % 16, 0);
    }
  }

  lemma UnhexHex(h: Hash)
    ensures Unhex(Hex(h)) == Some(h)
  {
    var s := Hex(h);
    assert s == Hex(h);
    assert Unhex(s).Some?;
    HexInjective(Unhex(s).value, h);
  }

  /** What a line approves, if it is one of ours. */
  ghost function Approves(l: Line): Option<Approval> {
    if l.node == "approve" && l.args.Some? && |l.args.value| == 2 && !l.block && l.args.value[0] != [] then
      match Unhex(l.args.value[1])
      case None => None
      case Some(h) => Some(Approval(l.args.value[0], h))
    else None
  }

  ghost function Take(es: seq<Approval>, l: Line): seq<Approval> {
    match Approves(l)
    case None => es
    case Some(a) => Set(es, a)
  }

  /** A malformed line approves nothing, a later line for a name wins. */
  ghost function Parse(lines: seq<Line>): seq<Approval> {
    if lines == [] then [] else Take(Parse(lines[..|lines| - 1]), lines[|lines| - 1])
  }

  lemma {:induction false} ParseOk(lines: seq<Line>)
    ensures Distinct(Parse(lines)) && Named(Parse(lines))
    decreases |lines|
  {
    hide Approves;
    if lines != [] {
      ParseOk(lines[..|lines| - 1]);
      var l := lines[|lines| - 1];
      if Approves(l).Some? {
        ApprovesNamed(l);
        SetKeepsDistinct(Parse(lines[..|lines| - 1]), Approves(l).value);
      }
    }
  }

  lemma ApprovesNamed(l: Line)
    requires Approves(l).Some?
    ensures Approves(l).value.name != []
  {
  }

  lemma LineBack(a: Approval)
    ensures Approves(RenderLine(a)) == if a.name != [] then Some(a) else None
  {
    UnhexHex(a.hash);
  }

  /** The entries with a name. */
  function OnlyNamed(es: seq<Approval>): seq<Approval> {
    if es == [] then [] else OnlyNamed(es[..|es| - 1]) + if es[|es| - 1].name != [] then [es[|es| - 1]] else []
  }

  lemma {:induction false} OnlyNamedFind(es: seq<Approval>, name: Str)
    requires name != []
    ensures Find(OnlyNamed(es), name) == None <==> Find(es, name) == None
    decreases |es|
  {
    if es != [] {
      OnlyNamedFind(es[..|es| - 1], name);
      assert OnlyNamed(es[..|es| - 1]) + [] == OnlyNamed(es[..|es| - 1]);
      FindLast(es[..|es| - 1], es[|es| - 1], name);
      FindLast(OnlyNamed(es[..|es| - 1]), es[|es| - 1], name);
      assert es == es[..|es| - 1] + [es[|es| - 1]];
    }
  }

  lemma FindLast(es: seq<Approval>, a: Approval, name: Str)
    ensures Find(es + [a], name) == None <==> Find(es, name) == None && a.name != name
  {
    if Find(es + [a], name) == None {
      assert (es + [a])[|es|] == a;
      forall i | 0 <= i < |es| ensures es[i].name != name {
        assert (es + [a])[i] == es[i];
      }
    }
    if Find(es, name) == None && a.name != name {
      forall i | 0 <= i < |es + [a]| ensures (es + [a])[i].name != name {
        assert i < |es| ==> (es + [a])[i] == es[i];
      }
    }
  }

  /** What is written is read back, except an entry without a name. */
  lemma {:induction false} ParseRender(es: seq<Approval>)
    requires Distinct(es)
    ensures Parse(Render(es)) == OnlyNamed(es)
    decreases |es|
  {
    hide Approves, RenderLine;
    if es != [] {
      var n := |es| - 1;
      var a := es[n];
      assert Render(es)[..n] == Render(es[..n]);
      ParseRender(es[..n]);
      LineBack(a);
      if a.name != [] {
        assert Find(es[..n], a.name) == None;
        OnlyNamedFind(es[..n], a.name);
      }
    }
  }

  lemma {:induction false} NamedStays(es: seq<Approval>)
    requires Named(es)
    ensures OnlyNamed(es) == es
    decreases |es|
  {
    if es != [] {
      NamedStays(es[..|es| - 1]);
      assert es == es[..|es| - 1] + [es[|es| - 1]];
    }
  }

  /** A store of named approvals comes back from its file as it was. */
  lemma FileBack(es: seq<Approval>)
    requires Distinct(es) && Named(es)
    ensures Parse(Render(es)) == es
  {
    ParseRender(es);
    NamedStays(es);
  }

  // ----------------------------------------------- the code that keeps it

  class Store {
    var entries: seq<Approval>

    constructor ()
      ensures entries == []
    {
      entries := [];
    }

    method Lookup(name: Str) returns (r: Option<Hash>)
      ensures r == Get(entries, name)
    {
      var i := 0;
      while i < |entries|
        invariant 0 <= i <= |entries| && forall j :: 0 <= j < i ==> entries[j].name != name
      {
        if entries[i].name == name {
          return Some(entries[i].hash);
        }
        i := i + 1;
      }
      r := None;
    }

    method Record(name: Str, hash: Hash)
      modifies this
      ensures entries == Set(old(entries), Approval(name, hash))
    {
      match Find(entries, name) {
        case Some(i) => entries := entries[i := entries[i].(hash := hash)];
        case None => entries := entries + [Approval(name, hash)];
      }
    }

    /** `parse`, into a store that is still empty; `lines` is `None` for a file
        that is not KDL. */
    method Load(lines: Option<seq<Line>>)
      requires entries == []
      modifies this
      ensures entries == if lines.Some? then Parse(lines.value) else []
    {
      hide Parse, Approves;
      if lines == None {
        return;
      }
      var all := lines.value;
      assert Parse([]) == [] by { ParseStep([], 0); }
      for i := 0 to |all|
        invariant entries == Parse(all[..i])
      {
        var l := all[i];
        ParseStep(all, i);
        if l.node == "approve" && l.args.Some? && |l.args.value| == 2 && !l.block && l.args.value[0] != [] {
          var h := FromHex(l.args.value[1]);
          ApprovesIs(l, h);
          if h.Some? {
            Record(l.args.value[0], h.value);
          }
        } else {
          ApprovesNot(l);
        }
      }
      assert all[..|all|] == all;
    }

    method Save() returns (lines: seq<Line>)
      ensures lines == Render(entries)
    {
      lines := [];
      for i := 0 to |entries|
        invariant lines == Render(entries[..i])
      {
        assert entries[..i + 1][..i] == entries[..i];
        lines := lines + [Line("approve", Some([entries[i].name, Hex(entries[i].hash)]), false)];
      }
      assert entries[..|entries|] == entries;
    }
  }

  lemma ParseStep(lines: seq<Line>, i: nat)
    ensures Parse([]) == []
    ensures i < |lines| ==> Parse(lines[..i + 1]) == Take(Parse(lines[..i]), lines[i])
  {
    if i < |lines| {
      assert lines[..i + 1][..i] == lines[..i];
    }
  }

  lemma ApprovesIs(l: Line, r: Option<Hash>)
    requires l.node == "approve" && l.args.Some? && |l.args.value| == 2 && !l.block && l.args.value[0] != []
    requires forall h: Hash :: r == Some(h) <==> l.args.value[1] == Hex(h)
    ensures Approves(l) == match r case None => None case Some(h) => Some(Approval(l.args.value[0], h))
  {
    if r.Some? {
      UnhexHex(r.value);
    }
  }

  lemma ApprovesNot(l: Line)
    requires !(l.node == "approve" && l.args.Some? && |l.args.value| == 2 && !l.block && l.args.value[0] != [])
    ensures Approves(l) == None
  {
  }

  // ------------------------------------------------------ the writer's steps

  /** A file being written holds less than it will, until all of it is there. */
  datatype Content = Torn | Whole(lines: seq<Line>)

  /** Where the writer is in a job. */
  datatype Pc =
    | Idle
    | Took(job: Approval, all: seq<Approval>)
    | Cleared(job: Approval, all: seq<Approval>)
    | Open(job: Approval, all: seq<Approval>)
    | Written(job: Approval, all: seq<Approval>)

  /** The store file, the temporary file, the jobs queued and the writer. `sent`
      and `fates` record what was ever sent and, for each job that is over,
      whether its rename succeeded. */
  datatype State = State(file: Option<Content>, tmp: Option<Content>, queue: seq<Approval>, pc: Pc,
                         sent: seq<Approval>, fates: seq<bool>)

  /** Everything that can happen, with the choices of the world outside. */
  datatype Event =
    | Send(job: Approval)
    | Start
    | NoDirectory
    | ClearTmp(removed: bool)
    | Create(created: bool)
    | WriteSome
    | WriteAll
    | FailWriting(removed: bool)
    | Rename
    | Crash(tmp: Option<Content>)

  /** What the store file reads as; of a torn one nothing can be relied on. */
  ghost function StoreOf(file: Option<Content>): seq<Approval> {
    match file
    case Some(Whole(lines)) => Parse(lines)
    case _ => []
  }

  function Over(s: State, saved: bool): State {
    s.(pc := Idle, fates := s.fates + [saved])
  }

  function Lost(n: nat): (r: seq<bool>)
    ensures |r| == n && forall i :: 0 <= i < n ==> !r[i]
  {
    if n == 0 then [] else [false] + Lost(n - 1)
  }

  /** One step; `None` when the event cannot happen now. */
  ghost function Next(s: State, e: Event): Option<State> {
    match e
    case Send(job) => Some(s.(queue := s.queue + [job], sent := s.sent + [job]))
    case Start =>
      if s.pc.Idle? && s.queue != [] then
        Some(s.(pc := Took(s.queue[0], Set(StoreOf(s.file), s.queue[0])), queue := s.queue[1..]))
      else None
    case NoDirectory => if s.pc.Took? then Some(Over(s, false)) else None
    case ClearTmp(removed) =>
      if s.pc.Took? then Some(s.(pc := Cleared(s.pc.job, s.pc.all), tmp := if removed then None else s.tmp)) else None
    case Create(created) =>
      if !s.pc.Cleared? then None
      else if created then
        if s.tmp == None then Some(s.(pc := Open(s.pc.job, s.pc.all), tmp := Some(Torn))) else None
      else Some(Over(s, false))
    case WriteSome => if s.pc.Open? then Some(s.(tmp := Some(Torn))) else None
    case WriteAll =>
      if s.pc.Open? then Some(s.(pc := Written(s.pc.job, s.pc.all), tmp := Some(Whole(Render(s.pc.all))))) else None
    case FailWriting(removed) =>
      if s.pc.Open? || s.pc.Written? then Some(Over(s.(tmp := if removed then None else s.tmp), false)) else None
    case Rename =>
      if s.pc.Written? && s.tmp.Some? then Some(Over(s.(file := s.tmp, tmp := None), true)) else None
    case Crash(tmp) =>
      Some(State(s.file, tmp, [], Idle, s.sent,
        s.fates + Lost(|s.sent| - if |s.fates| <= |s.sent| then |s.fates| else |s.sent|)))
  }

  ghost function Run(s: State, events: seq<Event>): Option<State> {
    if events == [] then Some(s)
    else
      match Run(s, events[..|events| - 1])
      case None => None
      case Some(t) => Next(t, events[|events| - 1])
  }

  /** The store there is at first, if there is one, can be read. */
  function Init(file: Option<seq<Line>>, tmp: Option<Content>): State {
    State(Stored(file), tmp, [], Idle, [], [])
  }

  function Stored(file: Option<seq<Line>>): Option<Content> {
    match file
    case None => None
    case Some(lines) => Some(Whole(lines))
  }

  // ------------------------------------------------------------- what holds

  /** An approval without a name cannot be kept. */
  function Apply(es: seq<Approval>, job: Approval): seq<Approval> {
    if job.name == [] then es else Set(es, job)
  }

  /** The jobs that were saved, in the order they were sent. */
  function Saved(sent: seq<Approval>, fates: seq<bool>): seq<Approval>
    requires |fates| <= |sent|
    decreases |fates|
  {
    if fates == [] then []
    else
      var n := |fates| - 1;
      Saved(sent, fates[..n]) + if fates[n] then [sent[n]] else []
  }

  function Fold(es: seq<Approval>, jobs: seq<Approval>): seq<Approval> {
    if jobs == [] then es else Apply(Fold(es, jobs[..|jobs| - 1]), jobs[|jobs| - 1])
  }

  function Busy(pc: Pc): seq<Approval> {
    if pc.Idle? then [] else [pc.job]
  }

  /** The queue and the job at hand are what was sent and is not over; the file
      reads as the approvals there were at first with the saved jobs made in
      turn and is never torn; and the job at hand is about to save exactly one
      more. */
  ghost predicate Inv(s: State, first: seq<Approval>) {
    && |s.fates| <= |s.sent|
    && s.sent[|s.fates|..] == Busy(s.pc) + s.queue
    && StoreOf(s.file) == Fold(first, Saved(s.sent, s.fates))
    && s.file != Some(Torn)
    && Distinct(StoreOf(s.file)) && Named(StoreOf(s.file))
    && (!s.pc.Idle? ==> s.pc.all == Set(StoreOf(s.file), s.pc.job))
    && (s.pc.Written? ==> s.tmp == Some(Whole(Render(s.pc.all))))
  }

  lemma SavedStep(sent: seq<Approval>, fates: seq<bool>, saved: bool)
    requires |fates| < |sent|
    ensures Saved(sent, fates + [saved]) == Saved(sent, fates) + if saved then [sent[|fates|]] else []
  {
    assert (fates + [saved])[..|fates|] == fates;
  }

  lemma {:induction false} SavedMore(sent: seq<Approval>, fates: seq<bool>, more: seq<Approval>)
    requires |fates| <= |sent|
    ensures Saved(sent + more, fates) == Saved(sent, fates)
    decreases |fates|
  {
    if fates != [] {
      SavedMore(sent, fates[..|fates| - 1], more);
    }
  }

  lemma {:induction false} SavedLost(sent: seq<Approval>, fates: seq<bool>, n: nat)
    requires |fates| + n <= |sent|
    ensures Saved(sent, fates + Lost(n)) == Saved(sent, fates)
    decreases n
  {
    if n == 0 {
      assert fates + [] == fates;
    } else {
      SavedStep(sent, fates, false);
      SavedLost(sent, fates + [false], n - 1);
      assert fates + Lost(n) == fates + [false] + Lost(n - 1);
    }
  }

  /** A saved job is over: the file now reads with it made. */
  lemma RenameReads(file: Option<Content>, job: Approval, all: seq<Approval>)
    requires Distinct(StoreOf(file)) && Named(StoreOf(file)) && all == Set(StoreOf(file), job)
    ensures Parse(Render(all)) == Apply(StoreOf(file), job)
    ensures Distinct(Parse(Render(all))) && Named(Parse(Render(all)))
  {
    hide Parse, Render;
    var es := StoreOf(file);
    SetKeepsDistinct(es, job);
    ParseRender(all);
    ParseOk(Render(all));
    if job.name != [] {
      NamedStays(all);
    } else {
      assert Find(es, job.name) == None;
      NamedStays(es);
      assert all[..|es|] == es;
    }
  }

  lemma OverKeeps(s: State, t: State, first: seq<Approval>, saved: bool)
    requires Inv(s, first) && !s.pc.Idle?
    requires t.pc == Idle && t.queue == s.queue && t.sent == s.sent && t.fates == s.fates + [saved]
    requires StoreOf(t.file) == if saved then Apply(StoreOf(s.file), s.pc.job) else StoreOf(s.file)
    requires Distinct(StoreOf(t.file)) && Named(StoreOf(t.file)) && t.file != Some(Torn)
    ensures Inv(t, first)
  {
    hide StoreOf, Set;
    var n := |s.fates|;
    var owed := s.sent[n..];
    assert owed == [s.pc.job] + s.queue;
    assert s.sent[n] == owed[0] == s.pc.job;
    assert s.sent[n + 1..] == owed[1..] == s.queue;
    SavedStep(s.sent, s.fates, saved);
    var jobs := Saved(s.sent, s.fates);
    if saved {
      assert (jobs + [s.pc.job])[..|jobs|] == jobs;
      assert Fold(first, jobs + [s.pc.job]) == Apply(Fold(first, jobs), s.pc.job);
    } else {
      assert jobs + [] == jobs;
    }
  }

  lemma {:induction false} StepKeepsInv(s: State, e: Event, first: seq<Approval>)
    requires Inv(s, first) && Next(s, e).Some?
    ensures Inv(Next(s, e).value, first)
  {
    hide StoreOf, Set, Fold, Saved, Render;
    var t := Next(s, e).value;
    match e
    case Send(job) =>
      SavedMore(s.sent, s.fates, [job]);
      assert t.sent[|s.fates|..] == s.sent[|s.fates|..] + [job];
    case Start =>
      assert Busy(t.pc) + t.queue == s.queue;
    case NoDirectory =>
      OverKeeps(s, t, first, false);
    case ClearTmp(removed) =>
    case Create(created) =>
      if !created {
        OverKeeps(s, t, first, false);
      }
    case WriteSome =>
    case WriteAll =>
    case FailWriting(removed) =>
      OverKeeps(s, t, first, false);
    case Rename =>
      RenameReads(s.file, s.pc.job, s.pc.all);
      assert StoreOf(t.file) == Parse(Render(s.pc.all)) by { WholeReads(Render(s.pc.all)); }
      OverKeeps(s, t, first, true);
    case Crash(tmp) =>
      SavedLost(s.sent, s.fates, |s.sent| - |s.fates|);
  }

  lemma WholeReads(lines: seq<Line>)
    ensures StoreOf(Some(Whole(lines))) == Parse(lines)
  {
  }

  /** Whatever is sent, fails or crashes, the file always reads as the approvals
      there were at first with the saved jobs made in the order they were sent:
      nothing torn, nothing lost, nothing else. */
  lemma {:induction false} RunKeepsInv(file: Option<seq<Line>>, tmp: Option<Content>, events: seq<Event>)
    requires Run(Init(file, tmp), events).Some?
    ensures Inv(Run(Init(file, tmp), events).value, StoreOf(Stored(file)))
    ensures Run(Init(file, tmp), events).value.file != Some(Torn)
    decreases |events|
  {
    hide StoreOf;
    if events == [] {
      var s := Init(file, tmp);
      assert Saved(s.sent, s.fates) == [];
      StoreOk(Stored(file));
    } else {
      RunKeepsInv(file, tmp, events[..|events| - 1]);
      StepKeepsInv(Run(Init(file, tmp), events[..|events| - 1]).value, events[|events| - 1], StoreOf(Stored(file)));
    }
  }

  lemma StoreOk(file: Option<Content>)
    ensures Distinct(StoreOf(file)) && Named(StoreOf(file))
  {
    if file.Some? && file.value.Whole? {
      ParseOk(file.value.lines);
    }
  }

  /** A job that nothing fails for is saved: the file reads as it did with the
      job made, and the writer is ready for the next. */
  lemma GoodJob(s: State, first: seq<Approval>)
    requires Inv(s, first) && s.pc.Idle? && s.queue != []
    ensures var r := Run(s, [Start, ClearTmp(true), Create(true), WriteAll, Rename]);
            && r.Some? && r.value.pc.Idle? && r.value.queue == s.queue[1..] && r.value.fates == s.fates + [true]
            && StoreOf(r.value.file) == Apply(StoreOf(s.file), s.queue[0])
            && (s.queue[0].name != [] ==> Get(StoreOf(r.value.file), s.queue[0].name) == Some(s.queue[0].hash))
  {
    hide StoreOf, Set, Render, Inv, Get, Run, Parse, Apply;
    var job, all := s.queue[0], Set(StoreOf(s.file), s.queue[0]);
    var e1, e2, e3 := [Start], [Start, ClearTmp(true)], [Start, ClearTmp(true), Create(true)];
    var e4 := [Start, ClearTmp(true), Create(true), WriteAll];
    RunStep(s, [], Start);
    RunStep(s, e1, ClearTmp(true));
    RunStep(s, e2, Create(true));
    RunStep(s, e3, WriteAll);
    RunStep(s, e4, Rename);
    assert [] + [Start] == e1 && e1 + [ClearTmp(true)] == e2 && e2 + [Create(true)] == e3 && e3 + [WriteAll] == e4;
    assert e4 + [Rename] == [Start, ClearTmp(true), Create(true), WriteAll, Rename];
    assert Run(s, []) == Some(s) by { RunNone(s); }
    JobReads(s, first, job, all);
    WholeReads(Render(all));
  }

  lemma RunNone(s: State)
    ensures Run(s, []) == Some(s)
  {
  }

  lemma RunStep(s: State, es: seq<Event>, e: Event)
    ensures Run(s, es + [e]) == match Run(s, es) case None => None case Some(t) => Next(t, e)
  {
    hide Next;
    assert (es + [e])[..|es|] == es;
  }

  lemma JobReads(s: State, first: seq<Approval>, job: Approval, all: seq<Approval>)
    requires Inv(s, first) && all == Set(StoreOf(s.file), job)
    ensures Parse(Render(all)) == Apply(StoreOf(s.file), job)
    ensures job.name != [] ==> Get(Parse(Render(all)), job.name) == Some(job.hash)
  {
    hide Parse, Render, Set;
    RenameReads(s.file, job, all);
    GetSet(StoreOf(s.file), job, job.name);
  }

  function Renames(events: seq<Event>): nat {
    if events == [] then 0 else Renames(events[..|events| - 1]) + if events[|events| - 1].Rename? then 1 else 0
  }

  /** Jobs are saved by renaming and by nothing else. */
  lemma {:induction false} SavedByRenaming(file: Option<seq<Line>>, tmp: Option<Content>, events: seq<Event>)
    requires Run(Init(file, tmp), events).Some?
    ensures multiset(Run(Init(file, tmp), events).value.fates)[true] == Renames(events)
    ensures Renames(events) == 0 ==> Run(Init(file, tmp), events).value.file == Stored(file)
    decreases |events|
  {
    hide Next;
    if events != [] {
      SavedByRenaming(file, tmp, events[..|events| - 1]);
      StepSaves(Run(Init(file, tmp), events[..|events| - 1]).value, events[|events| - 1]);
    }
  }

  lemma StepSaves(s: State, e: Event)
    requires Next(s, e).Some?
    ensures multiset(Next(s, e).value.fates)[true] == multiset(s.fates)[true] + if e.Rename? then 1 else 0
    ensures !e.Rename? ==> Next(s, e).value.file == s.file
  {
    hide StoreOf, Set, Render, Parse;
  }

  /** What a name reads as after a run: the hash last saved under it, or what
      was there at first. */
  function Last(jobs: seq<Approval>, name: Str): Option<Hash> {
    if jobs == [] then None
    else if jobs[|jobs| - 1].name == name then Some(jobs[|jobs| - 1].hash)
    else Last(jobs[..|jobs| - 1], name)
  }

  lemma {:induction false} FoldGet(es: seq<Approval>, jobs: seq<Approval>, name: Str)
    requires Distinct(es) && name != []
    ensures Distinct(Fold(es, jobs))
    ensures Get(Fold(es, jobs), name) == if Last(jobs, name).Some? then Last(jobs, name) else Get(es, name)
    decreases |jobs|
  {
    hide Get, Set;
    if jobs != [] {
      var job := jobs[|jobs| - 1];
      FoldGet(es, jobs[..|jobs| - 1], name);
      SetKeepsDistinct(Fold(es, jobs[..|jobs| - 1]), job);
      GetSet(Fold(es, jobs[..|jobs| - 1]), job, name);
    }
  }

  lemma {:induction false} LastWasSent(sent: seq<Approval>, fates: seq<bool>, name: Str, h: Hash)
    requires |fates| <= |sent| && Last(Saved(sent, fates), name) == Some(h)
    ensures Approval(name, h) in sent
    decreases |fates|
  {
    if fates != [] {
      var n := |fates| - 1;
      var jobs := Saved(sent, fates[..n]);
      if fates[n] {
        assert (jobs + [sent[n]])[..|jobs|] == jobs;
        if sent[n].name != name {
          LastWasSent(sent, fates[..n], name, h);
        }
      } else {
        assert jobs + [] == jobs;
        LastWasSent(sent, fates[..n], name, h);
      }
    }
  }

  /** No name ever reads as a hash that was neither there at first nor sent. */
  lemma NothingInvented(file: Option<seq<Line>>, tmp: Option<Content>, events: seq<Event>, name: Str, h: Hash)
    requires Run(Init(file, tmp), events).Some? && name != []
    requires var s := Run(Init(file, tmp), events).value; Get(StoreOf(s.file), name) == Some(h)
    ensures var s := Run(Init(file, tmp), events).value;
            Get(StoreOf(Stored(file)), name) == Some(h) || Approval(name, h) in s.sent
  {
    hide StoreOf, Get, Run;
    var s := Run(Init(file, tmp), events).value;
    RunKeepsInv(file, tmp, events);
    StoreOk(Stored(file));
    var jobs := Saved(s.sent, s.fates);
    FoldGet(StoreOf(Stored(file)), jobs, name);
    if Last(jobs, name).Some? {
      LastWasSent(s.sent, s.fates, name, h);
    }
  }
}
