/** The extension's background script: one port to the helper, a retry timer,
    and reports that wait for the browser before they are sent. */
module Reconnect {
  import opened Options

  const BACKOFF_MIN := 1000
  const BACKOFF_MAX := 30000

  type Payload = string

  datatype Status = Status(connected: bool, error: Option<string>)

  /** One `postMessage`: the port it went to, and whether it threw. */
  datatype Post = Post(port: nat, payload: Payload, sent: bool)

  /** The script's variables, then what the outside has seen of them: the ports
      opened and those that disconnected, the reports waiting, the posts made,
      the delays the timers were armed for and the statuses stored. */
  datatype State = State(port: Option<nat>, backoff: nat, timer: bool, lastSent: Option<Payload>,
                         lastStatus: Option<Status>, handed: nat, gone: set<nat>, waiting: nat, posts: seq<Post>,
                         delays: seq<nat>, saves: seq<Status>)

  function Init(): State {
    State(None, BACKOFF_MIN, false, None, None, 0, {}, 0, [], [], [])
  }

  // ------------------------------------------------------------- handlers

  /** `setStatus` stores a status only when it changed. */
  function SetStatus(s: State, status: Status): State {
    if s.lastStatus == Some(status) then s else s.(lastStatus := Some(status), saves := s.saves + [status])
  }

  function Min(a: nat, b: nat): nat {
    if a < b then a else b
  }

  function ScheduleReconnect(s: State): State {
    if s.timer then s
    else
      s.(timer := true, delays := s.delays + [s.backoff], backoff := Min(s.backoff * 2, BACKOFF_MAX))
  }

  /** `report`, up to where it waits. */
  function Report(s: State): State {
    if s.port == None then s else s.(waiting := s.waiting + 1)
  }

  /** `error`: what `connectNative` threw, if it did. */
  function Connect(s: State, error: Option<string>): State {
    if s.port.Some? then s
    else if error.Some? then ScheduleReconnect(SetStatus(s, Status(false, error)))
    else Report(s.(port := Some(s.handed), handed := s.handed + 1, lastSent := None))
  }

  /** `report`, from where it waited: `throws` says whether posting throws. */
  function Resume(s: State, payload: Payload, throws: bool): State {
    var t := s.(waiting := if s.waiting > 0 then s.waiting - 1 else 0);
    if s.lastSent == Some(payload) || s.port == None then t
    else
      t.(lastSent := if throws then None else Some(payload),
         posts := s.posts + [Post(s.port.value, payload, !throws)])
  }

  function OnStatus(s: State, status: Status): State {
    SetStatus(if status.connected then s.(backoff := BACKOFF_MIN) else s, status)
  }

  function OnDisconnect(s: State, p: nat, error: string): State {
    var t := s.(port := if s.port == Some(p) then None else s.port, gone := s.gone + {p});
    ScheduleReconnect(SetStatus(t, Status(false, Some(error))))
  }

  /** Whatever the browser can call, with what it brings along. */
  datatype Event =
    | TimerFires(threw: Option<string>)
    | StatusArrives(p: nat, status: Status)
    | Disconnects(p: nat, error: string)
    | Changes
    | Answers(payload: Payload, throws: bool)
    | AnswerFails

  /** A timer fires when it is armed, a port speaks until it has disconnected,
      which it does once, and an answer needs a report that waits for it. */
  function Next(s: State, e: Event): Option<State> {
    match e
    case TimerFires(threw) => if s.timer then Some(Connect(s.(timer := false), threw)) else None
    case StatusArrives(p, status) => if p < s.handed && p !in s.gone then Some(OnStatus(s, status)) else None
    case Disconnects(p, error) => if p < s.handed && p !in s.gone then Some(OnDisconnect(s, p, error)) else None
    case Changes => Some(Report(s))
    case Answers(payload, throws) => if s.waiting > 0 then Some(Resume(s, payload, throws)) else None
    case AnswerFails => if s.waiting > 0 then Some(s.(waiting := s.waiting - 1)) else None
  }

  /** From the first `connect()` on. */
  function Run(first: Option<string>, events: seq<Event>): Option<State>
    decreases |events|
  {
    if events == [] then Some(Connect(Init(), first))
    else
      match Run(first, events[..|events| - 1])
      case None => None
      case Some(s) => Next(s, events[|events| - 1])
  }

  // ------------------------------------------------- told from the events

  /** The ports that were opened. */
  ghost function Opened(first: Option<string>, events: seq<Event>): nat {
    if events == [] then if first == None then 1 else 0
    else
      Opened(first, events[..|events| - 1]) + if events[|events| - 1] == TimerFires(None) then 1 else 0
  }

  /** Whether the last port opened is still there. */
  ghost predicate Live(first: Option<string>, events: seq<Event>) {
    if events == [] then first == None
    else
      match events[|events| - 1]
      case TimerFires(threw) => threw == None
      case Disconnects(_, _) => false
      case _ => Live(first, events[..|events| - 1])
  }

  /** The reports that were begun, on a port just opened or for a change while
      one was there, and have not been answered. */
  ghost function Waiting(first: Option<string>, events: seq<Event>): int {
    if events == [] then if first == None then 1 else 0
    else
      var before := Waiting(first, events[..|events| - 1]);
      match events[|events| - 1]
      case TimerFires(threw) => if threw == None then before + 1 else before
      case Changes => if Live(first, events[..|events| - 1]) then before + 1 else before
      case Answers(_, _) => before - 1
      case AnswerFails => before - 1
      case _ => before
  }

  /** What the port has heard last, if that went through. */
  ghost function Heard(posts: seq<Post>, p: nat): Option<Payload> {
    if posts != [] && posts[|posts| - 1].port == p && posts[|posts| - 1].sent then Some(posts[|posts| - 1].payload)
    else None
  }

  /** Every answer is posted on the port there is, unless that port has heard
      the same last. */
  ghost function Posted(first: Option<string>, events: seq<Event>): seq<Post> {
    if events == [] then []
    else
      var past := events[..|events| - 1];
      var before := Posted(first, past);
      match events[|events| - 1]
      case Answers(payload, throws) =>
        var p := Opened(first, past) - 1;
        if Live(first, past) && p >= 0 && Heard(before, p) != Some(payload) then
          before + [Post(p, payload, !throws)]
        else before
      case _ => before
  }

  /** How often a port could not be opened or went away since the helper last
      said that it was connected. */
  ghost function Failures(first: Option<string>, events: seq<Event>): nat {
    if events == [] then if first == None then 0 else 1
    else
      var before := Failures(first, events[..|events| - 1]);
      match events[|events| - 1]
      case TimerFires(threw) => if threw == None then before else before + 1
      case Disconnects(_, _) => before + 1
      case StatusArrives(_, status) => if status.connected then 0 else before
      case _ => before
  }

  /** The delay behind `k` failures: from one second on, doubled by each, and
      half a minute at most. */
  ghost function Backoff(k: nat): nat {
    if 1000 * Pow2(k) < 30000 then 1000 * Pow2(k) else 30000
  }

  /** Each failure arms a timer for the delay that the failures before it call
      for. */
  ghost function Delays(first: Option<string>, events: seq<Event>): seq<nat> {
    if events == [] then if first == None then [] else [1000]
    else
      var past := events[..|events| - 1];
      match events[|events| - 1]
      case TimerFires(Some(_)) => Delays(first, past) + [Backoff(Failures(first, past))]
      case Disconnects(_, _) => Delays(first, past) + [Backoff(Failures(first, past))]
      case _ => Delays(first, past)
  }

  /** The statuses that the events tell, in order. */
  ghost function Told(first: Option<string>, events: seq<Event>): seq<Status> {
    if events == [] then if first == None then [] else [Status(false, first)]
    else
      var before := Told(first, events[..|events| - 1]);
      match events[|events| - 1]
      case TimerFires(threw) => if threw == None then before else before + [Status(false, threw)]
      case StatusArrives(_, status) => before + [status]
      case Disconnects(_, error) => before + [Status(false, Some(error))]
      case _ => before
  }

  /** The list with each stretch of equal statuses taken together. */
  ghost function Squeezed(told: seq<Status>): (r: seq<Status>)
    ensures told == [] <==> r == []
    ensures told != [] ==> r[|r| - 1] == told[|told| - 1]
  {
    if told == [] then []
    else
      var n := |told| - 1;
      if n > 0 && told[n] == told[n - 1] then Squeezed(told[..n]) else Squeezed(told[..n]) + [told[n]]
  }

  /** The state agrees with what the events say happened. */
  ghost predicate Shows(s: State, first: Option<string>, events: seq<Event>) {
    && s.port == (if Live(first, events) then Some(Opened(first, events) - 1) else None)
    && s.timer == !Live(first, events)
    && s.handed == Opened(first, events)
    && s.waiting == Waiting(first, events)
    && s.posts == Posted(first, events)
    && s.backoff == Backoff(Failures(first, events))
    && s.delays == Delays(first, events)
    && s.saves == Squeezed(Told(first, events))
  }

  // ------------------------------------------------------------ what holds

  function Pow2(k: nat): nat {
    if k == 0 then 1 else 2 * Pow2(k - 1)
  }

  lemma BackoffDoubles(k: nat)
    ensures Min(Backoff(k) * 2, BACKOFF_MAX) == Backoff(k + 1)
    ensures Backoff(0) == BACKOFF_MIN == 1000
  {
  }

  /** No port hears the same twice running. */
  ghost predicate NoRepeats(posts: seq<Post>) {
    forall i :: 0 <= i < |posts| - 1 && posts[i].sent && posts[i].port == posts[i + 1].port ==>
      posts[i].payload != posts[i + 1].payload
  }

  /** What is kept from step to step, in the variables alone. */
  ghost predicate Inv(s: State) {
    && (s.port.Some? <==> !s.timer)
    && (forall p :: p in s.gone <==> 0 <= p < s.handed && s.port != Some(p))
    && (s.port.Some? ==> s.port.value == s.handed - 1 && s.lastSent == Heard(s.posts, s.port.value))
    && (forall i :: 0 <= i < |s.posts| ==> s.posts[i].port < s.handed)
    && NoRepeats(s.posts)
    && s.lastStatus == (if s.saves == [] then None else Some(s.saves[|s.saves| - 1]))
  }

  lemma ConnectKeepsInv(s: State, error: Option<string>)
    requires s.port == None && Inv(s.(timer := true)) && !s.timer
    ensures Inv(Connect(s, error))
  {
  }

  lemma ResumeKeepsInv(s: State, payload: Payload, throws: bool)
    requires Inv(s)
    ensures Inv(Resume(s, payload, throws))
  {
    var t := Resume(s, payload, throws);
    if t.posts != s.posts {
      forall i | 0 <= i < |t.posts| - 1 && t.posts[i].sent && t.posts[i].port == t.posts[i + 1].port
        ensures t.posts[i].payload != t.posts[i + 1].payload
      {
        assert t.posts[i] == s.posts[i];
        assert i + 1 < |s.posts| ==> t.posts[i + 1] == s.posts[i + 1];
      }
    }
  }

  lemma DisconnectKeepsInv(s: State, p: nat, error: string)
    requires Inv(s) && p < s.handed && p !in s.gone
    ensures s.port == Some(p) && Inv(OnDisconnect(s, p, error))
  {
    assert s.port == Some(p);
  }

  /** Every step keeps the invariant. */
  lemma StepKeepsInv(s: State, e: Event)
    requires Inv(s) && Next(s, e).Some?
    ensures Inv(Next(s, e).value)
  {
    hide NoRepeats, Heard, ScheduleReconnect;
    match e
    case TimerFires(threw) =>
      ConnectKeepsInv(s.(timer := false), threw);
    case StatusArrives(p, status) =>
    case Disconnects(p, error) =>
      DisconnectKeepsInv(s, p, error);
    case Changes =>
    case Answers(payload, throws) =>
      ResumeKeepsInv(s, payload, throws);
    case AnswerFails =>
  }

  /** In every state the script can get to: exactly one of a live port and an
      armed retry timer; the delay is that of the failures since the helper last
      said it was connected, and so was every timer's when it was armed; the
      status stored last is the one told last, stored once; every answer was
      posted on the port there was unless it had just heard the same, whichever
      port the report began on. */
  lemma {:induction false} RunKeepsInv(first: Option<string>, events: seq<Event>)
    requires Run(first, events).Some?
    ensures Inv(Run(first, events).value) && Shows(Run(first, events).value, first, events)
    decreases |events|
  {
    hide Inv, Connect, Next, Shows;
    if events == [] {
      StartShows(first);
    } else {
      var past := events[..|events| - 1];
      RunKeepsInv(first, past);
      StepKeepsInv(Run(first, past).value, events[|events| - 1]);
      StepShows(Run(first, past).value, first, events);
    }
  }

  lemma StartShows(first: Option<string>)
    ensures Inv(Connect(Init(), first)) && Shows(Connect(Init(), first), first, [])
  {
    hide Pow2, Squeezed, NoRepeats, Inv, ScheduleReconnect;
    assert Inv(Init().(timer := true)) && Inv(Connect(Init(), first)) by { StartKeepsInv(first); }
    BackoffDoubles(0);
    if first.Some? {
      SqueezeOn([], Status(false, first));
      assert [] + [Status(false, first)] == Told(first, []);
      var t := SetStatus(Init(), Status(false, first));
      assert ScheduleReconnect(t) == t.(timer := true, delays := [1000], backoff := Backoff(1)) by { Scheduled(t, 0); }
    }
  }

  lemma StartKeepsInv(first: Option<string>)
    ensures Inv(Init().(timer := true)) && Inv(Connect(Init(), first))
  {
    ConnectKeepsInv(Init(), first);
  }

  /** Arming the timer behind `k` failures. */
  lemma Scheduled(s: State, k: nat)
    requires !s.timer && s.backoff == Backoff(k)
    ensures ScheduleReconnect(s) == s.(timer := true, delays := s.delays + [Backoff(k)], backoff := Backoff(k + 1))
  {
    hide Pow2, Backoff;
    BackoffDoubles(k);
  }

  /** What one more event does to the state is what it adds to the account. */
  lemma StepShows(s: State, first: Option<string>, events: seq<Event>)
    requires events != [] && Inv(s) && Shows(s, first, events[..|events| - 1])
    requires Next(s, events[|events| - 1]).Some?
    ensures Shows(Next(s, events[|events| - 1]).value, first, events)
  {
    hide *;
    match events[|events| - 1]
    case TimerFires(_) => TimerShows(s, first, events);
    case StatusArrives(_, _) => StatusShows(s, first, events);
    case Disconnects(_, _) => DisconnectShows(s, first, events);
    case Changes => ChangeShows(s, first, events);
    case Answers(_, _) => AnswerShows(s, first, events);
    case AnswerFails => ChangeShows(s, first, events);
  }

  lemma TimerShows(s: State, first: Option<string>, events: seq<Event>)
    requires events != [] && events[|events| - 1].TimerFires?
    requires Inv(s) && Shows(s, first, events[..|events| - 1]) && Next(s, events[|events| - 1]).Some?
    ensures Shows(Next(s, events[|events| - 1]).value, first, events)
  {
    hide Backoff, Squeezed, Heard, NoRepeats, ScheduleReconnect, SetStatus;
    var past := events[..|events| - 1];
    PortOrTimer(s, events[|events| - 1]);
    match events[|events| - 1].threw
    case Some(error) =>
      Retried(s.(timer := false), Status(false, Some(error)), Told(first, past), Failures(first, past));
    case None =>
  }

  lemma PortOrTimer(s: State, e: Event)
    requires Inv(s) && Next(s, e).Some?
    ensures e.TimerFires? ==> s.timer && s.port == None
    ensures e.Disconnects? ==> !s.timer && s.port == Some(e.p)
  {
    hide NoRepeats, Heard;
  }

  /** A failure stores what it tells and arms the timer. */
  lemma Retried(s: State, status: Status, told: seq<Status>, k: nat)
    requires !s.timer && s.backoff == Backoff(k) && s.saves == Squeezed(told)
    requires s.lastStatus == if s.saves == [] then None else Some(s.saves[|s.saves| - 1])
    ensures ScheduleReconnect(SetStatus(s, status)) ==
            s.(timer := true, delays := s.delays + [Backoff(k)], backoff := Backoff(k + 1),
               lastStatus := Some(status), saves := Squeezed(told + [status]))
  {
    hide Backoff, Squeezed, ScheduleReconnect;
    SqueezeOn(told, status);
    Scheduled(SetStatus(s, status), k);
  }

  lemma StatusShows(s: State, first: Option<string>, events: seq<Event>)
    requires events != [] && events[|events| - 1].StatusArrives?
    requires Inv(s) && Shows(s, first, events[..|events| - 1]) && Next(s, events[|events| - 1]).Some?
    ensures Shows(Next(s, events[|events| - 1]).value, first, events)
  {
    hide Backoff, Squeezed, Heard, NoRepeats;
    var past := events[..|events| - 1];
    SqueezeOn(Told(first, past), events[|events| - 1].status);
    BackoffDoubles(0);
  }

  lemma DisconnectShows(s: State, first: Option<string>, events: seq<Event>)
    requires events != [] && events[|events| - 1].Disconnects?
    requires Inv(s) && Shows(s, first, events[..|events| - 1]) && Next(s, events[|events| - 1]).Some?
    ensures Shows(Next(s, events[|events| - 1]).value, first, events)
  {
    hide Backoff, Squeezed, Heard, NoRepeats, ScheduleReconnect, SetStatus;
    var past := events[..|events| - 1];
    var p, error := events[|events| - 1].p, events[|events| - 1].error;
    PortOrTimer(s, events[|events| - 1]);
    var left := s.(port := None, gone := s.gone + {p});
    Retried(left, Status(false, Some(error)), Told(first, past), Failures(first, past));
  }

  lemma ChangeShows(s: State, first: Option<string>, events: seq<Event>)
    requires events != [] && (events[|events| - 1].Changes? || events[|events| - 1].AnswerFails?)
    requires Inv(s) && Shows(s, first, events[..|events| - 1]) && Next(s, events[|events| - 1]).Some?
    ensures Shows(Next(s, events[|events| - 1]).value, first, events)
  {
    hide Backoff, Squeezed, Heard, NoRepeats;
  }

  lemma AnswerShows(s: State, first: Option<string>, events: seq<Event>)
    requires events != [] && events[|events| - 1].Answers?
    requires Inv(s) && Shows(s, first, events[..|events| - 1]) && Next(s, events[|events| - 1]).Some?
    ensures Shows(Next(s, events[|events| - 1]).value, first, events)
  {
    hide Backoff, Squeezed, Heard, NoRepeats;
  }

  lemma SqueezeOn(told: seq<Status>, status: Status)
    ensures Squeezed(told + [status]) ==
            if told != [] && told[|told| - 1] == status then Squeezed(told) else Squeezed(told) + [status]
  {
    assert (told + [status])[..|told|] == told;
  }

  // ----------------------------------------------- the script's own shape

  /** The module-level variables and the handlers that assign to them. */
  class Background {
    var port: Option<nat>
    var backoff: nat
    var retryTimer: bool
    var lastSent: Option<Payload>
    var lastStatus: Option<Status>

    ghost var handed: nat
    ghost var gone: set<nat>
    ghost var waiting: nat
    ghost var posts: seq<Post>
    ghost var delays: seq<nat>
    ghost var saves: seq<Status>

    ghost function Seen(): State
      reads this
    {
      State(port, backoff, retryTimer, lastSent, lastStatus, handed, gone, waiting, posts, delays, saves)
    }

    constructor ()
      ensures Seen() == Init()
    {
      port, backoff, retryTimer, lastSent, lastStatus := None, BACKOFF_MIN, false, None, None;
      handed, gone, waiting, posts, delays, saves := 0, {}, 0, [], [], [];
    }

    method StoreStatus(status: Status)
      modifies this
      ensures Seen() == SetStatus(old(Seen()), status)
    {
      if lastStatus == Some(status) {
        return;
      }
      lastStatus := Some(status);
      saves := saves + [status];
    }

    method Schedule()
      modifies this
      ensures Seen() == ScheduleReconnect(old(Seen()))
    {
      if retryTimer {
        return;
      }
      retryTimer := true;
      delays := delays + [backoff];
      backoff := Min(backoff * 2, BACKOFF_MAX);
    }

    method BeginReport()
      modifies this
      ensures Seen() == Report(old(Seen()))
    {
      if port == None {
        return;
      }
      waiting := waiting + 1;
    }

    /** `native` is the port the browser hands out, or what it threw. */
    method Open(native: Result<nat, string>)
      requires native.Ok? ==> native.value == handed
      modifies this
      ensures Seen() == Connect(old(Seen()), match native case Ok(_) => None case Err(e) => Some(e))
    {
      if port.Some? {
        return;
      }
      match native {
        case Err(e) =>
          StoreStatus(Status(false, Some(e)));
          Schedule();
        case Ok(p) =>
          port := Some(p);
          handed := handed + 1;
          lastSent := None;
          BeginReport();
      }
    }

    /** The script as it is loaded: the first `connect()`. */
    method Begin(native: Result<nat, string>)
      requires Seen() == Init() && (native.Ok? ==> native.value == 0)
      modifies this
      ensures Inv(Seen())
      ensures Run(match native case Ok(_) => None case Err(e) => Some(e), []) == Some(Seen())
    {
      StartShows(match native case Ok(_) => None case Err(e) => Some(e));
      Open(native);
    }

    /** The retry timer's callback. */
    method FireTimer(native: Result<nat, string>)
      requires Inv(Seen()) && retryTimer && (native.Ok? ==> native.value == handed)
      modifies this
      ensures Inv(Seen())
      ensures Next(old(Seen()), TimerFires(match native case Ok(_) => None case Err(e) => Some(e))) == Some(Seen())
    {
      StepKeepsInv(Seen(), TimerFires(match native case Ok(_) => None case Err(e) => Some(e)));
      retryTimer := false;
      Open(native);
    }

    method HandleStatus(p: nat, status: Status)
      requires Inv(Seen()) && p < handed && p !in gone
      modifies this
      ensures Inv(Seen()) && Next(old(Seen()), StatusArrives(p, status)) == Some(Seen())
    {
      StepKeepsInv(Seen(), StatusArrives(p, status));
      if status.connected {
        backoff := BACKOFF_MIN;
      }
      StoreStatus(status);
    }

    method HandleDisconnect(p: nat, error: string)
      requires Inv(Seen()) && p < handed && p !in gone
      modifies this
      ensures Inv(Seen()) && Next(old(Seen()), Disconnects(p, error)) == Some(Seen())
      ensures port == None && retryTimer
    {
      StepKeepsInv(Seen(), Disconnects(p, error));
      gone := gone + {p};
      if port == Some(p) {
        port := None;
      }
      StoreStatus(Status(false, Some(error)));
      Schedule();
    }

    /** `report`, called for a change in the browser, up to where it waits. */
    method HandleChange()
      requires Inv(Seen())
      modifies this
      ensures Inv(Seen()) && Next(old(Seen()), Changes) == Some(Seen())
    {
      StepKeepsInv(Seen(), Changes);
      BeginReport();
    }

    /** The rest of `report`, on whatever port there is by then. */
    method EndReport(payload: Payload, throws: bool)
      requires Inv(Seen()) && waiting > 0
      modifies this
      ensures Inv(Seen()) && Next(old(Seen()), Answers(payload, throws)) == Some(Seen())
      ensures port.Some? && !throws ==> Heard(posts, port.value) == Some(payload)
    {
      StepKeepsInv(Seen(), Answers(payload, throws));
      waiting := waiting - 1;
      if lastSent == Some(payload) || port == None {
        return;
      }
      lastSent := Some(payload);
      posts := posts + [Post(port.value, payload, !throws)];
      if throws {
        lastSent := None;
      }
    }
  }
}
