/** The sleep/wake protocol between the power state controller, the server loop and its sockets, as
    a trace of events. */
module PowerSpec {
  /** A request of the power state controller. */
  datatype PscState = ReadySleep | ReadySleepCritical | ReadyShutdown | ReadyAwaken | ReadyAwakenCritical | Awake

  datatype PowerEvent = Quiet | Sleep | Wake

  /** A request to sleep, or to shut down. */
  predicate ToSleep(s: PscState) {
    s.ReadySleep? || s.ReadySleepCritical? || s.ReadyShutdown?
  }

  /** What poll_psc makes of a request. */
  function KindOf(s: PscState): PowerEvent {
    match s
    case ReadySleep => Sleep
    case ReadySleepCritical => Sleep
    case ReadyShutdown => Sleep
    case ReadyAwaken => Wake
    case ReadyAwakenCritical => Wake
    case Awake => Wake
  }

  datatype Event =
    | Read(request: PscState)       // a request is read from the controller
    | Returned(event: PowerEvent)   // power_poll hands an event to the loop
    | Ack(request: PscState)
    | OpenListener | OpenMdns | OpenClient
    | CloseListener | CloseMdns | CloseClient
    | Traffic                       // any use of a socket
    | Ping(at: nat)                 // keep-awake, and the system tick then
    | RunHooks                      // the features release what must not survive sleep
    | SuspendLog | ResumeLog | LogLine
    | Perform                       // an agent-requested power action

  type Trace = seq<Event>

  function Reads(t: Trace): seq<PscState> {
    if t == [] then []
    else
      var e := t[|t| - 1];
      Reads(t[..|t| - 1]) + (if e.Read? then [e.request] else [])
  }

  function Acks(t: Trace): seq<PscState> {
    if t == [] then []
    else
      var e := t[|t| - 1];
      Acks(t[..|t| - 1]) + (if e.Ack? then [e.request] else [])
  }

  /** The events handed to the loop. */
  function Handed(t: Trace): seq<PowerEvent> {
    if t == [] then []
    else
      var e := t[|t| - 1];
      Handed(t[..|t| - 1]) + (if e.Returned? then [e.event] else [])
  }

  function Kinds(s: seq<PscState>): (k: seq<PowerEvent>)
    ensures |k| == |s|
  {
    seq(|s|, i requires 0 <= i < |s| => KindOf(s[i]))
  }

  lemma KindsMore(s: seq<PscState>, r: PscState)
    ensures Kinds(s + [r]) == Kinds(s) + [KindOf(r)]
  {
  }

  /** Five seconds of the 19.2 MHz system tick. */
  const KEEPAWAKE_TICKS: nat := 96_000_000

  /** What a watcher knows after a trace: open sockets, the log, whether the features have released
      what they hold since the last client, whether the console is between a sleep acknowledgement
      and the wake that ends it, the earliest tick of the next ping, and whether every rule was kept. */
  datatype Watch = Watch(listener: bool, mdns: bool, client: bool, logOff: bool, released: bool, asleep: bool,
                         nextPing: nat, kept: bool)
  {
    predicate NoSocket() {
      !listener && !mdns && !client
    }
  }

  /** The rules: nothing is opened, used or pinged while asleep; nothing is logged while the sink is
      suspended; a sleep is acknowledged only with no socket open, the sink suspended and the features'
      hooks run; pings are at least the interval apart, but for a wake between them; a power action is
      performed with no client open. */
  function Observe(w: Watch, e: Event): Watch {
    match e
    case Read(_) => w
    case Returned(k) => if k == Wake then w.(asleep := false, nextPing := 0) else w
    case Ack(s) =>
      if ToSleep(s) then w.(asleep := true, kept := w.kept && w.NoSocket() && w.logOff && w.released) else w
    case OpenListener => w.(listener := true, kept := w.kept && !w.asleep && !w.listener)
    case OpenMdns => w.(mdns := true, kept := w.kept && !w.asleep && !w.mdns)
    case OpenClient => w.(client := true, released := false, kept := w.kept && !w.asleep && !w.client && w.listener)
    case CloseListener => w.(listener := false, kept := w.kept && w.listener && !w.asleep)
    case CloseMdns => w.(mdns := false, kept := w.kept && w.mdns && !w.asleep)
    case CloseClient => w.(client := false, kept := w.kept && w.client && !w.asleep)
    case Traffic => w.(kept := w.kept && !w.asleep)
    case Ping(at) => w.(nextPing := at + KEEPAWAKE_TICKS, kept := w.kept && !w.asleep && at >= w.nextPing)
    case RunHooks => w.(released := true)
    case SuspendLog => w.(logOff := true)
    case ResumeLog => w.(logOff := false, kept := w.kept && !w.asleep)
    case LogLine => w.(kept := w.kept && !w.logOff)
    case Perform => w.(kept := w.kept && !w.asleep && !w.client)
  }

  function WatchOf(t: Trace): Watch {
    if t == [] then Watch(false, false, false, false, false, false, 0, true)
    else Observe(WatchOf(t[..|t| - 1]), t[|t| - 1])
  }

  /** All the functions of a trace at once, one event later. */
  lemma OneMore(t: Trace, e: Event)
    ensures WatchOf(t + [e]) == Observe(WatchOf(t), e)
    ensures Reads(t + [e]) == if e.Read? then Reads(t) + [e.request] else Reads(t)
    ensures Acks(t + [e]) == if e.Ack? then Acks(t) + [e.request] else Acks(t)
    ensures Handed(t + [e]) == if e.Returned? then Handed(t) + [e.event] else Handed(t)
  {
    assert (t + [e])[..|t|] == t;
  }

  lemma StillKept(w: Watch, e: Event)
    ensures Observe(w, e).kept ==> w.kept
  {
  }

  /** Rules kept to the end were kept all along. */
  lemma {:induction false} KeptBefore(t: Trace, n: nat)
    requires WatchOf(t).kept && n <= |t|
    ensures WatchOf(t[..n]).kept
    decreases |t|
  {
    hide WatchOf, Observe;
    if n < |t| {
      var t' := t[..|t| - 1];
      assert t == t' + [t[|t| - 1]];
      OneMore(t', t[|t| - 1]);
      StillKept(WatchOf(t'), t[|t| - 1]);
      assert t'[..n] == t[..n];
      KeptBefore(t', n);
    } else {
      assert t[..n] == t;
    }
  }

  predicate Uses(e: Event) {
    e.OpenListener? || e.OpenMdns? || e.OpenClient? || e.CloseListener? || e.CloseMdns? || e.CloseClient? ||
    e.Traffic? || e.Ping? || e.Perform? || e.ResumeLog? || e.LogLine?
  }

  /** While the sleeping lasts the watch does not change but for the requests handed over. */
  lemma {:induction false} StaysQuiet(t: Trace, i: nat, j: nat)
    requires WatchOf(t).kept && i < j <= |t| && t[i].Ack? && ToSleep(t[i].request)
    requires forall k :: i < k < j ==> t[k] != Returned(Wake)
    ensures var w := WatchOf(t[..j]); w.asleep && w.NoSocket() && w.logOff
    decreases j
  {
    hide WatchOf;
    KeptBefore(t, j);
    KeptBefore(t, j - 1);
    assert t[..j] == t[..j - 1] + [t[j - 1]];
    OneMore(t[..j - 1], t[j - 1]);
    if j - 1 > i {
      StaysQuiet(t, i, j - 1);
    }
  }

  /** From a sleep acknowledgement until the matching wake is handed over: no socket is open, opened
      or used, nothing is logged, no keep-awake ping is sent. */
  lemma {:induction false} SleepIsQuiet(t: Trace, i: nat, j: nat)
    requires WatchOf(t).kept && i < j < |t| && t[i].Ack? && ToSleep(t[i].request)
    requires forall k :: i < k <= j ==> t[k] != Returned(Wake)
    ensures WatchOf(t[..j]).NoSocket() && !Uses(t[j])
  {
    hide WatchOf;
    StaysQuiet(t, i, j);
    KeptBefore(t, j + 1);
    assert t[..j + 1] == t[..j] + [t[j]];
    OneMore(t[..j], t[j]);
  }

  lemma {:induction false} NextPingStays(t: Trace, i: nat, j: nat)
    requires WatchOf(t).kept && i < j <= |t| && t[i].Ping? && forall k :: i < k < j ==> t[k] != Returned(Wake)
    ensures WatchOf(t[..j]).nextPing >= t[i].at + KEEPAWAKE_TICKS
    decreases j
  {
    hide WatchOf;
    KeptBefore(t, j);
    assert t[..j] == t[..j - 1] + [t[j - 1]];
    OneMore(t[..j - 1], t[j - 1]);
    if j - 1 > i {
      NextPingStays(t, i, j - 1);
    }
  }

  /** Two pings with no wake between them are at least the interval apart. */
  lemma {:induction false} PingsApart(t: Trace, i: nat, j: nat)
    requires WatchOf(t).kept && i < j < |t| && t[i].Ping? && t[j].Ping? && forall k :: i < k < j ==> t[k] != Returned(Wake)
    ensures t[j].at >= t[i].at + 5 * 19_200_000
  {
    hide WatchOf;
    NextPingStays(t, i, j);
    KeptBefore(t, j + 1);
    assert t[..j + 1] == t[..j] + [t[j]];
    OneMore(t[..j], t[j]);
  }

  // --- the same, said of the requests themselves ----------------------------------------------------

  /** Opened and not closed since. */
  predicate Open(t: Trace, opens: Event, closes: Event) {
    if t == [] then false
    else if t[|t| - 1] == opens then true
    else if t[|t| - 1] == closes then false
    else Open(t[..|t| - 1], opens, closes)
  }

  /** No socket is open and the log is suspended. */
  predicate Silent(t: Trace) {
    !Open(t, OpenListener, CloseListener) && !Open(t, OpenMdns, CloseMdns) && !Open(t, OpenClient, CloseClient) &&
    Open(t, SuspendLog, ResumeLog)
  }

  lemma ObserveSees(w: Watch, e: Event)
    ensures Observe(w, e).listener == Switched(w.listener, e, OpenListener, CloseListener)
    ensures Observe(w, e).mdns == Switched(w.mdns, e, OpenMdns, CloseMdns)
    ensures Observe(w, e).client == Switched(w.client, e, OpenClient, CloseClient)
    ensures Observe(w, e).logOff == Switched(w.logOff, e, SuspendLog, ResumeLog)
  {
    hide Switched, KindOf;
    var v := Observe(w, e);
    assert v.listener == if e.OpenListener? then true else if e.CloseListener? then false else w.listener;
    assert v.mdns == if e.OpenMdns? then true else if e.CloseMdns? then false else w.mdns;
    assert v.client == if e.OpenClient? then true else if e.CloseClient? then false else w.client;
    assert v.logOff == if e.SuspendLog? then true else if e.ResumeLog? then false else w.logOff;
    hide Observe;
    SwitchedIs(w.listener, e, OpenListener, CloseListener);
    SwitchedIs(w.mdns, e, OpenMdns, CloseMdns);
    SwitchedIs(w.client, e, OpenClient, CloseClient);
    SwitchedIs(w.logOff, e, SuspendLog, ResumeLog);
  }

  lemma SwitchedIs(was: bool, e: Event, opens: Event, closes: Event)
    requires opens != closes
    ensures Switched(was, e, opens, closes) == if e == opens then true else if e == closes then false else was
  {
  }

  predicate Switched(was: bool, e: Event, opens: Event, closes: Event) {
    e == opens || (was && e != closes)
  }

  lemma OpenStep(t: Trace, opens: Event, closes: Event)
    requires t != []
    ensures Open(t, opens, closes) == Switched(Open(t[..|t| - 1], opens, closes), t[|t| - 1], opens, closes)
  {
  }

  lemma {:induction false} WatchSees(t: Trace)
    ensures var w := WatchOf(t);
            w.listener == Open(t, OpenListener, CloseListener) && w.mdns == Open(t, OpenMdns, CloseMdns) &&
            w.client == Open(t, OpenClient, CloseClient) && w.logOff == Open(t, SuspendLog, ResumeLog)
  {
    hide Observe, Open, Switched;
    if t == [] {
      NothingOpen();
    } else {
      WatchSees(t[..|t| - 1]);
      ObserveSees(WatchOf(t[..|t| - 1]), t[|t| - 1]);
      OpenStep(t, OpenListener, CloseListener);
      OpenStep(t, OpenMdns, CloseMdns);
      OpenStep(t, OpenClient, CloseClient);
      OpenStep(t, SuspendLog, ResumeLog);
    }
  }

  lemma NothingOpen()
    ensures forall a, b :: !Open([], a, b)
  {
  }

  /** The request that is handed over at k: as many were before. */
  function HandedAt(t: Trace, k: nat): nat
    requires k < |t|
  {
    |Handed(t[..k])|
  }

  lemma {:induction false} HandedIs(t: Trace, k: nat)
    requires k < |t| && t[k].Returned?
    ensures HandedAt(t, k) < |Handed(t)| && Handed(t)[HandedAt(t, k)] == t[k].event
    decreases |t|
  {
    var t' := t[..|t| - 1];
    if k < |t| - 1 {
      assert t'[..k] == t[..k];
      HandedIs(t', k);
    }
  }

  /** Every request read is acknowledged in order, the last one perhaps not yet; and each is handed over
      as what it is. */
  predicate InOrder(t: Trace) {
    Acks(t) <= Reads(t) && |Reads(t)| <= |Acks(t)| + 1 &&
    forall k :: 0 <= k < |t| && t[k].Returned? ==>
      HandedAt(t, k) < |Reads(t)| && t[k].event == if ToSleep(Reads(t)[HandedAt(t, k)]) then Sleep else Wake
  }

  lemma KindsInOrder(t: Trace, deferred: seq<PscState>)
    requires Reads(t) == Acks(t) + deferred && |deferred| <= 1 && Handed(t) == Kinds(Acks(t))
    ensures InOrder(t)
  {
    hide Reads, Acks, Handed, HandedAt;
    forall k | 0 <= k < |t| && t[k].Returned?
      ensures HandedAt(t, k) < |Reads(t)| && t[k].event == if ToSleep(Reads(t)[HandedAt(t, k)]) then Sleep else Wake
    {
      HandedIs(t, k);
      assert Reads(t)[HandedAt(t, k)] == Acks(t)[HandedAt(t, k)];
    }
  }

  /** No request to wake, or to stay awake, is handed over from i up to j. */
  predicate NoWake(t: Trace, i: nat, j: nat)
    requires InOrder(t) && j < |t|
  {
    forall k :: i < k <= j && t[k].Returned? ==> ToSleep(Reads(t)[HandedAt(t, k)])
  }

  /** From the acknowledgement of a request to sleep until a request to wake is handed over everything is
      silent, and nothing is opened, closed, used, logged, pinged or performed. */
  predicate SleepsQuietly(t: Trace)
    requires InOrder(t)
  {
    forall i, j :: 0 <= i < j < |t| && t[i].Ack? && ToSleep(t[i].request) && NoWake(t, i, j) ==> Silent(t[..j]) && !Uses(t[j])
  }

  lemma QuietSleeps(t: Trace)
    requires WatchOf(t).kept && InOrder(t)
    ensures SleepsQuietly(t)
  {
    hide WatchOf, Silent, HandedAt, Reads;
    forall i, j | 0 <= i < j < |t| && t[i].Ack? && ToSleep(t[i].request) && NoWake(t, i, j)
      ensures Silent(t[..j]) && !Uses(t[j])
    {
      StaysQuiet(t, i, j);
      SleepIsQuiet(t, i, j);
      SilentIs(t[..j]);
    }
  }

  lemma SilentIs(t: Trace)
    ensures Silent(t) <==> WatchOf(t).NoSocket() && WatchOf(t).logOff
  {
    hide WatchOf, Open;
    WatchSees(t);
  }
}
