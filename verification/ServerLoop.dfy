/** The server loop of http_server.c and power.c against an environment that may do anything: the
    power state controller's requests, the network, the clients and the handlers' waits are
    nondeterministic choices. */
module ServerLoop {
  import opened PowerSpec

  class World {
    ghost var trace: Trace

    constructor ()
      ensures trace == []
    {
      trace := [];
    }

    method Emit(e: Event)
      modifies this
      ensures trace == old(trace) + [e]
      ensures WatchOf(trace) == Observe(WatchOf(old(trace)), e)
      ensures Reads(trace) == if e.Read? then Reads(old(trace)) + [e.request] else Reads(old(trace))
      ensures Acks(trace) == if e.Ack? then Acks(old(trace)) + [e.request] else Acks(old(trace))
      ensures Handed(trace) == if e.Returned? then Handed(old(trace)) + [e.event] else Handed(old(trace))
    {
      OneMore(trace, e);
      trace := trace + [e];
    }
  }

  method AnyState() returns (s: PscState)
  {
    var k: nat :| true;
    s := if k == 0 then ReadySleep else if k == 1 then ReadySleepCritical else if k == 2 then ReadyShutdown
         else if k == 3 then ReadyAwaken else if k == 4 then ReadyAwakenCritical else Awake;
  }

  /** power.c */
  class Power {
    const world: World
    const initialized: bool
    var deferred: PowerEvent
    var pending: PscState
    var scheduled: bool        // an agent-requested action waits for its turn

    constructor (world: World, initialized: bool)
      ensures this.world == world && this.initialized == initialized && deferred == Quiet && !scheduled
    {
      this.world, this.initialized := world, initialized;
      deferred, pending, scheduled := Quiet, Awake, false;
    }

    /** Every request read has been handed to the loop and acknowledged, in order, except one that a
        handler's wait has read and the loop has not. */
    ghost predicate Settled()
      reads this, world
    {
      Reads(world.trace) == Acks(world.trace) + (if deferred == Quiet then [] else [pending]) &&
      (deferred != Quiet ==> KindOf(pending) == deferred && initialized) &&
      Handed(world.trace) == Kinds(Acks(world.trace))
    }

    /** The loop holds event e and has not acknowledged it. */
    ghost predicate Owing(e: PowerEvent)
      reads this, world
    {
      deferred == Quiet && initialized && KindOf(pending) == e &&
      Reads(world.trace) == Acks(world.trace) + [pending] &&
      Handed(world.trace) == Kinds(Acks(world.trace)) + [e]
    }

    /** What poll_psc finds. */
    function Polled(ready: bool, request: PscState): PowerEvent {
      if !initialized || !ready then Quiet else if ToSleep(request) then Sleep else Wake
    }

    /** poll_psc: the request, if one is ready and can be read. */
    method PollPsc(ready: bool, request: PscState) returns (e: PowerEvent)
      requires Settled() && deferred == Quiet
      modifies this`pending, world
      ensures WatchOf(world.trace) == WatchOf(old(world.trace)) && Acks(world.trace) == Acks(old(world.trace))
      ensures Handed(world.trace) == Handed(old(world.trace))
      ensures e == Quiet ==> Settled()
      ensures e != Quiet ==> initialized && KindOf(pending) == e && Reads(world.trace) == Acks(world.trace) + [pending]
      ensures e == Polled(ready, request) && (e != Quiet ==> pending == request)
    {
      hide WatchOf, Reads, Acks, Handed, Kinds;
      e := Quiet;
      if !initialized {
        return;
      }
      if !ready {
        return;
      }
      pending := request;
      world.Emit(Read(pending));
      e := KindOf(pending);
    }

    method PowerPoll(ready: bool, request: PscState) returns (e: PowerEvent)
      requires Settled()
      modifies this`pending, this`deferred, world
      ensures deferred == Quiet && Acks(world.trace) == Acks(old(world.trace))
      ensures e == if old(deferred) != Quiet then old(deferred) else Polled(ready, request)
      ensures e != Quiet ==> pending == if old(deferred) != Quiet then old(pending) else request
      ensures e == Quiet ==> Settled() && WatchOf(world.trace) == WatchOf(old(world.trace))
      ensures e != Quiet ==> Owing(e)
      ensures e == Sleep ==> WatchOf(world.trace) == WatchOf(old(world.trace))
      ensures e == Wake ==> WatchOf(world.trace) == WatchOf(old(world.trace)).(asleep := false, nextPing := 0)
    {
      hide WatchOf, Reads, Acks, Handed, Kinds;
      if deferred != Quiet {
        e := deferred;
        deferred := Quiet;
      } else {
        e := PollPsc(ready, request);
      }
      if e != Quiet {
        world.Emit(Returned(e));
      }
    }

    /** power_sleep_requested: keeps what it reads for the loop. */
    method SleepRequested(ready: bool, request: PscState) returns (b: bool)
      requires Settled()
      modifies this`pending, this`deferred, world
      ensures Settled() && WatchOf(world.trace) == WatchOf(old(world.trace))
      ensures b <==> deferred == Sleep
      ensures old(deferred) == Quiet ==> deferred == Polled(ready, request) && (deferred != Quiet ==> pending == request)
      ensures old(deferred) != Quiet ==> deferred == old(deferred) && world.trace == old(world.trace)
    {
      hide WatchOf, Reads, Acks, Handed, Kinds;
      if deferred == Quiet {
        deferred := PollPsc(ready, request);
      }
      b := deferred == Sleep;
    }

    method PowerAck(e: PowerEvent)
      requires Owing(e) && e != Quiet
      requires e == Sleep ==>
        WatchOf(world.trace).NoSocket() && WatchOf(world.trace).logOff && WatchOf(world.trace).released
      modifies world
      ensures Settled() && Acks(world.trace) == Acks(old(world.trace)) + [pending]
      ensures WatchOf(world.trace) == if e == Sleep then WatchOf(old(world.trace)).(asleep := true) else WatchOf(old(world.trace))
    {
      if initialized {
        KindsMore(Acks(world.trace), pending);
        world.Emit(Ack(pending));
      }
    }
  }

  /** http_server_run */
  class Server {
    const world: World
    const power: Power
    const keepAwake: bool
    var listenFd: int
    var mdnsFd: int
    var suspended: bool
    var mdnsReady: bool
    var announceLeft: int
    var netTicks: int
    var keepNext: nat

    constructor (world: World, power: Power, keepAwake: bool)
      requires power.world == world && world.trace == [] && power.deferred == Quiet
      ensures Inv() && this.world == world && this.power == power
    {
      this.world, this.power, this.keepAwake := world, power, keepAwake;
      listenFd, mdnsFd, suspended, mdnsReady := -1, -1, false, false;
      announceLeft, netTicks, keepNext := 0, 0, 0;
    }

    /** The trace kept the rules and its sockets are the loop's, `client` besides. */
    ghost predicate Agrees(client: bool)
      reads this, world
    {
      var w := WatchOf(world.trace);
      w.kept && w.listener == (listenFd >= 0) && w.mdns == (mdnsFd >= 0) && w.client == client && w.nextPing <= keepNext
    }

    /** Between two turns of the loop. */
    ghost predicate Inv()
      reads this, power, world
    {
      power.world == world && power.Settled() && Agrees(false) &&
      WatchOf(world.trace).asleep == suspended && WatchOf(world.trace).logOff == suspended &&
      (suspended ==> listenFd < 0 && mdnsFd < 0)
    }

    /** Awake, with or without a client. */
    ghost predicate Running(client: bool)
      reads this, power, world
    {
      power.world == world && power.Settled() && Agrees(client) && !suspended &&
      !WatchOf(world.trace).asleep && !WatchOf(world.trace).logOff
    }

    method Log(client: bool)
      requires Running(client)
      modifies world
      ensures Running(client)
    {
      hide WatchOf, Reads, Acks, Handed, Kinds;
      world.Emit(LogLine);
    }

    method Traffic(client: bool)
      requires Running(client)
      modifies world
      ensures Running(client)
    {
      hide WatchOf, Reads, Acks, Handed, Kinds;
      world.Emit(Event.Traffic);
    }

    /** keepawake_maybe and power_keepawake_tick: `now` is the system tick. A ping that is due is sent if
        the service is available, and logged if it is the first or fails. */
    method KeepAwakeMaybe(client: bool, now: nat, available: bool, logs: bool)
      requires Running(client)
      modifies this`keepNext, world
      ensures Running(client)
      ensures world.trace == old(world.trace) +
        (if keepAwake && now >= old(keepNext) && available then [Ping(now)] + (if logs then [LogLine] else []) else [])
      ensures keepNext == if keepAwake && now >= old(keepNext) then now + KEEPAWAKE_TICKS else old(keepNext)
    {
      hide WatchOf, Reads, Acks, Handed, Kinds;
      if !keepAwake {
        return;
      }
      if now >= keepNext {
        keepNext := now + KEEPAWAKE_TICKS;
        if available {
          world.Emit(Ping(now));
          if logs {
            world.Emit(LogLine);
          }
        }
      }
    }

    /** wait_idle, the hook of handlers that wait. */
    method WaitIdle() returns (goOn: bool)
      requires Running(true)
      modifies this`keepNext, power`pending, power`deferred, world
      ensures Running(true)
      ensures goOn <==> power.deferred != Sleep
    {
      hide WatchOf, Reads, Acks, Handed, Kinds;
      var request := AnyState();
      var ready, available, logs := *, *, *;
      var now: nat :| true;
      var asked := power.SleepRequested(ready, request);
      if asked {
        Log(true);
        return false;
      }
      KeepAwakeMaybe(true, now, available, logs);
      goOn := true;
    }

    /** close_sockets */
    method CloseSockets()
      requires Agrees(false) && !WatchOf(world.trace).asleep
      modifies this`listenFd, this`mdnsFd, world
      ensures Agrees(false) && listenFd < 0 && mdnsFd < 0
      ensures WatchOf(world.trace) == WatchOf(old(world.trace)).(listener := false, mdns := false)
      ensures Reads(world.trace) == Reads(old(world.trace)) && Acks(world.trace) == Acks(old(world.trace))
      ensures Handed(world.trace) == Handed(old(world.trace))
    {
      hide WatchOf, Reads, Acks, Handed, Kinds;
      if listenFd >= 0 {
        listenFd := -1;
        world.Emit(CloseListener);
      }
      if mdnsFd >= 0 {
        mdnsFd := -1;
        world.Emit(CloseMdns);
      }
    }

    /** The loop's first step: the request deferred, or else the one that is ready, is carried out and
        acknowledged. */
    method Transitions(ready: bool, request: PscState)
      requires Inv()
      modifies this`listenFd, this`mdnsFd, this`suspended, this`keepNext, power`pending, power`deferred, world
      ensures Inv() && power.deferred == Quiet
      ensures Acks(world.trace) == Acks(old(world.trace)) +
        (if old(power.deferred) != Quiet then [old(power.pending)] else if power.initialized && ready then [request] else [])
      ensures old(power.deferred) != Quiet || (power.initialized && ready) ==>
        suspended == ToSleep(if old(power.deferred) != Quiet then old(power.pending) else request)
    {
      hide WatchOf, Reads, Acks, Handed, Kinds;
      var pe := power.PowerPoll(ready, request);
      if pe == Sleep {
        GoToSleep();
      } else if pe == Wake {
        WakeUp();
      }
    }

    method WakeUp()
      requires power.world == world && power.Owing(Wake) && Agrees(false)
      requires !WatchOf(world.trace).asleep && WatchOf(world.trace).nextPing == 0
      modifies this`suspended, this`keepNext, world
      ensures Inv() && power.deferred == Quiet && !suspended
      ensures Acks(world.trace) == Acks(old(world.trace)) + [power.pending]
    {
      hide WatchOf, Reads, Acks, Handed, Kinds;
      power.PowerAck(Wake);
      suspended := false;
      world.Emit(ResumeLog);
      world.Emit(LogLine);
      keepNext := 0;
    }

    /** A sleep request while already suspended finds nothing open and the log silent: its lines are
        dropped by the suspended sink. */
    method GoToSleep()
      requires power.world == world && power.Owing(Sleep) && Agrees(false)
      requires WatchOf(world.trace).asleep == suspended && WatchOf(world.trace).logOff == suspended
      requires suspended ==> listenFd < 0 && mdnsFd < 0
      modifies this`listenFd, this`mdnsFd, this`suspended, world
      ensures Inv() && suspended && Acks(world.trace) == Acks(old(world.trace)) + [power.pending]
    {
      hide WatchOf, Reads, Acks, Handed, Kinds;
      if !suspended {
        world.Emit(LogLine);
      }
      world.Emit(SuspendLog);
      if !suspended {
        CloseSockets();
      }
      world.Emit(RunHooks);
      suspended := true;
      power.PowerAck(Sleep);
    }

    /** Listener, mDNS socket and announcements. False: the listener could not be opened. */
    method OpenSockets() returns (ok: bool)
      requires Running(false)
      modifies this`listenFd, this`mdnsFd, this`mdnsReady, this`announceLeft, world
      ensures Running(false) && (ok ==> listenFd >= 0)
    {
      hide WatchOf, Reads, Acks, Handed, Kinds;
      if listenFd < 0 {
        var fd: int := *;
        if fd < 0 {
          Log(false);
          return false;
        }
        listenFd := fd;
        world.Emit(OpenListener);
        Log(false);
      }
      OpenMdnsSocket();
      ok := true;
    }

    method OpenMdnsSocket()
      requires Running(false)
      modifies this`mdnsFd, this`mdnsReady, this`announceLeft, world
      ensures Running(false)
    {
      hide WatchOf, Reads, Acks, Handed, Kinds;
      if mdnsFd < 0 {
        if !mdnsReady {
          mdnsReady := *;
        }
        if mdnsReady {
          var fd: int := *;
          if fd >= 0 {
            mdnsFd := fd;
            world.Emit(Event.OpenMdns);
            announceLeft := 3;
          }
        }
      }
      if mdnsFd >= 0 && announceLeft > 0 {
        var sent := *;
        Traffic(false);
        if sent {
          announceLeft := announceLeft - 1;
        }
      }
    }

    /** A handler: any traffic, any log lines, any number of waits; it may schedule a power action. */
    method Handle()
      requires Running(true)
      modifies this`keepNext, power`pending, power`deferred, power`scheduled, world
      ensures Running(true)
    {
      hide WatchOf, Reads, Acks, Handed, Kinds;
      var steps: nat :| true;
      for i := 0 to steps
        invariant Running(true)
      {
        var kind: nat :| true;
        if kind == 0 {
          var goOn := WaitIdle();
          if !goOn {
            // the wait ends early; the handler still answers
            Traffic(true);
          }
        } else if kind == 1 {
          Log(true);
        } else if kind == 2 {
          power.scheduled := true;
        } else {
          Traffic(true);
        }
      }
    }

    /** An accepted client: served, closed, and only then the power action that was asked for, if any. */
    method Serve() returns (ghost asked: bool)
      requires Running(false) && listenFd >= 0
      modifies this`keepNext, power`pending, power`deferred, power`scheduled, world
      ensures Running(false) && !power.scheduled
      ensures world.trace != [] && (asked <==> world.trace[|world.trace| - 1] == Perform)
    {
      hide WatchOf, Reads, Acks, Handed, Kinds;
      world.Emit(OpenClient);
      var speaks := *;
      if speaks {
        var requests: nat :| true;
        for served := 0 to (if requests < 64 then requests else 64)
          invariant Running(true)
        {
          Handle();
        }
      }
      world.Emit(CloseClient);
      asked := power.scheduled;
      RunScheduled();
    }

    /** power_take_scheduled and power_perform. */
    method RunScheduled()
      requires Running(false)
      modifies power`scheduled, world
      ensures Running(false) && !power.scheduled
      ensures world.trace == old(world.trace) + if old(power.scheduled) then [LogLine, Perform] else []
    {
      hide WatchOf, Reads, Acks, Handed, Kinds;
      var act := power.scheduled;
      power.scheduled := false;
      if act {
        world.Emit(LogLine);
        world.Emit(Perform);
      }
    }

    /** One turn of the loop. */
    method Turn()
      requires Inv()
      modifies this, power, world
      ensures Inv()
    {
      hide WatchOf, Reads, Acks, Handed, Kinds;
      var request := AnyState();
      var ready, available, logs := *, *, *;
      var now: nat :| true;
      Transitions(ready, request);
      if suspended {
        return;
      }
      KeepAwakeMaybe(false, now, available, logs);
      netTicks := netTicks + 1;
      if netTicks >= 20 {
        netTicks := 0;
        var changed := *;
        if changed {
          Log(false);
          CloseSockets();
          mdnsReady := false;
        }
      }
      var ok := OpenSockets();
      if !ok {
        return;
      }
      PollAndServe();
    }

    method PollAndServe()
      requires Running(false) && listenFd >= 0
      modifies this`listenFd, this`mdnsFd, this`keepNext, power`pending, power`deferred, power`scheduled, world
      ensures Running(false)
    {
      hide WatchOf, Reads, Acks, Handed, Kinds;
      var pr: int, mdnsReadable: bool, listenReadable: bool, client: int := *, *, *, *;
      Traffic(false);
      if pr < 0 {
        Log(false);
        CloseSockets();
        return;
      }
      if pr == 0 {
        return;
      }
      if mdnsFd >= 0 && mdnsReadable {
        Traffic(false);
      }
      if !listenReadable || client < 0 {
        return;
      }
      ghost var asked := Serve();
    }
  }

  /** Any run of the loop, for any number of turns: every request read has been handed over and
      acknowledged once with its own state, except at most one still deferred, and the rules of
      sleeping were kept throughout. */
  method RunServer(turns: nat, initialized: bool, keepAwake: bool) returns (ghost trace: Trace, ghost deferred: seq<PscState>)
    ensures WatchOf(trace).kept
    ensures |deferred| <= 1 && Reads(trace) == Acks(trace) + deferred
    ensures Handed(trace) == Kinds(Acks(trace))
    ensures InOrder(trace) && SleepsQuietly(trace)
  {
    hide InOrder, SleepsQuietly;
    var world := new World();
    var power := new Power(world, initialized);
    var server := new Server(world, power, keepAwake);
    for i := 0 to turns
      invariant server.Inv() && fresh(world) && fresh(power) && fresh(server)
      invariant server.world == world && server.power == power
    {
      server.Turn();
    }
    trace := world.trace;
    deferred := if power.deferred == Quiet then [] else [power.pending];
    KindsInOrder(trace, deferred);
    QuietSleeps(trace);
  }
}
