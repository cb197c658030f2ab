/** No event of the kernel is lost or taken out of turn;
    and what the calls of a user come to. */
module KernelEvents {
  import opened Basics
  import opened KernelMachine
  import opened KernelProofs
  import opened KernelFlight

  // ---- the events that wait

  /** The kernel's events that are not handled yet: those behind a display whose conversion is not over, and
      those of the messages that wait. */
  function Pending(c: Client): seq<KernelEvent> {
    (if c.held.Some? && c.held.value.gen == c.gen then c.held.value.rest else []) + TaskEvents(c.tasks)
  }

  /** Of all these events the first were handled, and rest is left: none, or what follows a display. */
  predicate IsLeftBehind(all: seq<KernelEvent>, rest: seq<KernelEvent>, held: bool) {
    exists k ::
      0 <= k <= |all| && rest == all[k..] && (forall j :: 0 <= j < k - 1 ==> !all[j].Display?) &&
      if held then k > 0 && all[k - 1].Display? else rest == [] && (k > 0 ==> !all[k - 1].Display?)
  }

  lemma NothingIsLeft()
    ensures IsLeftBehind([], [], false)
  {
    var all: seq<KernelEvent> := [];
    assert all[0..] == [];
  }

  /** One event that is no display is handled. */
  lemma OneIsHandled(x: KernelEvent, all: seq<KernelEvent>, rest: seq<KernelEvent>, held: bool)
    requires !x.Display? && IsLeftBehind(all, rest, held)
    ensures IsLeftBehind([x] + all, rest, held)
  {
    var k :| 0 <= k <= |all| && rest == all[k..] && (forall j :: 0 <= j < k - 1 ==> !all[j].Display?) &&
      if held then k > 0 && all[k - 1].Display? else rest == [] && (k > 0 ==> !all[k - 1].Display?);
    var more := [x] + all;
    assert more[k + 1..] == all[k..];
    forall j | 0 <= j < k ensures !more[j].Display? {
      assert j > 0 ==> more[j] == all[j - 1];
    }
    assert k > 0 ==> more[k] == all[k - 1];
  }

  lemma ADisplayHolds(x: KernelEvent, rest: seq<KernelEvent>)
    requires x.Display?
    ensures IsLeftBehind([x] + rest, rest, true)
  {
    assert ([x] + rest)[1..] == rest;
  }

  /** All of one list is handled, and then a part of the next. */
  lemma {:induction false} ThenTheNext(
    all: seq<KernelEvent>, more: seq<KernelEvent>, rest: seq<KernelEvent>, held: bool)
    requires IsLeftBehind(all, [], false) && IsLeftBehind(more, rest, held)
    ensures IsLeftBehind(all + more, rest, held)
    decreases |all|
  {
    hide IsLeftBehind;
    if all == [] {
      assert all + more == more;
    } else {
      FirstIsHandled(all);
      ThenTheNext(all[1..], more, rest, held);
      OneIsHandled(all[0], all[1..] + more, rest, held);
      assert all + more == [all[0]] + (all[1..] + more);
    }
  }

  lemma FirstIsHandled(all: seq<KernelEvent>)
    requires all != [] && IsLeftBehind(all, [], false)
    ensures !all[0].Display? && IsLeftBehind(all[1..], [], false)
  {
    var k :| 0 <= k <= |all| && [] == all[k..] && (forall j :: 0 <= j < k - 1 ==> !all[j].Display?) &&
      (k > 0 ==> !all[k - 1].Display?);
    var n, rest := |all| - 1, all[1..];
    assert k == |all| && rest[n..] == [];
    assert forall j :: 0 <= j < n ==> rest[j] == all[j + 1];
  }

  /** When a part of one list is left, so is the next. */
  lemma AndTheNextWaits(all: seq<KernelEvent>, rest: seq<KernelEvent>, more: seq<KernelEvent>)
    requires IsLeftBehind(all, rest, true)
    ensures IsLeftBehind(all + more, rest + more, true)
  {
    var k :| 0 < k <= |all| && rest == all[k..] && (forall j :: 0 <= j < k - 1 ==> !all[j].Display?) &&
      all[k - 1].Display?;
    assert (all + more)[k..] == rest + more;
  }

  // ---- what is handled when

  function RestHeld(c: Client): seq<KernelEvent> { if c.held.Some? then c.held.value.rest else [] }

  lemma {:induction false} EventsAreInTurn(c: Client, list: seq<KernelEvent>)
    requires c.held.None?
    ensures var d := Events(c, list, c.gen);
      IsLeftBehind(list, RestHeld(d), d.held.Some?) && (d.held.Some? ==> d.held.value.gen == d.gen)
    decreases |list|
  {
    hide IsLeftBehind, Handle;
    if list == [] {
      NothingIsLeft();
    } else if list[0].Display? {
      ADisplayHolds(list[0], list[1..]);
      assert [list[0]] + list[1..] == list;
    } else {
      HandleHoldsNothing(c, list[0]);
      EventsAreInTurn(Handle(c, list[0]), list[1..]);
      OneIsHandled(list[0], list[1..], RestHeld(Events(c, list, c.gen)), Events(c, list, c.gen).held.Some?);
      assert [list[0]] + list[1..] == list;
    }
  }

  lemma HandleHoldsNothing(c: Client, e: KernelEvent)
    ensures Handle(c, e).held == c.held && Handle(c, e).gen == c.gen
  {
    hide Finish, Pump;
  }

  function EventsOf(m: Message): seq<KernelEvent> { if m.Frames? then m.events else [] }

  lemma MessagesAreInTurn(c: Client, m: Message)
    requires c.held.None?
    ensures var d := HandleMessage(c, m);
      d.gen == c.gen ==>
        IsLeftBehind(EventsOf(m), RestHeld(d), d.held.Some?) && d.tasks == c.tasks &&
        (d.held.Some? ==> d.held.value.gen == d.gen)
  {
    hide IsLeftBehind, Events, Balances;
    NothingIsLeft();
    if m.Frames? {
      EventsAreInTurn(c, m.events);
    } else {
      OthersHoldNothing(c, m);
    }
  }

  lemma GoingHoldsNothing(c: Client, exited: bool)
    ensures Gone(c, exited).held == c.held && Gone(c, exited).gen != c.gen
    ensures BecomeUnavailable(c).held == c.held && BecomeUnavailable(c).gen != c.gen
  {
    hide Cancellations;
  }

  lemma ExpiringHoldsNothing(c: Client)
    requires c.current.Some?
    ensures Expire(c).held == c.held && Expire(c).gen != c.gen
  {
    hide Cancellations;
  }

  lemma OthersHoldNothing(c: Client, m: Message)
    requires !m.Frames?
    ensures var d := HandleMessage(c, m); d.held == c.held && (d.gen == c.gen ==> d.tasks == c.tasks)
  {
    hide Events, Gone, BecomeUnavailable, Expire;
    GoingHoldsNothing(c, m.Exit?);
    if c.current.Some? {
      ExpiringHoldsNothing(c);
    }
  }

  lemma {:induction false} DrainIsInTurn(c: Client)
    requires c.held.None? && forall i :: 0 <= i < |c.tasks| ==> c.tasks[i].gen == c.gen
    ensures var d := Drain(c);
      d.gen == c.gen ==>
        IsLeftBehind(TaskEvents(c.tasks), Pending(d), d.held.Some?) && (d.held.Some? ==> d.held.value.gen == d.gen)
    decreases |c.tasks|
  {
    hide IsLeftBehind, HandleMessage;
    if c.tasks == [] {
      NothingIsLeft();
      assert Pending(c) == [];
    } else {
      var t, rest := c.tasks[0], c.(tasks := c.tasks[1..]);
      var d := HandleMessage(rest, t.message);
      MessagesAreInTurn(rest, t.message);
      MessageGenerations(rest, t.message);
      if d.held.None? { DrainGenerations(d); }
      if d.gen == c.gen {
        if d.held.Some? {
          AndTheNextWaits(EventsOf(t.message), RestHeld(d), TaskEvents(d.tasks));
        } else {
          DrainIsInTurn(d);
          if Drain(d).gen == c.gen {
            ThenTheNext(EventsOf(t.message), TaskEvents(d.tasks), Pending(Drain(d)), Drain(d).held.Some?);
          }
        }
      }
    }
  }

  lemma {:induction false} TaskEventsPush(tasks: seq<Task>, t: Task)
    ensures TaskEvents(tasks + [t]) == TaskEvents(tasks) + EventsOf(t.message)
  {
    if tasks == [] {
      assert tasks + [t] == [t] && [t][1..] == [];
    } else {
      assert (tasks + [t])[1..] == tasks[1..] + [t];
      TaskEventsPush(tasks[1..], t);
      Associative(EventsOf(tasks[0].message), TaskEvents(tasks[1..]), EventsOf(t.message));
    }
  }

  /** Over every message and every conversion that ends, as long as the kernel is the same: of the events that
      waited, and those that came, the first are handled, in order, up to a display whose conversion is not
      over, and exactly those behind it wait; while one is not over, all wait. */
  lemma NoEventIsLost(c: Client, e: Event)
    requires Inv(c) && Possible(c, e) && Apply(c, e).gen == c.gen
    ensures var d := Apply(c, e);
      var all := Pending(c) + if e.Receive? && e.g == c.gen then EventsOf(e.message) else [];
      if e.ConversionSettles? || (e.Receive? && e.g == c.gen && c.held.None?)
      then IsLeftBehind(all, Pending(d), d.held.Some?)
      else Pending(d) == all
  {
    hide IsLeftBehind, Drain, Events, Balances, InOrder, RidsCountUp;
    assert Pending(c) + [] == Pending(c);
    if e.ConversionSettles? {
      ConversionIsInTurn(c);
    } else if e.Receive? {
      ReceiveIsInTurn(c, e.g, e.message, e.now);
    } else {
      OthersHandleNothing(c, e);
      hide Apply;
    }
  }

  lemma OthersHandleNothing(c: Client, e: Event)
    requires Apply(c, e).gen == c.gen && !e.ConversionSettles? && !e.Receive?
    ensures Apply(c, e).held == c.held && Apply(c, e).tasks == c.tasks
  {
    hide OnStart, Run, OnCancel, OnStop, OnRestart, OnDispose, OnSpawn, OnTimer;
    match e
    case CallStart => StartHandlesNothing(c);
    case CallRun(cellId) => RunHandlesNothing(c, cellId);
    case CallCancel(cellId) => CancelHandlesNothing(c, cellId);
    case CallStop(now) => StopHandlesNothing(c, now);
    case CallRestart => RestartHandlesNothing(c);
    case CallDispose => DisposeHandlesNothing(c);
    case SpawnSettles(g, created) => SpawnHandlesNothing(c, g, created);
    case TimerFires(now) => TimerHandlesNothing(c, now);
  }

  lemma StartHandlesNothing(c: Client)
    ensures var d := OnStart(c); d.gen == c.gen ==> d == c
  {}

  lemma RunHandlesNothing(c: Client, cellId: string)
    ensures var d := Run(c, cellId); d.gen == c.gen ==> d.held == c.held && d.tasks == c.tasks
  {
    hide Pump;
  }

  lemma CancelHandlesNothing(c: Client, cellId: string)
    ensures var d := OnCancel(c, cellId); d.held == c.held && d.tasks == c.tasks
  {
    hide Kept, Taken, Cancellations;
  }

  lemma StopHandlesNothing(c: Client, now: int)
    ensures var d := OnStop(c, now); d.held == c.held && d.tasks == c.tasks
  {
    hide Cancellations, CancelQueue;
  }

  lemma RestartHandlesNothing(c: Client)
    ensures var d := OnRestart(c); d.gen == c.gen ==> d == c
  {
    hide CancelQueue, Finish;
  }

  lemma DisposeHandlesNothing(c: Client)
    ensures var d := OnDispose(c); d.gen == c.gen ==> d == c
  {
    hide CancelQueue, Finish;
  }

  lemma SpawnHandlesNothing(c: Client, g: nat, created: bool)
    ensures var d := OnSpawn(c, g, created); d.gen == c.gen ==> d.held == c.held && d.tasks == c.tasks
  {
    hide CancelQueue, Finish;
  }

  lemma TimerHandlesNothing(c: Client, now: int)
    ensures var d := OnTimer(c, now); d.gen == c.gen ==> d.held == c.held && d.tasks == c.tasks
  {
    hide CancelQueue, Finish;
  }

  lemma ReceiveIsInTurn(c: Client, g: nat, m: Message, now: int)
    requires Inv(c) && OnMessage(c, g, m, now).gen == c.gen
    ensures var d := OnMessage(c, g, m, now);
      var all := Pending(c) + if g == c.gen then EventsOf(m) else [];
      if g == c.gen && c.held.None? then IsLeftBehind(all, Pending(d), d.held.Some?) else Pending(d) == all
  {
    hide IsLeftBehind, Drain, Balances, InOrder, RidsCountUp;
    assert Pending(c) + [] == Pending(c);
    if g == c.gen {
      var b := if (m.Frames? || m.Text?) && c.armed then Extend(c, now) else c;
      var q := b.(tasks := b.tasks + [Task(g, m)]);
      TaskEventsPush(c.tasks, Task(g, m));
      if c.held.None? {
        assert TaskEvents(q.tasks) == Pending(c) + EventsOf(m);
        DrainIsInTurn(q);
      } else {
        Associative(if c.held.value.gen == c.gen then c.held.value.rest else [], TaskEvents(c.tasks), EventsOf(m));
      }
    }
  }

  lemma ConversionIsInTurn(c: Client)
    requires Inv(c) && OnConversion(c).gen == c.gen
    ensures var d := OnConversion(c); IsLeftBehind(Pending(c), Pending(d), d.held.Some?)
  {
    hide IsLeftBehind, Drain, Events, Balances, InOrder, RidsCountUp;
    if c.held.None? {
      NothingWaits(c);
      NothingIsLeft();
    } else {
      var b, h := c.(held := None), c.held.value;
      var d := Events(b, h.rest, h.gen);
      if h.gen == c.gen {
        EventsAreInTurn(b, h.rest);
        if d.held.Some? {
          AndTheNextWaits(h.rest, RestHeld(d), TaskEvents(c.tasks));
        } else {
          DrainIsInTurn(d);
          ThenTheNext(h.rest, TaskEvents(c.tasks), Pending(Drain(d)), Drain(d).held.Some?);
        }
      } else {
        StaleEvents(b, h.rest, h.gen);
        DrainIsInTurn(b);
        assert Pending(c) == TaskEvents(b.tasks);
      }
    }
  }

  lemma NothingWaits(c: Client)
    requires Inv(c) && c.held.None?
    ensures Pending(c) == []
  {
    hide Core;
  }

  // ---- what the calls come to

  /** stop(): all that wait are told so, and the cell in flight has until its deadline, which the first stop()
      sets and no later one moves. */
  lemma StopSetsOneDeadline(c: Client, now: int)
    ensures var d := Apply(c, CallStop(now));
      && d.queue == [] && d.current == c.current && d.gen == c.gen
      && (forall e :: e in c.queue ==> Cancelled(e.ticket, Stopped) in d.log)
      && (if c.current.Some? && c.worker then d.armed else d.armed == c.armed)
      && (c.armed ==> d.stopAt == c.stopAt && d.deadline == c.deadline)
      && (!c.armed && d.armed ==> d.stopAt == now && d.deadline == now + c.options.watchdogMs)
  {
    forall e | e in c.queue ensures Cancelled(e.ticket, Stopped) in Cancellations(c.queue, Stopped) {
      CancellationIsTold(c.queue, Stopped, e);
    }
  }

  lemma {:induction false} CancellationIsTold(queue: seq<Entry>, why: Reason, e: Entry)
    requires e in queue
    ensures Cancelled(e.ticket, why) in Cancellations(queue, why)
  {
    if e != queue[0] {
      CancellationIsTold(queue[1..], why, e);
    }
  }

  /** Output buys a stopped cell time: the deadline is then no sooner than the watchdog's time from now, or the
      cap; it is never put off past the cap, and never moved to an earlier time within it. */
  lemma OutputBuysTime(c: Client, m: Message, now: int)
    requires c.armed && (m.Frames? || m.Text?) && c.worker && c.held.Some?
    ensures var d := Apply(c, Receive(c.gen, m, now));
      var cap := c.stopAt + c.options.capMs;
      && d.armed && d.deadline <= cap
      && (now + c.options.watchdogMs <= cap ==> d.deadline >= now + c.options.watchdogMs)
      && (now + c.options.watchdogMs > cap ==> d.deadline == cap)
      && (c.deadline <= cap ==> d.deadline >= c.deadline)
      && (d.deadline == c.deadline || d.deadline == now + c.options.watchdogMs || d.deadline == cap)
  {}

  /** start() begins a kernel when there is none, and does nothing when there is or one is coming. */
  lemma StartStartsOne(c: Client)
    requires Inv(c)
    ensures var d := Apply(c, CallStart);
      if c.disposed || !IsDown(c.phase) then d == c
      else d.phase == Starting && d.gen > c.gen && d.execCount == 0
  {}

  /** A user's way through: a cell is run, its kernel comes up, ... */
  lemma AKernelComesUp(options: Options, id: string)
    ensures
      var c1 := Apply(Fresh(options), CallRun(id));
      var c2 := Apply(c1, SpawnSettles(c1.gen, true));
      var c3 := Apply(c2, Receive(c2.gen, Ready(true), 0));
      var c4 := Apply(c3, Receive(c3.gen, Frames([Hello]), 0));
      && c1.phase == Starting && c1.queue == [Entry(0, id)] && c2.worker && c3.ready && !c3.hello
      && IsRunning(c4, id, false) && c4.phase == Busy
  {
    var c1 := Apply(Fresh(options), CallRun(id));
    assert c1.queue == [Entry(0, id)] && c1.phase == Starting && c1.gen == 1 && c1.log == [Queued(0)];
    var c2 := Apply(c1, SpawnSettles(1, true));
    var c3 := Apply(c2, Receive(1, Ready(true), 0));
    OneMessage(c2, Ready(true));
    assert c3 == c2.(ready := true);
    OneMessage(c3, Frames([Hello]));
    OneEvent(c3, Hello);
    hide Apply;
    assert Handle(c3, Hello).log == [Queued(0), Started(0, 1, 1)];
  }

  /** The cell of the first call runs, alone, under rid 1, and its kernel has begun it or not. */
  predicate IsRunning(c: Client, id: string, begun: bool) {
    && c.current == Some(InFlight(0, id, 1, begun)) && c.queue == [] && c.tasks == [] && c.held == None && !c.armed
    && c.hello && !c.disposed && c.log == [Queued(0), Started(0, 1, c.gen)]
  }

  /** ... and the cell starts, asks for input, and ends well. */
  lemma ACellRunsThrough(c4: Client, id: string)
    requires IsRunning(c4, id, false)
    ensures
      var c5 := Apply(c4, Receive(c4.gen, Frames([Start(Rid(1))]), 0));
      var c6 := Apply(c5, Receive(c5.gen, WorkerState(true, false), 0));
      var c7 := Apply(c6, Receive(c6.gen, Frames([Ended(Rid(1), Ok)]), 0));
      && IsRunning(c5, id, true) && IsRunning(c6, id, true) && c6.phase == Input
      && c7.phase == Idle && c7.current == None && c7.log == [Queued(0), Started(0, 1, c4.gen), Done(0, Ok)]
  {
    OneMessage(c4, Frames([Start(Rid(1))]));
    OneEvent(c4, Start(Rid(1)));
    var c5 := Apply(c4, Receive(c4.gen, Frames([Start(Rid(1))]), 0));
    OneMessage(c5, WorkerState(true, false));
    var c6 := Apply(c5, Receive(c4.gen, WorkerState(true, false), 0));
    OneMessage(c6, Frames([Ended(Rid(1), Ok)]));
    OneEvent(c6, Ended(Rid(1), Ok));
    hide Apply, Events;
    assert c5 == c4.(current := Some(InFlight(0, id, 1, true)));
    assert c6 == c5.(phase := Input);
  }

  lemma OneMessage(c: Client, m: Message)
    requires c.tasks == [] && c.held.None? && !c.armed
    ensures var d := HandleMessage(c, m);
      d.held.None? && d.tasks == [] ==> Apply(c, Receive(c.gen, m, 0)) == d
  {
    hide HandleMessage, Drain;
    OneTask(c, m);
    assert [] + [Task(c.gen, m)] == [Task(c.gen, m)];
  }

  lemma OneTask(c: Client, m: Message)
    requires c.tasks == []
    ensures var d := HandleMessage(c, m);
      d.held.None? && d.tasks == [] ==> Drain(c.(tasks := [Task(c.gen, m)])) == d
  {
    hide HandleMessage;
    var t := Task(c.gen, m);
    assert [t][1..] == [];
    assert c.(tasks := [t]).(tasks := []) == c;
    var d := HandleMessage(c, m);
    if d.held.None? && d.tasks == [] {
      assert Drain(d) == d;
    }
  }

  lemma OneEvent(c: Client, e: KernelEvent)
    requires !e.Display?
    ensures HandleMessage(c, Frames([e])) == Handle(c, e)
  {
    hide Handle;
    assert [e][1..] == [];
    var d := Handle(c, e);
    assert Events(d, [], c.gen) == d;
  }

  /** A crash before the worker is ready means that there is no kernel to be had; one after, that it died. */
  lemma ACrashIsToldApart(c: Client, m: Message)
    requires m.Crash? || m.WorkerError?
    ensures HandleMessage(c, m).phase == if c.ready then Dead else Unavailable
    ensures HandleMessage(c, Ready(true)).ready
  {}

  /** What the worker says of itself is shown while a cell runs that its kernel has begun. */
  lemma TheStateIsShown(c: Client, waiting: bool, sleeping: bool)
    ensures var d := HandleMessage(c, WorkerState(waiting, sleeping));
      if c.hello && c.current.Some? && c.current.value.started then
        && d == c.(phase := d.phase) && (d.phase == Input <==> waiting)
        && (d.phase == Sleeping <==> sleeping && !waiting) && (d.phase == Busy <==> !waiting && !sleeping)
      else d == c
  {}
}
