/** What ends the cell in flight, over every event and every run. */
module KernelFlight {
  import opened Basics
  import opened KernelMachine
  import opened KernelProofs

  // ---- what the events at hand do to the cell in flight

  /** An event of the kernel that ends the cell in flight: its own end, with its rid; a bad request
      while the kernel has not started it; and a hello, when the kernel starts over. */
  predicate EndsCell(e: KernelEvent, f: InFlight) {
    e.Hello? || (e.Ended? && e.rid == Rid(f.rid)) || (e.BadRequest? && !f.started)
  }

  function Advanced(f: InFlight, e: KernelEvent): InFlight {
    if e.Start? && e.rid == Rid(f.rid) then f.(started := true) else f
  }

  /** A list of events is handled up to the first display, whose conversion holds the rest. */
  predicate Holds(list: seq<KernelEvent>) {
    list != [] && (list[0].Display? || Holds(list[1..]))
  }

  predicate ListEnds(list: seq<KernelEvent>, f: InFlight)
    decreases |list|
  {
    list != [] && !list[0].Display? && (EndsCell(list[0], f) || ListEnds(list[1..], Advanced(f, list[0])))
  }

  function AfterList(list: seq<KernelEvent>, f: InFlight): (g: InFlight)
    ensures g.ticket == f.ticket && g.rid == f.rid
    decreases |list|
  {
    if list == [] || list[0].Display? then f else AfterList(list[1..], Advanced(f, list[0]))
  }

  predicate MessageEnds(m: Message, f: InFlight, armed: bool) {
    match m
    case Ready(notebook) => !notebook
    case Frames(events) => ListEnds(events, f)
    case Interrupted(registered) => !registered && armed
    case Exit | Crash | WorkerError => true
    case _ => false
  }

  function AfterMessage(m: Message, f: InFlight): (g: InFlight)
    ensures g.ticket == f.ticket && g.rid == f.rid
  {
    if m.Frames? then AfterList(m.events, f) else f
  }

  predicate MessageHolds(m: Message) { m.Frames? && Holds(m.events) }

  /** The messages in order, until one holds the others. */
  predicate TasksEnd(tasks: seq<Task>, f: InFlight, armed: bool)
    decreases |tasks|
  {
    tasks != [] &&
    var m := tasks[0].message;
    (MessageEnds(m, f, armed) || (!MessageHolds(m) && TasksEnd(tasks[1..], AfterMessage(m, f), armed)))
  }

  /** An event ends the cell in flight: a restart or a dispose, the deadline of a Stop, or a
      message, this one or one that was held back, that says so. */
  predicate EventEnds(c: Client, e: Event)
    requires c.current.Some?
  {
    var f := c.current.value;
    match e
    case CallRestart | CallDispose => true
    case TimerFires(now) => c.armed && c.deadline <= now
    case Receive(g, m, _) => g == c.gen && c.held.None? && TasksEnd(c.tasks + [Task(g, m)], f, c.armed)
    case ConversionSettles =>
      c.held.Some? &&
      var rest := c.held.value.rest;
      if c.held.value.gen != c.gen then TasksEnd(c.tasks, f, c.armed)
      else ListEnds(rest, f) || (!Holds(rest) && TasksEnd(c.tasks, AfterList(rest, f), c.armed))
    case _ => false
  }

  // ---- a cell that is done stays so

  ghost predicate IsDone(c: Client, t: nat) { Occurs(c.log, ADone, t) > 0 }

  lemma {:induction false} OccursInPrefix(a: seq<CellEvent>, b: seq<CellEvent>, k: Kind, t: nat)
    requires a <= b
    ensures Occurs(a, k, t) <= Occurs(b, k, t)
    decreases |b|
  {
    if a != b {
      OccursInPrefix(a, b[..|b| - 1], k, t);
    }
  }

  lemma StillDone(c: Client, d: Client, t: nat)
    requires IsDone(c, t) && c.log <= d.log
    ensures IsDone(d, t)
  {
    OccursInPrefix(c.log, d.log, ADone, t);
  }

  lemma DoneIsNotInFlight(c: Client, t: nat)
    requires Balanced(c) && IsDone(c, t)
    ensures !Flies(c.current, t)
  {
    assert Occurs(c.log, ACancel, t) + Occurs(c.log, AStart, t) + InQueue(c.queue, t) == OneIf(t < c.tickets);
  }

  lemma FinishIsDone(c: Client, status: Status, fromKernel: bool)
    requires c.current.Some?
    ensures var d := Finish(c, status, fromKernel);
      IsDone(d, c.current.value.ticket) && c.log <= d.log && d.gen == c.gen
  {
    hide Cancellations;
    var t := c.current.value.ticket;
    var log := c.log + [Done(t, status)];
    OccursPush(c.log, Done(t, status));
    OccursInPrefix(log, Finish(c, status, fromKernel).log, ADone, t);
  }

  lemma PumpLogs(c: Client)
    ensures c.log <= Pump(c).log
  {}

  lemma HandleLogs(c: Client, e: KernelEvent)
    ensures c.log <= Handle(c, e).log
  {
    hide Finish, Pump;
    forall d: Client ensures d.log <= Pump(d).log { PumpLogs(d); }
    forall status: Status | c.current.Some? ensures c.log <= Finish(c, status, true).log {
      FinishIsDone(c, status, true);
    }
  }

  lemma {:induction false} EventsLog(c: Client, list: seq<KernelEvent>, gen: nat)
    ensures c.log <= Events(c, list, gen).log
    decreases |list|
  {
    hide Handle;
    if list != [] && gen == c.gen && !list[0].Display? {
      HandleLogs(c, list[0]);
      EventsLog(Handle(c, list[0]), list[1..], gen);
    }
  }

  lemma GoingLogs(c: Client, status: Status, why: Reason)
    ensures c.log <= CancelQueue(FinishIfAny(Kill(c), status), why).log
  {
    hide Finish, Cancellations;
    if c.current.Some? {
      FinishIsDone(Kill(c), status, false);
    }
  }

  lemma ExpiryLogs(c: Client)
    requires c.current.Some?
    ensures c.log <= Expire(c).log
  {
    hide Finish, Cancellations;
    FinishIsDone(Kill(c), Killed, false);
  }

  lemma UnavailableLogs(c: Client)
    ensures c.log <= BecomeUnavailable(c).log
  {
    hide Finish, Cancellations;
    if c.current.Some? {
      FinishIsDone(Kill(c), Crashed, false);
    }
  }

  lemma GoneLogs(c: Client, exited: bool)
    ensures c.log <= Gone(c, exited).log
  {
    hide FinishIfAny, CancelQueue;
    GoingLogs(c, if exited then Exited else Crashed, if exited then KernelExited else KernelCrashed);
  }

  lemma MessageLogs(c: Client, m: Message)
    ensures c.log <= HandleMessage(c, m).log
  {
    hide BecomeUnavailable, Gone, Expire, Events;
    if m.Frames? {
      EventsLog(c, m.events, c.gen);
    }
    UnavailableLogs(c);
    GoneLogs(c, true);
    GoneLogs(c, false);
    if c.current.Some? {
      ExpiryLogs(c);
    }
  }

  lemma {:induction false} DrainLogs(c: Client)
    ensures c.log <= Drain(c).log
    decreases |c.tasks|
  {
    hide HandleMessage;
    if c.tasks != [] {
      var t, rest := c.tasks[0], c.(tasks := c.tasks[1..]);
      MessageLogs(rest, t.message);
      var d := if t.gen == c.gen then HandleMessage(rest, t.message) else rest;
      if d.held.None? {
        DrainLogs(d);
      }
    }
  }

  // ---- events, messages and tasks

  lemma HandleFlight(c: Client, e: KernelEvent)
    requires Core(c) && c.current.Some?
    ensures var d, f := Handle(c, e), c.current.value;
      if EndsCell(e, f) then IsDone(d, f.ticket)
      else d.current == Some(Advanced(f, e)) && d.armed == c.armed && d.held == c.held
  {
    hide Finish, Pump, Balances, InOrder, RidsCountUp;
    var f := c.current.value;
    if EndsCell(e, f) {
      var status := if e.Ended? then e.status else Failed;
      FinishIsDone(c, status, true);
      var ended := Finish(c, status, true).(hello := if e.Hello? then true else Finish(c, status, true).hello,
        phase := Idle);
      PumpLogs(ended);
      StillDone(ended, Pump(ended), f.ticket);
    }
  }

  lemma {:induction false} EventsFlight(c: Client, list: seq<KernelEvent>)
    requires Core(c) && c.current.Some? && c.worker && !c.disposed && c.held.None?
    ensures var d, f := Events(c, list, c.gen), c.current.value;
      if ListEnds(list, f) then IsDone(d, f.ticket)
      else d.current == Some(AfterList(list, f)) && d.armed == c.armed && (d.held.Some? <==> Holds(list))
    decreases |list|
  {
    hide Handle, Core, EndsCell;
    if list != [] && !list[0].Display? {
      var next := Handle(c, list[0]);
      HandleFlight(c, list[0]);
      HandleKeeps(c, list[0]);
      if EndsCell(list[0], c.current.value) {
        EventsLog(next, list[1..], c.gen);
        StillDone(next, Events(next, list[1..], c.gen), c.current.value.ticket);
      } else {
        EventsFlight(next, list[1..]);
      }
    }
  }

  /** The kernel goes away: the cell in flight is done, and a new generation begins. */
  lemma GoingEnds(c: Client, m: Message)
    requires c.current.Some? && !m.Frames? && MessageEnds(m, c.current.value, c.armed)
    ensures IsDone(HandleMessage(c, m), c.current.value.ticket) && HandleMessage(c, m).gen > c.gen
  {
    hide Finish, Cancellations;
    var status := match m case Exit => Exited case Interrupted(_) => Killed case _ => Crashed;
    FinishIsDone(Kill(c), status, false);
    StillDone(Finish(Kill(c), status, false), HandleMessage(c, m), c.current.value.ticket);
  }

  lemma MessageFlight(c: Client, m: Message)
    requires Core(c) && c.current.Some? && c.worker && !c.disposed && c.held.None?
    ensures var d, f := HandleMessage(c, m), c.current.value;
      if MessageEnds(m, f, c.armed) then IsDone(d, f.ticket)
      else d.current == Some(AfterMessage(m, f)) && d.armed == c.armed && (d.held.Some? <==> MessageHolds(m)) &&
           d.gen == c.gen && d.tasks == c.tasks
  {
    hide Core, Events, ListEnds, IsDone, Finish;
    if m.Frames? {
      EventsFlight(c, m.events);
    } else if MessageEnds(m, c.current.value, c.armed) {
      GoingEnds(c, m);
    }
  }

  lemma {:induction false} DrainFlight(c: Client)
    requires Core(c) && c.current.Some? && c.held.None?
    ensures var d, f := Drain(c), c.current.value;
      if TasksEnd(c.tasks, f, c.armed) then IsDone(d, f.ticket)
      else Flies(d.current, f.ticket) && d.current.value.rid == f.rid && d.gen == c.gen
    decreases |c.tasks|
  {
    hide HandleMessage, Balances, InOrder, RidsCountUp, MessageEnds, MessageHolds, IsDone;
    if c.tasks != [] {
      var m, rest := c.tasks[0].message, c.(tasks := c.tasks[1..]);
      var d := HandleMessage(rest, m);
      MessageFlight(rest, m);
      HandleMessageKeeps(rest, m);
      if MessageEnds(m, c.current.value, c.armed) {
        if d.held.None? {
          DrainLogs(d);
          StillDone(d, Drain(d), c.current.value.ticket);
        }
      } else if d.held.None? {
        DrainFlight(d);
      }
    }
  }

  // ---- one event

  lemma CallsEnd(c: Client, e: Event)
    requires Inv(c) && c.current.Some? && (e.CallRestart? || e.CallDispose? || e.TimerFires?) && EventEnds(c, e)
    ensures IsDone(Apply(c, e), c.current.value.ticket) && Apply(c, e).gen > c.gen
  {
    hide Finish, Cancellations, Balances, InOrder, RidsCountUp;
    var k := Kill(if e.CallDispose? then c.(disposed := true) else if e.TimerFires? then c.(armed := false) else c);
    FinishIsDone(k, Killed, false);
    StillDone(Finish(k, Killed, false), Apply(c, e), c.current.value.ticket);
  }

  lemma ReceiveFlight(c: Client, g: nat, m: Message, now: int)
    requires Inv(c) && Possible(c, Receive(g, m, now)) && c.current.Some?
    ensures var d, f := Apply(c, Receive(g, m, now)), c.current.value;
      if EventEnds(c, Receive(g, m, now)) then IsDone(d, f.ticket)
      else Flies(d.current, f.ticket) && d.current.value.rid == f.rid && d.gen == c.gen
  {
    hide Drain, TasksEnd, IsDone;
    if g == c.gen && c.held.None? {
      var q := (if (m.Frames? || m.Text?) && c.armed then Extend(c, now) else c).(tasks := c.tasks + [Task(g, m)]);
      assert Core(q) by { ReceivedIsCore(c, q, m); }
      DrainFlight(q);
    }
  }

  lemma ReceivedIsCore(c: Client, q: Client, m: Message)
    requires Core(c) && c.worker && !c.disposed
    requires q == c.(tasks := c.tasks + [Task(c.gen, m)], deadline := q.deadline)
    requires Timely(q)
    ensures Core(q)
  {
    hide Balances, InOrder, RidsCountUp, Timely;
  }

  lemma ConversionFlight(c: Client)
    requires Inv(c) && c.current.Some?
    ensures var d, f := Apply(c, ConversionSettles), c.current.value;
      if EventEnds(c, ConversionSettles) then IsDone(d, f.ticket)
      else Flies(d.current, f.ticket) && d.current.value.rid == f.rid && d.gen == c.gen
  {
    hide Drain, TasksEnd, ListEnds, Holds, IsDone, Events, Core;
    if c.held.Some? {
      var free, rest, gen := c.(held := None), c.held.value.rest, c.held.value.gen;
      HoldKeeps(c, None);
      HeldIsAlive(c);
      var d := Events(free, rest, gen);
      EventsKeep(free, rest, gen);
      if gen == c.gen {
        EventsFlight(free, rest);
        if ListEnds(rest, c.current.value) {
          if d.held.None? {
            DrainLogs(d);
            StillDone(d, Drain(d), c.current.value.ticket);
          }
        } else if d.held.None? {
          DrainFlight(d);
        }
      } else {
        assert d == free by { StaleEvents(free, rest, gen); }
        DrainFlight(free);
      }
    }
  }

  lemma HeldIsAlive(c: Client)
    requires Core(c) && c.held.Some?
    ensures c.held.value.gen == c.gen ==> c.worker && !c.disposed
  {}

  lemma StaleEvents(c: Client, list: seq<KernelEvent>, gen: nat)
    requires gen != c.gen
    ensures Events(c, list, gen) == c
  {}

  /** An event that is no message and ends nothing leaves the cell, its rid and its worker. */
  lemma OthersKeepTheCell(c: Client, e: Event)
    requires Inv(c) && Possible(c, e) && c.current.Some?
    requires !e.Receive? && !e.ConversionSettles? && !EventEnds(c, e)
    ensures var d, f := Apply(c, e), c.current.value;
      Flies(d.current, f.ticket) && d.current.value.rid == f.rid && d.gen == c.gen
  {
    hide Balances, InOrder, RidsCountUp, Cancellations, Finish, Kept, Taken;
  }

  /** Over every event: the cell in flight stays in flight, with its rid and its kernel, if and only
      if the event does not end it. */
  lemma CellEndsExactly(c: Client, e: Event)
    requires Inv(c) && Possible(c, e) && c.current.Some?
    ensures var d, f := Apply(c, e), c.current.value;
      && (Flies(d.current, f.ticket) <==> !EventEnds(c, e))
      && (!EventEnds(c, e) ==> d.current.value.rid == f.rid && d.gen == c.gen)
      && (EventEnds(c, e) ==> IsDone(d, f.ticket))
  {
    hide Apply, EventEnds, Inv, Core, IsDone;
    if e.Receive? {
      ReceiveFlight(c, e.g, e.message, e.now);
    } else if e.ConversionSettles? {
      ConversionFlight(c);
    } else if EventEnds(c, e) {
      assert e.CallRestart? || e.CallDispose? || e.TimerFires? by { OnlyThese(c, e); }
      CallsEnd(c, e);
    } else {
      OthersKeepTheCell(c, e);
    }
    if EventEnds(c, e) {
      ApplyKeepsInv(c, e);
      InvIsBalanced(Apply(c, e));
      DoneIsNotInFlight(Apply(c, e), c.current.value.ticket);
    }
  }

  lemma OnlyThese(c: Client, e: Event)
    requires c.current.Some? && EventEnds(c, e) && !e.Receive? && !e.ConversionSettles?
    ensures e.CallRestart? || e.CallDispose? || e.TimerFires?
  {}

  lemma InvIsBalanced(c: Client)
    requires Inv(c)
    ensures Balanced(c)
  {}

  /** Of the kernel's events, these and no others end the cell in flight. */
  lemma OnlyItsOwnEndEndsACell(c: Client, e: KernelEvent)
    requires Core(c) && c.current.Some? && c.worker && !c.disposed
    ensures Flies(Handle(c, e).current, c.current.value.ticket) <==> !EndsCell(e, c.current.value)
  {
    hide Core, Handle, EndsCell, IsDone;
    HandleFlight(c, e);
    if EndsCell(e, c.current.value) {
      HandleKeeps(c, e);
      CoreIsBalanced(Handle(c, e));
      DoneIsNotInFlight(Handle(c, e), c.current.value.ticket);
    }
  }

  lemma CoreIsBalanced(c: Client)
    requires Core(c)
    ensures Balanced(c)
  {}

  // ---- what that takes: an event of its own kernel at hand, or the kernel going away

  function TaskEvents(tasks: seq<Task>): seq<KernelEvent> {
    if tasks == [] then []
    else (if tasks[0].message.Frames? then tasks[0].message.events else []) + TaskEvents(tasks[1..])
  }

  /** The kernel's events that this event of the client may handle: those held back by a
      conversion, those of the messages that wait, and those of the message received. */
  function AtHand(c: Client, e: Event): seq<KernelEvent> {
    (if c.held.Some? then c.held.value.rest else []) +
    TaskEvents(c.tasks + if e.Receive? then [Task(e.g, e.message)] else [])
  }

  /** A done of this rid, a bad request, or a hello. */
  predicate Ender(x: KernelEvent, rid: nat) {
    x.Hello? || x.BadRequest? || (x.Ended? && x.rid == Rid(rid))
  }

  lemma {:induction false} ListNeedsAnEnder(list: seq<KernelEvent>, f: InFlight)
    requires ListEnds(list, f)
    ensures exists x :: x in list && Ender(x, f.rid)
    decreases |list|
  {
    if EndsCell(list[0], f) {
      assert Ender(list[0], f.rid);
    } else {
      ListNeedsAnEnder(list[1..], Advanced(f, list[0]));
      var x :| x in list[1..] && Ender(x, f.rid);
      assert x in list;
    }
  }

  lemma MessageGenerations(c: Client, m: Message)
    ensures HandleMessage(c, m).gen >= c.gen
  {
    hide Finish, Cancellations, Events;
    forall status: Status | c.current.Some? ensures Finish(Kill(c), status, false).gen == Kill(c).gen {
      FinishIsDone(Kill(c), status, false);
    }
  }

  lemma {:induction false} DrainGenerations(c: Client)
    ensures Drain(c).gen >= c.gen
    decreases |c.tasks|
  {
    hide HandleMessage;
    if c.tasks != [] {
      var t, rest := c.tasks[0], c.(tasks := c.tasks[1..]);
      MessageGenerations(rest, t.message);
      var d := if t.gen == c.gen then HandleMessage(rest, t.message) else rest;
      if d.held.None? {
        DrainGenerations(d);
      }
    }
  }

  lemma {:induction false} TasksNeedAnEnder(c: Client)
    requires Core(c) && c.current.Some? && c.held.None? && TasksEnd(c.tasks, c.current.value, c.armed)
    ensures Drain(c).gen > c.gen || exists x :: x in TaskEvents(c.tasks) && Ender(x, c.current.value.rid)
    decreases |c.tasks|
  {
    hide HandleMessage, Balances, InOrder, RidsCountUp, ListEnds, Ender, MessageHolds;
    var f, m, rest := c.current.value, c.tasks[0].message, c.(tasks := c.tasks[1..]);
    var d := HandleMessage(rest, m);
    MessageFlight(rest, m);
    HandleMessageKeeps(rest, m);
    if MessageEnds(m, f, c.armed) {
      if m.Frames? {
        ListNeedsAnEnder(m.events, f);
      } else {
        GoingEnds(rest, m);
        if d.held.None? {
          DrainGenerations(d);
        }
      }
    } else {
      TasksNeedAnEnder(d);
    }
  }

  /** The cell in flight ends only by a done with its own rid, a bad request or a hello among the
      events at hand, or because its kernel goes away: no call, stop, cancel, text, state, timer,
      spawn or message of another rid ends it. */
  lemma OnlyAnEnderOrTheKernelGoing(c: Client, e: Event)
    requires Inv(c) && Possible(c, e) && c.current.Some?
    ensures Flies(Apply(c, e).current, c.current.value.ticket) || Apply(c, e).gen > c.gen ||
            exists x :: x in AtHand(c, e) && Ender(x, c.current.value.rid)
  {
    hide Apply, EventEnds, Inv, AtHand;
    CellEndsExactly(c, e);
    if EventEnds(c, e) {
      if e.Receive? {
        ReceiveNeedsAnEnder(c, e.g, e.message, e.now);
      } else if e.ConversionSettles? {
        ConversionNeedsAnEnder(c);
      } else {
        OnlyThese(c, e);
        CallsEnd(c, e);
      }
    }
  }

  lemma ReceiveNeedsAnEnder(c: Client, g: nat, m: Message, now: int)
    requires Inv(c) && c.current.Some? && EventEnds(c, Receive(g, m, now)) && Possible(c, Receive(g, m, now))
    ensures var e := Receive(g, m, now);
      Apply(c, e).gen > c.gen || exists x :: x in AtHand(c, e) && Ender(x, c.current.value.rid)
  {
    hide Drain, TasksEnd, Ender, TaskEvents;
    var q := (if (m.Frames? || m.Text?) && c.armed then Extend(c, now) else c).(tasks := c.tasks + [Task(g, m)]);
    assert Core(q) by { ReceivedIsCore(c, q, m); }
    TasksNeedAnEnder(q);
  }

  lemma ConversionNeedsAnEnder(c: Client)
    requires Inv(c) && c.current.Some? && EventEnds(c, ConversionSettles)
    ensures var e := ConversionSettles;
      Apply(c, e).gen > c.gen || exists x :: x in AtHand(c, e) && Ender(x, c.current.value.rid)
  {
    hide Drain, TasksEnd, ListEnds, Holds, Ender, TaskEvents, Events, Core;
    var free, rest, gen := c.(held := None), c.held.value.rest, c.held.value.gen;
    HoldKeeps(c, None);
    HeldIsAlive(c);
    var d := Events(free, rest, gen);
    EventsKeep(free, rest, gen);
    assert c.tasks + [] == c.tasks;
    if gen != c.gen {
      StaleEvents(free, rest, gen);
      TasksNeedAnEnder(free);
    } else if ListEnds(rest, c.current.value) {
      ListNeedsAnEnder(rest, c.current.value);
    } else {
      EventsFlight(free, rest);
      TasksNeedAnEnder(d);
    }
  }

  // ---- runs

  lemma RunLogs(c: Client, cellId: string)
    ensures c.log <= Run(c, cellId).log
  {
    hide Pump;
    forall d: Client ensures d.log <= Pump(d).log { PumpLogs(d); }
  }

  lemma CallLogs(c: Client, e: Event)
    requires !e.Receive? && !e.ConversionSettles?
    ensures c.log <= Apply(c, e).log
  {
    hide OnRestart, OnDispose, OnSpawn, OnTimer, Cancellations, Run, Kept, Taken;
    match e
    case CallRun(cellId) => RunLogs(c, cellId);
    case CallRestart => RestartLogs(c);
    case CallDispose => DisposeLogs(c);
    case SpawnSettles(g, created) => SpawnLogs(c, g, created);
    case TimerFires(now) => TimerLogs(c, now);
    case _ =>
  }

  lemma RestartLogs(c: Client)
    ensures c.log <= OnRestart(c).log
  {
    hide FinishIfAny, Cancellations;
    GoingLogs(c, Killed, Restarted);
  }

  lemma DisposeLogs(c: Client)
    ensures c.log <= OnDispose(c).log
  {
    hide FinishIfAny, CancelQueue;
    GoingLogs(c.(disposed := true), Killed, Disposed);
  }

  lemma SpawnLogs(c: Client, g: nat, created: bool)
    ensures c.log <= OnSpawn(c, g, created).log
  {
    hide FinishIfAny, Cancellations;
    GoingLogs(c, Crashed, KernelUnavailable);
  }

  lemma TimerLogs(c: Client, now: int)
    ensures c.log <= OnTimer(c, now).log
  {
    hide Expire;
    if c.current.Some? {
      ExpiryLogs(c.(armed := false));
    }
  }

  lemma ApplyLogs(c: Client, e: Event)
    ensures c.log <= Apply(c, e).log
  {
    hide Drain, Events;
    if e.Receive? {
      forall d: Client ensures d.log <= Drain(d).log { DrainLogs(d); }
    } else if e.ConversionSettles? {
      forall d: Client ensures d.log <= Drain(d).log { DrainLogs(d); }
      if c.held.Some? {
        EventsLog(c.(held := None), c.held.value.rest, c.held.value.gen);
      }
    } else {
      hide Apply;
      CallLogs(c, e);
    }
  }

  lemma {:induction false} InvAt(clients: seq<Client>, events: seq<Event>, k: nat)
    requires IsRun(clients, events) && k <= |events|
    ensures Inv(clients[k])
  {
    hide Inv, Apply;
    RunKeepsInv(clients[..k + 1], events[..k]);
  }

  /** An event comes while the call t is in flight, and does not end it. */
  ghost predicate Spares(c: Client, e: Event, t: nat) { Flies(c.current, t) && !EventEnds(c, e) }

  /** Over every run: a call in flight stays so, with its rid and its kernel, exactly until an
      event that ends it, and from then on it is done and never in flight again. */
  lemma {:induction false} CellFliesUntilItsEnd(clients: seq<Client>, events: seq<Event>, i: nat, j: nat, t: nat)
    requires IsRun(clients, events) && i <= j <= |events| && Flies(clients[i].current, t)
    ensures Flies(clients[j].current, t) <==> forall k :: i <= k < j ==> Spares(clients[k], events[k], t)
    ensures if Flies(clients[j].current, t)
            then clients[j].current.value.rid == clients[i].current.value.rid && clients[j].gen == clients[i].gen
            else IsDone(clients[j], t)
    decreases j - i
  {
    hide Apply, EventEnds, Inv, IsDone;
    if i < j {
      var c, e := clients[j - 1], events[j - 1];
      CellFliesUntilItsEnd(clients, events, i, j - 1, t);
      InvAt(clients, events, j - 1);
      InvAt(clients, events, j);
      if Flies(c.current, t) {
        CellEndsExactly(c, e);
      } else {
        ApplyLogs(c, e);
        StillDone(c, clients[j], t);
        InvIsBalanced(clients[j]);
        DoneIsNotInFlight(clients[j], t);
      }
    }
  }

  // ---- what comes of an earlier worker

  function After(c: Client, events: seq<Event>): Client
    decreases |events|
  {
    if events == [] then c else After(Apply(c, events[0]), events[1..])
  }

  /** A message of an earlier worker, or the settling of its spawn. */
  predicate IsStale(c: Client, e: Event) {
    (e.Receive? || e.SpawnSettles?) && e.g != c.gen
  }

  /** The events of a run but for those that are stale when they come. */
  function Current(c: Client, events: seq<Event>): seq<Event>
    decreases |events|
  {
    if events == [] then []
    else (if IsStale(c, events[0]) then [] else [events[0]]) + Current(Apply(c, events[0]), events[1..])
  }

  /** The two differ at most in the events that a display of an earlier worker still holds back. */
  predicate Alike(c: Client, d: Client) {
    c == d || (c.held.Some? && d.held.Some? && c.held.value.gen == d.held.value.gen < c.gen && d == c.(held := d.held))
  }

  // What is held is looked at by Receive and ConversionSettles only.

  lemma PumpAside(c: Client, h: Option<Hold>)
    ensures Pump(c.(held := h)) == Pump(c).(held := h) && Pump(c).held == c.held && Pump(c).gen == c.gen
  {}

  lemma KillAside(c: Client, h: Option<Hold>)
    ensures Kill(c.(held := h)) == Kill(c).(held := h) && Kill(c).held == c.held && Kill(c).gen == c.gen + 1
  {}

  lemma CancelAside(c: Client, h: Option<Hold>, why: Reason)
    ensures CancelQueue(c.(held := h), why) == CancelQueue(c, why).(held := h)
    ensures CancelQueue(c, why).held == c.held && CancelQueue(c, why).gen == c.gen
  {
    hide Cancellations;
  }

  lemma FinishAside(c: Client, h: Option<Hold>, status: Status)
    ensures FinishIfAny(c.(held := h), status) == FinishIfAny(c, status).(held := h)
    ensures FinishIfAny(c, status).held == c.held && FinishIfAny(c, status).gen == c.gen
  {
    hide CancelQueue;
    if c.current.Some? {
      var log := c.log + [Done(c.current.value.ticket, status)];
      assert Finish(c, status, false) == c.(current := None, armed := false, log := log);
    }
  }

  /** The way the kernel goes in a restart, a dispose and a deadline. */
  lemma GoingAside(c: Client, h: Option<Hold>, status: Status, why: Reason)
    ensures var d := CancelQueue(FinishIfAny(Kill(c), status), why);
      CancelQueue(FinishIfAny(Kill(c.(held := h)), status), why) == d.(held := h) && d.held == c.held &&
        d.gen == c.gen + 1
  {
    hide Kill, FinishIfAny, CancelQueue;
    KillAside(c, h);
    FinishAside(Kill(c), h, status);
    CancelAside(FinishIfAny(Kill(c), status), h, why);
  }

  lemma SpawnAside(c: Client, h: Option<Hold>)
    ensures Spawn(c.(held := h)) == Spawn(c).(held := h) && Spawn(c).held == c.held && Spawn(c).gen == c.gen + 1
  {}

  lemma SpawnIfNeededAside(c: Client, h: Option<Hold>)
    ensures var d := SpawnIfNeeded(c);
      SpawnIfNeeded(c.(held := h)) == d.(held := h) && d.held == c.held && d.gen >= c.gen
  {
    hide Spawn;
    SpawnAside(c, h);
  }

  lemma RunAside(c: Client, h: Option<Hold>, cellId: string)
    ensures var d := Run(c, cellId);
      Run(c.(held := h), cellId) == d.(held := h) && d.held == c.held && d.gen >= c.gen
  {
    hide Pump, SpawnIfNeeded;
    var t := c.tickets;
    var q := c.(tickets := t + 1, queue := c.queue + [Entry(t, cellId)], log := c.log + [Queued(t)]);
    SpawnIfNeededAside(q, h);
    PumpAside(SpawnIfNeeded(q), h);
  }

  lemma StartAside(c: Client, h: Option<Hold>)
    ensures var d := OnStart(c);
      OnStart(c.(held := h)) == d.(held := h) && d.held == c.held && d.gen >= c.gen
  {
    hide Spawn;
    SpawnAside(c, h);
  }

  lemma StopAside(c: Client, h: Option<Hold>, now: int)
    ensures var d := OnStop(c, now);
      OnStop(c.(held := h), now) == d.(held := h) && d.held == c.held && d.gen == c.gen
  {
    hide CancelQueue;
    CancelAside(if c.current.Some? && c.worker then Arm(c, now) else c, h, Stopped);
  }

  lemma CancelCallAside(c: Client, h: Option<Hold>, cellId: string)
    ensures var d := OnCancel(c, cellId);
      OnCancel(c.(held := h), cellId) == d.(held := h) && d.held == c.held && d.gen == c.gen
  {
    hide Cancellations, Kept, Taken;
  }

  lemma RestartAside(c: Client, h: Option<Hold>)
    ensures var d := OnRestart(c);
      OnRestart(c.(held := h)) == d.(held := h) && d.held == c.held && d.gen >= c.gen
  {
    hide Kill, FinishIfAny, CancelQueue, Spawn;
    GoingAside(c, h, Killed, Restarted);
    SpawnAside(CancelQueue(FinishIfAny(Kill(c), Killed), Restarted), h);
  }

  lemma DisposeAside(c: Client, h: Option<Hold>)
    ensures var d := OnDispose(c);
      OnDispose(c.(held := h)) == d.(held := h) && d.held == c.held && d.gen >= c.gen
  {
    hide Kill, FinishIfAny, CancelQueue;
    GoingAside(c.(disposed := true), h, Killed, Disposed);
  }

  lemma UnavailableAside(c: Client, h: Option<Hold>)
    ensures var d := BecomeUnavailable(c);
      BecomeUnavailable(c.(held := h)) == d.(held := h) && d.held == c.held && d.gen >= c.gen
  {
    hide Kill, FinishIfAny, CancelQueue;
    KillAside(c, h);
    FinishAside(Kill(c), h, Crashed);
    CancelAside(FinishIfAny(Kill(c), Crashed).(phase := Unavailable), h, KernelUnavailable);
  }

  lemma SpawnedAside(c: Client, h: Option<Hold>, g: nat, created: bool)
    ensures var d := OnSpawn(c, g, created);
      OnSpawn(c.(held := h), g, created) == d.(held := h) && d.held == c.held && d.gen >= c.gen
  {
    hide BecomeUnavailable;
    UnavailableAside(c, h);
  }

  lemma ExpiryAside(c: Client, h: Option<Hold>)
    requires c.current.Some?
    ensures Expire(c.(held := h)) == Expire(c).(held := h) && Expire(c).held == c.held && Expire(c).gen >= c.gen
  {
    hide Kill, Finish, CancelQueue, Spawn;
    KillFields(c);
    KillAside(c, h);
    FinishAside(Kill(c), h, Killed);
    KillFields(c.(held := h));
    CancelAside(Finish(Kill(c), Killed, false), h, Stopped);
    SpawnAside(CancelQueue(Finish(Kill(c), Killed, false), Stopped), h);
  }

  lemma KillFields(c: Client)
    ensures Kill(c).current == c.current
  {}

  lemma TimerAside(c: Client, h: Option<Hold>, now: int)
    ensures var d := OnTimer(c, now);
      OnTimer(c.(held := h), now) == d.(held := h) && d.held == c.held && d.gen >= c.gen
  {
    hide Expire;
    if c.current.Some? {
      ExpiryAside(c.(armed := false), h);
    }
  }

  lemma ExtendAside(c: Client, h: Option<Hold>, now: int)
    ensures var d := Extend(c, now);
      Extend(c.(held := h), now) == d.(held := h) && d.held == c.held && d.gen == c.gen && d.tasks == c.tasks
  {}

  /** While a conversion holds the messages, one more only joins them. */
  lemma HeldWaits(c: Client, g: nat, m: Message, now: int)
    requires c.held.Some? && g == c.gen
    ensures var d := if (m.Frames? || m.Text?) && c.armed then Extend(c, now) else c;
      OnMessage(c, g, m, now) == d.(tasks := d.tasks + [Task(g, m)])
  {
    hide Drain, Extend;
    assert Extend(c, now).held == c.held by { ExtendAside(c, None, now); }
  }

  lemma MessageAside(c: Client, h: Option<Hold>, g: nat, m: Message, now: int)
    requires c.held.Some? && h.Some?
    ensures var d := OnMessage(c, g, m, now);
      OnMessage(c.(held := h), g, m, now) == d.(held := h) && d.held == c.held && d.gen == c.gen
  {
    hide Drain, Extend;
    if g == c.gen {
      ExtendAside(c, h, now);
      var b := c.(held := h);
      var d := if (m.Frames? || m.Text?) && c.armed then Extend(c, now) else c;
      var e := if (m.Frames? || m.Text?) && b.armed then Extend(b, now) else b;
      assert e == d.(held := h) && d.tasks == c.tasks;
      HeldWaits(c, g, m, now);
      HeldWaits(b, g, m, now);
      hide OnMessage;
    }
  }

  lemma ConversionAlike(c: Client, d: Client)
    requires Alike(c, d) && c != d
    ensures OnConversion(c) == OnConversion(d)
  {
    hide Drain;
    StaleEvents(c.(held := None), c.held.value.rest, c.held.value.gen);
    StaleEvents(d.(held := None), d.held.value.rest, d.held.value.gen);
  }

  lemma AlikeStays(c: Client, d: Client, e: Event)
    requires Alike(c, d)
    ensures Alike(Apply(c, e), Apply(d, e))
  {
    hide OnStart, Run, OnCancel, OnStop, OnRestart, OnDispose, OnSpawn, OnMessage, OnConversion, OnTimer;
    if c != d {
      match e
      case CallStart => StartAside(c, d.held);
      case CallRun(cellId) => RunAside(c, d.held, cellId);
      case CallCancel(cellId) => CancelCallAside(c, d.held, cellId);
      case CallStop(now) => StopAside(c, d.held, now);
      case CallRestart => RestartAside(c, d.held);
      case CallDispose => DisposeAside(c, d.held);
      case SpawnSettles(g, created) => SpawnedAside(c, d.held, g, created);
      case Receive(g, m, now) => MessageAside(c, d.held, g, m, now);
      case ConversionSettles => ConversionAlike(c, d);
      case TimerFires(now) => TimerAside(c, d.held, now);
    }
  }

  /** Nothing that an earlier worker still sends or holds, no message, no settled spawn and no
      event that waits for a conversion, makes any difference to what the client does, then or
      later: it is as if none of them came. */
  lemma {:induction false} EarlierGenerationsChangeNothing(c: Client, d: Client, events: seq<Event>)
    requires Alike(c, d)
    ensures Alike(After(c, events), After(d, Current(c, events)))
    decreases |events|
  {
    hide Apply;
    if events != [] {
      var e := events[0];
      if IsStale(c, e) {
        assert Apply(c, e) == c by { StaleIsNothing(c, e); }
        EarlierGenerationsChangeNothing(c, d, events[1..]);
        assert [] + Current(c, events[1..]) == Current(c, events[1..]);
      } else {
        AlikeStays(c, d, e);
        EarlierGenerationsChangeNothing(Apply(c, e), Apply(d, e), events[1..]);
        var rest := Current(Apply(c, e), events[1..]);
        assert ([e] + rest)[0] == e && ([e] + rest)[1..] == rest;
      }
    }
  }

  lemma StaleIsNothing(c: Client, e: Event)
    requires IsStale(c, e)
    ensures Apply(c, e) == c
  {}
}
