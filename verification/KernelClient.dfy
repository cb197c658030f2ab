/** The client itself: the variables of create() as the fields of one object, and each function of it
    a method that does what KernelMachine says. */
module KernelClient {
  import opened Basics
  import opened KernelMachine
  import opened KernelProofs

  /** One entry of the queue when the cells of one id are taken out of it. */
  lemma RemovalStep(queue: seq<Entry>, i: nat, cellId: string)
    requires i < |queue|
    ensures var rest := queue[i + 1..];
      if queue[i].cellId == cellId then
        && Kept(queue[i..], cellId) == Kept(rest, cellId)
        && Cancellations(Taken(queue[i..], cellId), Removed)
           == [Cancelled(queue[i].ticket, Removed)] + Cancellations(Taken(rest, cellId), Removed)
      else
        && Kept(queue[i..], cellId) == [queue[i]] + Kept(rest, cellId)
        && Taken(queue[i..], cellId) == Taken(rest, cellId)
  {
    var rest := queue[i + 1..];
    assert queue[i..][1..] == rest && queue[i..][0] == queue[i];
    assert [] + Kept(rest, cellId) == Kept(rest, cellId) && [] + Taken(rest, cellId) == Taken(rest, cellId);
    if queue[i].cellId == cellId {
      assert Taken(queue[i..], cellId)[1..] == Taken(rest, cellId);
    }
  }

  lemma RemovalEnds(queue: seq<Entry>, cellId: string, keep: seq<Entry>, log: seq<CellEvent>)
    ensures keep + Kept(queue[|queue|..], cellId) == keep
    ensures log + Cancellations(Taken(queue[|queue|..], cellId), Removed) == log
  {}

  class NotebookKernel {
    const options: Options
    var gen: nat
    var worker: bool
    var ready: bool
    var hello: bool
    var phase: Phase
    var disposed: bool
    var queue: seq<Entry>
    var current: Option<InFlight>
    var execCount: nat
    var cellOf: map<nat, string>
    var tasks: seq<Task>
    var held: Option<Hold>
    var armed: bool
    var stopAt: int
    var deadline: int
    var tickets: nat
    /** What onCell was told, in order. */
    var log: seq<CellEvent>

    ghost function Model(): Client
      reads this
    {
      Client(options, gen, worker, ready, hello, phase, disposed, queue, current, execCount, cellOf, tasks, held,
             armed, stopAt, deadline, tickets, log)
    }

    ghost predicate Valid()
      reads this
    {
      Inv(Model())
    }

    constructor (options: Options)
      ensures Valid() && Model() == Fresh(options)
    {
      this.options := options;
      gen, worker, ready, hello, phase, disposed := 0, false, false, false, Off, false;
      queue, current, execCount, cellOf, tasks, held := [], None, 0, map[], [], None;
      armed, stopAt, deadline, tickets, log := false, 0, 0, 0, [];
    }

    method Disarm()
      modifies `armed
      ensures Model() == old(Model()).(armed := false)
    {
      armed := false;
    }

    method ForgetWorker()
      modifies `worker, `ready, `hello
      ensures Model() == old(Model()).(worker := false, ready := false, hello := false)
    {
      worker, ready, hello := false, false, false;
    }

    method ForgetTasks()
      modifies `tasks, `cellOf
      ensures Model() == old(Model()).(tasks := [], cellOf := map[])
    {
      tasks, cellOf := [], map[];
    }

    method Tell(e: CellEvent)
      modifies `log
      ensures Model() == old(Model()).(log := old(log) + [e])
    {
      log := log + [e];
    }

    method Kill()
      modifies this
      ensures Model() == KernelMachine.Kill(old(Model()))
    {
      gen := gen + 1;
      ForgetWorker();
      ForgetTasks();
      Disarm();
    }

    method CancelQueue(why: Reason)
      modifies this
      ensures Model() == KernelMachine.CancelQueue(old(Model()), why)
    {
      var q := queue;
      ghost var log0 := log;
      queue := [];
      for i := 0 to |q|
        modifies `log
        invariant log + Cancellations(q[i..], why) == log0 + Cancellations(q, why)
      {
        assert q[i..][1..] == q[i + 1..];
        log := log + [Cancelled(q[i].ticket, why)];
      }
    }

    method Finish(status: Status, fromKernel: bool)
      requires current.Some?
      modifies this
      ensures Model() == KernelMachine.Finish(old(Model()), status, fromKernel)
    {
      hide KernelMachine.CancelQueue;
      var cur := current.value;
      current := None;
      Disarm();
      Tell(Done(cur.ticket, status));
      if fromKernel && status != Ok && status != Terminated && options.stopOnError {
        CancelQueue(PreviousFailed);
      }
    }

    method Spawn()
      modifies this
      ensures Model() == KernelMachine.Spawn(old(Model()))
    {
      Kill();
      execCount := 0;
      phase := Starting;
    }

    method SpawnIfNeeded()
      modifies this
      ensures Model() == KernelMachine.SpawnIfNeeded(old(Model()))
    {
      if phase == Off || phase == Unavailable || phase == Dead {
        Spawn();
      }
    }

    method BecomeUnavailable()
      modifies this
      ensures Model() == KernelMachine.BecomeUnavailable(old(Model()))
    {
      hide KernelMachine.Kill, KernelMachine.Finish, KernelMachine.CancelQueue;
      Kill();
      if current.Some? {
        Finish(Crashed, false);
      }
      phase := Unavailable;
      CancelQueue(KernelUnavailable);
    }

    /** The kernel goes, the cell in flight ends, and the queue is cancelled. */
    method EndAll(status: Status, why: Reason)
      modifies this
      ensures Model() == KernelMachine.CancelQueue(FinishIfAny(KernelMachine.Kill(old(Model())), status), why)
    {
      hide KernelMachine.Finish, KernelMachine.CancelQueue;
      Kill();
      if current.Some? {
        Finish(status, false);
      }
      CancelQueue(why);
    }

    method Gone(exited: bool)
      modifies this
      ensures Model() == KernelMachine.Gone(old(Model()), exited)
    {
      hide KernelMachine.Kill, FinishIfAny, KernelMachine.CancelQueue;
      EndAll(if exited then Exited else Crashed, if exited then KernelExited else KernelCrashed);
      phase := Dead;
    }

    method Expire()
      requires current.Some?
      modifies this
      ensures Model() == KernelMachine.Expire(old(Model()))
    {
      hide KernelMachine.Finish, KernelMachine.CancelQueue, KernelMachine.Spawn;
      armed := false;
      Kill();
      Finish(Killed, false);
      CancelQueue(Stopped);
      Spawn();
    }

    method Pump()
      modifies this
      ensures Model() == KernelMachine.Pump(old(Model()))
    {
      if !hello || current.Some? || queue == [] || disposed {
        return;
      }
      var q := Dequeue();
      SetCurrent(q);
      Tell(Started(q.ticket, execCount, gen));
      phase := Busy;
    }

    method Dequeue() returns (q: Entry)
      requires queue != []
      modifies `queue
      ensures q == old(queue)[0] && Model() == old(Model()).(queue := old(queue)[1..])
    {
      q := queue[0];
      queue := queue[1..];
    }

    method SetCurrent(q: Entry)
      modifies `execCount, `current, `cellOf
      ensures var count := old(execCount) + 1;
        Model() == old(Model()).(execCount := count, current := Some(InFlight(q.ticket, q.cellId, count, false)),
                                 cellOf := old(cellOf)[count := q.cellId])
    {
      execCount := execCount + 1;
      current := Some(InFlight(q.ticket, q.cellId, execCount, false));
      cellOf := cellOf[execCount := q.cellId];
    }

    /** The cell ends by an event of the kernel, which then takes the next one. */
    method FinishAndPump(status: Status)
      requires current.Some?
      modifies this
      ensures Model() == KernelMachine.Pump(KernelMachine.Finish(old(Model()), status, true).(phase := Idle))
    {
      hide KernelMachine.Finish, KernelMachine.Pump;
      Finish(status, true);
      phase := Idle;
      Pump();
    }

    method Greet()
      modifies this
      ensures Model() == KernelMachine.Handle(old(Model()), KernelEvent.Hello)
    {
      hide KernelMachine.Finish, KernelMachine.Pump;
      if hello && current.Some? {
        Finish(Failed, true);
      }
      hello := true;
      phase := Idle;
      Pump();
    }

    method Handle(e: KernelEvent)
      modifies this
      ensures Model() == KernelMachine.Handle(old(Model()), e)
    {
      hide KernelMachine.Finish, KernelMachine.Pump;
      match e {
        case Hello => Greet();
        case Start(rid) =>
          if current.Some? && rid == Rid(current.value.rid) {
            current := Some(current.value.(started := true));
          }
        case Ended(rid, status) =>
          if current.Some? && rid == Rid(current.value.rid) {
            FinishAndPump(status);
          }
        case BadRequest =>
          if current.Some? && !current.value.started {
            FinishAndPump(Failed);
          }
        case Display(_) =>
        case OtherEvent =>
      }
    }

    /** Handles events in order, and stops at a display or when the kernel is gone. */
    method Events(list: seq<KernelEvent>, g: nat)
      modifies this
      ensures Model() == KernelMachine.Events(old(Model()), list, g)
    {
      hide KernelMachine.Handle;
      var i := 0;
      assert list[0..] == list;
      while i < |list| && g == gen
        invariant i <= |list|
        invariant KernelMachine.Events(Model(), list[i..], g) == KernelMachine.Events(old(Model()), list, g)
      {
        assert list[i..][1..] == list[i + 1..] && list[i..][0] == list[i];
        if list[i].Display? {
          held := Some(Hold(g, list[i + 1..]));
          return;
        }
        Handle(list[i]);
        i := i + 1;
      }
    }

    method HandleMessage(m: Message)
      modifies this
      ensures Model() == KernelMachine.HandleMessage(old(Model()), m)
    {
      hide KernelMachine.Events, KernelMachine.Gone, KernelMachine.BecomeUnavailable, KernelMachine.Expire;
      match m {
        case Ready(notebook) =>
          if !notebook {
            BecomeUnavailable();
          } else {
            ready := true;
          }
        case Frames(events) => Events(events, gen);
        case WorkerState(waiting, sleeping) =>
          if hello && current.Some? && current.value.started {
            phase := if waiting then Input else if sleeping then Sleeping else Busy;
          }
        case Interrupted(registered) =>
          if !registered && armed && current.Some? {
            Expire();
          }
        case Exit => Gone(true);
        case Crash =>
          if ready {
            Gone(false);
          } else {
            BecomeUnavailable();
          }
        case WorkerError =>
          if ready {
            Gone(false);
          } else {
            BecomeUnavailable();
          }
        case Text =>
        case OtherMessage =>
      }
    }

    method Drain()
      requires held.None?
      modifies this
      ensures Model() == KernelMachine.Drain(old(Model()))
    {
      hide KernelMachine.HandleMessage;
      while tasks != []
        invariant held.None? && KernelMachine.Drain(Model()) == KernelMachine.Drain(old(Model()))
        decreases |tasks|
      {
        var t := tasks[0];
        tasks := tasks[1..];
        if t.gen == gen {
          HandleMessage(t.message);
          if held.Some? {
            return;
          }
        }
      }
    }

    // ---- the API, and what happens outside

    method CallStart()
      requires Valid()
      modifies this
      ensures Valid() && Model() == Apply(old(Model()), Event.CallStart)
    {
      ApplyKeepsInv(Model(), Event.CallStart);
      if disposed || hello || phase == Starting {
        return;
      }
      SpawnIfNeeded();
    }

    method CallRun(cellId: string) returns (ticket: nat)
      requires Valid()
      modifies this
      ensures Valid() && ticket == old(tickets) && Model() == Apply(old(Model()), Event.CallRun(cellId))
    {
      ApplyKeepsInv(Model(), Event.CallRun(cellId));
      ApplyRun(Model(), cellId);
      hide Inv, Apply;
      ticket := RunCell(cellId);
    }

    method RunCell(cellId: string) returns (ticket: nat)
      modifies this
      ensures ticket == old(tickets) && Model() == Run(old(Model()), cellId)
    {
      hide KernelMachine.SpawnIfNeeded, KernelMachine.Pump;
      ticket := Enqueue(cellId);
      if !disposed {
        SpawnIfNeeded();
        Pump();
      }
    }

    method Enqueue(cellId: string) returns (ticket: nat)
      modifies this
      ensures ticket == old(tickets)
      ensures var c := old(Model());
        Model() == if c.disposed then c.(tickets := ticket + 1, log := c.log + [Cancelled(ticket, Disposed)])
                   else c.(tickets := ticket + 1, queue := c.queue + [Entry(ticket, cellId)],
                     log := c.log + [Queued(ticket)])
    {
      ticket := tickets;
      tickets := tickets + 1;
      if disposed {
        log := log + [Cancelled(ticket, Disposed)];
      } else {
        queue := queue + [Entry(ticket, cellId)];
        log := log + [Queued(ticket)];
      }
    }

    method CallCancel(cellId: string)
      requires Valid()
      modifies this
      ensures Valid() && Model() == Apply(old(Model()), Event.CallCancel(cellId))
    {
      ApplyKeepsInv(Model(), Event.CallCancel(cellId));
      hide Inv;
      RemoveQueued(cellId);
    }

    method RemoveQueued(cellId: string)
      modifies `queue, `log
      ensures queue == Kept(old(queue), cellId)
      ensures log == old(log) + Cancellations(Taken(old(queue), cellId), Removed)
    {
      hide Kept, Taken, Cancellations;
      assert queue[0..] == queue;
      var keep: seq<Entry> := [];
      ghost var log0 := log;
      for i := 0 to |queue|
        modifies `log
        invariant keep + Kept(queue[i..], cellId) == Kept(queue, cellId)
        invariant log + Cancellations(Taken(queue[i..], cellId), Removed) ==
          log0 + Cancellations(Taken(queue, cellId), Removed)
      {
        var e := queue[i];
        RemovalStep(queue, i, cellId);
        if e.cellId == cellId {
          Associative(log, [Cancelled(e.ticket, Removed)], Cancellations(Taken(queue[i + 1..], cellId), Removed));
          log := log + [Cancelled(e.ticket, Removed)];
        } else {
          Associative(keep, [e], Kept(queue[i + 1..], cellId));
          keep := keep + [e];
        }
      }
      RemovalEnds(queue, cellId, keep, log);
      queue := keep;
    }

    method CallStop(now: int)
      requires Valid()
      modifies this
      ensures Valid() && Model() == Apply(old(Model()), Event.CallStop(now))
    {
      ApplyKeepsInv(Model(), Event.CallStop(now));
      hide Inv, KernelMachine.CancelQueue;
      if current.Some? && worker {
        ArmWatchdog(now);
      }
      CancelQueue(Stopped);
    }

    method ArmWatchdog(now: int)
      modifies `armed, `stopAt, `deadline
      ensures Model() == Arm(old(Model()), now)
    {
      if !armed {
        armed, stopAt, deadline := true, now, now + options.watchdogMs;
      }
    }

    method CallRestart()
      requires Valid()
      modifies this
      ensures Valid() && Model() == Apply(old(Model()), Event.CallRestart)
    {
      ApplyKeepsInv(Model(), Event.CallRestart);
      hide Inv, OnRestart;
      Restart();
    }

    method Restart()
      modifies this
      ensures Model() == OnRestart(old(Model()))
    {
      hide KernelMachine.Kill, FinishIfAny, KernelMachine.CancelQueue, KernelMachine.Spawn;
      if disposed {
        return;
      }
      EndAll(Killed, Restarted);
      Spawn();
    }

    method CallDispose()
      requires Valid()
      modifies this
      ensures Valid() && Model() == Apply(old(Model()), Event.CallDispose)
    {
      ApplyKeepsInv(Model(), Event.CallDispose);
      hide Inv, OnDispose;
      Dispose();
    }

    method Dispose()
      modifies this
      ensures Model() == OnDispose(old(Model()))
    {
      hide KernelMachine.Kill, FinishIfAny, KernelMachine.CancelQueue;
      if disposed {
        return;
      }
      MarkDisposed();
      EndAll(Killed, Disposed);
      phase := Off;
    }

    method MarkDisposed()
      modifies `disposed
      ensures Model() == old(Model()).(disposed := true)
    {
      disposed := true;
    }

    method SpawnSettles(g: nat, created: bool)
      requires Valid() && Possible(Model(), Event.SpawnSettles(g, created))
      modifies this
      ensures Valid() && Model() == Apply(old(Model()), Event.SpawnSettles(g, created))
    {
      ApplyKeepsInv(Model(), Event.SpawnSettles(g, created));
      hide Inv, KernelMachine.BecomeUnavailable;
      if g != gen {
        return;
      }
      if !created {
        BecomeUnavailable();
      } else if !disposed {
        worker := true;
      }
    }

    method Extend(now: int)
      modifies `deadline
      ensures Model() == KernelMachine.Extend(old(Model()), now)
    {
      var later := if deadline < now + options.watchdogMs then now + options.watchdogMs else deadline;
      deadline := if later < stopAt + options.capMs then later else stopAt + options.capMs;
    }

    /** Queues a message behind those that wait; output moves the deadline even before it is handled. */
    method Receive(g: nat, m: Message, now: int)
      requires Valid() && Possible(Model(), Event.Receive(g, m, now))
      modifies this
      ensures Valid() && Model() == Apply(old(Model()), Event.Receive(g, m, now))
    {
      ApplyKeepsInv(Model(), Event.Receive(g, m, now));
      hide Inv, KernelMachine.Drain;
      if g != gen {
        return;
      }
      if (m.Frames? || m.Text?) && armed {
        Extend(now);
      }
      tasks := tasks + [Task(g, m)];
      if held.None? {
        Drain();
      }
    }

    method ConversionSettles()
      requires Valid()
      modifies this
      ensures Valid() && Model() == Apply(old(Model()), Event.ConversionSettles)
    {
      ApplyKeepsInv(Model(), Event.ConversionSettles);
      hide Inv, OnConversion;
      GoOn();
    }

    /** What a conversion held goes on. */
    method GoOn()
      modifies this
      ensures Model() == OnConversion(old(Model()))
    {
      hide KernelMachine.Drain, KernelMachine.Events;
      if held.None? {
        return;
      }
      var h := held.value;
      held := None;
      Events(h.rest, h.gen);
      if held.None? {
        Drain();
      }
    }

    method TimerFires(now: int)
      requires Valid()
      modifies this
      ensures Valid() && Model() == Apply(old(Model()), Event.TimerFires(now))
    {
      ApplyKeepsInv(Model(), Event.TimerFires(now));
      hide Inv, OnTimer;
      Check(now);
    }

    method Check(now: int)
      modifies this
      ensures Model() == OnTimer(old(Model()), now)
    {
      hide KernelMachine.Expire;
      if !armed {
        return;
      }
      armed := false;
      if current.None? {
        return;
      }
      if now < deadline {
        armed := true;
      } else {
        Expire();
      }
    }
  }
}
