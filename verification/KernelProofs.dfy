module KernelProofs {
  // What the notebook kernel's client keeps over any order of events.

  import opened Basics
  import opened KernelMachine

  // ---- counting

  lemma {:induction false} OccursConcat(x: seq<CellEvent>, y: seq<CellEvent>, k: Kind, t: nat)
    ensures Occurs(x + y, k, t) == Occurs(x, k, t) + Occurs(y, k, t)
    decreases |y|
  {
    if y == [] {
      assert x + y == x;
    } else {
      assert (x + y)[..|x + y| - 1] == x + y[..|y| - 1];
      OccursConcat(x, y[..|y| - 1], k, t);
    }
  }

  lemma OccursOnce(e: CellEvent, k: Kind, t: nat)
    ensures Occurs([e], k, t) == OneIf(IsA(e, k, t))
  {}

  lemma {:induction false} OccursInCancellations(queue: seq<Entry>, why: Reason, k: Kind, t: nat)
    ensures Occurs(Cancellations(queue, why), k, t) == if k == ACancel then InQueue(queue, t) else 0
  {
    if queue != [] {
      var first := Cancelled(queue[0].ticket, why);
      OccursInCancellations(queue[1..], why, k, t);
      OccursConcat([first], Cancellations(queue[1..], why), k, t);
      OccursOnce(first, k, t);
    }
  }

  lemma {:induction false} InQueueConcat(x: seq<Entry>, y: seq<Entry>, t: nat)
    ensures InQueue(x + y, t) == InQueue(x, t) + InQueue(y, t)
  {
    if x == [] {
      assert x + y == y;
    } else {
      assert (x + y)[1..] == x[1..] + y;
      InQueueConcat(x[1..], y, t);
    }
  }

  lemma {:induction false} KeptAndTaken(queue: seq<Entry>, cellId: string, t: nat)
    ensures InQueue(Kept(queue, cellId), t) + InQueue(Taken(queue, cellId), t) == InQueue(queue, t)
  {
    if queue != [] {
      KeptAndTaken(queue[1..], cellId, t);
      var first := [queue[0]];
      InQueueConcat(first, Kept(queue[1..], cellId), t);
      InQueueConcat(first, Taken(queue[1..], cellId), t);
      assert [] + Kept(queue[1..], cellId) == Kept(queue[1..], cellId);
      assert [] + Taken(queue[1..], cellId) == Taken(queue[1..], cellId);
      assert first[1..] == [];
    }
  }

  // ---- the order of starts

  lemma StartsPush(log: seq<CellEvent>, e: CellEvent)
    ensures Starts(log + [e]) == if e.Started? then Starts(log) + [e] else Starts(log)
  {
    assert (log + [e])[..|log|] == log;
  }

  lemma {:induction false} CancellationsStartNone(log: seq<CellEvent>, queue: seq<Entry>, why: Reason)
    ensures Starts(log + Cancellations(queue, why)) == Starts(log)
    decreases |queue|
  {
    hide Starts;
    if queue == [] {
      assert log + [] == log;
    } else {
      var e := Cancelled(queue[0].ticket, why);
      StartsPush(log, e);
      CancellationsStartNone(log + [e], queue[1..], why);
      Associative(log, [e], Cancellations(queue[1..], why));
    }
  }

  lemma {:induction false} KeptWaits(queue: seq<Entry>, cellId: string)
    requires Rising(Waiting(queue))
    ensures Rising(Waiting(Kept(queue, cellId)))
    ensures forall x :: x in Waiting(Kept(queue, cellId)) ==> x in Waiting(queue)
  {
    if queue != [] {
      var first, rest := [queue[0].ticket], queue[1..];
      assert Waiting(queue) == first + Waiting(rest);
      RisingSplits(first, Waiting(rest));
      KeptWaits(rest, cellId);
      var kept := Waiting(Kept(rest, cellId));
      if queue[0].cellId != cellId {
        assert Waiting(Kept(queue, cellId)) == first + kept;
        RisingJoins(first, kept);
      } else {
        assert Kept(queue, cellId) == Kept(rest, cellId);
      }
    }
  }

  lemma RisingSplits(a: seq<nat>, b: seq<nat>)
    requires Rising(a + b)
    ensures Rising(a) && Rising(b) && Below(a, b)
  {
    var s := a + b;
    assert forall k :: 0 <= k < |a| ==> a[k] == s[k];
    assert forall k :: 0 <= k < |b| ==> b[k] == s[|a| + k];
  }

  lemma RisingJoins(a: seq<nat>, b: seq<nat>)
    requires Rising(a) && Rising(b) && Below(a, b)
    ensures Rising(a + b)
  {
    var s := a + b;
    forall j, k | 0 <= j < k < |s| ensures s[j] < s[k] {
      if j < |a| <= k {
        assert a[j] in a && b[k - |a|] in b;
      }
    }
  }

  lemma BelowParts(a: seq<nat>, b: seq<nat>, w: seq<nat>)
    ensures Below(a + b, w) <==> Below(a, w) && Below(b, w)
    ensures Below(w, a + b) <==> Below(w, a) && Below(w, b)
  {
    assert forall x :: x in a + b <==> x in a || x in b;
  }

  /** Ordered as before when nothing is started, and perhaps less waits. */
  lemma OrderStays(c: Client, d: Client)
    requires InOrder(c.log, c.queue, c.tickets) && Starts(d.log) == Starts(c.log) && d.tickets == c.tickets
    requires Rising(Waiting(d.queue)) && forall x :: x in Waiting(d.queue) ==> x in Waiting(c.queue)
    ensures InOrder(d.log, d.queue, d.tickets)
  {
    hide Starts, TicketsOf;
  }

  /** What waited first is started next. */
  lemma FirstStarts(s: seq<nat>, first: nat, rest: seq<nat>, t: nat)
    requires Rising(s) && Rising([first] + rest) && Below(s, [first] + rest) && AllBelow(s, t)
    requires AllBelow([first] + rest, t)
    ensures Rising(s + [first]) && Rising(rest) && Below(s + [first], rest) && AllBelow(s + [first], t)
    ensures AllBelow(rest, t)
  {
    RisingSplits([first], rest);
    BelowParts([first], rest, s);
    BelowParts(s, [first], rest);
    RisingJoins(s, [first]);
    var all := [first] + rest;
    assert forall x :: x in rest ==> x in all;
    assert first in all;
  }

  lemma PumpKeepsOrder(c: Client)
    requires InOrder(c.log, c.queue, c.tickets)
    ensures var d := Pump(c); InOrder(d.log, d.queue, d.tickets)
  {
    hide Rising, Below, AllBelow, Starts;
    var d := Pump(c);
    if d != c {
      var e := Started(c.queue[0].ticket, c.execCount + 1, c.gen);
      StartsPush(c.log, e);
      assert TicketsOf(Starts(d.log)) == TicketsOf(Starts(c.log)) + [e.ticket];
      assert Waiting(c.queue) == [e.ticket] + Waiting(d.queue);
      FirstStarts(TicketsOf(Starts(c.log)), e.ticket, Waiting(d.queue), c.tickets);
    }
  }

  lemma PumpCountsUp(c: Client)
    requires RidsCountUp(c.log, c.gen, c.execCount)
    ensures var d := Pump(c); RidsCountUp(d.log, d.gen, d.execCount)
  {
    hide Starts;
    StartsPush(c.log, Started(if c.queue == [] then 0 else c.queue[0].ticket, c.execCount + 1, c.gen));
  }

  lemma OneMoreTicket(s: seq<nat>, w: seq<nat>, t: nat)
    requires Rising(w) && Below(s, w) && AllBelow(s, t) && AllBelow(w, t)
    ensures Rising(w + [t]) && Below(s, w + [t]) && AllBelow(s, t + 1) && AllBelow(w, t + 1) && AllBelow(w + [t], t + 1)
  {
    RisingJoins(w, [t]);
    BelowParts(w, [t], s);
  }

  lemma CallKeepsOrder(log: seq<CellEvent>, queue: seq<Entry>, t: nat, cellId: string)
    requires InOrder(log, queue, t)
    ensures InOrder(log + [Queued(t)], queue + [Entry(t, cellId)], t + 1)
    ensures InOrder(log + [Cancelled(t, Disposed)], queue, t + 1)
  {
    hide Starts, TicketsOf, Rising, Below, AllBelow;
    StartsPush(log, Queued(t));
    StartsPush(log, Cancelled(t, Disposed));
    assert Waiting(queue + [Entry(t, cellId)]) == Waiting(queue) + [t];
    OneMoreTicket(TicketsOf(Starts(log)), Waiting(queue), t);
  }

  lemma SameCounts(log: seq<CellEvent>, other: seq<CellEvent>, gen: nat, execCount: nat)
    requires RidsCountUp(log, gen, execCount) && Starts(other) == Starts(log)
    ensures RidsCountUp(other, gen, execCount)
  {}

  /** A new kernel counts from the start. */
  lemma NewKernelCountsUp(log: seq<CellEvent>, gen: nat, execCount: nat, n: nat)
    requires RidsCountUp(log, gen, execCount)
    ensures RidsCountUp(log, gen + 1, n)
  {}

  // ---- what keeps the balance

  /** Cancelling some of what waits settles exactly those. */
  lemma CancellingBalances(log: seq<CellEvent>, queue: seq<Entry>, current: Option<InFlight>, tickets: nat,
    kept: seq<Entry>, taken: seq<Entry>, why: Reason)
    requires Balances(log, queue, current, tickets)
    requires forall t: nat :: InQueue(kept, t) + InQueue(taken, t) == InQueue(queue, t)
    ensures Balances(log + Cancellations(taken, why), kept, current, tickets)
  {
    hide Occurs, InQueue, Flies;
    forall k: Kind, t: nat
      ensures Occurs(log + Cancellations(taken, why), k, t)
           == Occurs(log, k, t) + if k == ACancel then InQueue(taken, t) else 0
    {
      OccursConcat(log, Cancellations(taken, why), k, t);
      OccursInCancellations(taken, why, k, t);
    }
  }

  lemma NoneWaits(t: nat)
    ensures InQueue([], t) == 0
  {}

  lemma CancelQueueBalances(c: Client, why: Reason)
    requires Balanced(c)
    ensures Balanced(CancelQueue(c, why))
  {
    hide Balances, InOrder, Starts, InQueue, RidsCountUp, Cancellations;
    var d := CancelQueue(c, why);
    CancellationsStartNone(c.log, c.queue, why);
    OrderStays(c, d);
    SameCounts(c.log, d.log, c.gen, c.execCount);
    forall t { NoneWaits(t); }
    CancellingBalances(c.log, c.queue, c.current, c.tickets, [], c.queue, why);
  }

  lemma CancelBalances(c: Client, cellId: string)
    requires Balanced(c)
    ensures Balanced(Apply(c, CallCancel(cellId)))
  {
    hide Balances, Starts, InQueue, RidsCountUp, Cancellations, Kept, Taken;
    var d := OnCancel(c, cellId);
    var taken := Taken(c.queue, cellId);
    CancellationsStartNone(c.log, taken, Removed);
    KeptWaits(c.queue, cellId);
    OrderStays(c, d);
    SameCounts(c.log, d.log, c.gen, c.execCount);
    forall t { KeptAndTaken(c.queue, cellId, t); }
    CancellingBalances(c.log, c.queue, c.current, c.tickets, Kept(c.queue, cellId), taken, Removed);
  }

  /** One more event of the log. */
  lemma OccursPush(log: seq<CellEvent>, e: CellEvent)
    ensures forall k: Kind, t: nat :: Occurs(log + [e], k, t) == Occurs(log, k, t) + OneIf(IsA(e, k, t))
  {
    forall k: Kind, t: nat ensures Occurs(log + [e], k, t) == Occurs(log, k, t) + OneIf(IsA(e, k, t)) {
      OccursConcat(log, [e], k, t);
      OccursOnce(e, k, t);
    }
  }

  lemma FinishBalances(c: Client, status: Status, fromKernel: bool)
    requires Balanced(c) && c.current.Some?
    ensures Balanced(Finish(c, status, fromKernel))
  {
    var e := Done(c.current.value.ticket, status);
    OccursPush(c.log, e);
    var d := c.(current := None, armed := false, log := c.log + [e]);
    StartsPush(c.log, e);
    OrderStays(c, d);
    hide InOrder, Starts;
    assert Balanced(d) by {
      forall t: nat ensures Occurs(d.log, ADone, t) + OneIf(Flies(d.current, t)) == Occurs(d.log, AStart, t) {
        assert Occurs(c.log, ADone, t) + OneIf(Flies(c.current, t)) == Occurs(c.log, AStart, t);
      }
    }
    CancelQueueBalances(d, PreviousFailed);
  }

  lemma PumpBalances(c: Client)
    requires Balanced(c)
    ensures Balanced(Pump(c))
  {
    hide Balances, InOrder, RidsCountUp, Pump;
    PumpKeepsOrder(c);
    PumpCountsUp(c);
    PumpKeepsBalance(c);
  }

  lemma PumpKeepsBalance(c: Client)
    requires Balances(c.log, c.queue, c.current, c.tickets)
    ensures var d := Pump(c); Balances(d.log, d.queue, d.current, d.tickets)
  {
    var d := Pump(c);
    if d != c {
      var q := c.queue[0];
      OccursPush(c.log, Started(q.ticket, c.execCount + 1, c.gen));
      forall t: nat
        ensures Occurs(d.log, ACancel, t) + Occurs(d.log, AStart, t) + InQueue(d.queue, t) == OneIf(t < d.tickets)
        ensures Occurs(d.log, ADone, t) + OneIf(Flies(d.current, t)) == Occurs(d.log, AStart, t)
      {
        assert Occurs(c.log, ADone, t) + OneIf(Flies(c.current, t)) == Occurs(c.log, AStart, t);
      }
    }
  }

  lemma QueuedBalances(c: Client, cellId: string)
    requires Balanced(c)
    ensures Balanced(c.(tickets := c.tickets + 1, queue := c.queue + [Entry(c.tickets, cellId)],
                        log := c.log + [Queued(c.tickets)]))
    ensures Balanced(c.(tickets := c.tickets + 1, log := c.log + [Cancelled(c.tickets, Disposed)]))
  {
    hide Balances, InOrder, RidsCountUp, Starts;
    CallKeepsOrder(c.log, c.queue, c.tickets, cellId);
    CallBalances(c.log, c.queue, c.current, c.tickets, cellId);
    StartsPush(c.log, Queued(c.tickets));
    StartsPush(c.log, Cancelled(c.tickets, Disposed));
    SameCounts(c.log, c.log + [Queued(c.tickets)], c.gen, c.execCount);
    SameCounts(c.log, c.log + [Cancelled(c.tickets, Disposed)], c.gen, c.execCount);
  }

  lemma CallBalances(log: seq<CellEvent>, queue: seq<Entry>, current: Option<InFlight>, t: nat, cellId: string)
    requires Balances(log, queue, current, t)
    ensures Balances(log + [Queued(t)], queue + [Entry(t, cellId)], current, t + 1)
    ensures Balances(log + [Cancelled(t, Disposed)], queue, current, t + 1)
  {
    hide Occurs, InQueue;
    OccursPush(log, Queued(t));
    OccursPush(log, Cancelled(t, Disposed));
    var e := Entry(t, cellId);
    forall u: nat ensures InQueue(queue + [e], u) == InQueue(queue, u) + OneIf(u == t) {
      InQueueConcat(queue, [e], u);
      WaitsAlone(e, u);
    }
  }

  lemma WaitsAlone(e: Entry, t: nat)
    ensures InQueue([e], t) == OneIf(e.ticket == t)
  {}

  lemma SpawnBalances(c: Client)
    requires Balanced(c)
    ensures Balanced(Spawn(c))
  {
    NewKernelCountsUp(c.log, c.gen, c.execCount, 0);
    hide Balances, InOrder, RidsCountUp;
  }

  // ---- what keeps the whole invariant

  /** Everything but the progress, which a cell that ends breaks until the next is sent. */
  ghost predicate Still(c: Client) { Balanced(c) && Coherent(c) && Timely(c) }

  lemma PumpKeeps(c: Client)
    requires Still(c) && (c.queue != [] ==> c.hello || c.phase == Starting)
    ensures Core(Pump(c)) && Pump(c).gen == c.gen && Pump(c).tasks == c.tasks && Pump(c).held == c.held
  {
    PumpBalances(c);
    hide Balances, InOrder, RidsCountUp;
  }

  lemma FinishKeeps(c: Client, status: Status, fromKernel: bool)
    requires Still(c) && c.current.Some?
    ensures Still(Finish(c, status, fromKernel)) && Finish(c, status, fromKernel).hello == c.hello
  {
    FinishBalances(c, status, fromKernel);
    hide Balances, InOrder, RidsCountUp;
  }

  /** After kill and finish nothing of the old kernel is left. */
  lemma KillKeepsBalance(c: Client, status: Status)
    requires Balanced(c)
    ensures var d := FinishIfAny(Kill(c), status);
      Balanced(d) && d.current.None? && d == Kill(c).(current := None, log := d.log)
  {
    NewKernelCountsUp(c.log, c.gen, c.execCount, c.execCount);
    if c.current.Some? {
      FinishBalances(Kill(c), status, false);
    }
  }

  lemma BecomeUnavailableKeeps(c: Client)
    requires Balanced(c) && !c.disposed
    requires c.held.Some? ==> c.held.value.gen <= c.gen
    ensures Core(BecomeUnavailable(c)) && BecomeUnavailable(c).tasks == []
  {
    hide Balances, InOrder, RidsCountUp;
    KillKeepsBalance(c, Crashed);
    CancelQueueBalances(FinishIfAny(Kill(c), Crashed).(phase := Unavailable), KernelUnavailable);
  }

  lemma GoneKeeps(c: Client, exited: bool)
    requires Balanced(c) && !c.disposed
    requires c.held.Some? ==> c.held.value.gen <= c.gen
    ensures Core(Gone(c, exited)) && Gone(c, exited).tasks == []
  {
    hide Balances, InOrder, RidsCountUp;
    var d := FinishIfAny(Kill(c), if exited then Exited else Crashed);
    KillKeepsBalance(c, if exited then Exited else Crashed);
    CancelQueueBalances(d, if exited then KernelExited else KernelCrashed);
  }

  lemma ExpireKeeps(c: Client)
    requires Balanced(c) && c.current.Some? && !c.disposed
    requires c.held.Some? ==> c.held.value.gen <= c.gen
    ensures Core(Expire(c)) && Expire(c).tasks == []
  {
    hide Balances, InOrder, RidsCountUp;
    KillKeepsBalance(c, Killed);
    CancelQueueBalances(Finish(Kill(c), Killed, false), Stopped);
    SpawnBalances(CancelQueue(Finish(Kill(c), Killed, false), Stopped));
  }

  /** Every event of the kernel keeps the invariant. */
  lemma HandleKeeps(c: Client, e: KernelEvent)
    requires Core(c) && c.worker && !c.disposed
    ensures var d := Handle(c, e);
      Core(d) && d.worker && !d.disposed && d.gen == c.gen && d.tasks == c.tasks && d.held == c.held
  {
    hide Balances, InOrder, RidsCountUp;
    match e {
      case Hello =>
        if c.hello && c.current.Some? { FinishKeeps(c, Failed, true); }
        var d := if c.hello && c.current.Some? then Finish(c, Failed, true) else c;
        PumpKeeps(d.(hello := true, phase := Idle));
      case Ended(rid, status) =>
        if c.current.Some? && rid == Rid(c.current.value.rid) {
          FinishKeeps(c, status, true);
          PumpKeeps(Finish(c, status, true).(phase := Idle));
        }
      case BadRequest =>
        if c.current.Some? && !c.current.value.started {
          FinishKeeps(c, Failed, true);
          PumpKeeps(Finish(c, Failed, true).(phase := Idle));
        }
      case _ => StartingBalances(c);
    }
  }

  lemma StartingBalances(c: Client)
    requires Balanced(c)
    ensures c.current.Some? ==> Balanced(c.(current := Some(c.current.value.(started := true))))
  {
    if c.current.Some? {
      var d := c.(current := Some(c.current.value.(started := true)));
      forall t: nat ensures Flies(d.current, t) == Flies(c.current, t) {}
    }
  }

  lemma {:induction false} EventsKeep(c: Client, list: seq<KernelEvent>, gen: nat)
    requires Core(c) && (gen == c.gen ==> c.worker && !c.disposed)
    ensures Core(Events(c, list, gen))
    decreases |list|
  {
    hide Core, Handle;
    if list != [] && gen == c.gen {
      if list[0].Display? {
        HoldKeeps(c, Some(Hold(gen, list[1..])));
      } else {
        HandleKeeps(c, list[0]);
        EventsKeep(Handle(c, list[0]), list[1..], gen);
      }
    }
  }

  lemma HoldKeeps(c: Client, held: Option<Hold>)
    requires Core(c) && (held.Some? ==> held.value.gen == c.gen && c.worker && !c.disposed)
    ensures Core(c.(held := held))
  {}

  lemma HandleMessageKeeps(c: Client, m: Message)
    requires Core(c) && c.worker && !c.disposed
    ensures Core(HandleMessage(c, m))
  {
    hide Balances, InOrder, RidsCountUp, Handle, Events;
    match m {
      case Ready(notebook) => if !notebook { BecomeUnavailableKeeps(c); }
      case Frames(events) => EventsKeep(c, events, c.gen);
      case Interrupted(registered) => if !registered && c.armed && c.current.Some? { ExpireKeeps(c); }
      case Exit => GoneKeeps(c, true);
      case Crash => if c.ready { GoneKeeps(c, false); } else { BecomeUnavailableKeeps(c); }
      case WorkerError => if c.ready { GoneKeeps(c, false); } else { BecomeUnavailableKeeps(c); }
      case _ =>
    }
  }

  lemma {:induction false} DrainKeeps(c: Client)
    requires Core(c) && c.held.None?
    ensures Inv(Drain(c))
    decreases |c.tasks|
  {
    hide Balances, InOrder, RidsCountUp, HandleMessage;
    if c.tasks != [] {
      var t, rest := c.tasks[0], c.(tasks := c.tasks[1..]);
      HandleMessageKeeps(rest, t.message);
      var d := HandleMessage(rest, t.message);
      if d.held.None? {
        DrainKeeps(d);
      }
    }
  }

  // ---- every event

  /** What cannot happen: a message of the worker of this generation before it was created, or
      after the client was disposed of, and a spawn of this generation that settles twice. */
  predicate Possible(c: Client, e: Event) {
    match e
    case SpawnSettles(g, _) => g < c.gen || (g == c.gen && c.phase == Starting && !c.worker && !c.disposed)
    case Receive(g, _, _) => g < c.gen || (g == c.gen && c.worker && !c.disposed)
    case _ => true
  }

  lemma RunKeeps(c: Client, cellId: string)
    requires Inv(c)
    ensures Inv(Run(c, cellId))
  {
    hide Balances, InOrder, RidsCountUp;
    QueuedBalances(c, cellId);
    if !c.disposed {
      var q := c.(tickets := c.tickets + 1, queue := c.queue + [Entry(c.tickets, cellId)],
        log := c.log + [Queued(c.tickets)]);
      SpawnBalances(q);
      PumpKeeps(SpawnIfNeeded(q));
    }
  }

  lemma StopKeeps(c: Client, now: int)
    requires Inv(c)
    ensures Inv(Apply(c, CallStop(now)))
  {
    hide Balances, InOrder, RidsCountUp;
    var d := if c.current.Some? && c.worker then Arm(c, now) else c;
    CancelQueueBalances(d, Stopped);
  }

  lemma RestartKeeps(c: Client)
    requires Inv(c)
    ensures Inv(Apply(c, CallRestart))
  {
    hide Balances, InOrder, RidsCountUp;
    if !c.disposed {
      KillKeepsBalance(c, Killed);
      CancelQueueBalances(FinishIfAny(Kill(c), Killed), Restarted);
      SpawnBalances(CancelQueue(FinishIfAny(Kill(c), Killed), Restarted));
    }
  }

  lemma DisposeKeeps(c: Client)
    requires Inv(c)
    ensures Inv(Apply(c, CallDispose))
  {
    hide Balances, InOrder, RidsCountUp;
    if !c.disposed {
      var d := c.(disposed := true);
      KillKeepsBalance(d, Killed);
      CancelQueueBalances(FinishIfAny(Kill(d), Killed), Disposed);
    }
  }

  lemma ReceiveKeeps(c: Client, g: nat, m: Message, now: int)
    requires Inv(c) && Possible(c, Receive(g, m, now))
    ensures Inv(Apply(c, Receive(g, m, now)))
  {
    hide Balances, InOrder, RidsCountUp, Drain;
    if g == c.gen {
      var d := if (m.Frames? || m.Text?) && c.armed then Extend(c, now) else c;
      var q := d.(tasks := d.tasks + [Task(g, m)]);
      assert Core(q);
      if q.held.None? {
        DrainKeeps(q);
      }
    }
  }

  lemma ConversionKeeps(c: Client)
    requires Inv(c) && c.held.Some?
    ensures Inv(Apply(c, ConversionSettles))
  {
    hide Balances, InOrder, RidsCountUp, Drain, Events;
    var h := c.held.value;
    HoldKeeps(c, None);
    EventsKeep(c.(held := None), h.rest, h.gen);
    var d := Events(c.(held := None), h.rest, h.gen);
    if d.held.None? {
      DrainKeeps(d);
    }
  }

  lemma SpawnSettlesKeeps(c: Client, g: nat, created: bool)
    requires Inv(c) && Possible(c, SpawnSettles(g, created))
    ensures Inv(Apply(c, SpawnSettles(g, created)))
  {
    hide Balances, InOrder, RidsCountUp;
    if g == c.gen && !created { BecomeUnavailableKeeps(c); }
  }

  lemma TimerKeeps(c: Client, now: int)
    requires Inv(c)
    ensures Inv(Apply(c, TimerFires(now)))
  {
    hide Balances, InOrder, RidsCountUp;
    if c.armed && c.current.Some? && now >= c.deadline { ExpireKeeps(c.(armed := false)); }
  }

  /** Every event keeps the whole invariant. */
  lemma ApplyKeepsInv(c: Client, e: Event)
    requires Inv(c) && Possible(c, e)
    ensures Inv(Apply(c, e))
  {
    hide Balances, InOrder, RidsCountUp, Apply;
    match e
    case CallStart => StartKeeps(c);
    case CallRun(cellId) => ApplyRun(c, cellId); RunKeeps(c, cellId);
    case CallCancel(cellId) => CancelKeeps(c, cellId);
    case CallStop(now) => StopKeeps(c, now);
    case CallRestart => RestartKeeps(c);
    case CallDispose => DisposeKeeps(c);
    case SpawnSettles(g, created) => SpawnSettlesKeeps(c, g, created);
    case Receive(g, m, now) => ReceiveKeeps(c, g, m, now);
    case ConversionSettles => if c.held.Some? { ConversionKeeps(c); } else { NothingHeld(c); }
    case TimerFires(now) => TimerKeeps(c, now);
  }

  lemma ApplyRun(c: Client, cellId: string)
    ensures Apply(c, CallRun(cellId)) == Run(c, cellId)
  {}

  lemma NothingHeld(c: Client)
    requires c.held.None?
    ensures Apply(c, ConversionSettles) == c
  {}

  lemma StartKeeps(c: Client)
    requires Inv(c)
    ensures Inv(Apply(c, CallStart))
  {
    SpawnBalances(c);
    hide Balances, InOrder, RidsCountUp;
  }

  lemma CancelKeeps(c: Client, cellId: string)
    requires Inv(c)
    ensures Inv(Apply(c, CallCancel(cellId)))
  {
    CancelBalances(c, cellId);
    hide Balanced, Taken, Cancellations, Kept;
    KeptOfNone(cellId);
  }

  lemma KeptOfNone(cellId: string)
    ensures Kept([], cellId) == []
  {}

  // ---- runs

  ghost predicate IsRun(clients: seq<Client>, events: seq<Event>) {
    && |clients| == |events| + 1
    && clients[0] == Fresh(clients[0].options)
    && forall i :: 0 <= i < |events| ==>
         Possible(clients[i], events[i]) && clients[i + 1] == Apply(clients[i], events[i])
  }

  lemma {:induction false} RunKeepsInv(clients: seq<Client>, events: seq<Event>)
    requires IsRun(clients, events)
    ensures Inv(clients[|events|])
    decreases |events|
  {
    hide Apply;
    var n := |events|;
    if n > 0 {
      RunKeepsInv(clients[..n], events[..n - 1]);
      ApplyKeepsInv(clients[n - 1], events[n - 1]);
    }
  }

  /** Every run() settles exactly once: over any order of events, a call is either settled, by
      one done or one cancelled, or still queued or in flight, and exactly one of these. */
  lemma EveryRunSettlesOnce(clients: seq<Client>, events: seq<Event>, t: nat)
    requires IsRun(clients, events) && t < clients[|events|].tickets
    ensures var c := clients[|events|];
      Occurs(c.log, ADone, t) + Occurs(c.log, ACancel, t) + InQueue(c.queue, t) + OneIf(Flies(c.current, t)) == 1
  {
    RunKeepsInv(clients, events);
    var c := clients[|events|];
    assert Occurs(c.log, ADone, t) + OneIf(Flies(c.current, t)) == Occurs(c.log, AStart, t);
  }

  /** Once the client is disposed of, every call has settled. */
  lemma DisposedHasSettledAll(clients: seq<Client>, events: seq<Event>, t: nat)
    requires IsRun(clients, events) && clients[|events|].disposed && t < clients[|events|].tickets
    ensures var c := clients[|events|]; Occurs(c.log, ADone, t) + Occurs(c.log, ACancel, t) == 1
  {
    EveryRunSettlesOnce(clients, events, t);
    RunKeepsInv(clients, events);
  }

  /** No queued cell is left behind: another one is in flight, or the kernel is starting. */
  lemma QueuedCellsAreServed(clients: seq<Client>, events: seq<Event>)
    requires IsRun(clients, events) && clients[|events|].queue != []
    ensures var c := clients[|events|]; !c.disposed && (c.current.Some? || c.phase == Starting)
  {
    RunKeepsInv(clients, events);
  }

  /** A stopped cell's deadline is never before the watchdog's time nor past its cap. */
  lemma DeadlineIsCapped(clients: seq<Client>, events: seq<Event>)
    requires IsRun(clients, events)
    requires var c := clients[|events|]; c.armed && c.options.watchdogMs <= c.options.capMs
    ensures var c := clients[|events|];
      c.current.Some? && c.stopAt + c.options.watchdogMs <= c.deadline <= c.stopAt + c.options.capMs
  {
    RunKeepsInv(clients, events);
  }

  /** The bound needs watchdogMs <= watchdogCapMs exactly: a Stop of a cell sets the deadline
      past the cap otherwise. */
  lemma StopMeetsTheCap(c: Client, now: int)
    requires c.current.Some? && c.worker && !c.armed
    ensures var d := Apply(c, CallStop(now));
      d.armed && d.stopAt == now &&
        (d.deadline <= d.stopAt + d.options.capMs <==> c.options.watchdogMs <= c.options.capMs)
  {}
}
