module KernelOrder {
  // In what order cells are started, under which rids, and what ends and cancellations tell.

  import opened Basics
  import opened KernelMachine
  import opened KernelProofs

  // ---- order

  lemma RunIsBalanced(clients: seq<Client>, events: seq<Event>)
    requires IsRun(clients, events)
    ensures Balanced(clients[|events|])
  {
    RunKeepsInv(clients, events);
    hide Balances, InOrder, RidsCountUp;
  }

  /** Over every run: of two cells that were started, the one whose run() was called first was started
      first, and every cell that still waits was called after all that were started. */
  lemma CellsStartInTheirOrder(clients: seq<Client>, events: seq<Event>)
    requires IsRun(clients, events)
    ensures var c := clients[|events|];
      var s := Starts(c.log);
      && (forall j, k :: 0 <= j < k < |s| ==> s[j].ticket < s[k].ticket)
      && (forall j, k :: 0 <= j < |s| && 0 <= k < |c.queue| ==> s[j].ticket < c.queue[k].ticket)
      && (forall j, k :: 0 <= j < k < |c.queue| ==> c.queue[j].ticket < c.queue[k].ticket)
  {
    RunIsBalanced(clients, events);
    var c := clients[|events|];
    hide Starts, Balances, RidsCountUp;
    var s := Starts(c.log);
    var t, w := TicketsOf(s), Waiting(c.queue);
    forall j, k | 0 <= j < k < |s| ensures s[j].ticket < s[k].ticket {
      assert t[j] < t[k];
    }
    forall j, k | 0 <= j < |s| && 0 <= k < |c.queue| ensures s[j].ticket < c.queue[k].ticket {
      assert t[j] in t && w[k] in w;
    }
    forall j, k | 0 <= j < k < |c.queue| ensures c.queue[j].ticket < c.queue[k].ticket {
      assert w[j] < w[k];
    }
  }

  /** What is started next is what waited first; nobody is passed over. */
  lemma TheFirstIsStarted(c: Client)
    requires c.hello && c.current.None? && c.queue != [] && !c.disposed
    ensures var d := Pump(c);
      && d.current.Some? && d.current.value.ticket == c.queue[0].ticket && d.current.value.cellId == c.queue[0].cellId
      && [c.queue[0]] + d.queue == c.queue
      && d.cellOf == c.cellOf[d.current.value.rid := c.queue[0].cellId]
  {}

  /** Over every run: no kernel is given a rid twice. What is said late about a cell that has ended can
      be about no other. */
  lemma RidsAreNew(clients: seq<Client>, events: seq<Event>, j: nat, k: nat)
    requires IsRun(clients, events)
    requires var s := Starts(clients[|events|].log); j < k < |s| && s[j].gen == s[k].gen
    ensures var s := Starts(clients[|events|].log); s[j].count < s[k].count
  {
    RunIsBalanced(clients, events);
    hide Starts, Balances, InOrder;
  }

  // ---- what a cell is told

  /** A cell whose kernel says how it ended is told so; so is one that a bad request or a new hello ends. */
  lemma TheEndIsTold(c: Client, e: KernelEvent)
    requires c.current.Some?
    requires e.Hello? ==> c.hello
    requires e.Hello? || (e.Ended? && e.rid == Rid(c.current.value.rid)) || (e.BadRequest? && !c.current.value.started)
    ensures c.log + [Done(c.current.value.ticket, if e.Ended? then e.status else Failed)] <= Handle(c, e).log
  {
    hide Cancellations, Finish, Pump;
    var status := if e.Ended? then e.status else Failed;
    FinishTells(c, status);
    var d := Finish(c, status, true);
    PumpTellsMore(d.(hello := true, phase := Idle));
    PumpTellsMore(d.(phase := Idle));
  }

  lemma FinishTells(c: Client, status: Status)
    requires c.current.Some?
    ensures c.log + [Done(c.current.value.ticket, status)] <= Finish(c, status, true).log
  {
    hide Cancellations;
  }

  lemma PumpTellsMore(c: Client)
    ensures c.log <= Pump(c).log
  {}

  lemma {:induction false} CancellationsTellAll(queue: seq<Entry>, why: Reason, e: Entry)
    requires e in queue
    ensures Cancelled(e.ticket, why) in Cancellations(queue, why)
  {
    if e != queue[0] {
      CancellationsTellAll(queue[1..], why, e);
    }
  }

  /** With stopOnError a cell that fails takes all that wait with it: they are cancelled, and none starts. */
  lemma AFailureCancelsTheRest(c: Client, rid: Rid, status: Status)
    requires c.current.Some? && rid == Rid(c.current.value.rid)
    ensures var d := Handle(c, Ended(rid, status));
      if c.options.stopOnError && status != Ok && status != Terminated then
        d.queue == [] && d.current.None? && forall e :: e in c.queue ==> Cancelled(e.ticket, PreviousFailed) in d.log
      else
        |d.queue| == |c.queue| - OneIf(c.hello && c.queue != [] && !c.disposed)
  {
    if c.options.stopOnError && status != Ok && status != Terminated {
      forall e | e in c.queue ensures Cancelled(e.ticket, PreviousFailed) in Cancellations(c.queue, PreviousFailed) {
        CancellationsTellAll(c.queue, PreviousFailed, e);
      }
    }
  }

  /** cancel(): the cells with that id are told that they are removed, the others wait on, in order. */
  lemma {:induction false} OnlyThatCellIsRemoved(queue: seq<Entry>, cellId: string)
    ensures forall e :: e in Kept(queue, cellId) <==> e in queue && e.cellId != cellId
    ensures forall e :: e in Taken(queue, cellId) <==> e in queue && e.cellId == cellId
  {
    if queue != [] {
      OnlyThatCellIsRemoved(queue[1..], cellId);
      assert queue == [queue[0]] + queue[1..];
    }
  }

  lemma CancelRemovesThatCell(c: Client, cellId: string)
    ensures var d := Apply(c, CallCancel(cellId));
      && (forall e :: e in d.queue <==> e in c.queue && e.cellId != cellId)
      && (forall e :: e in c.queue && e.cellId == cellId ==> Cancelled(e.ticket, Removed) in d.log)
  {
    OnlyThatCellIsRemoved(c.queue, cellId);
    var taken := Taken(c.queue, cellId);
    forall e | e in taken ensures Cancelled(e.ticket, Removed) in Cancellations(taken, Removed) {
      CancellationsTellAll(taken, Removed, e);
    }
  }

  /** A kernel that goes away tells the cell in flight why, and those that wait. */
  lemma GoingTellsAll(c: Client, d: Client, status: Status, why: Reason)
    requires c.current.Some? && d == CancelQueue(FinishIfAny(Kill(c), status), why)
    ensures Done(c.current.value.ticket, status) in d.log && d.current.None? && d.queue == [] && d.gen > c.gen
    ensures forall e :: e in c.queue ==> Cancelled(e.ticket, why) in d.log
  {
    forall e | e in c.queue ensures Cancelled(e.ticket, why) in Cancellations(c.queue, why) {
      CancellationsTellAll(c.queue, why, e);
    }
  }

  /** Why a cell ended is told by what ended it: the exit or crash of its kernel, a kernel that is not to be had,
      the deadline of a Stop, restart() or dispose(); those that wait are told too. */
  datatype Going = ByRestart | ByDispose | ByDeadline | ByExit | ByCrash | ByNoWorker

  function Gone(c: Client, g: Going): Client
    requires c.current.Some?
  {
    match g
    case ByRestart => Apply(c, CallRestart)
    case ByDispose => Apply(c, CallDispose)
    case ByDeadline => Apply(c, TimerFires(c.deadline))
    case ByExit => HandleMessage(c, Exit)
    case ByCrash => HandleMessage(c, Crash)
    case ByNoWorker => Apply(c, SpawnSettles(c.gen, false))
  }

  function StatusTold(g: Going): Status {
    match g
    case ByRestart | ByDispose | ByDeadline => Killed
    case ByExit => Exited
    case ByCrash | ByNoWorker => Crashed
  }

  function ReasonTold(g: Going, ready: bool): Reason {
    match g
    case ByRestart => Restarted
    case ByDispose => Disposed
    case ByDeadline => Stopped
    case ByExit => KernelExited
    case ByCrash => if ready then KernelCrashed else KernelUnavailable
    case ByNoWorker => KernelUnavailable
  }

  lemma TheReasonIsTold(c: Client, g: Going)
    requires c.current.Some? && !c.disposed && (g.ByDeadline? ==> c.armed)
    ensures var d := Gone(c, g);
      && Done(c.current.value.ticket, StatusTold(g)) in d.log && d.current.None? && d.queue == [] && d.gen > c.gen
      && (forall e :: e in c.queue ==> Cancelled(e.ticket, ReasonTold(g, c.ready)) in d.log)
      && d.phase == (match g case ByRestart | ByDeadline => Starting case ByDispose => Off case ByExit => Dead
                             case ByCrash => if c.ready then Dead else Unavailable case ByNoWorker => Unavailable)
      && (d.phase == Starting ==> d.execCount == 0)
  {
    forall why, e | e in c.queue ensures Cancelled(e.ticket, why) in Cancellations(c.queue, why) {
      CancellationsTellAll(c.queue, why, e);
    }
  }
}
