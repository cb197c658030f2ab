/** The client that the notebook page has of its kernel (create of packaging/emscripten/web/nb-kernel.js),
    in values: a state, and a function for every call of the API, message of a worker and timer, over the
    queue of cells, the one in flight, the kernel, and the watchdog of Stop. */
module KernelMachine {
  import opened Basics

  /** watchdogMs, watchdogCapMs and stopOnError. */
  datatype Options = Options(watchdogMs: nat, capMs: nat, stopOnError: bool)

  datatype Phase = Off | Starting | Idle | Busy | Sleeping | Input | Dead | Unavailable

  /** How a cell ends: what the kernel says, or why the kernel went away. */
  datatype Status = Ok | Terminated | Failed | Killed | Exited | Crashed

  datatype Reason =
    | Stopped | PreviousFailed | Restarted | KernelExited | KernelCrashed | KernelUnavailable | Removed | Disposed

  /** What onCell gets; ticket numbers the calls of run(), which settle with Done or Cancelled. The gen of
      a start is history: nobody is told. */
  datatype CellEvent =
    | Queued(ticket: nat)
    | Started(ticket: nat, count: nat, gen: nat)
    | Done(ticket: nat, status: Status)
    | Cancelled(ticket: nat, reason: Reason)

  datatype Entry = Entry(ticket: nat, cellId: string)
  datatype InFlight = InFlight(ticket: nat, cellId: string, rid: nat, started: bool)

  /** The rid of an event of the kernel: a number, or anything else (events may be forged). */
  datatype Rid = Rid(n: int) | NoRid

  datatype KernelEvent =
    | Hello
    | Start(rid: Rid)
    | Display(rid: Rid)          // its conversion holds what comes after it
    | Ended(rid: Rid, status: Status)
    | BadRequest
    | OtherEvent                 // clear, stream, error, stopped, pong, unknown, or a protocol error

  datatype Message =
    | Ready(notebook: bool)
    | Frames(events: seq<KernelEvent>)  // what the kernel wrote to its event stream
    | Text                              // an output of fd 1 or 2
    | WorkerState(waiting: bool, sleeping: bool)
    | Interrupted(registered: bool)
    | Exit
    | Crash
    | WorkerError
    | OtherMessage

  datatype Task = Task(gen: nat, message: Message)

  /** A display being converted, and the events of its output that come after it. */
  datatype Hold = Hold(gen: nat, rest: seq<KernelEvent>)

  datatype Client = Client(
    options: Options,
    gen: nat, worker: bool, ready: bool, hello: bool, phase: Phase, disposed: bool,
    queue: seq<Entry>, current: Option<InFlight>, execCount: nat, cellOf: map<nat, string>,
    tasks: seq<Task>, held: Option<Hold>,
    armed: bool, stopAt: int, deadline: int,
    tickets: nat, log: seq<CellEvent>)

  function Fresh(options: Options): Client {
    Client(options, 0, false, false, false, Off, false, [], None, 0, map[], [], None, false, 0, 0, 0, [])
  }

  // ---- the kernel goes away

  /** A new generation: whatever the worker until now still says is not heard, and what was kept for it
      is dropped. */
  function Kill(c: Client): Client {
    c.(gen := c.gen + 1, worker := false, ready := false, hello := false, tasks := [], cellOf := map[], armed := false)
  }

  function Cancellations(queue: seq<Entry>, why: Reason): seq<CellEvent> {
    if queue == [] then [] else [Cancelled(queue[0].ticket, why)] + Cancellations(queue[1..], why)
  }

  function CancelQueue(c: Client, why: Reason): (d: Client)
    ensures d.tasks == c.tasks && d.gen == c.gen && d.held == c.held && d.hello == c.hello && d.current == c.current
  {
    c.(queue := [], log := c.log + Cancellations(c.queue, why))
  }

  /** The cell in flight ends; one that failed may cancel those queued. */
  function Finish(c: Client, status: Status, fromKernel: bool): (d: Client)
    requires c.current.Some?
    ensures d.tasks == c.tasks && d.gen == c.gen && d.held == c.held && d.hello == c.hello && d.current.None?
  {
    hide CancelQueue;
    var d := c.(current := None, armed := false, log := c.log + [Done(c.current.value.ticket, status)]);
    if fromKernel && status != Ok && status != Terminated && c.options.stopOnError then CancelQueue(d, PreviousFailed)
    else d
  }

  function FinishIfAny(c: Client, status: Status): Client {
    if c.current.Some? then Finish(c, status, false) else c
  }

  function Spawn(c: Client): Client {
    Kill(c).(execCount := 0, phase := Starting)
  }

  predicate IsDown(p: Phase) { p == Off || p == Unavailable || p == Dead }

  function SpawnIfNeeded(c: Client): Client {
    if IsDown(c.phase) then Spawn(c) else c
  }

  function BecomeUnavailable(c: Client): Client {
    CancelQueue(FinishIfAny(Kill(c), Crashed).(phase := Unavailable), KernelUnavailable)
  }

  function Gone(c: Client, exited: bool): Client {
    CancelQueue(FinishIfAny(Kill(c), if exited then Exited else Crashed),
                if exited then KernelExited else KernelCrashed).(phase := Dead)
  }

  /** The deadline of a Stop passed: the kernel is killed and started afresh. */
  function Expire(c: Client): Client
    requires c.current.Some?
  {
    Spawn(CancelQueue(Finish(Kill(c), Killed, false), Stopped))
  }

  // ---- the kernel's events

  /** Send the next cell, when the kernel is there and has none. */
  function Pump(c: Client): (d: Client)
    ensures d.tasks == c.tasks && d.gen == c.gen && d.held == c.held
  {
    if !c.hello || c.current.Some? || c.queue == [] || c.disposed then c
    else
      var q, count := c.queue[0], c.execCount + 1;
      c.(queue := c.queue[1..], execCount := count, current := Some(InFlight(q.ticket, q.cellId, count, false)),
         cellOf := c.cellOf[count := q.cellId], log := c.log + [Started(q.ticket, count, c.gen)], phase := Busy)
  }

  function Handle(c: Client, e: KernelEvent): (d: Client)
    ensures d.tasks == c.tasks && d.gen == c.gen
  {
    hide Finish, Pump;
    match e
    case Hello =>
      var d := if c.hello && c.current.Some? then Finish(c, Failed, true) else c;
      Pump(d.(hello := true, phase := Idle))
    case Start(rid) =>
      if c.current.Some? && rid == Rid(c.current.value.rid) then
        c.(current := Some(c.current.value.(started := true)))
      else c
    case Ended(rid, status) =>
      if c.current.Some? && rid == Rid(c.current.value.rid) then Pump(Finish(c, status, true).(phase := Idle)) else c
    case BadRequest =>
      if c.current.Some? && !c.current.value.started then Pump(Finish(c, Failed, true).(phase := Idle)) else c
    case _ => c
  }

  /** The events of one output, up to a display that holds the rest, or a new generation. */
  function Events(c: Client, list: seq<KernelEvent>, gen: nat): (d: Client)
    ensures d.tasks == c.tasks && d.gen == c.gen
    decreases |list|
  {
    hide Handle;
    if list == [] || gen != c.gen then c
    else if list[0].Display? then c.(held := Some(Hold(gen, list[1..])))
    else Events(Handle(c, list[0]), list[1..], gen)
  }

  function HandleMessage(c: Client, m: Message): (d: Client)
    ensures |d.tasks| <= |c.tasks|
  {
    match m
    case Ready(notebook) => if notebook then c.(ready := true) else BecomeUnavailable(c)
    case Frames(events) => Events(c, events, c.gen)
    case WorkerState(waiting, sleeping) =>
      if !c.hello || c.current.None? || !c.current.value.started then c
      else c.(phase := if waiting then Input else if sleeping then Sleeping else Busy)
    case Interrupted(registered) => if !registered && c.armed && c.current.Some? then Expire(c) else c
    case Exit => Gone(c, true)
    case Crash | WorkerError => if c.ready then Gone(c, false) else BecomeUnavailable(c)
    case _ => c
  }

  /** Handles what waits, one after the other, until a conversion holds the rest. */
  function Drain(c: Client): Client
    decreases |c.tasks|
  {
    if c.tasks == [] then c
    else
      var t, rest := c.tasks[0], c.(tasks := c.tasks[1..]);
      var d := if t.gen == c.gen then HandleMessage(rest, t.message) else rest;
      if d.held.Some? then d else Drain(d)
  }

  // ---- the Stop watchdog

  function Arm(c: Client, now: int): Client {
    if c.armed then c else c.(armed := true, stopAt := now, deadline := now + c.options.watchdogMs)
  }

  function Extend(c: Client, now: int): Client {
    c.(deadline := Min(Max(c.deadline, now + c.options.watchdogMs), c.stopAt + c.options.capMs))
  }

  // ---- the calls of the API, and what happens outside

  datatype Event =
    | CallStart
    | CallRun(cellId: string)
    | CallCancel(cellId: string)
    | CallStop(now: int)
    | CallRestart
    | CallDispose
    | SpawnSettles(g: nat, created: bool)           // createWorker() after a spawn, or its failure
    | Receive(g: nat, message: Message, now: int)   // from the worker of generation g
    | ConversionSettles
    | TimerFires(now: int)

  function Kept(queue: seq<Entry>, cellId: string): seq<Entry> {
    if queue == [] then []
    else (if queue[0].cellId == cellId then [] else [queue[0]]) + Kept(queue[1..], cellId)
  }

  function Taken(queue: seq<Entry>, cellId: string): seq<Entry> {
    if queue == [] then []
    else (if queue[0].cellId == cellId then [queue[0]] else []) + Taken(queue[1..], cellId)
  }

  function Run(c: Client, cellId: string): Client {
    var t := c.tickets;
    if c.disposed then c.(tickets := t + 1, log := c.log + [Cancelled(t, Disposed)])
    else Pump(SpawnIfNeeded(c.(tickets := t + 1, queue := c.queue + [Entry(t, cellId)], log := c.log + [Queued(t)])))
  }

  function OnStart(c: Client): Client {
    if c.disposed || c.hello || c.phase == Starting then c else SpawnIfNeeded(c)
  }

  function OnCancel(c: Client, cellId: string): Client {
    c.(queue := Kept(c.queue, cellId), log := c.log + Cancellations(Taken(c.queue, cellId), Removed))
  }

  function OnStop(c: Client, now: int): Client {
    CancelQueue(if c.current.Some? && c.worker then Arm(c, now) else c, Stopped)
  }

  function OnRestart(c: Client): Client {
    if c.disposed then c else Spawn(CancelQueue(FinishIfAny(Kill(c), Killed), Restarted))
  }

  function OnDispose(c: Client): Client {
    if c.disposed then c
    else CancelQueue(FinishIfAny(Kill(c.(disposed := true)), Killed), Disposed).(phase := Off)
  }

  function OnSpawn(c: Client, g: nat, created: bool): Client {
    if g != c.gen then c
    else if !created then BecomeUnavailable(c)
    else if c.disposed then c
    else c.(worker := true)
  }

  function OnMessage(c: Client, g: nat, m: Message, now: int): Client {
    if g != c.gen then c
    else
      var d := if (m.Frames? || m.Text?) && c.armed then Extend(c, now) else c;
      var q := d.(tasks := d.tasks + [Task(g, m)]);
      if q.held.None? then Drain(q) else q
  }

  function OnConversion(c: Client): Client {
    if c.held.None? then c
    else
      var d := Events(c.(held := None), c.held.value.rest, c.held.value.gen);
      if d.held.Some? then d else Drain(d)
  }

  function OnTimer(c: Client, now: int): Client {
    if !c.armed then c
    else
      var d := c.(armed := false);
      if d.current.None? then d else if now < d.deadline then d.(armed := true) else Expire(d)
  }

  function Apply(c: Client, e: Event): Client {
    match e
    case CallStart => OnStart(c)
    case CallRun(cellId) => Run(c, cellId)
    case CallCancel(cellId) => OnCancel(c, cellId)
    case CallStop(now) => OnStop(c, now)
    case CallRestart => OnRestart(c)
    case CallDispose => OnDispose(c)
    case SpawnSettles(g, created) => OnSpawn(c, g, created)
    case Receive(g, m, now) => OnMessage(c, g, m, now)
    case ConversionSettles => OnConversion(c)
    case TimerFires(now) => OnTimer(c, now)
  }

  // ---- the invariant

  datatype Kind = AStart | ADone | ACancel

  ghost predicate IsA(e: CellEvent, k: Kind, t: nat) {
    e.ticket == t && (match k case AStart => e.Started? case ADone => e.Done? case ACancel => e.Cancelled?)
  }

  /** How often the log has an event of kind k for the call t. */
  ghost function Occurs(log: seq<CellEvent>, k: Kind, t: nat): nat {
    if log == [] then 0 else (if IsA(log[|log| - 1], k, t) then 1 else 0) + Occurs(log[..|log| - 1], k, t)
  }

  ghost function InQueue(queue: seq<Entry>, t: nat): nat {
    if queue == [] then 0 else (if queue[0].ticket == t then 1 else 0) + InQueue(queue[1..], t)
  }

  ghost predicate Flies(current: Option<InFlight>, t: nat) { current.Some? && current.value.ticket == t }

  /** Every call of run() so far is exactly one of queued, cancelled or started, and one that
      started is in flight or done, once. */
  ghost predicate Balances(log: seq<CellEvent>, queue: seq<Entry>, current: Option<InFlight>, tickets: nat) {
    forall t: nat ::
      && Occurs(log, ACancel, t) + Occurs(log, AStart, t) + InQueue(queue, t) == OneIf(t < tickets)
      && Occurs(log, ADone, t) + OneIf(Flies(current, t)) == Occurs(log, AStart, t)
  }

  /** The cells that were started, in order. */
  ghost function Starts(log: seq<CellEvent>): (s: seq<CellEvent>)
    ensures forall e :: e in s ==> e.Started?
  {
    if log == [] then []
    else Starts(log[..|log| - 1]) + if log[|log| - 1].Started? then [log[|log| - 1]] else []
  }

  ghost function TicketsOf(events: seq<CellEvent>): (s: seq<nat>)
    ensures |s| == |events|
  {
    seq(|events|, k requires 0 <= k < |events| => events[k].ticket)
  }

  ghost function Waiting(queue: seq<Entry>): (s: seq<nat>)
    ensures |s| == |queue|
  {
    seq(|queue|, k requires 0 <= k < |queue| => queue[k].ticket)
  }

  ghost predicate Rising(s: seq<nat>) { forall j, k :: 0 <= j < k < |s| ==> s[j] < s[k] }

  ghost predicate Below(s: seq<nat>, w: seq<nat>) { forall x, y :: x in s && y in w ==> x < y }

  ghost predicate AllBelow(s: seq<nat>, t: nat) { forall x :: x in s ==> x < t }

  /** Cells are started in the order of their calls: what was started, what waits, and what may yet be
      called, follow each other. */
  ghost predicate InOrder(log: seq<CellEvent>, queue: seq<Entry>, tickets: nat) {
    var s, w := TicketsOf(Starts(log)), Waiting(queue);
    Rising(s) && Rising(w) && Below(s, w) && AllBelow(s, tickets) && AllBelow(w, tickets)
  }

  ghost predicate Earlier(gen: nat, count: nat, gen': nat, count': nat) {
    gen < gen' || (gen == gen' && count < count')
  }

  /** No rid is given twice to one kernel: they count up. */
  ghost predicate RidsCountUp(log: seq<CellEvent>, gen: nat, execCount: nat) {
    var s := Starts(log);
    && (forall j, k :: 0 <= j < k < |s| ==> Earlier(s[j].gen, s[j].count, s[k].gen, s[k].count))
    && (forall k :: 0 <= k < |s| ==> Earlier(s[k].gen, s[k].count, gen, execCount + 1))
  }

  ghost predicate Balanced(c: Client) {
    && Balances(c.log, c.queue, c.current, c.tickets)
    && InOrder(c.log, c.queue, c.tickets) && RidsCountUp(c.log, c.gen, c.execCount)
  }

  ghost predicate Coherent(c: Client) {
    && (c.current.Some? ==> c.hello && c.current.value.rid == c.execCount)
    && (c.hello ==> c.worker)
    && (c.hello <==> c.phase == Idle || c.phase == Busy || c.phase == Sleeping || c.phase == Input)
    && (c.armed ==> c.current.Some?)
    && (c.disposed ==> c.phase == Off && c.queue == [])
    && (forall i :: 0 <= i < |c.tasks| ==> c.tasks[i].gen == c.gen)
    && (c.tasks != [] ==> c.worker && !c.disposed)
    && (c.held.Some? ==> c.held.value.gen <= c.gen && (c.held.value.gen == c.gen ==> c.worker && !c.disposed))
  }

  /** No queued cell is ever left behind: a kernel runs another one, or is on its way. */
  ghost predicate Progressing(c: Client) {
    c.queue != [] ==> if c.hello then c.current.Some? else c.phase == Starting
  }

  ghost predicate Timely(c: Client) {
    c.armed && c.options.watchdogMs <= c.options.capMs ==>
      c.stopAt + c.options.watchdogMs <= c.deadline <= c.stopAt + c.options.capMs
  }

  ghost predicate Core(c: Client) {
    Balanced(c) && Coherent(c) && Progressing(c) && Timely(c)
  }

  /** Between two events the messages are all handled, unless a conversion holds them. */
  ghost predicate Inv(c: Client) {
    Core(c) && (c.held.None? ==> c.tasks == [])
  }
}
