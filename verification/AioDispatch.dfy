/** The registered descriptors of src/unix/aio.c and the dispatch of their events, as a machine
    over values: its handlers may enable, change and disable descriptors, and poll again. */
module AioDispatch {

  datatype Flag = Exceptions | Readable | Writable | External
  type Flags = set<Flag>

  /** A function pointer; NO_HANDLER for NULL. */
  type Handler = nat
  const NO_HANDLER: Handler := 0

  /** A descriptor in memory: id is its allocation, and says when two are the same. */
  datatype Descriptor =
    Descriptor(id: nat, fd: int, data: int, read: Handler, write: Handler, mask: Flags, addErrno: int)

  /** An event of a batch: of the signal pipe, or of a descriptor that it points to. */
  datatype Event = FromPipe | Event(id: nat, failed: bool, readable: bool, writable: bool)

  datatype Place = AtEvent | InRead | AfterRead | InWrite

  /** A dispatch in progress: what aio_handle_events has on the C stack. */
  datatype Frame = Frame(events: seq<Event>, index: nat, at: Place)

  datatype Call = Call(id: nat, fd: int, data: int, handler: Handler, flags: Flags)

  /** mallocs: how many descriptors were ever allocated. freed: those given to free, in order.
      calls: the handler calls, in order. crashed: memory was read after it was freed. */
  datatype Aio = Aio(list: seq<Descriptor>, retired: seq<Descriptor>, depth: nat, frames: seq<Frame>,
                     mallocs: nat, freed: seq<nat>, calls: seq<Call>, crashed: bool)

  const START: Aio := Aio([], [], 0, [], 0, [], [], false)

  // ---- the list

  /** The index of the first descriptor of an fd, or -1. */
  function Find(list: seq<Descriptor>, fd: int): (k: int)
    ensures -1 <= k < |list|
    ensures k >= 0 ==> list[k].fd == fd
    ensures k < 0 ==> forall j :: 0 <= j < |list| ==> list[j].fd != fd
  {
    if list == [] then -1
    else if list[0].fd == fd then 0
    else var k := Find(list[1..], fd); if k < 0 then -1 else k + 1
  }

  function Without<T>(list: seq<T>, k: nat): seq<T>
    requires k < |list|
  {
    list[..k] + list[k + 1..]
  }

  function NewDescriptor(id: nat, fd: int, data: int): Descriptor {
    Descriptor(id, fd, data, NO_HANDLER, NO_HANDLER, {}, 0)
  }

  function Enabled(s: Aio, fd: int, data: int): Aio {
    if fd < 0 then s
    else
      var k := Find(s.list, fd);
      if k >= 0 then s.(list := s.list[k := s.list[k].(data := data, addErrno := 0)])
      else s.(list := [NewDescriptor(s.mallocs, fd, data)] + s.list, mallocs := s.mallocs + 1)
  }

  function WithHandler(d: Descriptor, handler: Handler, mask: Flags): Descriptor {
    d.(read := if Readable in mask then handler else NO_HANDLER,
      write := if Writable in mask then handler else NO_HANDLER,
       mask := mask)
  }

  function Handled(s: Aio, fd: int, handler: Handler, mask: Flags): Aio {
    var k := Find(s.list, fd);
    if k < 0 then s else s.(list := s.list[k := WithHandler(s.list[k], handler, mask)])
  }

  function SuspendedDescriptor(d: Descriptor, mask: Flags): Descriptor {
    if d.mask == {} then d
    else d.(read := if Readable in mask then NO_HANDLER else d.read,
      write := if Writable in mask then NO_HANDLER else d.write,
            mask := d.mask - (mask - {External}))
  }

  function Suspended(s: Aio, fd: int, mask: Flags): Aio {
    var k := Find(s.list, fd);
    if k < 0 then s else s.(list := s.list[k := SuspendedDescriptor(s.list[k], mask)])
  }

  function Parked(d: Descriptor): Descriptor {
    d.(fd := -1, read := NO_HANDLER, write := NO_HANDLER, mask := {})
  }

  /** A descriptor leaves for good: freed at once outside a dispatch, kept aside during one. */
  function Retired(s: Aio, d: Descriptor): Aio {
    if s.depth == 0 then s.(freed := s.freed + [d.id]) else s.(retired := [Parked(d)] + s.retired)
  }

  function Disabled(s: Aio, fd: int): Aio {
    var k := Find(s.list, fd);
    if k < 0 then s else Retired(s.(list := Without(s.list, k)), s.list[k])
  }

  function AllRemoved(s: Aio): (t: Aio)
    decreases |s.list|
  {
    if s.list == [] then s else AllRemoved(Retired(s.(list := s.list[1..]), s.list[0]))
  }

  function RetiredFreed(s: Aio): Aio
    decreases |s.retired|
  {
    if s.retired == [] then s
    else RetiredFreed(s.(retired := s.retired[1..], freed := s.freed + [s.retired[0].id]))
  }

  // ---- the dispatch

  function IndexOf(list: seq<Descriptor>, id: nat): (k: int)
    ensures -1 <= k < |list|
    ensures k >= 0 ==> list[k].id == id
  {
    if list == [] then -1
    else if list[0].id == id then 0
    else var k := IndexOf(list[1..], id); if k < 0 then -1 else k + 1
  }

  predicate InMemory(s: Aio, id: nat) { IndexOf(s.list, id) >= 0 || IndexOf(s.retired, id) >= 0 }

  function Read(s: Aio, id: nat): Descriptor
    requires InMemory(s, id)
  {
    var k := IndexOf(s.list, id);
    if k >= 0 then s.list[k] else s.retired[IndexOf(s.retired, id)]
  }

  function ClearMask(s: Aio, id: nat): Aio {
    var k, j := IndexOf(s.list, id), IndexOf(s.retired, id);
    if k >= 0 then s.(list := s.list[k := s.list[k].(mask := {})])
    else if j >= 0 then s.(retired := s.retired[j := s.retired[j].(mask := {})])
    else s
  }

  function Top(s: Aio): Frame
    requires s.frames != []
  {
    s.frames[|s.frames| - 1]
  }

  function WithTop(s: Aio, f: Frame): Aio
    requires s.frames != []
  {
    s.(frames := s.frames[|s.frames| - 1 := f])
  }

  function NextEvent(s: Aio): Aio
    requires s.frames != []
  {
    WithTop(s, Top(s).(index := Top(s).index + 1, at := AtEvent))
  }

  function CallOf(d: Descriptor, handler: Handler, flag: Flag, failed: bool): Call {
    Call(d.id, d.fd, d.data, handler, {flag} + if failed then {Exceptions} else {})
  }

  function Called(s: Aio, d: Descriptor, handler: Handler, flag: Flag, failed: bool, at: Place): Aio
    requires s.frames != []
  {
    WithTop(s, Top(s).(at := at)).(calls := s.calls + [CallOf(d, handler, flag, failed)])
  }

  /** The dispatch is over: the outermost one frees what was parked. */
  function Finished(s: Aio): Aio
    requires s.frames != []
  {
    var t := s.(frames := s.frames[..|s.frames| - 1], depth := if s.depth > 0 then s.depth - 1 else 0);
    if t.depth == 0 then RetiredFreed(t) else t
  }

  function AtRead(s: Aio, e: Event): Aio
    requires s.frames != [] && e.Event?
  {
    if !InMemory(s, e.id) then s.(crashed := true)
    else
      var d := Read(s, e.id);
      if d.fd == -1 then NextEvent(s)
      else
        var t := ClearMask(s, e.id);
        if e.readable && d.read != NO_HANDLER then Called(t, d, d.read, Readable, e.failed, InRead)
        else WithTop(t, Top(t).(at := AfterRead))
  }

  /** The second half of an event, on the descriptor as the first handler left it. */
  function AtWrite(s: Aio, e: Event): Aio
    requires s.frames != [] && e.Event?
  {
    if !e.writable then NextEvent(s)
    else if !InMemory(s, e.id) then s.(crashed := true)
    else
      var d := Read(s, e.id);
      if d.write != NO_HANDLER then Called(s, d, d.write, Writable, e.failed, InWrite) else NextEvent(s)
  }

  /** The innermost dispatch goes on: its handler returns, or it takes its next step. */
  function Dispatched(s: Aio): Aio
    requires s.frames != []
  {
    var f := Top(s);
    if f.index >= |f.events| then Finished(s)
    else
      var e := f.events[f.index];
      match f.at
      case AtEvent => if e.FromPipe? then NextEvent(s) else AtRead(s, e)
      case InRead => WithTop(s, f.(at := AfterRead))
      case AfterRead => if e.FromPipe? then NextEvent(s) else AtWrite(s, e)
      case InWrite => NextEvent(s)
  }

  /** A batch of events is dispatched. */
  function Polled(s: Aio, events: seq<Event>): Aio {
    if events == [] then s else s.(depth := s.depth + 1, frames := s.frames + [Frame(events, 0, AtEvent)])
  }

  datatype Action = Enable(fd: int, data: int) | SetHandler(fd: int, handler: Handler, mask: Flags)
                  | Suspend(fd: int, mask: Flags) | Disable(fd: int) | RemoveAll | Poll(events: seq<Event>) | GoOn

  /** The VM runs, or a handler does. */
  predicate UserRuns(s: Aio) {
    s.frames == [] || Top(s).at == InRead || Top(s).at == InWrite
  }

  /** What may come next. A poll answers events of descriptors that are in the list. */
  predicate CanTake(s: Aio, a: Action) {
    match a
    case GoOn => s.frames != []
    case Poll(events) =>
      UserRuns(s) && forall k :: 0 <= k < |events| && events[k].Event? ==> IndexOf(s.list, events[k].id) >= 0
    case _ => UserRuns(s)
  }

  function Take(s: Aio, a: Action): Aio
    requires CanTake(s, a)
  {
    match a
    case Enable(fd, data) => Enabled(s, fd, data)
    case SetHandler(fd, handler, mask) => Handled(s, fd, handler, mask)
    case Suspend(fd, mask) => Suspended(s, fd, mask)
    case Disable(fd) => Disabled(s, fd)
    case RemoveAll => AllRemoved(s)
    case Poll(events) => Polled(s, events)
    case GoOn => Dispatched(s)
  }

  /** t is reached from s by these actions. */
  ghost predicate Reaches(s: Aio, actions: seq<Action>, t: Aio)
    decreases |actions|
  {
    if actions == [] then s == t else CanTake(s, actions[0]) && Reaches(Take(s, actions[0]), actions[1..], t)
  }
}
