module ExternalSemaphores {
  import opened Basics

  // The external-semaphore protocol of the VM, and the poll that it wakes up, as a state machine:
  // src/common/sqExternalSemaphores.c together with src/unix/aio.c: any number of signalling threads
  // and the VM thread, each a program counter over atomic, sequentially consistent steps. Indices are
  // zero-based, as in signalRequests.

  /** The table has n entries; passes are asked for the first `scanned` of them (the
      argument externalSemaphoreTableSize); the pipe holds at most `capacity` bytes. */
  datatype Config = Config(n: nat, scanned: int, capacity: nat)

  const MAX_TIDE: int := 0x7fff_ffff
  const MIN_TIDE: int := -1

  datatype Tide = Tide(low: int, high: int)

  const EMPTY: Tide := Tide(MAX_TIDE, MIN_TIDE)

  predicate InTide(t: Tide, i: int) { t.low <= i <= t.high }

  /** Where a call of signalSemaphoreWithIndex is. From Locked to Flagged it holds the mutex. */
  datatype SignalPc =
    | Entering   // at the wait on the mutex
    | Locked     // at the increment of requests
    | Counted    // at the update of the low tide mark
    | LowMarked  // at the update of the high tide mark
    | Tided      // at the store of checkSignalRequests
    | Flagged    // at the signal of the mutex
    | Released   // in aioInterruptPoll, at the test of isPooling
    | SawPoll    // at the write to the pipe
    | Storing    // at the store of pendingInterruption

  datatype Signaller = Signaller(index: nat, pc: SignalPc)

  /** Where the VM thread is: elsewhere, in a pass of doSignalExternalSemaphores (holding the
      mutex from PassLocked to PassRead), or in aioPoll. sleeps is a non-zero timeout. */
  datatype VmPc =
    | Elsewhere
    | PassEntering
    | PassLocked                    // at the test of checkSignalRequests
    | PassCleared                   // it cleared the flag; at the reset of the idle tide marks
    | PassReset                     // at the toggle of useTideA
    | PassToggled                   // at the reads of the marks in use before
    | PassRead(low: int, high: int) // at the signal of the mutex
    | Scan(k: int, top: int)        // at the test of responses against requests for index k
    | Delivered(k: int, top: int)   // it signalled k; at the increment of responses
    | PollStarting(sleeps: bool)    // at the store of isPooling
    | PollFilling(sleeps: bool)     // filling the epoll set, then loading pendingInterruption
    | PollChecking(sleeps: bool)    // at the load of checkSignalRequests
    | Waiting(sleeps: bool)         // in epoll_wait
    | Woken                         // at the clearing of isPooling
    | Clearing                      // at the clearing of pendingInterruption
    | Flushing                      // emptying the pipe

  datatype Owner = Nobody | Vm | Thread(t: nat)

  /** delivered counts the semaphore signals the VM made, and atSwap is what requests held
      when the last pass cleared the flag: both are history, no step reads them. */
  datatype State = State(
    requests: seq<nat>, responses: seq<nat>, delivered: seq<nat>, atSwap: seq<nat>,
    check: bool, useA: bool, tideA: Tide, tideB: Tide, mutex: Owner,
    signallers: map<nat, Signaller>, vm: VmPc,
    isPooling: bool, pending: bool, pipe: nat)

  function Active(s: State): Tide { if s.useA then s.tideA else s.tideB }
  function Idle(s: State): Tide { if s.useA then s.tideB else s.tideA }
  function SetActive(s: State, t: Tide): (r: State)
    ensures r.atSwap == s.atSwap && r.requests == s.requests && r.delivered == s.delivered
    ensures r.signallers == s.signallers && r.vm == s.vm
  {
    if s.useA then s.(tideA := t) else s.(tideB := t)
  }

  function SetIdle(s: State, t: Tide): (r: State)
    ensures r.requests == s.requests && r.delivered == s.delivered && r.signallers == s.signallers
  {
    if s.useA then s.(tideB := t) else s.(tideA := t)
  }

  function Initial(c: Config): State {
    var zeros := seq(c.n, _ => 0);
    State(zeros, zeros, zeros, zeros, false, true, EMPTY, EMPTY, Nobody, map[], Elsewhere, false, false, 0)
  }

  datatype Step =
    | Call(t: nat, index: int)   // thread t calls signalSemaphoreWithIndex (index + 1)
    | Signal(t: nat)             // the next step of thread t
    | StartPass                  // the VM calls doSignalExternalSemaphores
    | StartPoll(sleeps: bool)    // the VM calls aioPoll, with a non-zero timeout or not
    | Advance(ready: bool)       // the next step of the VM; ready: refused descriptors to report

  /** An index out of the table is ignored: the call returns 0 at once. */
  function CallStep(c: Config, s: State, t: nat, index: int): Option<State> {
    if t in s.signallers then None
    else if index < 0 || index >= c.n then Some(s)
    else Some(s.(signallers := s.signallers[t := Signaller(index, Entering)]))
  }

  function At(s: State, t: nat, pc: SignalPc): (r: State)
    requires t in s.signallers
    ensures r.atSwap == s.atSwap && r.requests == s.requests && r.delivered == s.delivered
    ensures r.signallers == s.signallers[t := s.signallers[t].(pc := pc)] && r.vm == s.vm
  {
    s.(signallers := s.signallers[t := s.signallers[t].(pc := pc)])
  }

  function SignalStep(c: Config, s: State, t: nat): Option<State> {
    if t !in s.signallers then None
    else
      var i := s.signallers[t].index;
      match s.signallers[t].pc
      case Entering => if s.mutex != Nobody then None else Some(At(s, t, Locked).(mutex := Thread(t)))
      case Locked =>
        if i >= |s.requests| then None
        else Some(At(s, t, Counted).(requests := s.requests[i := s.requests[i] + 1]))
      case Counted =>
        var a := Active(s);
        Some(SetActive(At(s, t, LowMarked), if a.low > i then a.(low := i) else a))
      case LowMarked =>
        var a := Active(s);
        Some(SetActive(At(s, t, Tided), if a.high < i then a.(high := i) else a))
      case Tided => Some(At(s, t, Flagged).(check := true))
      case Flagged => Some(At(s, t, Released).(mutex := Nobody))
      case Released => Some(At(s, t, if s.isPooling then SawPoll else Storing))
      case SawPoll => Some(At(s, t, Storing).(pipe := if s.pipe < c.capacity then s.pipe + 1 else s.pipe))
      case Storing => Some(s.(signallers := s.signallers - {t}, pending := true))
  }

  function VmStep(c: Config, s: State, ready: bool): Option<State> {
    match s.vm
    case Elsewhere => None
    case PassEntering => if s.mutex != Nobody then None else Some(s.(mutex := Vm, vm := PassLocked))
    case PassLocked =>
      if !s.check then Some(s.(mutex := Nobody, vm := Elsewhere))
      else Some(s.(check := false, atSwap := s.requests, vm := PassCleared))
    case PassCleared => Some(SetIdle(s, EMPTY).(vm := PassReset))
    case PassReset => Some(s.(useA := !s.useA, vm := PassToggled))
    case PassToggled => Some(s.(vm := PassRead(Idle(s).low, Idle(s).high)))
    case PassRead(low, high) =>
      Some(s.(mutex := Nobody, vm := Scan(low, if high >= c.scanned then c.scanned - 1 else high)))
    case Scan(k, top) =>
      if k > top then Some(s.(vm := Elsewhere))
      else if k < 0 || k >= |s.requests| || k >= |s.responses| || k >= |s.delivered| then None
      else if s.responses[k] != s.requests[k] then
        Some(s.(delivered := s.delivered[k := s.delivered[k] + 1], vm := Delivered(k, top)))
      else Some(s.(vm := Scan(k + 1, top)))
    case Delivered(k, top) =>
      if k < 0 || k >= |s.responses| then None
      else Some(s.(responses := s.responses[k := s.responses[k] + 1], vm := Scan(k, top)))
    case PollStarting(sleeps) => Some(s.(isPooling := true, vm := PollFilling(sleeps)))
    case PollFilling(sleeps) => Some(s.(vm := PollChecking(sleeps && !ready && !s.pending)))
    case PollChecking(sleeps) => Some(s.(vm := Waiting(sleeps && !s.check)))
    case Waiting(_) => Some(s.(vm := Woken))
    case Woken => Some(s.(isPooling := false, vm := Clearing))
    case Clearing => Some(s.(pending := false, vm := Flushing))
    case Flushing => Some(s.(pending := false, pipe := 0, vm := Elsewhere))
  }

  /** None: the step is not possible now (a thread waits for the mutex), or it would read
      outside the table, which no reachable state does. */
  function Next(c: Config, s: State, step: Step): Option<State> {
    match step
    case Call(t, index) => CallStep(c, s, t, index)
    case Signal(t) => SignalStep(c, s, t)
    case StartPass => if s.vm == Elsewhere then Some(s.(vm := PassEntering)) else None
    case StartPoll(sleeps) =>
      // the exchange of pendingInterruption, and the first look at the flag
      if s.vm != Elsewhere then None
      else Some(s.(pending := false, vm := PollStarting(sleeps && !s.pending && !s.check)))
    case Advance(ready) => VmStep(c, s, ready)
  }

  // ---- the invariant

  predicate SignalLocks(pc: SignalPc) {
    pc == Locked || pc == Counted || pc == LowMarked || pc == Tided || pc == Flagged
  }

  predicate VmLocks(vm: VmPc) {
    vm.PassLocked? || vm.PassCleared? || vm.PassReset? || vm.PassToggled? || vm.PassRead?
  }

  ghost predicate Shaped(c: Config, s: State) {
    && |s.requests| == |s.responses| == |s.delivered| == |s.atSwap| == c.n
    && 0 <= s.tideA.low && s.tideA.high < c.n && 0 <= s.tideB.low && s.tideB.high < c.n
    && (forall t :: t in s.signallers ==> s.signallers[t].index < c.n)
    && (s.vm.PassRead? ==> 0 <= s.vm.low && s.vm.high < c.n)
    && (s.vm.Scan? ==> 0 <= s.vm.k && s.vm.top < c.n && s.vm.top < c.scanned)
    && (s.vm.Delivered? ==> 0 <= s.vm.k <= s.vm.top && s.vm.top < c.n && s.vm.top < c.scanned)
  }

  /** The mutex is held by whoever is inside a critical section, so by at most one. */
  ghost predicate Locking(s: State) {
    && (forall t :: t in s.signallers ==> (SignalLocks(s.signallers[t].pc) <==> s.mutex == Thread(t)))
    && (s.mutex.Thread? ==> s.mutex.t in s.signallers)
    && (VmLocks(s.vm) <==> s.mutex == Vm)
  }

  /** Signals are never invented: responses are the signals made, but for one in progress,
      and never more than the requests. */
  ghost predicate Counting(s: State)
    requires |s.requests| == |s.responses| == |s.delivered| == |s.atSwap|
  {
    forall i :: 0 <= i < |s.requests| ==>
      && s.responses[i] <= s.requests[i]
      && s.atSwap[i] <= s.requests[i]
      && s.delivered[i] <= s.requests[i]
      && s.delivered[i] == s.responses[i] + if s.vm.Delivered? && s.vm.k == i then 1 else 0
  }

  /** What the holder of the mutex has done so far to the tide in use. */
  ghost predicate HolderMarked(s: State) {
    s.mutex.Thread? && s.mutex.t in s.signallers ==>
      var h := s.signallers[s.mutex.t];
      && (h.pc == LowMarked ==> Active(s).low <= h.index)
      && (h.pc == Tided || h.pc == Flagged ==> InTide(Active(s), h.index))
      && (h.pc == Flagged ==> s.check)
  }

  /** A request for i is being recorded: its signaller counted it and holds the mutex. */
  ghost predicate Recording(s: State, i: int) {
    && s.mutex.Thread? && s.mutex.t in s.signallers && s.signallers[s.mutex.t].index == i
    && (s.signallers[s.mutex.t].pc == Counted || s.signallers[s.mutex.t].pc == LowMarked
        || s.signallers[s.mutex.t].pc == Tided)
  }

  /** i is still ahead of the pass in progress. */
  predicate Ahead(s: State, i: int) {
    match s.vm
    case PassCleared | PassReset => InTide(Active(s), i)
    case PassToggled => InTide(Idle(s), i)
    case PassRead(low, high) => low <= i <= high
    case Scan(k, top) => k <= i <= top
    case Delivered(k, top) => k <= i <= top
    case _ => false
  }

  /** No signal is lost: an index with requests the VM has not answered is inside the tide in
      use with the flag set, is just being recorded, or is ahead of the pass in progress. */
  ghost predicate Remembered(c: Config, s: State)
    requires |s.requests| == |s.responses| == c.n
  {
    forall i {:trigger s.responses[i]} :: 0 <= i < c.n && i < c.scanned && s.responses[i] != s.requests[i] ==>
      (s.check && InTide(Active(s), i)) || Recording(s, i) || Ahead(s, i)
  }

  /** While the VM holds the mutex nothing changes, and after the flag was cleared every
      request made before is answered already or ahead. */
  ghost predicate Passing(c: Config, s: State)
    requires |s.requests| == |s.responses| == |s.atSwap| == c.n
  {
    && (s.vm.PassCleared? || s.vm.PassReset? || s.vm.PassToggled? || s.vm.PassRead? ==>
       s.atSwap == s.requests && !s.check)
    && (forall i {:trigger s.responses[i]} :: 0 <= i < c.n && i < c.scanned ==>
       s.atSwap[i] <= s.responses[i] || Ahead(s, i))
  }

  predicate Pooling(vm: VmPc) {
    vm.PollFilling? || vm.PollChecking? || vm.Waiting? || vm.Woken?
  }

  /** A signaller that set the flag and is not yet past its test of isPooling and its write. */
  predicate WillWrite(pc: SignalPc) {
    pc == Flagged || pc == Released || pc == SawPoll
  }

  ghost predicate WakeComing(s: State) {
    s.pipe > 0 || exists t :: t in s.signallers && WillWrite(s.signallers[t].pc)
  }

  ghost predicate Waking(s: State) {
    && (s.isPooling <==> Pooling(s.vm))
    && (s.vm == Waiting(true) && s.check ==> WakeComing(s))
  }

  ghost predicate Inv(c: Config, s: State) {
    && Shaped(c, s) && Locking(s) && Counting(s) && HolderMarked(s)
    && Remembered(c, s) && Passing(c, s) && Waking(s)
  }

  lemma InitialInv(c: Config)
    ensures Inv(c, Initial(c))
  {}

  // ---- one step of a signalling thread keeps the invariant

  /** Thread t is at a place from which it can take a step. */
  ghost predicate StepsFrom(c: Config, s: State, t: nat, pc: SignalPc) {
    Inv(c, s) && t in s.signallers && s.signallers[t].pc == pc && SignalStep(c, s, t).Some?
  }

  lemma WakingStays(c: Config, s: State, t: nat)
    requires Waking(s) && t in s.signallers && c.capacity > 0 && SignalStep(c, s, t).Some?
    requires var pc := s.signallers[t].pc; pc == Released || pc == SawPoll || pc == Storing
    ensures Waking(SignalStep(c, s, t).value)
  {
    var r := SignalStep(c, s, t).value;
    if s.vm == Waiting(true) && s.check && s.pipe == 0 {
      var u :| u in s.signallers && WillWrite(s.signallers[u].pc);
      if u != t {
        assert u in r.signallers && WillWrite(r.signallers[u].pc);
      } else if s.signallers[t].pc == Released {
        assert t in r.signallers && WillWrite(r.signallers[t].pc);
      }
    }
  }

  lemma EnteringKeepsShape(c: Config, s: State, t: nat)
    requires StepsFrom(c, s, t, Entering)
    ensures var r := SignalStep(c, s, t).value; Shaped(c, r) && Locking(r) && HolderMarked(r)
  {
    hide Counting, Remembered, Passing, Waking;
  }

  lemma EnteringKeepsCounts(c: Config, s: State, t: nat)
    requires StepsFrom(c, s, t, Entering)
    ensures var r := SignalStep(c, s, t).value; Shaped(c, r) && Counting(r) && Passing(c, r)
  {
    hide Locking, HolderMarked, Remembered, Waking;
  }

  lemma EnteringKeepsMemory(c: Config, s: State, t: nat)
    requires StepsFrom(c, s, t, Entering)
    ensures var r := SignalStep(c, s, t).value; Shaped(c, r) && Remembered(c, r)
  {
    hide Counting, Passing, Waking;
  }

  lemma EnteringKeeps(c: Config, s: State, t: nat)
    requires StepsFrom(c, s, t, Entering)
    ensures Inv(c, SignalStep(c, s, t).value)
  {
    EnteringKeepsShape(c, s, t);
    EnteringKeepsCounts(c, s, t);
    EnteringKeepsMemory(c, s, t);
    hide Shaped, Locking, Counting, HolderMarked, Remembered, Passing;
  }

  lemma LockedKeepsShape(c: Config, s: State, t: nat)
    requires StepsFrom(c, s, t, Locked)
    ensures var r := SignalStep(c, s, t).value; Shaped(c, r) && Locking(r) && HolderMarked(r)
  {
    hide Counting, Remembered, Passing, Waking;
  }

  lemma LockedKeepsCounts(c: Config, s: State, t: nat)
    requires StepsFrom(c, s, t, Locked)
    ensures var r := SignalStep(c, s, t).value; Shaped(c, r) && Counting(r) && Passing(c, r)
  {
    hide HolderMarked, Remembered, Waking;
  }

  lemma LockedKeepsMemory(c: Config, s: State, t: nat)
    requires StepsFrom(c, s, t, Locked)
    ensures var r := SignalStep(c, s, t).value; Shaped(c, r) && Remembered(c, r)
  {
    hide Counting, Passing, Waking;
  }

  lemma LockedKeeps(c: Config, s: State, t: nat)
    requires StepsFrom(c, s, t, Locked)
    ensures Inv(c, SignalStep(c, s, t).value)
  {
    LockedKeepsShape(c, s, t);
    LockedKeepsCounts(c, s, t);
    LockedKeepsMemory(c, s, t);
    hide Shaped, Locking, Counting, HolderMarked, Remembered, Passing;
  }

  lemma CountedKeepsShape(c: Config, s: State, t: nat)
    requires StepsFrom(c, s, t, Counted)
    ensures var r := SignalStep(c, s, t).value; Shaped(c, r) && Locking(r) && HolderMarked(r)
  {
    hide Counting, Remembered, Passing, Waking;
  }

  lemma CountedKeepsCounts(c: Config, s: State, t: nat)
    requires StepsFrom(c, s, t, Counted)
    ensures var r := SignalStep(c, s, t).value; Shaped(c, r) && Counting(r)
  {
    hide Locking, HolderMarked, Remembered, Passing, Waking;
  }

  lemma CountedKeepsPassing(c: Config, s: State, t: nat)
    requires StepsFrom(c, s, t, Counted)
    ensures var r := SignalStep(c, s, t).value; Shaped(c, r) && Passing(c, r)
  {
    hide HolderMarked, Remembered, Counting, Waking;
  }

  lemma CountedKeepsMemory(c: Config, s: State, t: nat)
    requires StepsFrom(c, s, t, Counted)
    ensures var r := SignalStep(c, s, t).value; Shaped(c, r) && Remembered(c, r)
  {
    hide Counting, Passing, Waking;
  }

  lemma CountedKeeps(c: Config, s: State, t: nat)
    requires StepsFrom(c, s, t, Counted)
    ensures Inv(c, SignalStep(c, s, t).value)
  {
    CountedKeepsShape(c, s, t);
    CountedKeepsCounts(c, s, t);
    CountedKeepsPassing(c, s, t);
    CountedKeepsMemory(c, s, t);
    hide Shaped, Locking, Counting, HolderMarked, Remembered, Passing;
  }

  lemma LowMarkedKeepsShape(c: Config, s: State, t: nat)
    requires StepsFrom(c, s, t, LowMarked)
    ensures var r := SignalStep(c, s, t).value; Shaped(c, r) && Locking(r) && HolderMarked(r)
  {
    hide Counting, Remembered, Passing, Waking;
  }

  lemma LowMarkedKeepsCounts(c: Config, s: State, t: nat)
    requires StepsFrom(c, s, t, LowMarked)
    ensures var r := SignalStep(c, s, t).value; Shaped(c, r) && Counting(r)
  {
    hide Locking, HolderMarked, Remembered, Passing, Waking;
  }

  lemma LowMarkedKeepsPassing(c: Config, s: State, t: nat)
    requires StepsFrom(c, s, t, LowMarked)
    ensures var r := SignalStep(c, s, t).value; Shaped(c, r) && Passing(c, r)
  {
    hide HolderMarked, Remembered, Counting, Waking;
  }

  lemma LowMarkedKeepsMemory(c: Config, s: State, t: nat)
    requires StepsFrom(c, s, t, LowMarked)
    ensures var r := SignalStep(c, s, t).value; Shaped(c, r) && Remembered(c, r)
  {
    hide Counting, Passing, Waking;
  }

  lemma LowMarkedKeeps(c: Config, s: State, t: nat)
    requires StepsFrom(c, s, t, LowMarked)
    ensures Inv(c, SignalStep(c, s, t).value)
  {
    LowMarkedKeepsShape(c, s, t);
    LowMarkedKeepsCounts(c, s, t);
    LowMarkedKeepsPassing(c, s, t);
    LowMarkedKeepsMemory(c, s, t);
    hide Shaped, Locking, Counting, HolderMarked, Remembered, Passing;
  }

  lemma TidedKeepsShape(c: Config, s: State, t: nat)
    requires StepsFrom(c, s, t, Tided)
    ensures var r := SignalStep(c, s, t).value; Shaped(c, r) && Locking(r) && HolderMarked(r)
  {
    hide Counting, Remembered, Passing, Waking;
  }

  lemma TidedKeepsCounts(c: Config, s: State, t: nat)
    requires StepsFrom(c, s, t, Tided)
    ensures var r := SignalStep(c, s, t).value; Shaped(c, r) && Counting(r) && Passing(c, r)
  {
    hide HolderMarked, Remembered, Waking;
  }

  lemma TidedKeepsMemory(c: Config, s: State, t: nat)
    requires StepsFrom(c, s, t, Tided)
    ensures var r := SignalStep(c, s, t).value; Shaped(c, r) && Remembered(c, r)
  {
    hide Counting, Passing, Waking;
  }

  lemma TidedKeeps(c: Config, s: State, t: nat)
    requires StepsFrom(c, s, t, Tided)
    ensures Inv(c, SignalStep(c, s, t).value)
  {
    TidedKeepsShape(c, s, t);
    TidedKeepsCounts(c, s, t);
    TidedKeepsMemory(c, s, t);
    hide Shaped, Locking, Counting, HolderMarked, Remembered, Passing;
  }

  lemma FlaggedKeepsShape(c: Config, s: State, t: nat)
    requires StepsFrom(c, s, t, Flagged)
    ensures var r := SignalStep(c, s, t).value; Shaped(c, r) && Locking(r) && HolderMarked(r)
  {
    hide Counting, Remembered, Passing, Waking;
  }

  lemma FlaggedKeepsCounts(c: Config, s: State, t: nat)
    requires StepsFrom(c, s, t, Flagged)
    ensures var r := SignalStep(c, s, t).value; Shaped(c, r) && Counting(r) && Passing(c, r)
  {
    hide Locking, HolderMarked, Remembered, Waking;
  }

  lemma FlaggedKeepsMemory(c: Config, s: State, t: nat)
    requires StepsFrom(c, s, t, Flagged)
    ensures var r := SignalStep(c, s, t).value; Shaped(c, r) && Remembered(c, r)
  {
    hide Counting, Passing, Waking;
  }

  lemma FlaggedKeeps(c: Config, s: State, t: nat)
    requires StepsFrom(c, s, t, Flagged)
    ensures Inv(c, SignalStep(c, s, t).value)
  {
    FlaggedKeepsShape(c, s, t);
    FlaggedKeepsCounts(c, s, t);
    FlaggedKeepsMemory(c, s, t);
    hide Shaped, Locking, Counting, HolderMarked, Remembered, Passing;
  }

  lemma ReleasedKeepsShape(c: Config, s: State, t: nat)
    requires StepsFrom(c, s, t, Released) && c.capacity > 0
    ensures var r := SignalStep(c, s, t).value; Shaped(c, r) && Locking(r)
  {
    hide Counting, Remembered, Passing, Waking, HolderMarked;
  }

  lemma ReleasedKeepsMark(c: Config, s: State, t: nat)
    requires StepsFrom(c, s, t, Released) && c.capacity > 0
    ensures var r := SignalStep(c, s, t).value; Shaped(c, r) && HolderMarked(r)
  {
    hide Counting, Remembered, Passing, Waking;
  }

  lemma ReleasedKeepsCounts(c: Config, s: State, t: nat)
    requires StepsFrom(c, s, t, Released) && c.capacity > 0
    ensures var r := SignalStep(c, s, t).value; Shaped(c, r) && Counting(r) && Passing(c, r)
  {
    hide Locking, HolderMarked, Remembered, Waking;
  }

  lemma ReleasedKeepsMemory(c: Config, s: State, t: nat)
    requires StepsFrom(c, s, t, Released) && c.capacity > 0
    ensures var r := SignalStep(c, s, t).value; Shaped(c, r) && Remembered(c, r)
  {
    hide Counting, Passing, Waking;
  }

  lemma ReleasedKeeps(c: Config, s: State, t: nat)
    requires StepsFrom(c, s, t, Released) && c.capacity > 0
    ensures Inv(c, SignalStep(c, s, t).value)
  {
    WakingStays(c, s, t);
    ReleasedKeepsShape(c, s, t);
    ReleasedKeepsMark(c, s, t);
    ReleasedKeepsCounts(c, s, t);
    ReleasedKeepsMemory(c, s, t);
    hide Shaped, Locking, Counting, HolderMarked, Remembered, Passing, Waking;
  }

  lemma SawPollKeepsShape(c: Config, s: State, t: nat)
    requires StepsFrom(c, s, t, SawPoll) && c.capacity > 0
    ensures var r := SignalStep(c, s, t).value; Shaped(c, r) && Locking(r) && HolderMarked(r)
  {
    hide Counting, Remembered, Passing, Waking;
  }

  lemma SawPollKeepsCounts(c: Config, s: State, t: nat)
    requires StepsFrom(c, s, t, SawPoll) && c.capacity > 0
    ensures var r := SignalStep(c, s, t).value; Shaped(c, r) && Counting(r) && Passing(c, r)
  {
    hide Locking, HolderMarked, Remembered, Waking;
  }

  lemma SawPollKeepsMemory(c: Config, s: State, t: nat)
    requires StepsFrom(c, s, t, SawPoll) && c.capacity > 0
    ensures var r := SignalStep(c, s, t).value; Shaped(c, r) && Remembered(c, r)
  {
    hide Counting, Passing, Waking;
  }

  lemma SawPollKeeps(c: Config, s: State, t: nat)
    requires StepsFrom(c, s, t, SawPoll) && c.capacity > 0
    ensures Inv(c, SignalStep(c, s, t).value)
  {
    WakingStays(c, s, t);
    SawPollKeepsShape(c, s, t);
    SawPollKeepsCounts(c, s, t);
    SawPollKeepsMemory(c, s, t);
    hide Shaped, Locking, Counting, HolderMarked, Remembered, Passing, Waking;
  }

  lemma StoringKeepsShape(c: Config, s: State, t: nat)
    requires StepsFrom(c, s, t, Storing) && c.capacity > 0
    ensures var r := SignalStep(c, s, t).value; Shaped(c, r) && Locking(r) && HolderMarked(r)
  {
    hide Counting, Remembered, Passing, Waking;
  }

  lemma StoringKeepsCounts(c: Config, s: State, t: nat)
    requires StepsFrom(c, s, t, Storing) && c.capacity > 0
    ensures var r := SignalStep(c, s, t).value; Shaped(c, r) && Counting(r) && Passing(c, r)
  {
    hide Locking, HolderMarked, Remembered, Waking;
  }

  lemma StoringKeepsMemory(c: Config, s: State, t: nat)
    requires StepsFrom(c, s, t, Storing) && c.capacity > 0
    ensures var r := SignalStep(c, s, t).value; Shaped(c, r) && Remembered(c, r)
  {
    hide Counting, Passing, Waking;
  }

  lemma StoringKeeps(c: Config, s: State, t: nat)
    requires StepsFrom(c, s, t, Storing) && c.capacity > 0
    ensures Inv(c, SignalStep(c, s, t).value)
  {
    WakingStays(c, s, t);
    StoringKeepsShape(c, s, t);
    StoringKeepsCounts(c, s, t);
    StoringKeepsMemory(c, s, t);
    hide Shaped, Locking, Counting, HolderMarked, Remembered, Passing, Waking;
  }

  lemma SignalKeepsInv(c: Config, s: State, t: nat)
    requires Inv(c, s) && c.capacity > 0 && SignalStep(c, s, t).Some?
    ensures Inv(c, SignalStep(c, s, t).value)
  {
    hide Inv;
    match s.signallers[t].pc {
      case Entering => EnteringKeeps(c, s, t);
      case Locked => LockedKeeps(c, s, t);
      case Counted => CountedKeeps(c, s, t);
      case LowMarked => LowMarkedKeeps(c, s, t);
      case Tided => TidedKeeps(c, s, t);
      case Flagged => FlaggedKeeps(c, s, t);
      case Released => ReleasedKeeps(c, s, t);
      case SawPoll => SawPollKeeps(c, s, t);
      case Storing => StoringKeeps(c, s, t);
    }
  }

  // ---- one step of the VM keeps the invariant

  lemma PassEnteringKeeps(c: Config, s: State, ready: bool)
    requires Inv(c, s) && s.vm.PassEntering? && VmStep(c, s, ready).Some?
    ensures Inv(c, VmStep(c, s, ready).value)
  {}

  lemma PassLockedKeeps(c: Config, s: State, ready: bool)
    requires Inv(c, s) && s.vm.PassLocked? && VmStep(c, s, ready).Some?
    ensures Inv(c, VmStep(c, s, ready).value)
  {}

  lemma PassClearedKeeps(c: Config, s: State, ready: bool)
    requires Inv(c, s) && s.vm.PassCleared? && VmStep(c, s, ready).Some?
    ensures Inv(c, VmStep(c, s, ready).value)
  {}

  lemma PassResetKeeps(c: Config, s: State, ready: bool)
    requires Inv(c, s) && s.vm.PassReset? && VmStep(c, s, ready).Some?
    ensures Inv(c, VmStep(c, s, ready).value)
  {}

  lemma PassToggledKeeps(c: Config, s: State, ready: bool)
    requires Inv(c, s) && s.vm.PassToggled? && VmStep(c, s, ready).Some?
    ensures Inv(c, VmStep(c, s, ready).value)
  {}

  lemma PassReadKeeps(c: Config, s: State, ready: bool)
    requires Inv(c, s) && s.vm.PassRead? && VmStep(c, s, ready).Some?
    ensures Inv(c, VmStep(c, s, ready).value)
  {}

  lemma ScanEnds(c: Config, s: State)
    requires Inv(c, s) && s.vm.Scan? && s.vm.k > s.vm.top
    ensures Inv(c, s.(vm := Elsewhere))
  {}

  lemma ScanMoves(c: Config, s: State)
    requires Inv(c, s) && s.vm.Scan? && s.vm.k <= s.vm.top && s.responses[s.vm.k] == s.requests[s.vm.k]
    ensures Inv(c, s.(vm := Scan(s.vm.k + 1, s.vm.top)))
  {
    assert s.atSwap[s.vm.k] <= s.responses[s.vm.k];
  }

  lemma ScanSignals(c: Config, s: State)
    requires Inv(c, s) && s.vm.Scan? && s.vm.k <= s.vm.top && s.responses[s.vm.k] != s.requests[s.vm.k]
    ensures Inv(c, s.(delivered := s.delivered[s.vm.k := s.delivered[s.vm.k] + 1], vm := Delivered(s.vm.k, s.vm.top)))
  {}

  lemma ScanInBounds(c: Config, s: State)
    requires Inv(c, s) && s.vm.Scan? && s.vm.k <= s.vm.top
    ensures 0 <= s.vm.k < |s.requests| == |s.responses| == |s.delivered|
  {
    hide Locking, Counting, HolderMarked, Remembered, Passing, Waking;
  }

  lemma ScanKeeps(c: Config, s: State, ready: bool)
    requires Inv(c, s) && s.vm.Scan? && VmStep(c, s, ready).Some?
    ensures Inv(c, VmStep(c, s, ready).value)
  {
    hide Inv;
    if s.vm.k > s.vm.top {
      ScanEnds(c, s);
    } else {
      ScanInBounds(c, s);
      if s.responses[s.vm.k] == s.requests[s.vm.k] {
        ScanMoves(c, s);
      } else {
        ScanSignals(c, s);
      }
    }
  }

  lemma DeliveredKeepsShape(c: Config, s: State, ready: bool)
    requires Inv(c, s) && s.vm.Delivered? && VmStep(c, s, ready).Some?
    ensures var r := VmStep(c, s, ready).value; Shaped(c, r) && Locking(r) && HolderMarked(r)
  {
    hide Counting, Remembered, Passing, Waking;
  }

  lemma DeliveredKeepsCounts(c: Config, s: State, ready: bool)
    requires Inv(c, s) && s.vm.Delivered? && VmStep(c, s, ready).Some?
    ensures var r := VmStep(c, s, ready).value; Shaped(c, r) && Counting(r) && Passing(c, r)
  {
    hide Locking, HolderMarked, Remembered, Waking;
  }

  lemma DeliveredKeepsMemory(c: Config, s: State, ready: bool)
    requires Inv(c, s) && s.vm.Delivered? && VmStep(c, s, ready).Some?
    ensures var r := VmStep(c, s, ready).value; Shaped(c, r) && Remembered(c, r)
  {
    hide Counting, Passing, Waking;
  }

  lemma DeliveredKeeps(c: Config, s: State, ready: bool)
    requires Inv(c, s) && s.vm.Delivered? && VmStep(c, s, ready).Some?
    ensures Inv(c, VmStep(c, s, ready).value)
  {
    DeliveredKeepsShape(c, s, ready);
    DeliveredKeepsCounts(c, s, ready);
    DeliveredKeepsMemory(c, s, ready);
    hide Shaped, Locking, Counting, HolderMarked, Remembered, Passing;
  }

  lemma PollStartingKeeps(c: Config, s: State, ready: bool)
    requires Inv(c, s) && s.vm.PollStarting? && VmStep(c, s, ready).Some?
    ensures Inv(c, VmStep(c, s, ready).value)
  {}

  lemma PollFillingKeeps(c: Config, s: State, ready: bool)
    requires Inv(c, s) && s.vm.PollFilling? && VmStep(c, s, ready).Some?
    ensures Inv(c, VmStep(c, s, ready).value)
  {}

  lemma PollCheckingKeeps(c: Config, s: State, ready: bool)
    requires Inv(c, s) && s.vm.PollChecking? && VmStep(c, s, ready).Some?
    ensures Inv(c, VmStep(c, s, ready).value)
  {}

  lemma WaitingKeeps(c: Config, s: State, ready: bool)
    requires Inv(c, s) && s.vm.Waiting? && VmStep(c, s, ready).Some?
    ensures Inv(c, VmStep(c, s, ready).value)
  {}

  lemma WokenKeeps(c: Config, s: State, ready: bool)
    requires Inv(c, s) && s.vm.Woken? && VmStep(c, s, ready).Some?
    ensures Inv(c, VmStep(c, s, ready).value)
  {}

  lemma ClearingKeeps(c: Config, s: State, ready: bool)
    requires Inv(c, s) && s.vm.Clearing? && VmStep(c, s, ready).Some?
    ensures Inv(c, VmStep(c, s, ready).value)
  {}

  lemma FlushingKeeps(c: Config, s: State, ready: bool)
    requires Inv(c, s) && s.vm.Flushing? && VmStep(c, s, ready).Some?
    ensures Inv(c, VmStep(c, s, ready).value)
  {}

  lemma VmKeepsInv(c: Config, s: State, ready: bool)
    requires Inv(c, s) && VmStep(c, s, ready).Some?
    ensures Inv(c, VmStep(c, s, ready).value)
  {
    hide Inv;
    match s.vm {
      case PassEntering => PassEnteringKeeps(c, s, ready);
      case PassLocked => PassLockedKeeps(c, s, ready);
      case PassCleared => PassClearedKeeps(c, s, ready);
      case PassReset => PassResetKeeps(c, s, ready);
      case PassToggled => PassToggledKeeps(c, s, ready);
      case PassRead(_, _) => PassReadKeeps(c, s, ready);
      case Scan(_, _) => ScanKeeps(c, s, ready);
      case Delivered(_, _) => DeliveredKeeps(c, s, ready);
      case PollStarting(_) => PollStartingKeeps(c, s, ready);
      case PollFilling(_) => PollFillingKeeps(c, s, ready);
      case PollChecking(_) => PollCheckingKeeps(c, s, ready);
      case Waiting(_) => WaitingKeeps(c, s, ready);
      case Woken => WokenKeeps(c, s, ready);
      case Clearing => ClearingKeeps(c, s, ready);
      case Flushing => FlushingKeeps(c, s, ready);
    }
  }

  /** A new call waits for the mutex, and changes nothing else. */
  function Joined(s: State, t: nat, i: nat): State {
    s.(signallers := s.signallers[t := Signaller(i, Entering)])
  }

  lemma JoiningKeepsShape(c: Config, s: State, t: nat, i: nat)
    requires Inv(c, s) && t !in s.signallers && i < c.n
    ensures var r := Joined(s, t, i); Shaped(c, r) && Locking(r) && HolderMarked(r)
  {
    hide Counting, Remembered, Passing, Waking;
  }

  lemma JoiningKeepsCounts(c: Config, s: State, t: nat, i: nat)
    requires Inv(c, s) && t !in s.signallers && i < c.n
    ensures var r := Joined(s, t, i); Shaped(c, r) && Counting(r) && Passing(c, r) && Remembered(c, r)
  {
    hide HolderMarked, Waking;
  }

  lemma JoiningKeepsWaking(c: Config, s: State, t: nat, i: nat)
    requires Waking(s) && t !in s.signallers
    ensures Waking(Joined(s, t, i))
  {
    var r := Joined(s, t, i);
    if s.vm == Waiting(true) && s.check && s.pipe == 0 {
      var u :| u in s.signallers && WillWrite(s.signallers[u].pc);
      assert u in r.signallers && WillWrite(r.signallers[u].pc);
    }
  }

  lemma CallKeeps(c: Config, s: State, t: nat, index: int)
    requires Inv(c, s) && CallStep(c, s, t, index).Some?
    ensures Inv(c, CallStep(c, s, t, index).value)
  {
    if 0 <= index < c.n {
      JoiningKeepsShape(c, s, t, index);
      JoiningKeepsCounts(c, s, t, index);
      JoiningKeepsWaking(c, s, t, index);
      assert CallStep(c, s, t, index).value == Joined(s, t, index);
      hide Shaped, Locking, Counting, HolderMarked, Remembered, Passing, Waking, Joined;
    }
  }

  lemma StartPassKeeps(c: Config, s: State)
    requires Inv(c, s) && s.vm == Elsewhere
    ensures Inv(c, s.(vm := PassEntering))
  {}

  lemma StartPollKeeps(c: Config, s: State, sleeps: bool)
    requires Inv(c, s) && s.vm == Elsewhere
    ensures Inv(c, s.(pending := false, vm := PollStarting(sleeps)))
  {}

  lemma StartKeeps(c: Config, s: State, step: Step)
    requires Inv(c, s) && (step.StartPass? || step.StartPoll?) && Next(c, s, step).Some?
    ensures Inv(c, Next(c, s, step).value)
  {
    hide Inv;
    StartPassKeeps(c, s);
    if step.StartPoll? {
      StartPollKeeps(c, s, step.sleeps && !s.pending && !s.check);
    }
  }

  /** Every step of every thread keeps the whole invariant. */
  lemma StepKeepsInv(c: Config, s: State, step: Step)
    requires Inv(c, s) && c.capacity > 0 && Next(c, s, step).Some?
    ensures Inv(c, Next(c, s, step).value)
  {
    hide Inv, SignalStep, VmStep, CallStep;
    match step
    case Signal(t) => SignalKeepsInv(c, s, t);
    case Advance(ready) => VmKeepsInv(c, s, ready);
    case Call(t, index) => CallKeeps(c, s, t, index);
    case _ => StartKeeps(c, s, step);
  }

  // ---- runs

  /** states is a run from the start: each state is one step after the one before. */
  ghost predicate IsRun(c: Config, states: seq<State>, steps: seq<Step>) {
    && |states| == |steps| + 1
    && states[0] == Initial(c)
    && forall i :: 0 <= i < |steps| ==> Next(c, states[i], steps[i]) == Some(states[i + 1])
  }

  lemma {:induction false} RunKeepsInv(c: Config, states: seq<State>, steps: seq<Step>)
    requires IsRun(c, states, steps) && c.capacity > 0
    ensures Inv(c, states[|steps|])
    decreases |steps|
  {
    hide Inv, Next;
    var n := |steps|;
    if n == 0 {
      InitialInv(c);
    } else {
      RunKeepsInv(c, states[..n], steps[..n - 1]);
      assert Next(c, states[n - 1], steps[n - 1]) == Some(states[n]);
      StepKeepsInv(c, states[n - 1], steps[n - 1]);
    }
  }

  /** Some run of c ends in s. */
  ghost predicate Reachable(c: Config, s: State) {
    exists states, steps :: IsRun(c, states, steps) && states[|steps|] == s
  }

  lemma ReachableKeepsInv(c: Config, s: State)
    requires Reachable(c, s) && c.capacity > 0
    ensures Inv(c, s)
  {
    var states, steps :| IsRun(c, states, steps) && states[|steps|] == s;
    RunKeepsInv(c, states, steps);
  }

  /** Nobody is inside a critical section and the VM makes no pass. */
  predicate Quiet(s: State) {
    s.mutex == Nobody && !s.vm.Scan? && !s.vm.Delivered?
  }

  /** No semaphore signal is lost or invented: over every run, the signals the VM made for an
      index never exceed its requests; and whenever the flag is clear, no signaller is
      recording a request and no pass is on, they are exactly as many, below the scanned size. */
  lemma NoSignalLostOrInvented(c: Config, s: State)
    requires Reachable(c, s) && c.capacity > 0
    ensures |s.requests| == |s.delivered| == c.n
    ensures forall i :: 0 <= i < c.n ==> s.delivered[i] <= s.requests[i]
    ensures Quiet(s) && !s.check ==> forall i :: 0 <= i < c.n && i < c.scanned ==> s.delivered[i] == s.requests[i]
  {
    ReachableKeepsInv(c, s);
    forall i | 0 <= i < c.n
      ensures s.delivered[i] <= s.requests[i]
      ensures Quiet(s) && !s.check && i < c.scanned ==> s.delivered[i] == s.requests[i]
    {
      assert s.responses[i] <= s.requests[i];
    }
  }

  // ---- calls and signals, as the steps of a run tell them

  /** How many calls for index i the steps have, by any thread. */
  ghost function CallsFor(steps: seq<Step>, i: int): nat {
    if steps == [] then 0
    else
      var last := steps[|steps| - 1];
      CallsFor(steps[..|steps| - 1], i) + OneIf(last.Call? && last.index == i)
  }

  /** How often in a run the VM signalled the semaphore of index i. */
  ghost function SignalsOf(states: seq<State>, i: int): nat {
    if |states| < 2 then 0
    else
      var n := |states| - 1;
      SignalsOf(states[..n], i) + OneIf(states[n - 1].vm.Scan? && states[n].vm.Delivered? && states[n].vm.k == i)
  }

  /** The threads that called for index i and are not counted yet. */
  ghost function Uncounted(signallers: map<nat, Signaller>, i: int): set<nat> {
    set t | t in signallers && signallers[t].index == i && (signallers[t].pc == Entering || signallers[t].pc == Locked)
  }

  /** One thread more, at the start of its call. */
  lemma UncountedJoins(m: map<nat, Signaller>, t: nat, index: nat, i: int)
    requires t !in m
    ensures |Uncounted(m[t := Signaller(index, Entering)], i)| == |Uncounted(m, i)| + OneIf(index == i)
  {
    var r := m[t := Signaller(index, Entering)];
    assert Uncounted(r, i) == Uncounted(m, i) + if index == i then {t} else {};
  }

  lemma OthersStay(m: map<nat, Signaller>, r: map<nat, Signaller>, t: nat, i: int)
    requires t in m && r - {t} == m - {t}
    ensures Uncounted(r, i) - {t} == Uncounted(m, i) - {t}
    ensures t in Uncounted(m, i) <==> m[t].index == i && (m[t].pc == Entering || m[t].pc == Locked)
    ensures t in Uncounted(r, i) <==> t in r && r[t].index == i && (r[t].pc == Entering || r[t].pc == Locked)
  {
    forall u | u != t ensures (u in m <==> u in r) && (u in m ==> m[u] == r[u]) {
      assert u in m <==> u in m - {t};
      assert u in r <==> u in r - {t};
      assert u in m ==> (m - {t})[u] == m[u] && (r - {t})[u] == r[u];
    }
  }

  /** A thread goes on to another place, or its call returns. */
  lemma UncountedMoves(m: map<nat, Signaller>, r: map<nat, Signaller>, t: nat, i: int)
    requires t in m && r - {t} == m - {t}
    requires t in r ==> r[t].index == m[t].index && r[t].pc != Entering && (r[t].pc == Locked <==> m[t].pc == Entering)
    requires t !in r ==> m[t].pc != Entering && m[t].pc != Locked
    ensures |Uncounted(r, i)| + OneIf(m[t].index == i && m[t].pc == Locked) == |Uncounted(m, i)|
  {
    OthersStay(m, r, t, i);
    hide Uncounted;
    SizeWith(Uncounted(m, i), t);
    SizeWith(Uncounted(r, i), t);
  }

  lemma SizeWith(s: set<nat>, t: nat)
    ensures |s| == |s - {t}| + OneIf(t in s)
  {
    assert s == (s - {t}) + if t in s then {t} else {};
  }

  /** What a step of a thread does to the requests and to the threads. */
  lemma SignalMoves(c: Config, s: State, t: nat)
    requires SignalStep(c, s, t).Some?
    ensures var r, m := SignalStep(c, s, t).value, s.signallers;
      && t in m && r.signallers - {t} == m - {t}
      && (t in r.signallers ==>
            r.signallers[t].index == m[t].index && r.signallers[t].pc != Entering &&
            (r.signallers[t].pc == Locked <==> m[t].pc == Entering))
      && (t !in r.signallers ==> m[t].pc != Entering && m[t].pc != Locked)
      && |r.requests| == |s.requests|
      && forall i :: 0 <= i < |s.requests| ==>
           r.requests[i] == s.requests[i] + OneIf(m[t].index == i && m[t].pc == Locked)
  {
    hide At, SetActive;
    var r := SignalStep(c, s, t).value;
    assert r.signallers == if s.signallers[t].pc == Storing then s.signallers - {t}
                           else s.signallers[t := s.signallers[t].(pc := r.signallers[t].pc)];
  }

  lemma VmKeepsRequests(c: Config, s: State, ready: bool)
    requires VmStep(c, s, ready).Some?
    ensures VmStep(c, s, ready).value.requests == s.requests
  {
    hide Idle, SetIdle;
  }

  lemma VmKeepsSignallers(c: Config, s: State, ready: bool)
    requires VmStep(c, s, ready).Some?
    ensures VmStep(c, s, ready).value.signallers == s.signallers
  {
    hide Idle, SetIdle;
  }

  /** Only a call makes one more that is counted or to be counted. */
  lemma StepCountsCalls(c: Config, s: State, step: Step, i: nat)
    requires |s.requests| == c.n && i < c.n && Next(c, s, step).Some?
    ensures var r := Next(c, s, step).value;
      |r.requests| == c.n &&
        r.requests[i] + |Uncounted(r.signallers, i)| ==
          s.requests[i] + |Uncounted(s.signallers, i)| + OneIf(step.Call? && step.index == i)
  {
    hide Uncounted, SignalStep, VmStep;
    var r := Next(c, s, step).value;
    match step {
      case Call(t, index) =>
        if 0 <= index < c.n { UncountedJoins(s.signallers, t, index, i); }
      case Signal(t) =>
        SignalMoves(c, s, t);
        UncountedMoves(s.signallers, r.signallers, t, i);
      case Advance(ready) =>
        VmKeepsRequests(c, s, ready);
        VmKeepsSignallers(c, s, ready);
      case _ =>
    }
  }

  /** Every call counts: over every run, the calls for an index are its requests, and the callers that
      have not got to their increment. */
  lemma {:induction false} CallsAreRequests(c: Config, states: seq<State>, steps: seq<Step>, i: nat)
    requires IsRun(c, states, steps) && i < c.n
    ensures var s := states[|steps|];
      |s.requests| == c.n && CallsFor(steps, i) == s.requests[i] + |Uncounted(s.signallers, i)|
    decreases |steps|
  {
    hide Next, Uncounted;
    var n := |steps|;
    if n == 0 {
      assert Uncounted(states[0].signallers, i) == {} by { NobodyCalled(c, i); }
    } else {
      CallsAreRequests(c, states[..n], steps[..n - 1], i);
      assert Next(c, states[n - 1], steps[n - 1]) == Some(states[n]);
      StepCountsCalls(c, states[n - 1], steps[n - 1], i);
    }
  }

  lemma NobodyCalled(c: Config, i: int)
    ensures Uncounted(Initial(c).signallers, i) == {}
  {}

  lemma SignalKeepsDelivered(c: Config, s: State, t: nat)
    requires SignalStep(c, s, t).Some?
    ensures var r := SignalStep(c, s, t).value; r.delivered == s.delivered && r.vm == s.vm
  {
    hide At, SetActive;
  }

  lemma VmCountsSignals(c: Config, s: State, ready: bool, i: nat)
    requires i < |s.delivered| && VmStep(c, s, ready).Some?
    ensures var r := VmStep(c, s, ready).value;
      |r.delivered| == |s.delivered| &&
        r.delivered[i] == s.delivered[i] + OneIf(s.vm.Scan? && r.vm.Delivered? && r.vm.k == i)
  {
    hide SetIdle, Idle;
    if s.vm.Scan? {
      assert s.vm.k == i || s.vm.k != i;
    } else {
      OnlyAScanSignals(c, s, ready);
    }
  }

  lemma OnlyAScanSignals(c: Config, s: State, ready: bool)
    requires !s.vm.Scan? && VmStep(c, s, ready).Some?
    ensures VmStep(c, s, ready).value.delivered == s.delivered
  {}

  lemma StepCountsSignals(c: Config, s: State, step: Step, i: nat)
    requires |s.delivered| == c.n && i < c.n && Next(c, s, step).Some?
    ensures var r := Next(c, s, step).value;
      |r.delivered| == c.n &&
        r.delivered[i] == s.delivered[i] + OneIf(s.vm.Scan? && r.vm.Delivered? && r.vm.k == i)
  {
    hide SignalStep, VmStep;
    match step
    case Signal(t) => SignalKeepsDelivered(c, s, t);
    case Advance(ready) => VmCountsSignals(c, s, ready, i);
    case _ =>
  }

  lemma {:induction false} DeliveredAreSignals(c: Config, states: seq<State>, steps: seq<Step>, i: nat)
    requires IsRun(c, states, steps) && i < c.n
    ensures var s := states[|steps|]; |s.delivered| == c.n && SignalsOf(states, i) == s.delivered[i]
    decreases |steps|
  {
    hide Next;
    var n := |steps|;
    if n > 0 {
      DeliveredAreSignals(c, states[..n], steps[..n - 1], i);
      assert Next(c, states[n - 1], steps[n - 1]) == Some(states[n]);
      StepCountsSignals(c, states[n - 1], steps[n - 1], i);
    }
  }

  /** Over every run the VM signals a semaphore no more often than it was called for, and when the flag is
      clear, no call is before its increment and no pass is on, exactly as often, below the scanned size. */
  lemma EveryCallIsSignalledOnce(c: Config, states: seq<State>, steps: seq<Step>, i: nat)
    requires IsRun(c, states, steps) && c.capacity > 0 && i < c.n
    ensures SignalsOf(states, i) <= CallsFor(steps, i)
    ensures var s := states[|steps|];
      Quiet(s) && !s.check && i < c.scanned && Uncounted(s.signallers, i) == {} ==>
        SignalsOf(states, i) == CallsFor(steps, i)
  {
    hide Next, Uncounted;
    var s := states[|steps|];
    assert Reachable(c, s);
    CallsAreRequests(c, states, steps, i);
    DeliveredAreSignals(c, states, steps, i);
    NoSignalLostOrInvented(c, s);
  }

  /** Nobody is ever stuck: a thread that cannot take its next step waits for the mutex, and whoever has
      the mutex can take his. */
  lemma NobodyIsStuck(c: Config, s: State, t: nat, ready: bool)
    requires Reachable(c, s) && c.capacity > 0
    ensures t in s.signallers && SignalStep(c, s, t).None? ==> s.signallers[t].pc == Entering && s.mutex != Nobody
    ensures VmStep(c, s, ready).None? ==> s.vm == Elsewhere || (s.vm == PassEntering && s.mutex != Nobody)
    ensures s.mutex == Thread(t) ==> t in s.signallers && SignalStep(c, s, t).Some?
    ensures s.mutex == Vm ==> VmStep(c, s, ready).Some?
  {
    ReachableKeepsInv(c, s);
    hide Reachable, Counting, Remembered, Passing, HolderMarked, Waking;
  }

  /** An index with requests the VM has not answered is inside the tide in use with the flag
      set, or its signaller holds the mutex, or it is still ahead of the pass in progress. */
  lemma UnansweredIsRemembered(c: Config, s: State, i: nat)
    requires Reachable(c, s) && c.capacity > 0 && i < c.n && i < c.scanned
    requires |s.requests| == |s.responses| == c.n && s.responses[i] != s.requests[i]
    ensures (s.check && InTide(Active(s), i)) || Recording(s, i) || Ahead(s, i)
  {
    ReachableKeepsInv(c, s);
  }

  /** A pass delivers what a scan of the whole table would: when it ends, every signal
      requested before it cleared the flag is made, for every index below the scanned size. */
  lemma PassDeliversAll(c: Config, s: State, ready: bool)
    requires Reachable(c, s) && c.capacity > 0
    requires s.vm.Scan? && VmStep(c, s, ready).Some? && VmStep(c, s, ready).value.vm == Elsewhere
    ensures |s.atSwap| == |s.delivered| == c.n
    ensures forall i :: 0 <= i < c.n && i < c.scanned ==> s.atSwap[i] <= s.delivered[i]
  {
    ReachableKeepsInv(c, s);
    forall i | 0 <= i < c.n && i < c.scanned ensures s.atSwap[i] <= s.delivered[i] {
      assert s.atSwap[i] <= s.responses[i] || Ahead(s, i);
    }
  }

  /** The history atSwap is what it says: only clearing the flag changes it, to the requests
      at that moment. */
  lemma AtSwapIsRequestsWhenCleared(c: Config, s: State, step: Step)
    requires Next(c, s, step).Some?
    ensures var r := Next(c, s, step).value;
      if step.Advance? && s.vm == PassLocked && s.check then r.vm == PassCleared && !r.check && r.atSwap == s.requests
      else r.atSwap == s.atSwap
  {
    hide SignalStep;
    if step.Signal? { SignalKeepsAtSwap(c, s, step.t); }
  }

  lemma SignalKeepsAtSwap(c: Config, s: State, t: nat)
    requires SignalStep(c, s, t).Some?
    ensures SignalStep(c, s, t).value.atSwap == s.atSwap
  {
    hide At, SetActive;
  }

  /** No lost wake-up: the VM never sleeps in epoll_wait with the flag set and the pipe empty,
      unless a signaller is between setting the flag and its write to the pipe. */
  lemma NoLostWakeUp(c: Config, s: State)
    requires Reachable(c, s) && c.capacity > 0
    requires s.vm == Waiting(true) && s.check && s.pipe == 0
    ensures exists t :: t in s.signallers && WillWrite(s.signallers[t].pc)
  {
    ReachableKeepsInv(c, s);
  }

  lemma SignalKeepsVm(c: Config, s: State, t: nat)
    requires SignalStep(c, s, t).Some?
    ensures SignalStep(c, s, t).value.vm == s.vm
  {}

  lemma VmPollSteps(c: Config, s: State, ready: bool)
    requires VmStep(c, s, ready).Some?
    ensures var vm := VmStep(c, s, ready).value.vm;
      && !vm.PollStarting? && (vm.PollFilling? ==> s.vm == PollStarting(vm.sleeps))
      && (vm.PollChecking? ==> s.vm.PollFilling? && vm.sleeps == (s.vm.sleeps && !ready && !s.pending))
      && (vm.Waiting? ==> s.vm.PollChecking? && vm.sleeps == (s.vm.sleeps && !s.check))
  {
    if !s.vm.PollStarting? && !s.vm.PollFilling? && !s.vm.PollChecking? {
      OthersDoNotPoll(c, s, ready);
    }
  }

  lemma OthersDoNotPoll(c: Config, s: State, ready: bool)
    requires VmStep(c, s, ready).Some? && !s.vm.PollStarting? && !s.vm.PollFilling? && !s.vm.PollChecking?
    ensures var vm := VmStep(c, s, ready).value.vm;
      !vm.PollStarting? && !vm.PollFilling? && !vm.PollChecking? && !vm.Waiting?
  {
    hide Idle, SetIdle;
    if s.vm.Scan? || s.vm.Delivered? {
      ScansDoNotPoll(c, s, ready);
    }
  }

  lemma ScansDoNotPoll(c: Config, s: State, ready: bool)
    requires VmStep(c, s, ready).Some? && (s.vm.Scan? || s.vm.Delivered?)
    ensures var vm := VmStep(c, s, ready).value.vm; vm.Scan? || vm.Delivered? || vm.Elsewhere?
  {}

  lemma PollSteps(c: Config, s: State, step: Step)
    requires Next(c, s, step).Some?
    ensures var vm := Next(c, s, step).value.vm;
      && (vm.PollStarting? || vm.PollFilling? ==>
         if step.StartPoll? then vm.sleeps == (step.sleeps && !s.pending && !s.check)
         else (s.vm.PollStarting? || s.vm.PollFilling?) && s.vm.sleeps == vm.sleeps)
      && (vm.PollChecking? ==> !step.StartPoll?)
      && (vm.PollChecking? && s.vm != vm ==>
         s.vm.PollFilling? && step.Advance? && vm.sleeps == (s.vm.sleeps && !step.ready && !s.pending))
      && (vm.Waiting? ==> !step.StartPoll?)
      && (vm.Waiting? && s.vm != vm ==> s.vm.PollChecking? && step.Advance? && vm.sleeps == (s.vm.sleeps && !s.check))
  {
    hide SignalStep, VmStep;
    if step.Signal? { SignalKeepsVm(c, s, step.t); }
    if step.Advance? { VmPollSteps(c, s, step.ready); }
  }

  /** The poll that the VM is in began at p, and nothing that it saw there keeps it from sleeping. */
  ghost predicate StartedAt(states: seq<State>, steps: seq<Step>, n: nat, p: nat, sleeps: bool) {
    && p < n <= |steps| < |states| && steps[p].StartPoll? && (forall j :: p < j < n ==> !steps[j].StartPoll?)
    && sleeps == (steps[p].sleeps && !states[p].pending && !states[p].check)
  }

  lemma {:induction false} StartOf(c: Config, states: seq<State>, steps: seq<Step>, n: nat) returns (p: nat)
    requires IsRun(c, states, steps) && n <= |steps| && (states[n].vm.PollStarting? || states[n].vm.PollFilling?)
    ensures StartedAt(states, steps, n, p, states[n].vm.sleeps)
  {
    hide Next;
    assert Next(c, states[n - 1], steps[n - 1]) == Some(states[n]);
    PollSteps(c, states[n - 1], steps[n - 1]);
    if steps[n - 1].StartPoll? {
      p := n - 1;
    } else {
      p := StartOf(c, states, steps, n - 1);
    }
  }

  lemma {:induction false} FillOf(c: Config, states: seq<State>, steps: seq<Step>, n: nat) returns (p: nat, q: nat)
    requires IsRun(c, states, steps) && n <= |steps| && states[n].vm.PollChecking?
    ensures p < q < n && states[q].vm.PollFilling? && steps[q].Advance?
    ensures exists first ::
      StartedAt(states, steps, n, p, first) && states[n].vm.sleeps == (first && !steps[q].ready && !states[q].pending)
  {
    hide Next;
    var step := steps[n - 1];
    assert Next(c, states[n - 1], step) == Some(states[n]);
    PollSteps(c, states[n - 1], step);
    if states[n - 1].vm == states[n].vm {
      p, q := FillOf(c, states, steps, n - 1);
      var first :| StartedAt(states, steps, n - 1, p, first) &&
        states[n].vm.sleeps == (first && !steps[q].ready && !states[q].pending);
      assert StartedAt(states, steps, n, p, first);
    } else {
      p := StartOf(c, states, steps, n - 1);
      q := n - 1;
      assert StartedAt(states, steps, n, p, states[n - 1].vm.sleeps);
    }
  }

  /** Over every run, whatever the threads do meanwhile: a poll sleeps in epoll_wait if and only if it was to, and
      neither an interruption nor the flag was there when it began, nor a refused descriptor or an interruption
      when it had filled the epoll set, nor the flag at its last look. */
  lemma {:induction false} APollSleepsIffNothingIsThere(c: Config, states: seq<State>, steps: seq<Step>, n: nat)
    returns (p: nat, q: nat, r: nat)
    requires IsRun(c, states, steps) && n <= |steps| && states[n].vm.Waiting?
    ensures p < q < r < n && steps[p].StartPoll? && forall j :: p < j < n ==> !steps[j].StartPoll?
    ensures states[q].vm.PollFilling? && steps[q].Advance? && states[r].vm.PollChecking? && steps[r].Advance?
    ensures states[n].vm.sleeps <==>
      && steps[p].sleeps && !states[p].pending && !states[p].check
      && !steps[q].ready && !states[q].pending && !states[r].check
  {
    hide Next;
    var step := steps[n - 1];
    assert Next(c, states[n - 1], step) == Some(states[n]);
    PollSteps(c, states[n - 1], step);
    if states[n - 1].vm == states[n].vm {
      p, q, r := APollSleepsIffNothingIsThere(c, states, steps, n - 1);
    } else {
      p, q := FillOf(c, states, steps, n - 1);
      r := n - 1;
    }
  }

  /** A poll leaves the pipe empty, so that the next one waits for what comes then. */
  lemma APollEmptiesThePipe(c: Config, states: seq<State>, steps: seq<Step>, n: nat)
    requires IsRun(c, states, steps) && n < |steps| && states[n].vm.Flushing? && steps[n].Advance?
    ensures states[n + 1].vm.Elsewhere? && states[n + 1].pipe == 0 && !states[n + 1].pending
  {
    assert Next(c, states[n], steps[n]) == Some(states[n + 1]);
  }

  lemma Then(c: Config, s: State, step: Step)
    requires Reachable(c, s) && Next(c, s, step).Some?
    ensures Reachable(c, Next(c, s, step).value)
  {
    var states, steps :| IsRun(c, states, steps) && states[|steps|] == s;
    var r := Next(c, s, step).value;
    var longer, all := states + [r], steps + [step];
    forall i | 0 <= i < |all| ensures Next(c, longer[i], all[i]) == Some(longer[i + 1]) {
      assert longer[i] == states[i];
      assert i < |steps| ==> longer[i + 1] == states[i + 1] && all[i] == steps[i];
    }
    assert IsRun(c, longer, all) && longer[|all|] == r;
  }

  lemma AtStart(c: Config)
    ensures Reachable(c, Initial(c))
  {
    assert IsRun(c, [Initial(c)], []);
  }

  /** That excuse is needed to its last moment: a sleeping VM, the flag set, the pipe empty, and the
      only signaller past its test of isPooling, with its write still to come. */
  lemma TheWriteMayStillBeToCome(c: Config)
    requires 0 < c.n <= MAX_TIDE
    ensures exists s :: Reachable(c, s) && s.vm == Waiting(true) && s.check && s.pipe == 0 &&
                        s.signallers.Keys == {0} && s.signallers[0].pc == SawPoll
  {
    hide Reachable;
    var s := Initial(c);
    AtStart(c);
    Then(c, s, StartPoll(true)); s := Next(c, s, StartPoll(true)).value;
    Then(c, s, Advance(false)); s := Next(c, s, Advance(false)).value;
    Then(c, s, Advance(false)); s := Next(c, s, Advance(false)).value;
    Then(c, s, Advance(false)); s := Next(c, s, Advance(false)).value;
    assert s == Initial(c).(vm := Waiting(true), isPooling := true);
    Then(c, s, Call(0, 0)); s := Next(c, s, Call(0, 0)).value;
    Then(c, s, Signal(0)); s := Next(c, s, Signal(0)).value;
    Then(c, s, Signal(0)); s := Next(c, s, Signal(0)).value;
    Then(c, s, Signal(0)); s := Next(c, s, Signal(0)).value;
    Then(c, s, Signal(0)); s := Next(c, s, Signal(0)).value;
    Then(c, s, Signal(0)); s := Next(c, s, Signal(0)).value;
    Then(c, s, Signal(0)); s := Next(c, s, Signal(0)).value;
    Then(c, s, Signal(0)); s := Next(c, s, Signal(0)).value;
    assert s.signallers.Keys == {0};
  }

  // ---- beyond the scanned size

  /** Nothing has happened but one call for index i. */
  function Signalled(c: Config, i: nat): State
    requires i < c.n
  {
    var s := Initial(c);
    s.(requests := s.requests[i := 1], check := true, tideA := Tide(i, i), pending := true)
  }

  /** Thread 0 signals index i, from the start of its call to the end. */
  lemma OneSignal(c: Config, i: nat)
    requires i < c.n <= MAX_TIDE
    ensures Reachable(c, Signalled(c, i))
  {
    hide Reachable;
    var s := Initial(c);
    AtStart(c);
    Then(c, s, Call(0, i)); s := Next(c, s, Call(0, i)).value;
    Then(c, s, Signal(0)); s := Next(c, s, Signal(0)).value;
    Then(c, s, Signal(0)); s := Next(c, s, Signal(0)).value;
    Then(c, s, Signal(0)); s := Next(c, s, Signal(0)).value;
    Then(c, s, Signal(0)); s := Next(c, s, Signal(0)).value;
    Then(c, s, Signal(0)); s := Next(c, s, Signal(0)).value;
    Then(c, s, Signal(0)); s := Next(c, s, Signal(0)).value;
    Then(c, s, Signal(0)); s := Next(c, s, Signal(0)).value;
    Then(c, s, Signal(0)); s := Next(c, s, Signal(0)).value;
    assert s.signallers == map[];
  }

  /** At rest, with a request for index i that nothing remembers. */
  predicate Forgotten(s: State, i: nat) {
    && Quiet(s) && s.vm == Elsewhere && s.signallers == map[] && !s.check && !InTide(Active(s), i)
    && i < |s.requests| && i < |s.delivered| && s.delivered[i] < s.requests[i]
  }

  /** The bound on the index is exact: a request for any index at or above the scanned size
      can be forgotten, by the pass that clears its flag and its tide marks. */
  lemma BeyondTheScannedSizeASignalIsLost(c: Config, i: nat)
    requires i < c.n <= MAX_TIDE && c.scanned <= i
    ensures exists s :: Reachable(c, s) && Forgotten(s, i)
  {
    hide Reachable;
    OneSignal(c, i);
    var s := Signalled(c, i);
    Then(c, s, StartPass); s := Next(c, s, StartPass).value;
    Then(c, s, Advance(false)); s := Next(c, s, Advance(false)).value;
    Then(c, s, Advance(false)); s := Next(c, s, Advance(false)).value;
    Then(c, s, Advance(false)); s := Next(c, s, Advance(false)).value;
    Then(c, s, Advance(false)); s := Next(c, s, Advance(false)).value;
    Then(c, s, Advance(false)); s := Next(c, s, Advance(false)).value;
    Then(c, s, Advance(false)); s := Next(c, s, Advance(false)).value;
    Then(c, s, Advance(false)); s := Next(c, s, Advance(false)).value;
    assert Reachable(c, s) && Forgotten(s, i);
  }

  /** Exactly the indices at or above the scanned size can be forgotten. */
  lemma ForgottenIffBeyondScannedSize(c: Config, i: nat)
    requires i < c.n <= MAX_TIDE && c.capacity > 0
    ensures (exists s :: Reachable(c, s) && Forgotten(s, i)) <==> c.scanned <= i
  {
    hide Reachable;
    if c.scanned <= i {
      BeyondTheScannedSizeASignalIsLost(c, i);
    } else {
      forall s | Reachable(c, s) ensures !Forgotten(s, i) {
        NoSignalLostOrInvented(c, s);
      }
    }
  }
}
