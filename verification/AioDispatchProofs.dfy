module AioDispatchProofs {
  // Whatever the handlers do, the dispatch touches no freed descriptor and calls no removed one.

  import opened Basics
  import opened AioDispatch

  // ---- where a descriptor is

  ghost function Ids(list: seq<Descriptor>): (r: seq<nat>)
    ensures |r| == |list|
  {
    seq(|list|, k requires 0 <= k < |list| => list[k].id)
  }

  /** In how many places an allocation is: in the list, parked, or freed. */
  ghost function Places(s: Aio, id: nat): nat {
    Times(Ids(s.list), id) + Times(Ids(s.retired), id) + Times(s.freed, id)
  }

  /** Every descriptor ever allocated is in exactly one place. */
  ghost predicate Accounts(s: Aio) {
    forall id: nat :: Places(s, id) == if id < s.mallocs then 1 else 0
  }

  ghost predicate Parks(s: Aio) {
    forall k :: 0 <= k < |s.retired| ==> Parked(s.retired[k]) == s.retired[k]
  }

  ghost predicate Lists(s: Aio) {
    && (forall k :: 0 <= k < |s.list| ==> s.list[k].fd >= 0)
    && (forall j, k :: 0 <= j < k < |s.list| ==> s.list[j].fd != s.list[k].fd)
  }

  ghost predicate IsHere(s: Aio, e: Event) { e.Event? ==> InMemory(s, e.id) }

  ghost predicate FrameHolds(s: Aio, f: Frame) { forall k :: 0 <= k < |f.events| ==> IsHere(s, f.events[k]) }

  /** Every event of a batch in progress points to a descriptor that is not freed, and only the
      innermost dispatch is not inside a handler. */
  ghost predicate Batches(s: Aio) {
    && (forall k :: 0 <= k < |s.frames| ==> FrameHolds(s, s.frames[k]))
    && (forall k :: 0 <= k < |s.frames| - 1 ==> s.frames[k].at == InRead || s.frames[k].at == InWrite)
  }

  ghost predicate Inv(s: Aio) {
    && !s.crashed && s.depth == |s.frames| && (s.depth == 0 ==> s.retired == [])
    && Accounts(s) && Parks(s) && Lists(s) && Batches(s)
  }

  // ---- counting

  lemma IdsConcat(a: seq<Descriptor>, b: seq<Descriptor>)
    ensures Ids(a + b) == Ids(a) + Ids(b)
  {}

  lemma {:induction false} TimesOfOne(d: Descriptor, id: nat)
    ensures Times(Ids([d]), id) == OneIf(d.id == id)
  {
    assert Ids([d]) == [d.id];
    assert [d.id][1..] == [];
  }

  /** One descriptor more in front. */
  lemma {:induction false} TimesInFront(d: Descriptor, list: seq<Descriptor>, id: nat)
    ensures Times(Ids([d] + list), id) == OneIf(d.id == id) + Times(Ids(list), id)
  {
    hide Ids, Times;
    IdsConcat([d], list);
    TimesConcat(Ids([d]), Ids(list), id);
    TimesOfOne(d, id);
  }

  lemma {:induction false} TimesWithout(list: seq<Descriptor>, k: nat, id: nat)
    requires k < |list|
    ensures Times(Ids(list), id) == Times(Ids(Without(list, k)), id) + OneIf(list[k].id == id)
  {
    hide Ids, Times;
    assert list == list[..k] + ([list[k]] + list[k + 1..]);
    IdsConcat(list[..k], [list[k]] + list[k + 1..]);
    IdsConcat(list[..k], list[k + 1..]);
    TimesConcat(Ids(list[..k]), Ids([list[k]] + list[k + 1..]), id);
    TimesConcat(Ids(list[..k]), Ids(list[k + 1..]), id);
    TimesInFront(list[k], list[k + 1..], id);
  }

  /** A descriptor is found by its allocation when it is there. */
  lemma {:induction false} IndexCounts(list: seq<Descriptor>, id: nat)
    ensures IndexOf(list, id) >= 0 <==> Times(Ids(list), id) > 0
  {
    if list != [] {
      assert Ids(list)[1..] == Ids(list[1..]);
      IndexCounts(list[1..], id);
    }
  }

  lemma InMemoryCounts(s: Aio, id: nat)
    ensures InMemory(s, id) <==> Times(Ids(s.list), id) + Times(Ids(s.retired), id) > 0
  {
    IndexCounts(s.list, id);
    IndexCounts(s.retired, id);
  }

  /** What holds of frames stays when what is in memory does. */
  lemma BatchesStay(s: Aio, t: Aio)
    requires Batches(s) && t.frames == s.frames
    requires forall id :: InMemory(s, id) ==> InMemory(t, id)
    ensures Batches(t)
  {
    hide InMemory;
    forall k | 0 <= k < |t.frames| ensures FrameHolds(t, t.frames[k]) {
      assert FrameHolds(s, s.frames[k]);
    }
  }

  // ---- the calls of the VM and of the handlers

  /** A descriptor in the list changes, and stays where it is. */
  lemma UpdateKeepsInv(s: Aio, k: nat, d: Descriptor)
    requires Inv(s) && k < |s.list| && d.id == s.list[k].id && d.fd == s.list[k].fd
    ensures Inv(s.(list := s.list[k := d]))
  {
    hide Times, InMemory, Batches, IndexOf;
    var t := s.(list := s.list[k := d]);
    assert Ids(t.list) == Ids(s.list);
    forall id: nat
      ensures Places(t, id) == Places(s, id)
      ensures InMemory(s, id) ==> InMemory(t, id)
    {
      InMemoryCounts(s, id);
      InMemoryCounts(t, id);
    }
    BatchesStay(s, t);
  }

  lemma EnabledKeepsInv(s: Aio, fd: int, data: int)
    requires Inv(s)
    ensures Inv(Enabled(s, fd, data))
  {
    hide Times, InMemory, Batches, IndexOf, Ids;
    var k := Find(s.list, fd);
    if fd >= 0 && k >= 0 {
      UpdateKeepsInv(s, k, s.list[k].(data := data, addErrno := 0));
    } else if fd >= 0 {
      var d := NewDescriptor(s.mallocs, fd, data);
      var t := Enabled(s, fd, data);
      forall id: nat
        ensures Places(t, id) == if id < t.mallocs then 1 else 0
        ensures InMemory(s, id) ==> InMemory(t, id)
      {
        assert Places(s, id) == if id < s.mallocs then 1 else 0;
        TimesInFront(d, s.list, id);
        InMemoryCounts(s, id);
        InMemoryCounts(t, id);
      }
      BatchesStay(s, t);
    }
  }

  lemma WithoutKeepsLists(s: Aio, k: nat)
    requires Lists(s) && k < |s.list|
    ensures Lists(s.(list := Without(s.list, k)))
  {}

  lemma RemoveKeepsInv(s: Aio, k: nat)
    requires Inv(s) && k < |s.list|
    ensures Inv(Retired(s.(list := Without(s.list, k)), s.list[k]))
  {
    hide Times, InMemory, Batches, IndexOf, Ids, Lists, Without;
    var d := s.list[k];
    var t := Retired(s.(list := Without(s.list, k)), d);
    WithoutKeepsLists(s, k);
    ListsStay(s.(list := Without(s.list, k)), t);
    forall id: nat
      ensures Places(t, id) == Places(s, id)
      ensures s.depth > 0 && InMemory(s, id) ==> InMemory(t, id)
    {
      TimesWithout(s.list, k, id);
      TimesPush(s.freed, d.id, id);
      TimesInFront(Parked(d), s.retired, id);
      InMemoryCounts(s, id);
      InMemoryCounts(t, id);
    }
    if s.depth > 0 {
      BatchesStay(s, t);
    } else {
      NoBatches(t);
    }
  }

  lemma NoBatches(t: Aio)
    requires t.frames == []
    ensures Batches(t)
  {}

  lemma ListsStay(s: Aio, t: Aio)
    requires Lists(s) && t.list == s.list
    ensures Lists(t)
  {}

  lemma {:induction false} AllRemovedKeepsInv(s: Aio)
    requires Inv(s)
    ensures Inv(AllRemoved(s))
    decreases |s.list|
  {
    hide Inv;
    if s.list != [] {
      assert Without(s.list, 0) == s.list[1..];
      RemoveKeepsInv(s, 0);
      AllRemovedKeepsInv(Retired(s.(list := s.list[1..]), s.list[0]));
    }
  }

  // ---- the dispatch

  lemma SameMemory(s: Aio, t: Aio)
    requires t.list == s.list && t.retired == s.retired
    ensures forall id :: InMemory(t, id) == InMemory(s, id)
  {}

  /** The innermost dispatch moves on within its batch. */
  lemma WithTopKeepsInv(s: Aio, f: Frame)
    requires Inv(s) && s.frames != [] && f.events == Top(s).events
    ensures Inv(WithTop(s, f))
  {
    hide InMemory, Times;
    var t := WithTop(s, f);
    SameMemory(s, t);
    forall id: nat ensures Places(t, id) == Places(s, id) {}
    forall k | 0 <= k < |t.frames| ensures FrameHolds(t, t.frames[k]) {
      assert FrameHolds(s, s.frames[k]);
    }
  }

  lemma CallsKeepInv(s: Aio, calls: seq<Call>)
    requires Inv(s)
    ensures Inv(s.(calls := calls))
  {
    hide InMemory, Times;
    var t := s.(calls := calls);
    SameMemory(s, t);
    forall id: nat ensures Places(t, id) == Places(s, id) {}
    BatchesStay(s, t);
  }

  lemma ClearMaskKeepsInv(s: Aio, id: nat)
    requires Inv(s) && InMemory(s, id) && Read(s, id).fd != -1
    ensures Inv(ClearMask(s, id))
  {
    var k, j := IndexOf(s.list, id), IndexOf(s.retired, id);
    assert j >= 0 ==> Parked(s.retired[j]) == s.retired[j];
    if k >= 0 {
      UpdateKeepsInv(s, k, s.list[k].(mask := {}));
    }
  }

  lemma CalledKeepsInv(s: Aio, d: Descriptor, handler: Handler, flag: Flag, failed: bool, at: Place)
    requires Inv(s) && s.frames != []
    ensures Inv(Called(s, d, handler, flag, failed, at))
  {
    hide Inv;
    WithTopKeepsInv(s, Top(s).(at := at));
    CallsKeepInv(WithTop(s, Top(s).(at := at)), s.calls + [CallOf(d, handler, flag, failed)]);
  }

  lemma TopEventIsHere(s: Aio)
    requires Inv(s) && s.frames != [] && Top(s).index < |Top(s).events|
    ensures IsHere(s, Top(s).events[Top(s).index])
  {
    hide InMemory;
    assert FrameHolds(s, Top(s));
  }

  lemma {:induction false} RetiredFreedMeans(s: Aio)
    ensures RetiredFreed(s) == s.(retired := [], freed := s.freed + Ids(s.retired))
    decreases |s.retired|
  {
    if s.retired != [] {
      RetiredFreedMeans(s.(retired := s.retired[1..], freed := s.freed + [s.retired[0].id]));
      assert Ids(s.retired) == [s.retired[0].id] + Ids(s.retired[1..]);
      assert (s.freed + [s.retired[0].id]) + Ids(s.retired[1..]) == s.freed + Ids(s.retired);
    } else {
      assert s.freed + Ids(s.retired) == s.freed;
    }
  }

  lemma FinishedKeepsInv(s: Aio)
    requires Inv(s) && s.frames != []
    ensures Inv(Finished(s))
  {
    hide InMemory, Times, Ids, RetiredFreed;
    var t := s.(frames := s.frames[..|s.frames| - 1], depth := s.depth - 1);
    SameMemory(s, t);
    if t.depth > 0 {
      forall id: nat ensures Places(t, id) == Places(s, id) {}
      forall k | 0 <= k < |t.frames| ensures FrameHolds(t, t.frames[k]) {
        assert FrameHolds(s, s.frames[k]);
      }
    } else {
      var r := RetiredFreed(t);
      RetiredFreedMeans(t);
      assert r.frames == [];
      forall id: nat ensures Places(r, id) == Places(s, id) {
        TimesConcat(s.freed, Ids(s.retired), id);
        assert Times(Ids([]), id) == 0 by { NoneThere(id); }
      }
    }
  }

  lemma NoneThere(id: nat)
    ensures Times(Ids([]), id) == 0
  {}

  lemma DispatchedKeepsInv(s: Aio)
    requires Inv(s) && s.frames != []
    ensures Inv(Dispatched(s))
  {
    hide Inv, InMemory, Finished, ClearMask, Called, IndexOf, Read;
    var f := Top(s);
    if f.index >= |f.events| {
      FinishedKeepsInv(s);
    } else {
      var e := f.events[f.index];
      TopEventIsHere(s);
      WithTopKeepsInv(s, f.(index := f.index + 1, at := AtEvent));
      WithTopKeepsInv(s, f.(at := AfterRead));
      if e.Event? {
        var d := Read(s, e.id);
        CalledKeepsInv(s, d, d.write, Writable, e.failed, InWrite);
        if d.fd != -1 {
          var t := ClearMask(s, e.id);
          ClearMaskKeepsInv(s, e.id);
          assert t.frames == s.frames by { ClearMaskKeepsFrames(s, e.id); }
          CalledKeepsInv(t, d, d.read, Readable, e.failed, InRead);
          WithTopKeepsInv(t, Top(t).(at := AfterRead));
        }
      }
    }
  }

  lemma ClearMaskKeepsFrames(s: Aio, id: nat)
    ensures ClearMask(s, id).frames == s.frames && ClearMask(s, id).calls == s.calls
  {}

  lemma PolledKeepsInv(s: Aio, events: seq<Event>)
    requires Inv(s) && CanTake(s, Poll(events))
    ensures Inv(Polled(s, events))
  {
    hide Times, IndexOf;
    if events != [] {
      var t := Polled(s, events);
      SameMemory(s, t);
      forall id: nat ensures Places(t, id) == Places(s, id) {}
      forall k | 0 <= k < |t.frames| ensures FrameHolds(t, t.frames[k]) {
        if k < |s.frames| {
          assert FrameHolds(s, s.frames[k]);
        }
      }
    }
  }

  lemma TakeKeepsInv(s: Aio, a: Action)
    requires Inv(s) && CanTake(s, a)
    ensures Inv(Take(s, a))
  {
    hide Inv, UserRuns, Dispatched, Polled, AllRemoved, Enabled, IndexOf, Retired;
    match a
    case Enable(fd, data) => EnabledKeepsInv(s, fd, data);
    case SetHandler(fd, handler, mask) =>
      var k := Find(s.list, fd);
      if k >= 0 {
        UpdateKeepsInv(s, k, WithHandler(s.list[k], handler, mask));
      }
    case Suspend(fd, mask) =>
      var k := Find(s.list, fd);
      if k >= 0 {
        UpdateKeepsInv(s, k, SuspendedDescriptor(s.list[k], mask));
      }
    case Disable(fd) =>
      var k := Find(s.list, fd);
      if k >= 0 {
        RemoveKeepsInv(s, k);
      }
    case RemoveAll => AllRemovedKeepsInv(s);
    case Poll(events) => PolledKeepsInv(s, events);
    case GoOn => DispatchedKeepsInv(s);
  }

  /** Whatever the VM and the handlers do, in any order and at any depth of polls: no event of a
      batch in progress names freed memory, and every descriptor is in one place. */
  lemma {:induction false} RunKeepsInv(s: Aio, actions: seq<Action>, t: Aio)
    requires Inv(s) && Reaches(s, actions, t)
    ensures Inv(t)
    decreases |actions|
  {
    hide Inv, Take, CanTake;
    if actions != [] {
      TakeKeepsInv(s, actions[0]);
      RunKeepsInv(Take(s, actions[0]), actions[1..], t);
    }
  }

  /** From the start of the VM: no freed descriptor is touched, none is freed twice, and outside
      every dispatch all that were removed are freed. */
  lemma NothingFreedIsUsed(actions: seq<Action>, t: Aio)
    requires Reaches(START, actions, t)
    ensures !t.crashed && forall id :: Times(t.freed, id) <= 1
    ensures t.frames == [] ==> forall id: nat :: id < t.mallocs ==> Times(t.freed, id) == 1 - Times(Ids(t.list), id)
  {
    hide Reaches;
    RunKeepsInv(START, actions, t);
    forall id: nat ensures Times(t.freed, id) <= 1 { assert Places(t, id) <= 1; }
    if t.frames == [] {
      forall id: nat | id < t.mallocs ensures Times(t.freed, id) == 1 - Times(Ids(t.list), id) {
        assert Places(t, id) == 1;
        NoneThere(id);
      }
    }
  }

  // ---- the handler calls

  /** A call is made to a descriptor in the list, with its fd and data, of the handler it has. */
  ghost predicate CallsOne(list: seq<Descriptor>, k: nat, c: Call) {
    && k < |list| && c.id == list[k].id && c.fd == list[k].fd && c.data == list[k].data
    && c.handler != NO_HANDLER && c.handler == (if Readable in c.flags then list[k].read else list[k].write)
  }

  lemma CalledCallsOne(s: Aio, t: Aio, d: Descriptor, handler: Handler, flag: Flag, failed: bool, at: Place)
    requires t.frames != [] && t.calls == s.calls
    requires IndexOf(s.list, d.id) >= 0 && s.list[IndexOf(s.list, d.id)] == d
    requires handler != NO_HANDLER && flag in {Readable, Writable} &&
      handler == if flag == Readable then d.read else d.write
    ensures exists k: nat, c :: Called(t, d, handler, flag, failed, at).calls == s.calls + [c] && CallsOne(s.list, k, c)
  {
    var k := IndexOf(s.list, d.id);
    var c := CallOf(d, handler, flag, failed);
    assert Called(t, d, handler, flag, failed, at).calls == s.calls + [c];
    assert CallsOne(s.list, k, c);
  }

  /** Only the dispatch calls handlers, one at a time, those of descriptors in the list. */
  lemma CallsAreToTheList(s: Aio, a: Action)
    requires Inv(s) && CanTake(s, a)
    ensures var t := Take(s, a);
      t.calls == s.calls || (a.GoOn? && exists k: nat, c :: t.calls == s.calls + [c] && CallsOne(s.list, k, c))
  {
    hide Inv, Called, CallsOne, IndexOf, Find, UserRuns, RetiredFreed, AllRemoved;
    if a.RemoveAll? {
      AllRemovedCallsNone(s);
    } else if a.GoOn? {
      DispatchCallsTheList(s);
    }
  }

  lemma DispatchCallsTheList(s: Aio)
    requires Inv(s) && s.frames != []
    ensures var t := Dispatched(s);
      t.calls == s.calls || exists k: nat, c :: t.calls == s.calls + [c] && CallsOne(s.list, k, c)
  {
    hide Inv, Called, CallsOne, IndexOf, InMemory, RetiredFreed, ClearMask;
    var f := Top(s);
    if f.index >= |f.events| {
      RetiredFreedMeans(s.(frames := s.frames[..|s.frames| - 1], depth := if s.depth > 0 then s.depth - 1 else 0));
    } else {
      var e := f.events[f.index];
      TopEventIsHere(s);
      if e.Event? {
        var d := Read(s, e.id);
        var t := ClearMask(s, e.id);
        ClearMaskKeepsFrames(s, e.id);
        ParkedHasNoHandler(s, e.id);
        if f.at == AtEvent && d.fd != -1 && e.readable && d.read != NO_HANDLER {
          CalledCallsOne(s, t, d, d.read, Readable, e.failed, InRead);
        } else if f.at == AfterRead && e.writable && d.write != NO_HANDLER {
          CalledCallsOne(s, s, d, d.write, Writable, e.failed, InWrite);
        }
      }
    }
  }

  lemma ParkedHasNoHandler(s: Aio, id: nat)
    requires Inv(s) && InMemory(s, id)
    ensures var d := Read(s, id);
      d.id == id && (d.read != NO_HANDLER || d.write != NO_HANDLER || d.fd != -1 ==>
                     IndexOf(s.list, id) >= 0 && s.list[IndexOf(s.list, id)] == d)
  {
    var j := IndexOf(s.retired, id);
    assert j >= 0 ==> Parked(s.retired[j]) == s.retired[j];
  }

  lemma {:induction false} AllRemovedCallsNone(s: Aio)
    ensures AllRemoved(s).calls == s.calls
    decreases |s.list|
  {
    if s.list != [] {
      AllRemovedCallsNone(Retired(s.(list := s.list[1..]), s.list[0]));
    }
  }

  /** Allocated, and no longer in the list. */
  ghost predicate IsRemoved(s: Aio, id: nat) { id < s.mallocs && Times(Ids(s.list), id) == 0 }

  lemma {:induction false} AllRemovedEmpties(s: Aio)
    ensures AllRemoved(s).list == [] && AllRemoved(s).mallocs == s.mallocs
    decreases |s.list|
  {
    if s.list != [] {
      AllRemovedEmpties(Retired(s.(list := s.list[1..]), s.list[0]));
    }
  }

  lemma TakeKeepsRemoved(s: Aio, a: Action, id: nat)
    requires CanTake(s, a) && IsRemoved(s, id)
    ensures IsRemoved(Take(s, a), id)
  {
    hide Times, Ids, UserRuns, AllRemoved, Dispatched, IndexOf, Without;
    match a
    case Enable(fd, data) =>
      var k := Find(s.list, fd);
      if k >= 0 {
        SameIds(s.list, k, s.list[k].(data := data, addErrno := 0));
      } else {
        TimesInFront(NewDescriptor(s.mallocs, fd, data), s.list, id);
      }
    case SetHandler(fd, handler, mask) =>
      var k := Find(s.list, fd);
      if k >= 0 {
        SameIds(s.list, k, WithHandler(s.list[k], handler, mask));
      }
    case Suspend(fd, mask) =>
      var k := Find(s.list, fd);
      if k >= 0 {
        SameIds(s.list, k, SuspendedDescriptor(s.list[k], mask));
      }
    case Disable(fd) =>
      var k := Find(s.list, fd);
      if k >= 0 {
        TimesWithout(s.list, k, id);
      }
    case RemoveAll =>
      AllRemovedEmpties(s);
      NoneThere(id);
    case Poll(events) =>
    case GoOn => DispatchedKeepsIds(s);
  }

  lemma SameIds(list: seq<Descriptor>, k: nat, d: Descriptor)
    requires k < |list| && d.id == list[k].id
    ensures Ids(list[k := d]) == Ids(list)
  {}

  lemma DispatchedKeepsIds(s: Aio)
    requires s.frames != []
    ensures Ids(Dispatched(s).list) == Ids(s.list) && Dispatched(s).mallocs == s.mallocs
  {
    hide Ids, RetiredFreed, IndexOf, InMemory, Read;
    var f := Top(s);
    if f.index >= |f.events| {
      RetiredFreedMeans(s.(frames := s.frames[..|s.frames| - 1], depth := if s.depth > 0 then s.depth - 1 else 0));
    } else {
      var e := f.events[f.index];
      if e.Event? && IndexOf(s.list, e.id) >= 0 {
        var k := IndexOf(s.list, e.id);
        SameIds(s.list, k, s.list[k].(mask := {}));
      }
    }
  }

  function CallsTo(calls: seq<Call>, id: nat): nat {
    if calls == [] then 0
    else CallsTo(calls[..|calls| - 1], id) + if calls[|calls| - 1].id == id then 1 else 0
  }

  lemma {:induction false} InListCounts(list: seq<Descriptor>, k: nat)
    requires k < |list|
    ensures Times(Ids(list), list[k].id) > 0
  {
    TimesWithout(list, k, list[k].id);
  }

  /** A descriptor once removed gets no handler call any more, from no batch in progress and from
      no later one, even when its fd is enabled again. */
  lemma {:induction false} RemovedGetsNoCall(s: Aio, actions: seq<Action>, t: Aio, id: nat)
    requires Inv(s) && IsRemoved(s, id) && Reaches(s, actions, t)
    ensures IsRemoved(t, id) && CallsTo(t.calls, id) == CallsTo(s.calls, id)
    decreases |actions|
  {
    hide Inv, Take, CanTake, IsRemoved;
    if actions != [] {
      var a := actions[0];
      var next := Take(s, a);
      TakeKeepsInv(s, a);
      TakeKeepsRemoved(s, a, id);
      CallsAreToTheList(s, a);
      if next.calls != s.calls {
        var k: nat, c :| next.calls == s.calls + [c] && CallsOne(s.list, k, c);
        RemovedIsNotCalled(s, id, k, c);
      }
      RemovedGetsNoCall(next, actions[1..], t, id);
    }
  }

  lemma {:induction false} RemovedIsNotCalled(s: Aio, id: nat, k: nat, c: Call)
    requires IsRemoved(s, id) && CallsOne(s.list, k, c)
    ensures CallsTo(s.calls + [c], id) == CallsTo(s.calls, id)
  {
    InListCounts(s.list, k);
    assert (s.calls + [c])[..|s.calls|] == s.calls;
  }
}
