module AioCalls {
  // Which handlers a dispatch calls: all that it owes, in the order of the events, and no other.

  import opened Basics
  import opened AioDispatch
  import opened AioDispatchProofs

  // ---- what is owed

  function FlagsOf(flag: Flag, failed: bool): Flags { if failed then {flag, Exceptions} else {flag} }

  /** A descriptor with a handler for it is told that it is readable. */
  function ReadOwed(d: Descriptor, e: Event): seq<Call>
    requires e.Event?
  {
    if e.readable && d.read != NO_HANDLER then [Call(d.id, d.fd, d.data, d.read, FlagsOf(Readable, e.failed))] else []
  }

  function WriteOwed(d: Descriptor, e: Event): seq<Call>
    requires e.Event?
  {
    if e.writable && d.write != NO_HANDLER then [Call(d.id, d.fd, d.data, d.write, FlagsOf(Writable, e.failed))]
    else []
  }

  /** What an event owes to the descriptors of a list. */
  function Owed(list: seq<Descriptor>, e: Event): seq<Call> {
    if e.FromPipe? || list == [] then []
    else if list[0].id == e.id then ReadOwed(list[0], e) + WriteOwed(list[0], e)
    else Owed(list[1..], e)
  }

  function AllOwed(list: seq<Descriptor>, events: seq<Event>): seq<Call> {
    if events == [] then [] else Owed(list, events[0]) + AllOwed(list, events[1..])
  }

  /** The descriptors of the events are not armed any more. */
  function Disarmed(list: seq<Descriptor>, events: seq<Event>): (r: seq<Descriptor>)
    ensures |r| == |list|
  {
    seq(|list|, k requires 0 <= k < |list| =>
      if exists j :: 0 <= j < |events| && events[j].Event? && events[j].id == list[k].id then list[k].(mask := {})
      else list[k])
  }

  // ---- one event

  /** The innermost dispatch is at this event, in this place. */
  predicate IsAt(s: Aio, e: Event, at: Place) {
    s.frames != [] && Top(s).index < |Top(s).events| && Top(s).events[Top(s).index] == e && Top(s).at == at
  }

  lemma {:induction false} IndexIs(list: seq<Descriptor>, k: nat)
    requires k < |list| && forall j :: 0 <= j < |list| && list[j].id == list[k].id ==> j == k
    ensures IndexOf(list, list[k].id) == k
  {
    if k > 0 {
      assert list[0].id != list[k].id;
      IndexIs(list[1..], k - 1);
    }
  }

  lemma {:induction false} IdsDiffer(list: seq<Descriptor>, j: nat, k: nat)
    requires j < k < |list| && Times(Ids(list), list[k].id) <= 1
    ensures list[j].id != list[k].id
  {
    hide Times, Ids;
    TimesWithout(list, j, list[k].id);
    InListCounts(Without(list, j), k - 1);
    assert Without(list, j)[k - 1] == list[k];
  }

  lemma InListIndex(s: Aio, k: nat)
    requires Inv(s) && k < |s.list|
    ensures IndexOf(s.list, s.list[k].id) == k
  {
    hide Times, Ids, IndexOf;
    forall j | 0 <= j < |s.list| && s.list[j].id == s.list[k].id ensures j == k {
      assert Places(s, s.list[k].id) <= 1;
      if j < k { IdsDiffer(s.list, j, k); }
      if k < j { IdsDiffer(s.list, k, j); }
    }
    IndexIs(s.list, k);
  }

  /** Whatever the handlers did before: a descriptor that is in the list when its event is taken is
      disarmed, and its read handler, if it has one and can read, is called. */
  lemma ReadIsServed(s: Aio, e: Event, k: nat)
    requires Inv(s) && e.Event? && IsAt(s, e, AtEvent) && k < |s.list| && s.list[k].id == e.id
    ensures var t, calls := Dispatched(s), ReadOwed(s.list[k], e);
      && t == s.(list := s.list[k := s.list[k].(mask := {})], calls := s.calls + calls, frames := t.frames)
      && IsAt(t, e, if calls == [] then AfterRead else InRead)
      && t.frames == s.frames[|s.frames| - 1 := Top(s).(at := if calls == [] then AfterRead else InRead)]
  {
    hide Inv, Called;
    InListIndex(s, k);
    FdsAreReal(s, k);
    CalledMeans(ClearMask(s, e.id), s.list[k], s.list[k].read, Readable, e.failed, InRead);
    assert s.calls + [] == s.calls;
  }

  lemma FdsAreReal(s: Aio, k: nat)
    requires Inv(s) && k < |s.list|
    ensures s.list[k].fd != -1
  {}

  lemma CalledMeans(s: Aio, d: Descriptor, handler: Handler, flag: Flag, failed: bool, at: Place)
    requires s.frames != []
    ensures Called(s, d, handler, flag, failed, at) ==
      s.(calls := s.calls + [Call(d.id, d.fd, d.data, handler, FlagsOf(flag, failed))],
         frames := s.frames[|s.frames| - 1 := Top(s).(at := at)])
  {
    assert {flag} + {Exceptions} == {flag, Exceptions} && {flag} + {} == {flag};
  }

  /** Then, when it is still in the list, the write handler that it has by then. */
  lemma WriteIsServed(s: Aio, e: Event, k: nat)
    requires Inv(s) && e.Event? && IsAt(s, e, AfterRead) && k < |s.list| && s.list[k].id == e.id
    ensures var t, calls := Dispatched(s), WriteOwed(s.list[k], e);
      && t == s.(calls := s.calls + calls, frames := t.frames)
      && t.frames == s.frames[|s.frames| - 1 := if calls == [] then Top(s).(index := Top(s).index + 1, at := AtEvent)
                                               else Top(s).(at := InWrite)]
  {
    hide Inv, Called;
    InListIndex(s, k);
    CalledMeans(s, s.list[k], s.list[k].write, Writable, e.failed, InWrite);
    assert s.calls + [] == s.calls;
  }

  /** A handler that returns calls nobody, and the dispatch goes on behind it. */
  lemma HandlerReturns(s: Aio, e: Event, at: Place)
    requires IsAt(s, e, at) && (at == InRead || at == InWrite)
    ensures Dispatched(s) ==
      s.(frames := s.frames[|s.frames| - 1 := if at == InRead then Top(s).(at := AfterRead)
                                              else Top(s).(index := Top(s).index + 1, at := AtEvent)])
  {}

  // ---- a batch whose handlers do nothing but return

  function GoOns(n: nat): (r: seq<Action>)
    ensures |r| == n
  {
    seq(n, _ => GoOn)
  }

  lemma {:induction false} ReachesThen(s: Aio, a: seq<Action>, t: Aio, b: seq<Action>, u: Aio)
    requires Reaches(s, a, t) && Reaches(t, b, u)
    ensures Reaches(s, a + b, u)
    decreases |a|
  {
    hide Take, CanTake;
    if a == [] {
      assert a + b == b;
    } else {
      assert (a + b)[1..] == a[1..] + b;
      ReachesThen(Take(s, a[0]), a[1..], t, b, u);
    }
  }

  lemma OneMore(s: Aio, n: nat, t: Aio)
    requires Reaches(s, GoOns(n), t) && t.frames != []
    ensures Reaches(s, GoOns(n + 1), Dispatched(t))
  {
    hide Dispatched;
    assert Reaches(t, [GoOn], Dispatched(t)) by {
      assert [GoOn][1..] == [];
    }
    ReachesThen(s, GoOns(n), t, [GoOn], Dispatched(t));
    assert GoOns(n) + [GoOn] == GoOns(n + 1);
  }

  lemma {:induction false} OwedIs(list: seq<Descriptor>, e: Event, k: nat)
    requires e.Event? && k < |list| && list[k].id == e.id && forall j :: 0 <= j < k ==> list[j].id != e.id
    ensures Owed(list, e) == ReadOwed(list[k], e) + WriteOwed(list[k], e)
  {
    if k > 0 {
      OwedIs(list[1..], e, k - 1);
    }
  }

  /** The event at hand is served, and the dispatch is at the next one. */
  ghost predicate Serves(s: Aio, e: Event, n: nat, t: Aio)
    requires s.frames != []
  {
    && Reaches(s, GoOns(n), t) && n <= 4
    && t == s.(list := Disarmed(s.list, [e]), calls := s.calls + Owed(s.list, e),
               frames := s.frames[|s.frames| - 1 := Top(s).(index := Top(s).index + 1, at := AtEvent)])
  }

  lemma DisarmedOne(list: seq<Descriptor>, e: Event, k: nat)
    requires e.Event? && k < |list| && list[k].id == e.id
    requires forall j :: 0 <= j < |list| && list[j].id == e.id ==> j == k
    ensures Disarmed(list, [e]) == list[k := list[k].(mask := {})]
  {
    var r := Disarmed(list, [e]);
    assert [e][0] == e;
    forall j | 0 <= j < |list| ensures r[j] == list[k := list[k].(mask := {})][j] {}
  }

  lemma DisarmedPipe(list: seq<Descriptor>)
    ensures Disarmed(list, [FromPipe]) == list
  {}

  lemma OnlyOne(s: Aio, k: nat)
    requires Inv(s) && k < |s.list|
    ensures forall j :: 0 <= j < |s.list| && s.list[j].id == s.list[k].id ==> j == k
  {
    hide Inv;
    forall j | 0 <= j < |s.list| && s.list[j].id == s.list[k].id ensures j == k {
      InListIndex(s, j);
      InListIndex(s, k);
    }
  }

  lemma ReachesItself(s: Aio)
    ensures Reaches(s, GoOns(0), s)
  {}

  lemma {:induction false} DispatchKeeps(s: Aio, n: nat, t: Aio)
    requires Inv(s) && Reaches(s, GoOns(n), t)
    ensures Inv(t)
  {
    hide Inv, Reaches;
    RunKeepsInv(s, GoOns(n), t);
  }

  lemma PipeIsServed(s: Aio) returns (t: Aio)
    requires IsAt(s, FromPipe, AtEvent)
    ensures Serves(s, FromPipe, 1, t)
  {
    hide Reaches;
    t := Dispatched(s);
    ReachesItself(s);
    OneMore(s, 0, s);
    DisarmedPipe(s.list);
    assert s.calls + [] == s.calls;
  }

  /** The read half of an event of a descriptor in the list, its handler's return included. */
  lemma ReadHalf(s: Aio, e: Event, k: nat) returns (n: nat, t: Aio)
    requires Inv(s) && e.Event? && IsAt(s, e, AtEvent) && k < |s.list| && s.list[k].id == e.id
    ensures n <= 2 && Reaches(s, GoOns(n), t) && Inv(t)
    ensures t == s.(list := s.list[k := s.list[k].(mask := {})], calls := s.calls + ReadOwed(s.list[k], e),
                    frames := s.frames[|s.frames| - 1 := Top(s).(at := AfterRead)])
  {
    hide Inv, Dispatched, Reaches;
    ReachesItself(s);
    OneMore(s, 0, s);
    ReadIsServed(s, e, k);
    n, t := 1, Dispatched(s);
    if ReadOwed(s.list[k], e) != [] {
      HandlerReturns(t, e, InRead);
      OneMore(s, 1, t);
      n, t := 2, Dispatched(t);
    }
    DispatchKeeps(s, n, t);
  }

  lemma WriteHalf(s: Aio, e: Event, k: nat) returns (n: nat, t: Aio)
    requires Inv(s) && e.Event? && IsAt(s, e, AfterRead) && k < |s.list| && s.list[k].id == e.id
    ensures n <= 2 && Reaches(s, GoOns(n), t)
    ensures t == s.(calls := s.calls + WriteOwed(s.list[k], e),
                    frames := s.frames[|s.frames| - 1 := Top(s).(index := Top(s).index + 1, at := AtEvent)])
  {
    hide Inv, Dispatched, Reaches;
    ReachesItself(s);
    OneMore(s, 0, s);
    WriteIsServed(s, e, k);
    n, t := 1, Dispatched(s);
    if WriteOwed(s.list[k], e) != [] {
      HandlerReturns(t, e, InWrite);
      OneMore(s, 1, t);
      n, t := 2, Dispatched(t);
    }
  }

  lemma EventIsServed(s: Aio, e: Event, k: nat) returns (n: nat, t: Aio)
    requires Inv(s) && e.Event? && IsAt(s, e, AtEvent) && k < |s.list| && s.list[k].id == e.id
    ensures Serves(s, e, n, t)
  {
    hide Inv, Reaches, Disarmed;
    var m, r := ReadHalf(s, e, k);
    var l, u := WriteHalf(r, e, k);
    n, t := m + l, u;
    ReachesThen(s, GoOns(m), r, GoOns(l), u);
    assert GoOns(m) + GoOns(l) == GoOns(n);
    OnlyOne(s, k);
    OwedIs(s.list, e, k);
    DisarmedOne(s.list, e, k);
    var d := s.list[k];
    assert WriteOwed(d.(mask := {}), e) == WriteOwed(d, e);
    Associative(s.calls, ReadOwed(d, e), WriteOwed(d, e));
  }

  // ---- the whole batch

  lemma {:induction false} OwedWhenDisarmed(list: seq<Descriptor>, other: seq<Descriptor>, e: Event)
    requires |other| == |list| && forall k :: 0 <= k < |list| ==> other[k].(mask := {}) == list[k].(mask := {})
    ensures Owed(other, e) == Owed(list, e)
  {
    if list != [] && e.Event? {
      var d := other[0];
      assert d.(mask := {}) == list[0].(mask := {});
      assert d.id == list[0].id && d.fd == list[0].fd && d.data == list[0].data;
      assert d.read == list[0].read && d.write == list[0].write;
      forall k | 0 <= k < |list| - 1 ensures other[1..][k].(mask := {}) == list[1..][k].(mask := {}) {
        assert other[k + 1].(mask := {}) == list[k + 1].(mask := {});
      }
      OwedWhenDisarmed(list[1..], other[1..], e);
    }
  }

  lemma {:induction false} AllOwedWhenDisarmed(list: seq<Descriptor>, other: seq<Descriptor>, events: seq<Event>)
    requires |other| == |list| && forall k :: 0 <= k < |list| ==> other[k].(mask := {}) == list[k].(mask := {})
    ensures AllOwed(other, events) == AllOwed(list, events)
  {
    hide Owed;
    if events != [] {
      OwedWhenDisarmed(list, other, events[0]);
      AllOwedWhenDisarmed(list, other, events[1..]);
    }
  }

  lemma DisarmedTwice(list: seq<Descriptor>, e: Event, more: seq<Event>)
    ensures Disarmed(Disarmed(list, [e]), more) == Disarmed(list, [e] + more)
    ensures forall k :: 0 <= k < |list| ==> Disarmed(list, [e])[k].(mask := {}) == list[k].(mask := {})
  {
    var once, all := Disarmed(list, [e]), [e] + more;
    forall k | 0 <= k < |list| ensures Disarmed(once, more)[k] == Disarmed(list, all)[k] {
      assert once[k].id == list[k].id;
      assert all[0] == e && [e][0] == e;
      assert forall j :: 0 <= j < |more| ==> more[j] == all[j + 1];
      assert forall j :: 0 < j < |all| ==> all[j] == more[j - 1];
    }
  }

  lemma DisarmedNone(list: seq<Descriptor>)
    ensures Disarmed(list, []) == list
  {}

  /** Every event of the rest of a batch is of a descriptor in the list. */
  ghost predicate Listed(list: seq<Descriptor>, events: seq<Event>) {
    forall j :: 0 <= j < |events| && events[j].Event? ==> exists k :: 0 <= k < |list| && list[k].id == events[j].id
  }

  lemma ListedStays(list: seq<Descriptor>, e: Event, more: seq<Event>)
    requires Listed(list, [e] + more)
    ensures Listed(Disarmed(list, [e]), more)
    ensures e.Event? ==> exists k :: 0 <= k < |list| && list[k].id == e.id
  {
    var all := [e] + more;
    assert all[0] == e;
    forall j | 0 <= j < |more| && more[j].Event?
      ensures exists k :: 0 <= k < |list| && Disarmed(list, [e])[k].id == more[j].id
    {
      assert all[j + 1] == more[j];
      var k :| 0 <= k < |list| && list[k].id == more[j].id;
      assert Disarmed(list, [e])[k].id == more[j].id;
    }
  }

  /** What is left of the batch at hand. */
  function Rest(s: Aio): seq<Event>
    requires s.frames != [] && Top(s).index <= |Top(s).events|
  {
    Top(s).events[Top(s).index..]
  }

  lemma {:induction false} RestIsServed(s: Aio) returns (n: nat, t: Aio)
    requires Inv(s) && s.frames != [] && Top(s).index <= |Top(s).events| && Top(s).at == AtEvent
    requires Listed(s.list, Rest(s))
    ensures Reaches(s, GoOns(n), t) && n <= 4 * |Rest(s)|
    ensures t == s.(list := Disarmed(s.list, Rest(s)), calls := s.calls + AllOwed(s.list, Rest(s)),
                    frames := s.frames[|s.frames| - 1 := Top(s).(index := |Top(s).events|)])
    decreases |Rest(s)|
  {
    hide Inv, Reaches, Disarmed, Owed, Listed;
    if Rest(s) == [] {
      n, t := 0, s;
      ReachesItself(s);
      DisarmedNone(s.list);
      assert s.calls + [] == s.calls;
    } else {
      var e, more := Rest(s)[0], Rest(s)[1..];
      assert Rest(s) == [e] + more;
      ListedStays(s.list, e, more);
      var m, u;
      if e.FromPipe? {
        m := 1;
        u := PipeIsServed(s);
      } else {
        var k :| 0 <= k < |s.list| && s.list[k].id == e.id;
        m, u := EventIsServed(s, e, k);
      }
      DispatchKeeps(s, m, u);
      assert Rest(u) == more;
      var l;
      l, t := RestIsServed(u);
      n := m + l;
      ReachesThen(s, GoOns(m), u, GoOns(l), t);
      assert GoOns(m) + GoOns(l) == GoOns(n);
      DisarmedTwice(s.list, e, more);
      AllOwedWhenDisarmed(s.list, u.list, more);
      Associative(s.calls, Owed(s.list, e), AllOwed(s.list, more));
    }
  }

  lemma {:induction false} PolledAreListed(list: seq<Descriptor>, events: seq<Event>)
    requires forall k :: 0 <= k < |events| && events[k].Event? ==> IndexOf(list, events[k].id) >= 0
    ensures Listed(list, events)
  {
    hide IndexOf;
    forall j | 0 <= j < |events| && events[j].Event? ensures exists k :: 0 <= k < |list| && list[k].id == events[j].id {
      assert list[IndexOf(list, events[j].id)].id == events[j].id;
    }
  }

  /** A batch whose handlers call nothing back is dispatched to its end, in at most four steps for an
      event: exactly the handlers that its events owe a call are called, in the order of the events,
      reading before writing, and its descriptors are disarmed; nothing else changes. */
  lemma ABatchCallsWhatItOwes(s: Aio, events: seq<Event>) returns (n: nat)
    requires Inv(s) && CanTake(s, Poll(events)) && events != []
    ensures n <= 4 * |events| + 1
    ensures Reaches(Take(s, Poll(events)), GoOns(n),
                    s.(list := Disarmed(s.list, events), calls := s.calls + AllOwed(s.list, events)))
  {
    hide Inv, Reaches, Disarmed, AllOwed, Listed, IndexOf, Dispatched;
    var p := Take(s, Poll(events));
    assert p == s.(depth := s.depth + 1, frames := s.frames + [Frame(events, 0, AtEvent)]);
    TakeKeepsInv(s, Poll(events));
    PolledAreListed(s.list, events);
    assert Rest(p) == events;
    var m, t := RestIsServed(p);
    assert t.frames == s.frames + [Frame(events, |events|, AtEvent)];
    n := m + 1;
    OneMore(p, m, t);
    TheBatchIsOver(s, events, t);
  }

  lemma TheBatchIsOver(s: Aio, events: seq<Event>, t: Aio)
    requires Inv(s) && t.frames == s.frames + [Frame(events, |events|, AtEvent)] && t.depth == s.depth + 1
    requires t.retired == s.retired
    ensures Dispatched(t) == t.(frames := s.frames, depth := s.depth)
  {
    hide Accounts, Parks, Lists, Batches;
    assert t.frames[..|t.frames| - 1] == s.frames;
  }

  // ---- registering

  /** The descriptor of an fd that is enabled and given a handler is the one asked for. */
  lemma RegisteredAsAsked(s: Aio, fd: int, data: int, handler: Handler, mask: Flags)
    requires Inv(s) && fd >= 0
    ensures var t := Handled(Enabled(s, fd, data), fd, handler, mask);
      exists k :: 0 <= k < |t.list| && t.list[k].fd == fd && t.list[k].data == data && t.list[k].mask == mask &&
        t.list[k].read == (if Readable in mask then handler else NO_HANDLER) &&
        t.list[k].write == (if Writable in mask then handler else NO_HANDLER)
  {
    hide Inv;
    var e := Enabled(s, fd, data);
    var t := Handled(e, fd, handler, mask);
    EnabledKeepsInv(s, fd, data);
    var j := Find(s.list, fd);
    var k := if j >= 0 then j else 0;
    assert e.list[k].fd == fd && e.list[k].data == data;
    FindIsThat(e, k);
    assert t.list[k].fd == fd;
  }

  lemma FindIsThat(s: Aio, k: nat)
    requires Inv(s) && k < |s.list|
    ensures Find(s.list, s.list[k].fd) == k
  {}

  lemma OthersStayInUpdate(list: seq<Descriptor>, k: nat, other: Descriptor, d: Descriptor)
    requires k < |list| && d != list[k] && d != other
    ensures d in list[k := other] <==> d in list
  {
    if d in list {
      var j :| 0 <= j < |list| && list[j] == d;
      assert list[k := other][j] == d;
    }
  }

  lemma OthersStayWithout(list: seq<Descriptor>, k: nat, d: Descriptor)
    requires k < |list| && d != list[k]
    ensures d in Without(list, k) <==> d in list
  {
    assert list == list[..k] + [list[k]] + list[k + 1..];
  }

  /** A call for an fd leaves the descriptors of the others as they are. */
  lemma OthersStay(s: Aio, a: Action, d: Descriptor)
    requires CanTake(s, a) && (a.Enable? || a.SetHandler? || a.Suspend? || a.Disable?) && a.fd != d.fd
    ensures d in Take(s, a).list <==> d in s.list
  {
    hide Find, Without, UserRuns;
    var k := Find(s.list, a.fd);
    if k >= 0 {
      var was := s.list[k];
      OthersStayWithout(s.list, k, d);
      match a {
        case Enable(_, data) => OthersStayInUpdate(s.list, k, was.(data := data, addErrno := 0), d);
        case SetHandler(_, handler, mask) => OthersStayInUpdate(s.list, k, WithHandler(was, handler, mask), d);
        case Suspend(_, mask) => OthersStayInUpdate(s.list, k, SuspendedDescriptor(was, mask), d);
        case Disable(_) =>
      }
    }
  }

  /** A disabled descriptor is gone from the list, and freed, or kept aside while a dispatch is on. */
  lemma DisabledIsGone(s: Aio, k: nat)
    requires Inv(s) && k < |s.list|
    ensures var t, d := Disabled(s, s.list[k].fd), s.list[k];
      && (forall j :: 0 <= j < |t.list| ==> t.list[j].fd != d.fd) && |t.list| == |s.list| - 1
      && (if s.depth == 0 then t.freed == s.freed + [d.id] && t.retired == s.retired
          else t.freed == s.freed && |t.retired| == |s.retired| + 1 && t.retired[0].id == d.id)
  {
    FindIsThat(s, k);
    hide Accounts, Parks, Batches, Find;
  }

  /** Suspended handlers are gone until they are set again; a descriptor that is not armed stays as it is. */
  lemma SuspendedIsSilent(s: Aio, fd: int, mask: Flags, e: Event, k: nat)
    requires Inv(s) && e.Event? && k < |s.list| && s.list[k].fd == fd
    ensures s.list[k].mask == {} ==> Suspended(s, fd, mask).list[k] == s.list[k]
    ensures s.list[k].mask != {} ==>
      var d := Suspended(s, fd, mask).list[k];
      && ReadOwed(d, e) == (if Readable in mask then [] else ReadOwed(s.list[k], e))
      && WriteOwed(d, e) == (if Writable in mask then [] else WriteOwed(s.list[k], e))
      && forall f :: f in d.mask <==> f in s.list[k].mask && (f !in mask || f == External)
  {
    FindIsThat(s, k);
    hide Inv;
  }
}
