/** The thread-safe queue of src/threadSafeQueue/threadSafeQueue.c, over interleaved threads. */
module SafeQueue {
  import opened Basics
  // Any number of threads put, take and count, each a step at a time.

  type Element = int

  /** Where a thread is. Linking, Unlocking, Unlinking, Missed, Got and Counting hold the mutex. */
  datatype Place = Idle
                 | ToLink(x: Element) | Linking(x: Element) | Unlocking | ToSignal
                 | ToWait | PastWait | Unlinking | Missed | Got(x: Element) | Returning(x: Element)
                 | ToCount | Counting

  /** mutex, tokens: the values of the two semaphores. items: the linked elements. The logs: the
      elements in the order they were linked, unlinked and answered; misses, the takes that got
      past their wait and found nothing. */
  datatype Queue = Queue(threads: seq<Place>, mutex: nat, tokens: nat, items: seq<Element>,
                         linked: seq<Element>, taken: seq<Element>, answered: seq<Element>, misses: nat)

  function Start(n: nat): Queue { Queue(seq(n, _ => Idle), 1, 0, [], [], [], [], 0) }

  /** What an idle thread calls, and how a wait on the semaphore goes. */
  datatype Choice = CallPut(x: Element) | CallTake | CallSize | WaitFails | GoesOn

  predicate HoldsMutex(p: Place) { p.Linking? || p.Unlocking? || p.Unlinking? || p.Missed? || p.Got? || p.Counting? }

  /** blocks: takes wait while the semaphore is at 0; for the queue of callbacks they never wait. */
  predicate CanStep(blocks: bool, q: Queue, i: nat, c: Choice) {
    i < |q.threads| &&
    match q.threads[i]
    case Idle => c.CallPut? || c.CallTake? || c.CallSize?
    case ToLink(_) => c.GoesOn? && q.mutex > 0
    case ToWait => c.WaitFails? || (c.GoesOn? && (blocks ==> q.tokens > 0))
    case PastWait => c.GoesOn? && q.mutex > 0
    case ToCount => c.GoesOn? && q.mutex > 0
    case _ => c.GoesOn?
  }

  function Moved(q: Queue, i: nat, p: Place): Queue
    requires i < |q.threads|
  {
    q.(threads := q.threads[i := p])
  }

  function Locked(q: Queue, i: nat, p: Place): Queue
    requires i < |q.threads| && q.mutex > 0
  {
    Moved(q, i, p).(mutex := q.mutex - 1)
  }

  function Unlocked(q: Queue, i: nat, p: Place): Queue
    requires i < |q.threads|
  {
    Moved(q, i, p).(mutex := q.mutex + 1)
  }

  function Step(blocks: bool, q: Queue, i: nat, c: Choice): Queue
    requires CanStep(blocks, q, i, c)
  {
    match q.threads[i]
    case Idle => Moved(q, i, match c case CallPut(x) => ToLink(x) case CallTake => ToWait case _ => ToCount)
    case ToLink(x) => Locked(q, i, Linking(x))
    case Linking(x) => Moved(q, i, Unlocking).(items := q.items + [x], linked := q.linked + [x])
    case Unlocking => Unlocked(q, i, ToSignal)
    case ToSignal => Moved(q, i, Idle).(tokens := q.tokens + 1)
    case ToWait =>
      if c.WaitFails? then Moved(q, i, Idle)
      else Moved(q, i, PastWait).(tokens := if blocks then q.tokens - 1 else q.tokens)
    case PastWait => Locked(q, i, Unlinking)
    case Unlinking =>
      if q.items == [] then Moved(q, i, Missed).(misses := q.misses + 1)
      else Moved(q, i, Got(q.items[0])).(items := q.items[1..], taken := q.taken + [q.items[0]])
    case Missed => Unlocked(q, i, Idle)
    case Got(x) => Unlocked(q, i, Returning(x))
    case Returning(x) => Moved(q, i, Idle).(answered := q.answered + [x])
    case ToCount => Locked(q, i, Counting)
    case Counting => Unlocked(q, i, Idle)
  }

  datatype Move = Move(thread: nat, choice: Choice)

  /** r is reached from q by these moves, of the threads in any order. */
  ghost predicate Reaches(blocks: bool, q: Queue, moves: seq<Move>, r: Queue)
    decreases |moves|
  {
    if moves == [] then q == r
    else CanStep(blocks, q, moves[0].thread, moves[0].choice) &&
         Reaches(blocks, Step(blocks, q, moves[0].thread, moves[0].choice), moves[1..], r)
  }

  // ---- counting threads

  ghost function Count(threads: seq<Place>, p: Place -> bool): nat {
    if threads == [] then 0 else Count(threads[1..], p) + if p(threads[0]) then 1 else 0
  }

  lemma {:induction false} CountMoved(threads: seq<Place>, i: nat, x: Place, p: Place -> bool)
    requires i < |threads|
    ensures Count(threads[i := x], p) + (if p(threads[i]) then 1 else 0) == Count(threads, p) + if p(x) then 1 else 0
  {
    if i == 0 {
      assert threads[i := x][1..] == threads[1..];
    } else {
      assert threads[i := x][1..] == threads[1..][i - 1 := x];
      CountMoved(threads[1..], i - 1, x, p);
    }
  }

  lemma {:induction false} CountPositive(threads: seq<Place>, i: nat, p: Place -> bool)
    requires i < |threads| && p(threads[i])
    ensures Count(threads, p) > 0
  {
    if i > 0 {
      CountPositive(threads[1..], i - 1, p);
    }
  }

  lemma {:induction false} CountNone(threads: seq<Place>, p: Place -> bool)
    requires forall k :: 0 <= k < |threads| ==> !p(threads[k])
    ensures Count(threads, p) == 0
  {
    if threads != [] {
      CountNone(threads[1..], p);
    }
  }

  /** A take has the element in hand. */
  ghost function Has(x: Element): Place -> bool { (p: Place) => (p.Got? || p.Returning?) && p.x == x }
  ghost function Mutex(): Place -> bool { p => HoldsMutex(p) }
  ghost function PastTheirWait(): Place -> bool { (p: Place) => p.PastWait? || p.Unlinking? }
  ghost function Unsignalled(): Place -> bool { (p: Place) => p.Unlocking? || p.ToSignal? }

  // ---- the invariant

  /** One thread at most holds the mutex. */
  ghost predicate Excludes(q: Queue) { q.mutex + Count(q.threads, Mutex()) == 1 }

  /** The length of the queue is the semaphore's value, and the consumers past their wait, and the
      producers that did not signal yet. */
  ghost predicate Balances(q: Queue) {
    |q.items| == q.tokens + Count(q.threads, PastTheirWait()) + Count(q.threads, Unsignalled()) &&
    q.misses == 0 && forall k :: 0 <= k < |q.threads| ==> !q.threads[k].Missed?
  }

  /** Each element unlinked is answered, or in the hand of one take. */
  ghost predicate Delivers(q: Queue) {
    forall x: Element :: DeliversOne(q, x)
  }

  /** The elements are unlinked in the order in which they were linked. */
  ghost predicate KeepsOrder(q: Queue) {
    q.linked == q.taken + q.items
  }

  ghost predicate Inv(blocks: bool, q: Queue) {
    Excludes(q) && KeepsOrder(q) && Delivers(q) && (blocks ==> Balances(q))
  }

  lemma {:induction false} StepKeepsOrder(blocks: bool, q: Queue, i: nat, c: Choice)
    requires KeepsOrder(q) && CanStep(blocks, q, i, c)
    ensures KeepsOrder(Step(blocks, q, i, c))
  {
    var p := q.threads[i];
    if p.Unlinking? && q.items != [] {
      assert q.items == [q.items[0]] + q.items[1..];
      Associative(q.taken, [q.items[0]], q.items[1..]);
    } else if p.Linking? {
      Associative(q.taken, q.items, [p.x]);
    }
  }

  ghost predicate DeliversOne(q: Queue, x: Element) {
    Times(q.taken, x) == Times(q.answered, x) + Count(q.threads, Has(x))
  }

  lemma {:induction false} StepDeliversOne(blocks: bool, q: Queue, i: nat, c: Choice, x: Element)
    requires i < |q.threads| && CanStep(blocks, q, i, c) && DeliversOne(q, x)
    ensures DeliversOne(Step(blocks, q, i, c), x)
  {
    hide Count, CanStep, Times, Step;
    var p, r := q.threads[i], Step(blocks, q, i, c);
    StepLists(blocks, q, i, c);
    CountMoved(q.threads, i, r.threads[i], Has(x));
    if p.Unlinking? && q.items != [] {
      TimesPush(q.taken, q.items[0], x);
    } else if p.Returning? {
      TimesPush(q.answered, p.x, x);
    }
  }

  /** What a step does with the elements taken and answered, and whether its thread has one in hand. */
  lemma StepLists(blocks: bool, q: Queue, i: nat, c: Choice)
    requires i < |q.threads| && CanStep(blocks, q, i, c)
    ensures var p, r := q.threads[i], Step(blocks, q, i, c);
      && |r.threads| == |q.threads| && r.threads == q.threads[i := r.threads[i]]
      && (p.Unlinking? && q.items != [] ==> r.threads[i] == Got(q.items[0]) && r.taken == q.taken + [q.items[0]])
      && (!(p.Unlinking? && q.items != []) ==> r.taken == q.taken && !r.threads[i].Got?)
      && (p.Got? ==> r.threads[i] == Returning(p.x))
      && (!p.Got? ==> !r.threads[i].Returning?)
      && r.answered == if p.Returning? then q.answered + [p.x] else q.answered
  {}

  lemma {:induction false} StepDelivers(blocks: bool, q: Queue, i: nat, c: Choice)
    requires Delivers(q) && CanStep(blocks, q, i, c)
    ensures Delivers(Step(blocks, q, i, c))
  {
    hide DeliversOne, Step;
    forall x: Element ensures DeliversOne(Step(blocks, q, i, c), x) {
      assert DeliversOne(q, x);
      StepDeliversOne(blocks, q, i, c, x);
    }
  }

  lemma StepExcludes(blocks: bool, q: Queue, i: nat, c: Choice)
    requires Excludes(q) && CanStep(blocks, q, i, c)
    ensures Excludes(Step(blocks, q, i, c))
  {
    hide Count;
    CountMoved(q.threads, i, Step(blocks, q, i, c).threads[i], Mutex());
  }

  lemma StepBalances(q: Queue, i: nat, c: Choice)
    requires Balances(q) && CanStep(true, q, i, c)
    ensures Balances(Step(true, q, i, c))
  {
    hide Count;
    var r := Step(true, q, i, c);
    CountMoved(q.threads, i, r.threads[i], PastTheirWait());
    CountMoved(q.threads, i, r.threads[i], Unsignalled());
    if q.threads[i].Unlinking? {
      CountPositive(q.threads, i, PastTheirWait());
    }
  }

  /** Over every interleaving. */
  lemma {:induction false} RunKeepsInv(blocks: bool, q: Queue, moves: seq<Move>, r: Queue)
    requires Inv(blocks, q) && Reaches(blocks, q, moves, r)
    ensures Inv(blocks, r)
    decreases |moves|
  {
    hide Step, CanStep, Excludes, Balances, KeepsOrder, Delivers;
    if moves != [] {
      var m := moves[0];
      StepExcludes(blocks, q, m.thread, m.choice);
      StepKeepsOrder(blocks, q, m.thread, m.choice);
      StepDelivers(blocks, q, m.thread, m.choice);
      if blocks {
        StepBalances(q, m.thread, m.choice);
      }
      RunKeepsInv(blocks, Step(blocks, q, m.thread, m.choice), moves[1..], r);
    }
  }

  lemma {:induction false} StartIsInv(blocks: bool, n: nat)
    ensures Inv(blocks, Start(n))
  {
    hide Count;
    var q := Start(n);
    CountNone(q.threads, Mutex());
    CountNone(q.threads, PastTheirWait());
    CountNone(q.threads, Unsignalled());
    forall x { CountNone(q.threads, Has(x)); }
  }

  /** Whatever the threads do: what was taken is a prefix of what was put, and no element is lost or
      answered twice. With a platform semaphore no take that got past its wait finds the queue empty. */
  lemma {:induction false} TakesArePrefixOfPuts(blocks: bool, n: nat, moves: seq<Move>, q: Queue)
    requires Reaches(blocks, Start(n), moves, q)
    ensures q.linked == q.taken + q.items
    ensures forall x: Element ::
      Times(q.linked, x) == Times(q.answered, x) + Count(q.threads, Has(x)) + Times(q.items, x)
    ensures blocks ==> q.misses == 0 && (Count(q.threads, PastTheirWait()) > 0 ==> q.items != [])
  {
    hide Reaches, Count, Times;
    StartIsInv(blocks, n);
    RunKeepsInv(blocks, Start(n), moves, q);
    forall x: Element ensures Times(q.linked, x) == Times(q.taken, x) + Times(q.items, x) && DeliversOne(q, x) {
      TimesConcat(q.taken, q.items, x);
    }
  }

  /** When every thread is idle or waits on the semaphore, its value is the length: no consumer
      waits while there is something to take. */
  lemma {:induction false} NobodyWaitsForNothing(n: nat, moves: seq<Move>, q: Queue, i: nat)
    requires Reaches(true, Start(n), moves, q)
    requires forall k :: 0 <= k < |q.threads| ==> q.threads[k].Idle? || q.threads[k].ToWait?
    requires i < |q.threads| && q.threads[i].ToWait?
    ensures q.tokens == |q.items| && (CanStep(true, q, i, GoesOn) <==> q.items != [])
  {
    hide Reaches, Count, Excludes, KeepsOrder;
    StartIsInv(true, n);
    RunKeepsInv(true, Start(n), moves, q);
    CountNone(q.threads, PastTheirWait());
    CountNone(q.threads, Unsignalled());
  }

  /** What a thread is about to do at some moment of a run. */
  type Moment = (Queue, nat) -> bool

  /** At how many moments of a run the thread that moves is about to do that. */
  ghost function Moments(blocks: bool, q: Queue, moves: seq<Move>, about: Moment): nat
    decreases |moves|
  {
    if moves == [] || !CanStep(blocks, q, moves[0].thread, moves[0].choice) then 0
    else
      OneIf(about(q, moves[0].thread)) +
      Moments(blocks, Step(blocks, q, moves[0].thread, moves[0].choice), moves[1..], about)
  }

  /** A take, holding the mutex, finds the queue empty when all that any thread had put was taken. */
  ghost function FindsAllTaken(): Moment {
    (q: Queue, i: nat) => i < |q.threads| && q.threads[i].Unlinking? && q.items == [] && q.taken == q.linked
  }

  /** A take returns with nothing: it gives the mutex back and has no element. */
  ghost function AnswersNothing(): Moment {
    (q: Queue, i: nat) => i < |q.threads| && q.threads[i].Missed?
  }

  ghost function Missing(): Place -> bool { (p: Place) => p.Missed? }

  lemma {:induction false} StepAnswersNothing(blocks: bool, q: Queue, i: nat, c: Choice)
    requires KeepsOrder(q) && CanStep(blocks, q, i, c)
    ensures Count(Step(blocks, q, i, c).threads, Missing()) + OneIf(AnswersNothing()(q, i))
         == Count(q.threads, Missing()) + OneIf(FindsAllTaken()(q, i))
  {
    hide Count;
    CountMoved(q.threads, i, Step(blocks, q, i, c).threads[i], Missing());
    assert q.taken + [] == q.taken;
  }

  lemma {:induction false} NothingForAllTaken(blocks: bool, q: Queue, moves: seq<Move>, r: Queue)
    requires KeepsOrder(q) && Reaches(blocks, q, moves, r)
    ensures Moments(blocks, q, moves, AnswersNothing()) + Count(r.threads, Missing())
         == Moments(blocks, q, moves, FindsAllTaken()) + Count(q.threads, Missing())
    decreases |moves|
  {
    hide Step, CanStep, KeepsOrder, Count, AnswersNothing, FindsAllTaken;
    if moves != [] {
      var m := moves[0];
      StepAnswersNothing(blocks, q, m.thread, m.choice);
      StepKeepsOrder(blocks, q, m.thread, m.choice);
      NothingForAllTaken(blocks, Step(blocks, q, m.thread, m.choice), moves[1..], r);
    }
  }

  /** How many takes come back with nothing, over any run: as many, but for those on their way back, as
      found the queue empty when all that was put was taken; and none with a platform semaphore. */
  lemma {:induction false} AMissFindsAllTaken(blocks: bool, n: nat, moves: seq<Move>, r: Queue)
    requires Reaches(blocks, Start(n), moves, r)
    ensures Moments(blocks, Start(n), moves, AnswersNothing()) + Count(r.threads, Missing())
         == Moments(blocks, Start(n), moves, FindsAllTaken())
    ensures blocks ==> Moments(blocks, Start(n), moves, AnswersNothing()) == 0
  {
    hide Reaches, Count;
    NothingForAllTaken(blocks, Start(n), moves, r);
    CountNone(Start(n).threads, Missing());
    if blocks {
      StartIsInv(true, n);
      NoneAnswersNothing(Start(n), moves, r);
    }
  }

  lemma {:induction false} NoneAnswersNothing(q: Queue, moves: seq<Move>, r: Queue)
    requires Inv(true, q) && Reaches(true, q, moves, r)
    ensures Moments(true, q, moves, AnswersNothing()) == 0
    decreases |moves|
  {
    hide Step, CanStep, Excludes, KeepsOrder, Delivers;
    if moves != [] {
      var m := moves[0];
      var next := Step(true, q, m.thread, m.choice);
      assert Reaches(true, q, [m], next);
      RunKeepsInv(true, q, [m], next);
      NoneAnswersNothing(next, moves[1..], r);
    }
  }

  // ---- the linked nodes

  class Node {
    const element: Element
    var next: Node?

    constructor (element: Element)
      ensures this.element == element && next == null
    {
      this.element, next := element, null;
    }
  }

  /** What the mutex protects. */
  class List {
    var first: Node?
    var last: Node?
    ghost var nodes: seq<Node>

    ghost predicate Valid()
      reads this, nodes
    {
      && (forall j, k :: 0 <= j < k < |nodes| ==> nodes[j] != nodes[k])
      && (forall k :: 0 <= k < |nodes| ==> nodes[k].next == NodeAt(k + 1))
      && first == NodeAt(0) && last == NodeAt(|nodes| - 1)
    }

    ghost function NodeAt(k: int): Node?
      reads this
    {
      if 0 <= k < |nodes| then nodes[k] else null
    }

    ghost function Contents(): (c: seq<Element>)
      reads this
      ensures |c| == |nodes|
    {
      seq(|nodes|, k requires 0 <= k < |nodes| reads this => if k < |nodes| then nodes[k].element else 0)
    }

    constructor ()
      ensures Valid() && Contents() == []
    {
      first, last, nodes := null, null, [];
    }

    method Link(node: Node)
      requires Valid() && node !in nodes && node.next == null
      modifies this, last
      ensures Valid() && Contents() == old(Contents()) + [node.element] && nodes == old(nodes) + [node]
    {
      if first == null {
        first := node;
      } else {
        last.next := node;
      }
      last := node;
      nodes := nodes + [node];
    }

    method Unlink() returns (node: Node?)
      requires Valid()
      modifies this
      ensures Valid() && (node == null <==> old(Contents()) == [])
      ensures node == null ==> Contents() == old(Contents())
      ensures node != null ==> old(Contents()) == [node.element] + Contents() && node !in nodes
    {
      node := first;
      if node == null {
        return;
      }
      first := node.next;
      if first == null {
        last := null;
      }
      ghost var was := nodes;
      nodes := nodes[1..];
      assert forall k :: 0 <= k < |nodes| ==> nodes[k] == was[k + 1];
    }

    method Size() returns (size: nat)
      requires Valid()
      ensures size == |Contents()|
    {
      size := 0;
      var node := first;
      while node != null
        invariant 0 <= size <= |nodes| && node == NodeAt(size)
        decreases |nodes| - size
      {
        size := size + 1;
        node := node.next;
      }
    }
  }
}
