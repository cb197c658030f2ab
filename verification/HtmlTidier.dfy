/** The stack machine as tidyHtml runs it. Lists of indices, one for a name and one for a scope, and
    the index of the lowest dropped element answer at once what the plain machine searches the stack
    for. */
module HtmlTidier {
  import opened Basics
  import opened CodeUnits
  import opened TidyReader
  import opened TidyMachine
  import opened TidyProofs
  import opened TidyLimits

  /** Where on the stack the elements of a name are, from the bottom up. */
  ghost function IndicesAt(stack: seq<Element>, ns: Namespace, name: Text): seq<nat> {
    if stack == [] then []
    else
      hide Increasing;
      var n := |stack| - 1;
      IndicesAt(stack[..n], ns, name) + (if stack[n].ns == ns && stack[n].name == name then [n] else [])
  }

  ghost function IndicesMarked(stack: seq<Element>, m: Mark): seq<nat> {
    if stack == [] then []
    else
      hide Increasing;
      var n := |stack| - 1;
      IndicesMarked(stack[..n], m) + (if m in stack[n].kind.marks then [n] else [])
  }

  function LastOr(a: seq<nat>): int { if a == [] then -1 else a[|a| - 1] }

  /** Increasing indices below n. */
  ghost predicate Increasing(a: seq<nat>, n: nat) {
    (forall x :: x in a ==> x < n) && (forall j, k :: 0 <= j < k < |a| ==> a[j] < a[k])
  }

  lemma IncreasingPush(a: seq<nat>, n: nat)
    requires Increasing(a, n)
    ensures Increasing(a, n + 1) && Increasing(a + [n], n + 1) && forall x :: x in a + [n] <==> x in a || x == n
  {
    var b := a + [n];
    assert b[|a|] == n;
    forall j, k | 0 <= j < k < |b| ensures b[j] < b[k] {
      assert a[j] in a;
    }
  }

  // An index list says exactly which elements of the stack have a mark, or a name, in increasing order.

  lemma {:induction false} IndicesMarkedIncrease(stack: seq<Element>, m: Mark)
    ensures Increasing(IndicesMarked(stack, m), |stack|)
  {
    if stack != [] {
      hide Increasing;
      var n := |stack| - 1;
      IndicesMarkedIncrease(stack[..n], m);
      IncreasingPush(IndicesMarked(stack[..n], m), n);
    }
  }

  lemma {:induction false} IndicesMarkedIff(stack: seq<Element>, m: Mark, i: nat)
    requires i < |stack|
    ensures i in IndicesMarked(stack, m) <==> m in stack[i].kind.marks
  {
    var n := |stack| - 1;
    IndicesMarkedIncrease(stack[..n], m);
    if i < n {
      IndicesMarkedIff(stack[..n], m, i);
    }
  }

  lemma {:induction false} IndicesMarkedAreExact(stack: seq<Element>, m: Mark)
    ensures var a := IndicesMarked(stack, m);
      Increasing(a, |stack|) && forall i :: 0 <= i < |stack| ==> (m in stack[i].kind.marks <==> i in a)
    ensures LastOr(IndicesMarked(stack, m)) == LastMarked(stack, m)
  {
    hide Increasing, IndicesMarked, LastOr;
    IndicesMarkedIncrease(stack, m);
    forall i | 0 <= i < |stack| ensures m in stack[i].kind.marks <==> i in IndicesMarked(stack, m) {
      IndicesMarkedIff(stack, m, i);
    }
    LastOfMarked(stack, m);
  }

  lemma {:induction false} LastOfMarked(stack: seq<Element>, m: Mark)
    ensures LastOr(IndicesMarked(stack, m)) == LastMarked(stack, m)
  {
    if stack != [] {
      LastOfMarked(stack[..|stack| - 1], m);
    }
  }

  lemma {:induction false} IndicesAtIncrease(stack: seq<Element>, ns: Namespace, name: Text)
    ensures Increasing(IndicesAt(stack, ns, name), |stack|)
  {
    if stack != [] {
      hide Increasing;
      var n := |stack| - 1;
      IndicesAtIncrease(stack[..n], ns, name);
      IncreasingPush(IndicesAt(stack[..n], ns, name), n);
    }
  }

  lemma {:induction false} IndicesAtIff(stack: seq<Element>, ns: Namespace, name: Text, i: nat)
    requires i < |stack|
    ensures i in IndicesAt(stack, ns, name) <==> stack[i].ns == ns && stack[i].name == name
  {
    var n := |stack| - 1;
    IndicesAtIncrease(stack[..n], ns, name);
    if i < n {
      IndicesAtIff(stack[..n], ns, name, i);
    }
  }

  lemma {:induction false} IndicesAtAreExact(stack: seq<Element>, ns: Namespace, name: Text)
    ensures var a := IndicesAt(stack, ns, name);
      Increasing(a, |stack|) && forall i :: 0 <= i < |stack| ==>
        (stack[i].ns == ns && stack[i].name == name <==> i in a)
    ensures LastOr(IndicesAt(stack, ns, name)) == LastAt(stack, ns, name)
  {
    hide Increasing, IndicesAt, LastOr;
    IndicesAtIncrease(stack, ns, name);
    forall i | 0 <= i < |stack|
      ensures (stack[i].ns == ns && stack[i].name == name) <==> i in IndicesAt(stack, ns, name)
    {
      IndicesAtIff(stack, ns, name, i);
    }
    LastOfAt(stack, ns, name);
  }

  lemma {:induction false} LastOfAt(stack: seq<Element>, ns: Namespace, name: Text)
    ensures LastOr(IndicesAt(stack, ns, name)) == LastAt(stack, ns, name)
  {
    if stack != [] {
      LastOfAt(stack[..|stack| - 1], ns, name);
    }
  }

  /** A zombie keeps its places in the lists. */
  lemma {:induction false} IndicesOfZombie(stack: seq<Element>, i: nat)
    requires i < |stack|
    ensures var other := stack[i := stack[i].(zombie := true)];
      && (forall m :: IndicesMarked(other, m) == IndicesMarked(stack, m))
      && (forall ns, name :: IndicesAt(other, ns, name) == IndicesAt(stack, ns, name))
  {
    var n := |stack| - 1;
    var other := stack[i := stack[i].(zombie := true)];
    if i < n {
      IndicesOfZombie(stack[..n], i);
      assert other[..n] == stack[..n][i := stack[i].(zombie := true)];
    } else {
      assert other[..n] == stack[..n];
    }
  }

  type Key = (Namespace, Text)
  type Places = map<Key, seq<nat>>
  type Scopes = map<Mark, seq<nat>>

  function Get(at: Places, k: Key): seq<nat> { if k in at then at[k] else [] }

  ghost predicate PlacesAreExact(at: Places, stack: seq<Element>) {
    forall ns, name :: Get(at, (ns, name)) == IndicesAt(stack, ns, name)
  }

  ghost predicate ScopesAreExact(marks: Scopes, stack: seq<Element>) {
    forall m: Mark :: m in marks && marks[m] == IndicesMarked(stack, m)
  }

  function PushPlace(at: Places, e: Element, i: nat): Places {
    at[(e.ns, e.name) := Get(at, (e.ns, e.name)) + [i]]
  }

  function PushScopes(marks: Scopes, e: Element, i: nat): Scopes {
    map m | m in marks :: if m in e.kind.marks then marks[m] + [i] else marks[m]
  }

  function PopPlace(at: Places, e: Element): Places {
    var a := Get(at, (e.ns, e.name));
    if a == [] then at else at[(e.ns, e.name) := a[..|a| - 1]]
  }

  function PopScopes(marks: Scopes, e: Element): Scopes {
    map m | m in marks :: if m in e.kind.marks && marks[m] != [] then marks[m][..|marks[m]| - 1] else marks[m]
  }

  lemma PushIsExact(at: Places, marks: Scopes, stack: seq<Element>, e: Element)
    requires PlacesAreExact(at, stack) && ScopesAreExact(marks, stack)
    ensures PlacesAreExact(PushPlace(at, e, |stack|), stack + [e])
    ensures ScopesAreExact(PushScopes(marks, e, |stack|), stack + [e])
  {
    assert (stack + [e])[..|stack|] == stack;
  }

  lemma PopIsExact(at: Places, marks: Scopes, stack: seq<Element>, e: Element)
    requires PlacesAreExact(at, stack + [e]) && ScopesAreExact(marks, stack + [e])
    ensures PlacesAreExact(PopPlace(at, e), stack)
    ensures ScopesAreExact(PopScopes(marks, e), stack)
  {
    assert (stack + [e])[..|stack|] == stack;
  }

  const NO_SCOPES: Scopes :=
    map[Scope := [], ButtonScope := [], ListScope := [], TableScope := [], Special := [], NotAddressDivP := [],
        Marker := [], HtmlPoint := [], InHtml := [], Heading := []]

  lemma NoScopesAreExact()
    ensures ScopesAreExact(NO_SCOPES, [])
  {
    forall m: Mark ensures m in NO_SCOPES && NO_SCOPES[m] == [] {
      match m
      case Scope => case ButtonScope => case ListScope => case TableScope => case Special =>
      case NotAddressDivP => case Marker => case HtmlPoint => case InHtml => case Heading =>
    }
  }

  lemma ZombieKeepsPlaces(at: Places, marks: Scopes, stack: seq<Element>, i: nat)
    requires i < |stack|
    ensures var other := stack[i := stack[i].(zombie := true)];
      && (PlacesAreExact(at, stack) ==> PlacesAreExact(at, other))
      && (ScopesAreExact(marks, stack) ==> ScopesAreExact(marks, other))
      && DropAt(other) == DropAt(stack)
  {
    IndicesOfZombie(stack, i);
    ZombieIsShownAlike(stack, i);
  }

  lemma DropAtOpened(stack: seq<Element>, pending: seq<Element>, e: Element)
    ensures DropAt(stack + [Opened(pending, e)]) ==
      if DropAt(stack) >= 0 then DropAt(stack) else if Drops(stack, e.kind, e.ns) then |stack| else -1
  {
    DropAtPush(stack, Opened(pending, e));
  }

  // ---- the attributes of a tag

  /** The attribute at hand is written. */
  predicate IsKept(a: Option<Text>, seen: set<Text>) {
    a.Some? && a.value !in seen && IsAttributeName(a.value)
  }

  lemma NoneKept(v: Vocabulary, tag: Text, ns: Namespace, seen: set<Text>)
    ensures TextOf(KeptAttrs(v, [], tag, ns, seen)) == []
  {}

  /** What the loop does at one attribute. */
  lemma KeptStep(v: Vocabulary, attrs: Attributes, k: nat, tag: Text, ns: Namespace, seen: set<Text>)
    requires k < |attrs|
    ensures var a := WrittenAs(v, attrs[k].0, tag, ns);
      TextOf(KeptAttrs(v, attrs[k..], tag, ns, seen)) ==
        if !IsKept(a, seen) then TextOf(KeptAttrs(v, attrs[k + 1..], tag, ns, seen))
        else if |seen| + 1 > MAX_ATTRS then []
        else AttributeText(a.value, attrs[k].1) + TextOf(KeptAttrs(v, attrs[k + 1..], tag, ns, seen + {a.value}))
  {
    hide WrittenAs, AttributeText, IsAttributeName, Skim;
    assert attrs[k..][0] == attrs[k] && attrs[k..][1..] == attrs[k + 1..];
    var a := WrittenAs(v, attrs[k].0, tag, ns);
    if IsKept(a, seen) && |seen| + 1 <= MAX_ATTRS {
      var list := KeptAttrs(v, attrs[k..], tag, ns, seen);
      assert list[1..] == KeptAttrs(v, attrs[k + 1..], tag, ns, seen + {a.value});
    }
  }

  /** The loop over the attributes of a tag. */
  method AttrsOf(v: Vocabulary, attrs: Attributes, name: Text, ns: Namespace) returns (r: Text)
    ensures r == AttrText(v, attrs, name, ns)
  {
    hide WrittenAs, AttributeText, IsAttributeName, Skim, KeptAttrs, TextOf;
    r := [];
    var tag, seen := TagOf(name), {};
    if ns == MathMl || (ns == Html && tag !in v.htmlOk) {
      return;
    }
    if ns == Html && tag == Units("bdi") {
      r, seen := AttributeText(DATA_BDI, []), {DATA_BDI};
    }
    ghost var all := r + TextOf(KeptAttrs(v, attrs, tag, ns, seen));
    assert attrs[0..] == attrs;
    var k := 0;
    while k < |attrs|
      invariant 0 <= k <= |attrs| && all == r + TextOf(KeptAttrs(v, attrs[k..], tag, ns, seen))
    {
      KeptStep(v, attrs, k, tag, ns, seen);
      var a := WrittenAs(v, attrs[k].0, tag, ns);
      if IsKept(a, seen) {
        if |seen| + 1 > MAX_ATTRS {
          assert r + [] == r;
          return;
        }
        Associative(r, AttributeText(a.value, attrs[k].1),
                    TextOf(KeptAttrs(v, attrs[k + 1..], tag, ns, seen + {a.value})));
        r, seen := r + AttributeText(a.value, attrs[k].1), seen + {a.value};
      }
      k := k + 1;
    }
    assert attrs[k..] == [];
    NoneKept(v, tag, ns, seen);
    assert r + [] == r;
  }

  class Tidier {
    const v: Vocabulary
    var stack: seq<Element>
    var at: Places
    var marks: Scopes
    var pending: seq<Element>
    var dropAt: int
    var formOpen: bool
    var out: seq<Text>
    var outLength: nat
    var work: nat
    var refTail: bool
    var failed: bool

    ghost function Model(): Tidy
      reads this
    {
      Tidy(stack, pending, formOpen, out, outLength, work, refTail, failed)
    }

    /** Every index list is exact, and dropAt is the lowest dropped element. */
    ghost predicate Valid()
      reads this
    {
      PlacesAreExact(at, stack) && ScopesAreExact(marks, stack) && dropAt == DropAt(stack)
    }

    constructor (v: Vocabulary)
      ensures Valid() && Model() == START && this.v == v
    {
      this.v := v;
      stack, pending, out := [], [], [];
      at := map[];
      marks := NO_SCOPES;
      dropAt, formOpen, outLength, work, refTail, failed := -1, false, 0, 0, false, false;
      NoScopesAreExact();
    }

    function LastIndex(ns: Namespace, name: Text): (i: int)
      requires Valid()
      reads this
      ensures i == LastAt(stack, ns, name)
    {
      IndicesAtAreExact(stack, ns, name);
      LastOr(Get(at, (ns, name)))
    }

    function LastMark(m: Mark): (i: int)
      requires Valid()
      reads this
      ensures i == LastMarked(stack, m)
    {
      IndicesMarkedAreExact(stack, m);
      LastOr(marks[m])
    }

    predicate IsHidden()
      requires Valid()
      reads this
      ensures IsHidden() == Hidden(stack)
    {
      dropAt >= 0 || |stack| > SHOWN
    }

    predicate IsInScope(i: int, m: Mark)
      requires Valid()
      reads this
      ensures IsInScope(i, m) == InScope(stack, i, m)
    {
      i >= 0 && i >= LastMark(m)
    }

    method Write(str: Text, unseen: bool)
      modifies `work, `failed, `out, `outLength, `refTail
      ensures Model() == TidyMachine.Write(v, old(Model()), str, unseen)
    {
      work := work + |stack| + 1;
      if work > v.maxWork {
        failed := true;
      }
      if unseen {
        return;
      }
      out := out + [str];
      outLength := outLength + |str|;
      refTail := false;
      if outLength > v.maxOut {
        failed := true;
      }
    }

    method Leaf(str: Text, kind: Kind, ns: Namespace)
      requires Valid()
      modifies `work, `failed, `out, `outLength, `refTail
      ensures Valid() && Model() == TidyMachine.Leaf(v, old(Model()), str, kind, ns)
    {
      Write(str, IsHidden() || Drops(stack, kind, ns));
    }

    /** On the stack, and in the lists of its name and of its scopes. */
    method Push(e: Element)
      requires PlacesAreExact(at, stack) && ScopesAreExact(marks, stack)
      modifies `stack, `at, `marks
      ensures PlacesAreExact(at, stack) && ScopesAreExact(marks, stack) && stack == old(stack) + [e]
    {
      hide PlacesAreExact, ScopesAreExact, PushPlace, PushScopes;
      PushIsExact(at, marks, stack, e);
      at := PushPlace(at, e, |stack|);
      marks := PushScopes(marks, e, |stack|);
      stack := stack + [e];
    }

    /** On the stack; what is pending waits behind a marker. */
    method Enter(e: Element)
      requires PlacesAreExact(at, stack) && ScopesAreExact(marks, stack)
      modifies `stack, `at, `marks, `pending
      ensures PlacesAreExact(at, stack) && ScopesAreExact(marks, stack)
      ensures Model() == old(Model()).(stack := old(stack) + [Opened(old(pending), e)],
                                       pending := if e.kind.marker then [] else old(pending))
    {
      hide PlacesAreExact, ScopesAreExact;
      Push(Opened(pending, e));
      if e.kind.marker {
        pending := [];
      }
    }

    method Open(e: Element)
      requires Valid()
      modifies this
      ensures Valid() && Model() == TidyMachine.Open(v, old(Model()), e)
    {
      hide PlacesAreExact, ScopesAreExact, DropAt, Drops, Opened, TidyMachine.Write, StartPiece;
      var i := |stack|;
      DropAtOpened(stack, pending, e);
      if i >= v.maxNest {
        failed := true;
      }
      if dropAt < 0 && Drops(stack, e.kind, e.ns) {
        dropAt := i;
      }
      Write(StartPiece(e), dropAt >= 0 || i > SHOWN);
      Enter(e);
    }

    /** Off the stack, and off the lists. */
    method Pop() returns (e: Element)
      requires PlacesAreExact(at, stack) && ScopesAreExact(marks, stack) && stack != []
      modifies `stack, `at, `marks
      ensures PlacesAreExact(at, stack) && ScopesAreExact(marks, stack) && old(stack) == stack + [e]
    {
      hide PlacesAreExact, ScopesAreExact, PopPlace, PopScopes;
      var n := |stack| - 1;
      e := stack[n];
      assert stack[..n] + [e] == stack;
      PopIsExact(at, marks, stack[..n], e);
      stack := stack[..n];
      at := PopPlace(at, e);
      marks := PopScopes(marks, e);
    }

    method Close() returns (e: Element)
      requires Valid() && stack != []
      modifies this
      ensures Valid() && e == old(Top(stack)) && Model() == TidyMachine.Close(v, old(Model()))
    {
      hide PlacesAreExact, ScopesAreExact, DropAt, Drops, TidyMachine.Write, EndPiece;
      e := Pop();
      DropAtPush(stack, e);
      assert Model() == old(Model()).(stack := stack);
      Write(EndPiece(e), dropAt >= 0 || |stack| > SHOWN);
      if dropAt == |stack| {
        dropAt := -1;
      }
      if e.kind.marker {
        pending := e.saved;
      }
    }

    /** Closes from the top as far as index i; of what lay above it the formatting elements are queued to
        come back, if no marker was among them. */
    method PopTo(i: nat)
      requires Valid()
      modifies this
      ensures Valid() && Model() == TidyMachine.PopTo(v, old(Model()), i)
    {
      hide PlacesAreExact, ScopesAreExact, DropAt, TidyMachine.Close;
      ghost var s := Model();
      var kept: seq<Element> := [];
      while |stack| > i
        invariant Valid()
        invariant CloseDown(v, Model(), i, kept) == CloseDown(v, s, i, [])
      {
        var e := Close();
        if e.kind.marker {
          kept := [];
        } else if |stack| > i && e.kind.formatting && !e.zombie {
          kept := kept + [e];
        }
      }
      if kept != [] {
        pending := Reversed(kept) + pending;
      }
      ghost var t := Model();
      while stack != [] && Top(stack).zombie
        invariant Valid()
        invariant CloseZombies(v, Model()) == CloseZombies(v, t)
        decreases |stack|
      {
        var _ := Close();
      }
    }

    method Reopen()
      requires Valid()
      modifies this
      ensures Valid() && Model() == TidyMachine.Reopen(v, old(Model()))
    {
      hide PlacesAreExact, ScopesAreExact, DropAt, TidyMachine.Open, Entry;
      var q := pending;
      pending := [];
      ghost var s := Model();
      var k := 0;
      while k < |q|
        invariant 0 <= k <= |q| && Valid()
        invariant OpenAll(v, Model(), q[k..]) == OpenAll(v, s, q)
      {
        assert q[k..][0] == q[k] && q[k..][1..] == q[k + 1..];
        Open(Entry(v, q[k].name, Html, q[k].text, []));
        k := k + 1;
      }
    }

    method DropPending(name: Text) returns (found: bool)
      requires Valid()
      modifies `pending, `work
      ensures found == (LastPending(old(pending), name) >= 0)
      ensures Valid() && Model() == TidyMachine.DropPending(old(Model()), name)
    {
      hide PlacesAreExact, ScopesAreExact, DropAt;
      work := work + |pending|;
      var k := |pending|;
      assert pending[..k] == pending;
      ghost var s := Model();
      while k > 0
        invariant 0 <= k <= |pending| && Model() == s
        invariant LastPending(pending[..k], name) == LastPending(pending, name)
        modifies `pending
      {
        k := k - 1;
        assert pending[..k + 1][..k] == pending[..k];
        if pending[k].name == name {
          pending := pending[..k] + pending[k + 1..];
          return true;
        }
      }
      return false;
    }

    method PopIfInScope(i: int, m: Mark)
      requires Valid()
      modifies this
      ensures Valid() && Model() == TidyMachine.PopIfInScope(v, old(Model()), i, m)
    {
      hide PlacesAreExact, ScopesAreExact, DropAt, TidyMachine.PopTo;
      if IsInScope(i, m) {
        PopTo(i);
      }
    }

    /** The end of a formatting element: closes it, marks it a zombie when a special element is in the
        way, or forgets that it was to come back. */
    method EndFormatting(name: Text)
      requires Valid()
      modifies this
      ensures Valid() && Model() == TidyMachine.EndFormatting(v, old(Model()), name)
    {
      hide PlacesAreExact, ScopesAreExact, DropAt, TidyMachine.PopTo, TidyMachine.DropPending, TidyMachine.PopIfInScope;
      var i := LastIndex(Html, name);
      if i > LastMark(Marker) && !stack[i].zombie {
        if i < LastMark(Scope) {
          return;
        }
        if LastMark(Special) > i {
          ZombieKeepsPlaces(at, marks, stack, i);
          stack := stack[i := stack[i].(zombie := true)];
          return;
        }
        PopTo(i);
        return;
      }
      var found := DropPending(name);
      if !found {
        PopIfInScope(LastIndex(Html, name), Special);
      }
    }

    function TableDepth(t: nat, name: Text): (depth: nat)
      requires Valid()
      reads this
      ensures depth == TidyMachine.TableDepth(stack, t, name)
    {
      var sec := Max(LastIndex(Html, Units("tbody")),
                     Max(LastIndex(Html, Units("thead")), LastIndex(Html, Units("tfoot"))));
      var row := LastIndex(Html, Units("tr"));
      if name == Units("tr") then (if sec > t then sec else t) + 1
      else if name == Units("td") || name == Units("th") then (if row > t then row else if sec > t then sec else t) + 1
      else t + 1
    }

    method Column(t: nat, text: AttributesText)
      requires Valid() && t < |stack|
      modifies this
      ensures Valid() && Model() == TidyMachine.Column(v, old(Model()), t, text)
    {
      hide PlacesAreExact, ScopesAreExact, DropAt, TidyMachine.PopTo, TidyMachine.Leaf, KindOf;
      if !(Top(stack).ns == Html && Top(stack).name == Units("colgroup") && |stack| - 1 > t) {
        PopTo(t + 1);
      }
      Leaf(VoidText(Units("col"), text), KindOf(v, Units("col"), Html, false), Html);
    }

    method TablePart(name: Text, attrs: Attributes)
      requires Valid()
      modifies this
      ensures Valid() && Model() == TidyMachine.TablePart(v, old(Model()), name, attrs)
    {
      hide PlacesAreExact, ScopesAreExact, DropAt, TidyMachine.PopTo, TidyMachine.Open, TidyMachine.Column,
        TidyMachine.TableDepth, Entry;
      var t := LastMark(TableScope);
      if t < 0 || stack[t].name != Units("table") {
        return;
      }
      var text := AttrsOf(v, attrs, name, Html);
      if name == Units("col") {
        Column(t, text);
        return;
      }
      PopTo(TableDepth(t, name));
      Open(Entry(v, name, Html, text, attrs));
    }

    method OpenOrLeaf(e: Element, selfClosing: bool)
      requires Valid()
      modifies this
      ensures Valid() && Model() == TidyMachine.OpenOrLeaf(v, old(Model()), e, selfClosing)
    {
      if selfClosing {
        Leaf(PairText(e), e.kind, e.ns);
      } else {
        Open(e);
      }
    }

    method CloseImplied(name: Text)
      requires Valid()
      modifies this
      ensures Valid() && Model() == TidyMachine.CloseImplied(v, old(Model()), name)
    {
      hide PlacesAreExact, ScopesAreExact, DropAt, TidyMachine.PopTo;
      ghost var s := Model();
      while stack != [] && Top(stack).ns == Html && Top(stack).name in v.impliedEnd
            && !(Top(stack).name == Units("rtc") && (name == Units("rp") || name == Units("rt")))
        invariant Valid()
        invariant TidyMachine.CloseImplied(v, Model(), name) == TidyMachine.CloseImplied(v, s, name)
        decreases |stack|
      {
        PopTo(|stack| - 1);
      }
    }

    method CloseItems(name: Text)
      requires Valid()
      modifies this
      ensures Valid() && Model() == TidyMachine.CloseItems(v, old(Model()), name)
    {
      hide PlacesAreExact, ScopesAreExact, DropAt, TidyMachine.PopIfInScope;
      if name == Units("li") {
        PopIfInScope(LastIndex(Html, Units("li")), NotAddressDivP);
      } else if name == Units("dd") || name == Units("dt") {
        PopIfInScope(Max(LastIndex(Html, Units("dd")), LastIndex(Html, Units("dt"))), NotAddressDivP);
      }
      if name in v.closesP {
        PopIfInScope(LastIndex(Html, Units("p")), ButtonScope);
      }
    }

    method CloseHeading(name: Text)
      requires Valid()
      modifies this
      ensures Valid() && Model() == TidyMachine.CloseHeading(v, old(Model()), name)
    {
      hide PlacesAreExact, ScopesAreExact, DropAt, TidyMachine.PopTo, IsHeading;
      if IsHeading(name) && stack != [] && Top(stack).ns == Html && IsHeading(Top(stack).name) {
        PopTo(|stack| - 1);
      }
    }

    method CloseTable()
      requires Valid()
      modifies this
      ensures Valid() && Model() == TidyMachine.CloseTable(v, old(Model()))
    {
      hide PlacesAreExact, ScopesAreExact, DropAt, TidyMachine.PopTo;
      var t := LastMark(TableScope);
      if t >= 0 && stack[t].name == Units("table")
         && t > Max(LastIndex(Html, Units("td")),
                    Max(LastIndex(Html, Units("th")), LastIndex(Html, Units("caption")))) {
        PopTo(t);
      }
    }

    method CloseBlocks(name: Text)
      requires Valid()
      modifies this
      ensures Valid() && Model() == TidyMachine.CloseBlocks(v, old(Model()), name)
    {
      hide PlacesAreExact, ScopesAreExact, DropAt, TidyMachine.PopIfInScope, TidyMachine.CloseItems,
        TidyMachine.CloseHeading, TidyMachine.CloseTable;
      CloseItems(name);
      CloseHeading(name);
      if name == Units("table") {
        CloseTable();
      }
      if name == Units("button") {
        PopIfInScope(LastIndex(Html, Units("button")), Scope);
      }
    }

    method CloseInlines(name: Text)
      requires Valid()
      modifies this
      ensures Valid() && Model() == TidyMachine.CloseInlines(v, old(Model()), name)
    {
      hide Units, IsRubyPart, PlacesAreExact, ScopesAreExact, DropAt, TidyMachine.PopTo, TidyMachine.PopIfInScope,
        TidyMachine.EndFormatting, TidyMachine.DropPending, TidyMachine.Reopen, TidyMachine.CloseImplied;
      if name == Units("a") {
        if LastIndex(Html, Units("a")) > LastMark(Marker) {
          EndFormatting(Units("a"));
        }
        var _ := DropPending(Units("a"));
      }
      if name == Units("nobr") {
        Reopen();
        if IsInScope(LastIndex(Html, Units("nobr")), Scope) {
          EndFormatting(Units("nobr"));
        }
      }
      if (name == Units("option") || name == Units("optgroup")) && stack != [] && Top(stack).ns == Html &&
        Top(stack).name == Units("option") {
        PopTo(|stack| - 1);
      }
      if IsRubyPart(name) && IsInScope(LastIndex(Html, Units("ruby")), Scope) {
        CloseImplied(name);
      }
    }

    method CloseBefore(name: Text)
      requires Valid()
      modifies this
      ensures Valid() && Model() == TidyMachine.CloseBefore(v, old(Model()), name)
    {
      hide PlacesAreExact, ScopesAreExact, DropAt, TidyMachine.CloseBlocks, TidyMachine.CloseInlines;
      CloseBlocks(name);
      CloseInlines(name);
    }

    method HtmlStart(name: Text, attrs: Attributes, selfClosing: bool)
      requires Valid()
      modifies this
      ensures Valid() && Model() == TidyMachine.HtmlStart(v, old(Model()), name, attrs, selfClosing)
    {
      hide PlacesAreExact, ScopesAreExact, DropAt, TidyMachine.CloseBefore, TidyMachine.TablePart, TidyMachine.Reopen,
        TidyMachine.Open, TidyMachine.Leaf, TidyMachine.OpenOrLeaf, Entry, KindOf;
      var inTemplate := LastIndex(Html, Units("template")) >= 0;
      if name in v.ignored || name == Units("keygen") || (name == Units("form") && formOpen && !inTemplate) {
        return;
      }
      if name in v.tablePart {
        TablePart(name, attrs);
        return;
      }
      CloseBefore(name);
      if name !in v.noReopen {
        Reopen();
      }
      if name in v.void {
        var text := AttrsOf(v, attrs, name, Html);
        Leaf(VoidText(name, text), KindOf(v, name, Html, false), Html);
      } else if name == Units("svg") || name == Units("math") {
        var ns := if name == Units("svg") then Svg else MathMl;
        var text := AttrsOf(v, attrs, name, ns);
        OpenOrLeaf(Entry(v, name, ns, text, attrs), selfClosing);
      } else {
        var text := AttrsOf(v, attrs, name, Html);
        Open(Entry(v, name, Html, text, attrs));
        if name == Units("form") && !inTemplate {
          formOpen := true;
        }
      }
    }

    method StartTag(name: Text, attrs: Attributes, selfClosing: bool)
      requires Valid()
      modifies this
      ensures Valid() && Model() == TidyMachine.StartTag(v, old(Model()), name, attrs, selfClosing)
    {
      hide PlacesAreExact, ScopesAreExact, DropAt, TidyMachine.PopTo, TidyMachine.HtmlStart, TidyMachine.OpenOrLeaf,
        Entry, HasFontAttribute;
      if Foreign(stack) {
        if !(name in v.breakout || (name == Units("font") && HasFontAttribute(attrs))) {
          var top := Top(stack);
          var ns :=
            if top.ns == MathMl && top.name == Units("annotation-xml") && name == Units("svg") then Svg else top.ns;
          var text := AttrsOf(v, attrs, name, ns);
          OpenOrLeaf(Entry(v, name, ns, text, attrs), selfClosing);
          return;
        }
        PopTo(LastMark(HtmlPoint) + 1);
      }
      HtmlStart(name, attrs, selfClosing);
    }

    method HtmlEnd(name: Text)
      requires Valid()
      modifies this
      ensures Valid() && Model() == TidyMachine.HtmlEnd(v, old(Model()), name)
    {
      hide PlacesAreExact, ScopesAreExact, DropAt, TidyMachine.PopTo, TidyMachine.PopIfInScope,
        TidyMachine.EndFormatting, TidyMachine.Leaf, TidyMachine.Reopen, KindOf, IsHeading;
      if name in v.ignored {
        return;
      }
      if name == Units("form") && LastIndex(Html, Units("template")) < 0 {
        var was := formOpen;
        formOpen := false;
        if !was {
          return;
        }
      }
      if name == Units("p") {
        var i := LastIndex(Html, Units("p"));
        if IsInScope(i, ButtonScope) {
          PopTo(i);
        } else {
          Leaf(Units("<p></p>"), KindOf(v, Units("p"), Html, false), Html);
        }
      } else if name == Units("br") {
        Reopen();
        Leaf(Units("<br/>"), KindOf(v, Units("br"), Html, false), Html);
      } else if name == Units("li") {
        PopIfInScope(LastIndex(Html, Units("li")), ListScope);
      } else if IsHeading(name) {
        PopIfInScope(LastMark(Heading), Scope);
      } else if name in v.scopedEnd {
        PopIfInScope(LastIndex(Html, name), Scope);
      } else if name in v.tableEnd {
        PopIfInScope(LastIndex(Html, name), TableScope);
      } else if name in v.formatting {
        EndFormatting(name);
      } else {
        PopIfInScope(LastIndex(Html, name), Special);
      }
    }

    method EndTag(name: Text)
      requires Valid()
      modifies this
      ensures Valid() && Model() == TidyMachine.EndTag(v, old(Model()), name)
    {
      hide PlacesAreExact, ScopesAreExact, DropAt, TidyMachine.PopTo, TidyMachine.HtmlEnd;
      if stack != [] && Top(stack).ns != Html {
        if name == Units("br") || name == Units("p") {
          PopTo(LastMark(HtmlPoint) + 1);
        } else {
          var i := Max(LastIndex(Svg, name), LastIndex(MathMl, name));
          if i > LastMark(InHtml) {
            PopTo(i);
            return;
          }
        }
      }
      HtmlEnd(name);
    }

    method WriteText(t: Text)
      requires Valid()
      modifies `work, `failed, `out, `outLength, `refTail
      ensures Valid() && Model() == TidyMachine.WriteText(v, old(Model()), t)
    {
      hide PlacesAreExact, ScopesAreExact, DropAt, EscapeLt, EndsAsReference, LastOf, TidyMachine.Write;
      if refTail {
        Write(COMMENT, false);
      }
      Write(EscapeLt(t), false);
      refTail := EndsAsReference(LastOf(t, 48));
    }

    method CharacterData(t: Text)
      requires Valid()
      modifies this
      ensures Valid() && Model() == TidyMachine.CharacterData(v, old(Model()), t)
    {
      hide PlacesAreExact, ScopesAreExact, DropAt, TidyMachine.Reopen, TidyMachine.WriteText, TidyMachine.Write;
      if pending != [] && !Foreign(stack) && HasContent(t) {
        Reopen();
      }
      if IsHidden() {
        Write([], true);
        return;
      }
      WriteText(t);
    }

    /** The main loop: what tokens do to a new Tidier is what the plain machine does. */
    method Run(tokens: seq<Token>)
      requires Valid()
      modifies this
      ensures Valid() && Model() == Steps(v, old(Model()), tokens)
    {
      hide PlacesAreExact, ScopesAreExact, DropAt, TidyMachine.StartTag, TidyMachine.EndTag, TidyMachine.CharacterData;
      var k := 0;
      ghost var s := Model();
      while k < |tokens|
        invariant 0 <= k <= |tokens| && Valid()
        invariant Steps(v, Model(), tokens[k..]) == Steps(v, s, tokens)
      {
        assert tokens[k..][0] == tokens[k] && tokens[k..][1..] == tokens[k + 1..];
        match tokens[k] {
          case Start(name, attrs, selfClosing) => StartTag(name, attrs, selfClosing);
          case End(name) => EndTag(name);
          case Characters(t) => CharacterData(t);
        }
        k := k + 1;
      }
    }
  }

  /** tidyHtml, of the tokens: the text written, or None where a limit is passed. */
  method TidyHtml(v: Vocabulary, tokens: seq<Token>) returns (answer: Option<Text>)
    ensures answer == Answer(v, tokens)
  {
    hide Steps;
    var tidier := new Tidier(v);
    tidier.Run(tokens);
    answer := if tidier.failed then None else Some(Joined(tidier.out));
  }
}
