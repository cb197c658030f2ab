/** The callouts whose declaration differs in width from the C function: src/emscripten/ffiAdapt.c.
    Memory holds the bits of an integer, unsigned, as many as its type has. */
module FfiAdapt {
  import opened Basics

  const MAX_ARGUMENTS: nat := 16

  datatype Type = Void | CInt | SInt8 | UInt8 | SInt16 | UInt16 | SInt32 | UInt32 | SInt64 | UInt64 | Pointer
                | Float | Double | OtherType

  /** The classes of a signature, and NoClass for the types that are not adapted. */
  datatype Class = V | I | J | F | D | NoClass

  /** What an argument's address points to: the bits of an integer, or anything else. */
  datatype Value = Memory(bits: nat) | Other(what: int)

  const BITS8: int := 0x100
  const BITS16: int := 0x1_0000
  const BITS32: int := 0x1_0000_0000
  const BITS64: int := 0x1_0000_0000_0000_0000

  function ClassOf(t: Type): Class {
    match t
    case Void => V
    case CInt => I
    case SInt8 => I
    case UInt8 => I
    case SInt16 => I
    case UInt16 => I
    case SInt32 => I
    case UInt32 => I
    case SInt64 => J
    case UInt64 => J
    case Pointer => J
    case Float => F
    case Double => D
    case OtherType => NoClass
  }

  /** How many values the memory of an integer type can have. */
  function Span(t: Type): int {
    match t
    case SInt8 => BITS8
    case UInt8 => BITS8
    case SInt16 => BITS16
    case UInt16 => BITS16
    case CInt => BITS32
    case SInt32 => BITS32
    case UInt32 => BITS32
    case _ => BITS64
  }

  predicate IsSigned(t: Type) { t.CInt? || t.SInt8? || t.SInt16? || t.SInt32? || t.SInt64? }

  predicate IsInteger(t: Type) { ClassOf(t) == I || ClassOf(t) == J }

  /** The integers that a type can hold. */
  predicate InRange(t: Type, n: int) {
    if IsSigned(t) then -Span(t) / 2 <= n < Span(t) / 2 else 0 <= n < Span(t)
  }

  /** The memory that holds an integer of a type. */
  function Stored(t: Type, n: int): Value { Memory(n % Span(t)) }

  function Unsigned(x: int, span: int): int
    requires span > 0
  {
    x % span
  }

  function Signed(x: int, span: int): int
    requires span > 0
  {
    if x % span >= span / 2 then x % span - span else x % span
  }

  /** A cast of C to the type, of a value of class i. */
  function ExtendAs(t: Type, value: int): int {
    match t
    case SInt8 => Signed(value, BITS8)
    case UInt8 => Unsigned(value, BITS8)
    case SInt16 => Signed(value, BITS16)
    case UInt16 => Unsigned(value, BITS16)
    case UInt32 => Unsigned(value, BITS32)
    case _ => Signed(value, BITS32)
  }

  lemma SignedIsTheCast(value: int, span: int, n: int)
    requires span > 1 && span % 2 == 0
    ensures -span / 2 <= Signed(value, span) < span / 2 && Signed(value, span) % span == value % span
    ensures -span / 2 <= n < span / 2 && n % span == value % span ==> n == Signed(value, span)
  {
    ModUnique(Signed(value, span), span, if value % span >= span / 2 then -1 else 0, value % span);
    if -span / 2 <= n < 0 {
      ModUnique(n, span, -1, n + span);
    } else if 0 <= n < span / 2 {
      ModUnique(n, span, 0, n);
    }
  }

  lemma UnsignedIsTheCast(value: int, span: int, n: int)
    requires span > 0
    ensures 0 <= Unsigned(value, span) < span && Unsigned(value, span) % span == value % span
    ensures 0 <= n < span && n % span == value % span ==> n == Unsigned(value, span)
  {
    ModUnique(value % span, span, 0, value % span);
    if 0 <= n < span {
      ModUnique(n, span, 0, n);
    }
  }

  /** What ExtendAs means: the one integer of the type that agrees with the value in its bits. */
  lemma ExtendAsIsTheCast(t: Type, value: int, n: int)
    requires ClassOf(t) == I
    ensures InRange(t, ExtendAs(t, value)) && ExtendAs(t, value) % Span(t) == value % Span(t)
    ensures InRange(t, n) && n % Span(t) == value % Span(t) ==> n == ExtendAs(t, value)
  {
    hide Signed, Unsigned;
    if IsSigned(t) {
      SignedIsTheCast(value, Span(t), n);
    } else {
      UnsignedIsTheCast(value, Span(t), n);
    }
  }

  // ---- one argument

  /** The type and the memory that the adapted call has for an argument of which C has class c. */
  function AdaptArgument(t: Type, c: Class, v: Value): (Type, Value) {
    if ClassOf(t) == c || v.Other? then (t, v)
    else if ClassOf(t) == J then (SInt32, Stored(SInt32, Signed(v.bits, BITS32)))
    else (SInt64, Stored(SInt64, ExtendAs(t, v.bits)))
  }

  /** The callee gets an m for a declared n. */
  predicate Arrives(t: Type, c: Class, u: Type, w: Value, n: int, m: int) {
    && InRange(u, m) && w == Stored(u, m) && m % BITS32 == n % BITS32
    && (ClassOf(t) == c ==> u == t && m == n) && (c == J ==> m == n)
  }

  ghost predicate IsKept(t: Type, c: Class, u: Type, w: Value, n: int) { exists m :: Arrives(t, c, u, w, n, m) }

  lemma NarrowKeepsTheLowBits(t: Type, n: int)
    requires ClassOf(t) == J && InRange(t, n)
    ensures Stored(t, n).bits % BITS32 == n % BITS32
    ensures InRange(SInt32, Signed(Stored(t, n).bits, BITS32)) &&
      Signed(Stored(t, n).bits, BITS32) % BITS32 == n % BITS32
  {
    assert Span(t) == BITS32 * BITS32;
  }

  lemma WidenKeepsTheValue(t: Type, n: int)
    requires ClassOf(t) == I && InRange(t, n)
    ensures ExtendAs(t, Stored(t, n).bits) == n && InRange(SInt64, n)
  {
    hide ExtendAs;
    ModUnique(n % Span(t), Span(t), 0, n % Span(t));
    ExtendAsIsTheCast(t, Stored(t, n).bits, n);
  }

  /** What the callee gets of a declared integer: the same integer where C has 64 bits, one that
      agrees in the low 32 bits where C has 32; and the very argument where the classes agree. */
  lemma ArgumentKeepsItsValue(t: Type, c: Class, n: int)
    requires IsInteger(t) && (c == I || c == J) && InRange(t, n)
    ensures var (u, w) := AdaptArgument(t, c, Stored(t, n));
      ClassOf(u) == c && IsKept(t, c, u, w, n)
  {
    hide InRange, ExtendAs, Signed;
    var (u, w) := AdaptArgument(t, c, Stored(t, n));
    if ClassOf(t) == c {
      assert Arrives(t, c, u, w, n, n);
    } else if c == J {
      WidenKeepsTheValue(t, n);
      assert Arrives(t, c, u, w, n, n);
    } else {
      NarrowKeepsTheLowBits(t, n);
      assert Arrives(t, c, u, w, n, Signed(Stored(t, n).bits, BITS32));
    }
  }

  // ---- the result

  /** What is written at rvalue. */
  datatype Written = Nothing | Word(bits: nat) | FloatOf(what: int) | DoubleOf(what: int)

  /** The result of the callee: integer, in its low bits, for class i or j. */
  datatype Result = Result(integer: int, float: int)

  /** The integer that the callee answered, as C reads it. */
  function ValueOf(c: Class, r: Result): int {
    if c == J then Signed(r.integer, BITS64) else if c == I then Signed(r.integer, BITS32) else 0
  }

  function WrittenFor(t: Type, c: Class, r: Result): Written {
    match ClassOf(t)
    case I => Word(Unsigned(ExtendAs(t, ValueOf(c, r)), BITS64))
    case J => Word(Unsigned(if c == I && t != SInt64 then Unsigned(ValueOf(c, r), BITS32) else ValueOf(c, r), BITS64))
    case F => FloatOf(r.float)
    case D => DoubleOf(r.float)
    case _ => Nothing
  }

  /** The callee answered n, as an int (class i) or a 64-bit integer (class j). */
  predicate Answers(c: Class, r: Result, n: int) {
    (c == I && InRange(SInt32, n) && r.integer % BITS32 == n % BITS32) ||
    (c == J && InRange(SInt64, n) && r.integer % BITS64 == n % BITS64) ||
    (c == V && n == 0)
  }

  lemma ValueOfAnswer(c: Class, r: Result, n: int)
    requires Answers(c, r, n)
    ensures ValueOf(c, r) == n
  {
    hide Signed;
    if c == I {
      SignedIsTheCast(r.integer, BITS32, n);
    } else if c == J {
      SignedIsTheCast(r.integer, BITS64, n);
    }
  }

  /** A narrow type gets the integer that agrees with n in its bits. */
  ghost predicate GetsTheLowBits(t: Type, w: Written, n: int) {
    exists m :: InRange(t, m) && m % Span(t) == n % Span(t) && w == Word(m % BITS64)
  }

  lemma NarrowResult(t: Type, c: Class, r: Result, n: int)
    requires ClassOf(t) == I && Answers(c, r, n)
    ensures GetsTheLowBits(t, WrittenFor(t, c, r), n)
  {
    hide ExtendAs, InRange, ValueOf, Answers;
    ValueOfAnswer(c, r, n);
    ExtendAsIsTheCast(t, n, ExtendAs(t, n));
    assert WrittenFor(t, c, r) == Word(ExtendAs(t, n) % BITS64);
  }

  lemma WideResult(t: Type, c: Class, r: Result, n: int)
    requires ClassOf(t) == J && Answers(c, r, n)
    ensures WrittenFor(t, c, r) == Word(if t == SInt64 || c != I then n % BITS64 else n % BITS32)
  {
    hide ExtendAs, InRange, ValueOf, Answers;
    ValueOfAnswer(c, r, n);
    if c == I && t != SInt64 {
      ModUnique(n % BITS32, BITS64, 0, n % BITS32);
    }
  }

  lemma AnswerOfNothing(t: Type, r: Result)
    requires IsInteger(t)
    ensures WrittenFor(t, V, r) == Word(0)
  {}

  /** The caller reads an integer of the declared type: for a narrow type the one that agrees with
      the answer in its bits; a 64-bit type gets the answer sign-extended when it is signed or C
      answered 64 bits, zero-extended from 32 bits otherwise; 0 when C answers nothing. */
  lemma ResultIsAsDeclared(t: Type, c: Class, r: Result, n: int)
    requires IsInteger(t) && Answers(c, r, n)
    ensures var w := WrittenFor(t, c, r);
      && (ClassOf(t) == I ==> GetsTheLowBits(t, w, n))
      && (ClassOf(t) == J && (t == SInt64 || c != I) ==> w == Word(n % BITS64))
      && (ClassOf(t) == J && t != SInt64 && c == I ==> w == Word(n % BITS32))
      && (c == V ==> w == Word(0))
  {
    hide WrittenFor, Answers, GetsTheLowBits;
    AnswerOfNothing(t, r);
    if ClassOf(t) == I {
      NarrowResult(t, c, r, n);
    } else {
      WideResult(t, c, r, n);
    }
  }

  // ---- which calls are adapted

  datatype Cif = Cif(result: Type, arguments: seq<Type>, nfixed: nat, varargs: bool)

  /** fixed: the number after the dot of a variadic signature, or -1. classes: the result's first. */
  datatype Signature = Signature(classes: seq<Class>, fixed: int)

  /** The text of a signature: a letter for the result and for each argument, and for a variadic
      function a dot and the number of its fixed arguments. */
  function Parsed(text: string): (s: Signature)
    ensures s.fixed >= -1
  {
    var dot := DotIn(text);
    Signature(seq(dot, k requires 0 <= k < dot => ClassOfLetter(text[k])),
      if dot < |text| then Atoi(text[dot + 1..]) else -1)
  }

  function DotIn(text: string): (k: nat)
    ensures k <= |text| && (forall j :: 0 <= j < k ==> text[j] != '.') && (k < |text| ==> text[k] == '.')
  {
    if text == "" || text[0] == '.' then 0 else 1 + DotIn(text[1..])
  }

  function ClassOfLetter(c: char): Class {
    match c
    case 'v' => V
    case 'i' => I
    case 'j' => J
    case 'f' => F
    case 'd' => D
    case _ => NoClass
  }

  /** The number that a text begins with, 0 when it begins with none. */
  function Atoi(text: string): nat { AtoiFrom(text, 0) }

  function AtoiFrom(text: string, n: nat): nat {
    if text == "" || !('0' <= text[0] <= '9') then n
    else AtoiFrom(text[1..], 10 * n + (text[0] - '0') as nat)
  }

  predicate IsAdaptable(declared: Class, c: Class, isResult: bool) {
    declared == c || ((declared == I || declared == J) && (c == I || c == J)) ||
    (isResult && (declared == V || (c == V && declared != F && declared != D)))
  }

  predicate IsVariadic(cif: Cif) { cif.varargs || cif.nfixed < |cif.arguments| }

  /** How many arguments are fixed. */
  function FixedOf(cif: Cif, s: Signature): nat { if s.fixed < 0 then |cif.arguments| else s.fixed }

  /** The declaration has the classes, and the numbers of arguments, that the signature can take. */
  predicate Fits(cif: Cif, s: Signature) {
    && |cif.arguments| <= MAX_ARGUMENTS
    && ClassOf(cif.result) != NoClass
    && (forall k :: 0 <= k < |cif.arguments| ==> ClassOf(cif.arguments[k]) != NoClass)
    && (if s.fixed < 0 then !IsVariadic(cif) && |s.classes| == |cif.arguments| + 1
        else |s.classes| == s.fixed + 2 && |cif.arguments| >= s.fixed)
  }

  predicate Agrees(cif: Cif, s: Signature)
    requires Fits(cif, s)
  {
    && IsAdaptable(ClassOf(cif.result), s.classes[0], true)
    && forall k :: 0 <= k < FixedOf(cif, s) ==> IsAdaptable(ClassOf(cif.arguments[k]), s.classes[k + 1], false)
  }

  predicate Differs(cif: Cif, s: Signature)
    requires Fits(cif, s)
  {
    || (s.fixed >= 0 && (!IsVariadic(cif) || cif.nfixed != s.fixed))
    || (ClassOf(cif.result) != s.classes[0] && ClassOf(cif.result) != V)
    || exists k :: 0 <= k < FixedOf(cif, s) && ClassOf(cif.arguments[k]) != s.classes[k + 1]
  }

  /** The call is adapted exactly when the declaration fits the signature in all but width, and
      differs from it in something. */
  predicate IsAdapted(cif: Cif, s: Signature) { Fits(cif, s) && Agrees(cif, s) && Differs(cif, s) }

  method Decide(cif: Cif, s: Signature) returns (adapt: bool)
    requires s.fixed >= -1
    ensures adapt == IsAdapted(cif, s)
  {
    var nargs := |cif.arguments|;
    if nargs > MAX_ARGUMENTS || ClassOf(cif.result) == NoClass {
      return false;
    }
    var declared := new Class[nargs](_ => NoClass);
    var i := 0;
    while i < nargs
      invariant 0 <= i <= nargs
      invariant forall k :: 0 <= k < i ==> declared[k] == ClassOf(cif.arguments[k]) != NoClass
    {
      declared[i] := ClassOf(cif.arguments[i]);
      if declared[i] == NoClass {
        return false;
      }
      i := i + 1;
    }
    var fixed: nat;
    if s.fixed < 0 {
      if IsVariadic(cif) || |s.classes| != nargs + 1 {
        return false;
      }
      fixed, adapt := nargs, false;
    } else {
      if |s.classes| != s.fixed + 2 || nargs < s.fixed {
        return false;
      }
      fixed := s.fixed;
      adapt := !IsVariadic(cif) || cif.nfixed != fixed;
    }
    if !IsAdaptable(ClassOf(cif.result), s.classes[0], true) {
      return false;
    }
    adapt := adapt || (ClassOf(cif.result) != s.classes[0] && ClassOf(cif.result) != V);
    ghost var before := adapt;
    i := 0;
    while i < fixed
      invariant 0 <= i <= fixed
      invariant forall k :: 0 <= k < i ==> IsAdaptable(declared[k], s.classes[k + 1], false)
      invariant adapt == (before || exists k :: 0 <= k < i && declared[k] != s.classes[k + 1])
    {
      if !IsAdaptable(declared[i], s.classes[i + 1], false) {
        return false;
      }
      adapt := adapt || declared[i] != s.classes[i + 1];
      i := i + 1;
    }
  }

  predicate IsIntegerClass(c: Class) { c == I || c == J }

  /** An integer where C has a floating-point number, or the other way round, in an argument or in
      the result, is not adapted: the declared call is made, and nothing else. */
  lemma {:induction false} MixedClassesAreNotAdapted(cif: Cif, s: Signature)
    requires s.classes != []
    requires
      || (IsInteger(cif.result) != IsIntegerClass(s.classes[0]) && cif.result != Void && s.classes[0] != V)
      || exists k :: 0 <= k < |cif.arguments| && k + 1 < |s.classes| && (s.fixed >= 0 ==> k < s.fixed) &&
                     IsInteger(cif.arguments[k]) != IsIntegerClass(s.classes[k + 1])
    ensures !IsAdapted(cif, s)
  {
    if k :| 0 <= k < |cif.arguments| && k + 1 < |s.classes| && (s.fixed >= 0 ==> k < s.fixed) &&
            IsInteger(cif.arguments[k]) != IsIntegerClass(s.classes[k + 1])
    {
      assert !IsAdaptable(ClassOf(cif.arguments[k]), s.classes[k + 1], false);
    }
  }

  // ---- the call

  /** What the guarded call is made with: the classes and types of the arguments, the class of the
      result, and how many arguments are fixed, -1 for all. */
  datatype Call = Call(types: seq<Type>, result: Class, fixed: int, values: seq<Value>)

  datatype Outcome = Threw | Returned(r: Result)

  /** What the caller gets: of the declared call as it was, of the adapted one, or nothing when it
      threw or could not be prepared. */
  datatype Effect = Declared | Failed | Wrote(w: Written)

  function AdaptedTypes(cif: Cif, s: Signature, v: seq<Value>): seq<Type>
    requires Fits(cif, s) && |v| == |cif.arguments|
  {
    seq(|v|, k requires 0 <= k < |v| =>
      if k < FixedOf(cif, s) then AdaptArgument(cif.arguments[k], s.classes[k + 1], v[k]).0 else cif.arguments[k])
  }

  function AdaptedValues(cif: Cif, s: Signature, v: seq<Value>): seq<Value>
    requires Fits(cif, s) && |v| == |cif.arguments|
  {
    seq(|v|, k requires 0 <= k < |v| =>
      if k < FixedOf(cif, s) then AdaptArgument(cif.arguments[k], s.classes[k + 1], v[k]).1 else v[k])
  }

  function AdaptedCall(cif: Cif, s: Signature, v: seq<Value>): Call
    requires Fits(cif, s) && |v| == |cif.arguments|
  {
    Call(AdaptedTypes(cif, s, v), s.classes[0], s.fixed, AdaptedValues(cif, s, v))
  }

  /** A declared integer argument points to an integer's memory. */
  predicate Typed(cif: Cif, v: seq<Value>) {
    |v| == |cif.arguments| && forall k :: 0 <= k < |v| ==> (v[k].Memory? <==> IsInteger(cif.arguments[k]))
  }

  /** emscriptenAdaptedFFICall, for the signature that the registry has for the function, if any:
      prepare tells whether libffi can prepare a call, call makes it. */
  method CallAdapted(cif: Cif, adapting: bool, entry: Option<string>, v: seq<Value>, prepare: Call -> bool,
    call: Call -> Outcome)
    returns (a: Effect, made: seq<Call>)
    requires Typed(cif, v)
    ensures !adapting || entry.None? || !IsAdapted(cif, Parsed(entry.value)) ==> a == Declared && made == []
    ensures adapting && entry.Some? && IsAdapted(cif, Parsed(entry.value)) ==>
      var s := Parsed(entry.value);
      var c := AdaptedCall(cif, s, v);
      if !prepare(c) then made == [] && a == if s.fixed < 0 then Declared else Failed
      else
        && made == [c]
        && a == match call(c) case Threw => Failed case Returned(r) => Wrote(WrittenFor(cif.result, s.classes[0], r))
  {
    hide Stored, Signed, ExtendAs, WrittenFor, IsAdaptable, Differs, Parsed;
    made := [];
    if !adapting || entry.None? {
      return Declared, made;
    }
    var s := Parsed(entry.value);
    var adapt := Decide(cif, s);
    if !adapt {
      return Declared, made;
    }
    var nargs := |cif.arguments|;
    var types, values := new Type[nargs](_ => Void), new Value[nargs](_ => Other(0));
    var i := 0;
    while i < nargs
      invariant 0 <= i <= nargs
      invariant forall k :: 0 <= k < i ==>
        types[k] == AdaptedTypes(cif, s, v)[k] && values[k] == AdaptedValues(cif, s, v)[k]
    {
      types[i], values[i] := cif.arguments[i], v[i];
      if i < FixedOf(cif, s) && ClassOf(cif.arguments[i]) != s.classes[i + 1] {
        AdaptableIsInteger(ClassOf(cif.arguments[i]), s.classes[i + 1]);
        if ClassOf(cif.arguments[i]) == J {
          types[i], values[i] := SInt32, Stored(SInt32, Signed(v[i].bits, BITS32));
        } else {
          types[i], values[i] := SInt64, Stored(SInt64, ExtendAs(cif.arguments[i], v[i].bits));
        }
      }
      i := i + 1;
    }
    var c := Call(types[..], s.classes[0], s.fixed, values[..]);
    assert types[..] == AdaptedTypes(cif, s, v) && values[..] == AdaptedValues(cif, s, v);
    if !prepare(c) {
      return if s.fixed < 0 then Declared else Failed, made;
    }
    made := [c];
    match call(c) {
      case Threw => a := Failed;
      case Returned(r) => a := Wrote(WrittenFor(cif.result, s.classes[0], r));
    }
  }

  lemma AdaptableIsInteger(declared: Class, c: Class)
    requires IsAdaptable(declared, c, false) && declared != c
    ensures (declared == J && c == I) || (declared == I && c == J)
  {}

  /** In an adapted call every argument has the class of the signature, if fixed; each declared
      integer arrives as ArgumentKeepsItsValue says; the rest is passed as it is. */
  lemma AdaptedCallKeepsTheArguments(cif: Cif, s: Signature, v: seq<Value>, k: nat)
    requires IsAdapted(cif, s) && s.fixed >= -1 && Typed(cif, v) && k < |v|
    ensures var c, fixed := AdaptedCall(cif, s, v), FixedOf(cif, s);
      && |c.types| == |c.values| == |v|
      && (k >= fixed || ClassOf(cif.arguments[k]) == s.classes[k + 1] ==>
         c.types[k] == cif.arguments[k] && c.values[k] == v[k])
      && (k < fixed ==> ClassOf(c.types[k]) == s.classes[k + 1])
      && (k < fixed && IsInteger(cif.arguments[k]) ==>
            forall n :: InRange(cif.arguments[k], n) && v[k] == Stored(cif.arguments[k], n) ==>
              IsKept(cif.arguments[k], s.classes[k + 1], c.types[k], c.values[k], n))
  {
    hide InRange, Stored, ExtendAs, Signed, IsKept, Differs;
    if k < FixedOf(cif, s) {
      assert IsAdaptable(ClassOf(cif.arguments[k]), s.classes[k + 1], false);
      forall n | IsInteger(cif.arguments[k]) && InRange(cif.arguments[k], n) && v[k] == Stored(cif.arguments[k], n)
        ensures IsKept(cif.arguments[k], s.classes[k + 1], AdaptedTypes(cif, s, v)[k], AdaptedValues(cif, s, v)[k], n)
      {
        ArgumentKeepsItsValue(cif.arguments[k], s.classes[k + 1], n);
      }
    }
  }

  // ---- the text of a signature

  /** Letter by letter, for the fixed arguments of an adapted call: j is an integer of 64 bits, which arrives as
      it was declared; i one of 32 bits at most, which agrees in 32 bits; f a float; d a double. */
  lemma TheLettersSayTheWidths(cif: Cif, text: string, v: seq<Value>, k: nat)
    requires IsAdapted(cif, Parsed(text)) && Typed(cif, v) && k < |v| && k < FixedOf(cif, Parsed(text))
    ensures k + 1 < |text|
    ensures var letter, c := text[k + 1], AdaptedCall(cif, Parsed(text), v);
      && letter in {'i', 'j', 'f', 'd', 'v'}
      && (letter == 'j' ==> IsInteger(c.types[k]) && Span(c.types[k]) == BITS64)
      && (letter == 'i' ==> IsInteger(c.types[k]) && Span(c.types[k]) <= BITS32)
      && (letter == 'f' ==> c.types[k] == Float)
      && (letter == 'd' ==> c.types[k] == Double)
      && forall n :: IsInteger(cif.arguments[k]) && InRange(cif.arguments[k], n) &&
                     v[k] == Stored(cif.arguments[k], n) ==>
           exists m ::
             InRange(c.types[k], m) && c.values[k] == Stored(c.types[k], m) && m % BITS32 == n % BITS32 &&
             (letter == 'j' ==> m == n)
  {
    hide InRange, Stored, Differs, ExtendAs, Signed;
    var s := Parsed(text);
    AdaptedCallKeepsTheArguments(cif, s, v, k);
    LetterOfClass(text, k + 1);
    assert IsAdaptable(ClassOf(cif.arguments[k]), s.classes[k + 1], false);
    var c := AdaptedCall(cif, s, v);
    forall n | IsInteger(cif.arguments[k]) && InRange(cif.arguments[k], n) && v[k] == Stored(cif.arguments[k], n)
      ensures exists m ::
        InRange(c.types[k], m) && c.values[k] == Stored(c.types[k], m) && m % BITS32 == n % BITS32 &&
        (text[k + 1] == 'j' ==> m == n)
    {
      var m :| Arrives(cif.arguments[k], s.classes[k + 1], c.types[k], c.values[k], n, m);
    }
  }

  lemma LetterOfClass(text: string, k: nat)
    requires k < |Parsed(text).classes|
    ensures k < |text| && Parsed(text).classes[k] == ClassOfLetter(text[k])
  {}

  /** The first letter is of what C answers: for a j it is 64 bits of the result, for an i its low 32; for a v
      there is none. */
  lemma TheFirstLetterIsTheResult(t: Type, text: string, r: Result, n: int)
    requires IsInteger(t) && Parsed(text).classes != []
    requires text[0] in {'i', 'j', 'v'}
    requires text[0] == 'i' ==> -BITS32 / 2 <= n < BITS32 / 2 && r.integer % BITS32 == n % BITS32
    requires text[0] == 'j' ==> -BITS64 / 2 <= n < BITS64 / 2 && r.integer % BITS64 == n % BITS64
    requires text[0] == 'v' ==> n == 0
    ensures var w := WrittenFor(t, Parsed(text).classes[0], r);
      && (ClassOf(t) == I ==> GetsTheLowBits(t, w, n))
      && (ClassOf(t) == J && (t == SInt64 || text[0] != 'i') ==> w == Word(n % BITS64))
      && (ClassOf(t) == J && t != SInt64 && text[0] == 'i' ==> w == Word(n % BITS32))
  {
    hide WrittenFor, GetsTheLowBits;
    LetterOfClass(text, 0);
    if text[0] == 'v' { AnswerOfNothing(t, r); }
    ResultIsAsDeclared(t, Parsed(text).classes[0], r, n);
  }

  /** A number in decimal. */
  function Digits(n: nat): (t: string)
    ensures t != ""
  {
    (if n < 10 then "" else Digits(n / 10)) + [('0' as int + n % 10) as char]
  }

  lemma {:induction false} AtoiReads(n: nat, rest: string)
    requires rest == "" || !('0' <= rest[0] <= '9')
    ensures AtoiFrom(Digits(n) + rest, 0) == n
  {
    DigitsRead(n, rest);
    assert rest == "" ==> AtoiFrom(rest, n) == n;
  }

  lemma {:induction false} DigitsRead(n: nat, rest: string)
    ensures AtoiFrom(Digits(n) + rest, 0) == AtoiFrom(rest, n)
  {
    var last := [('0' as int + n % 10) as char];
    assert '0' <= last[0] <= '9' && (last[0] - '0') as nat == n % 10;
    assert (last + rest)[1..] == rest;
    if n >= 10 {
      DigitsRead(n / 10, last + rest);
      assert Digits(n) + rest == Digits(n / 10) + (last + rest);
    } else {
      assert Digits(n) + rest == last + rest;
    }
  }

  /** Without a dot every argument is fixed; the number behind a dot says how many are. */
  lemma TheDotSaysHowManyAreFixed(classes: string, n: nat)
    requires '.' !in classes
    ensures Parsed(classes).fixed == -1 && |Parsed(classes).classes| == |classes|
    ensures var s := Parsed(classes + "." + Digits(n)); s.fixed == n && s.classes == Parsed(classes).classes
  {
    var text := classes + "." + Digits(n);
    assert text[|classes|] == '.';
    assert DotIn(text) == |classes| by {
      assert forall j :: 0 <= j < |classes| ==> text[j] == classes[j] && classes[j] in classes;
    }
    assert text[|classes| + 1..] == Digits(n) + "";
    AtoiReads(n, "");
    forall j | 0 <= j < |classes| ensures classes[j] != '.' {
      assert classes[j] in classes;
    }
  }

  /** A declared type that a letter can be of: an integer for i and j, or the very type. */
  predicate CanBe(t: Type, letter: char) {
    (IsInteger(t) && (letter == 'i' || letter == 'j')) ||
    (t == Float && letter == 'f') || (t == Double && letter == 'd') || (t == Void && letter == 'v')
  }

  /** A result may also be dropped, or made up where C has none, but for a floating-point number. */
  predicate ResultCanBe(t: Type, letter: char) { t == Void || CanBe(t, letter) || (IsInteger(t) && letter == 'v') }

  predicate HasWidthOf(t: Type, letter: char) { IsInteger(t) ==> (Span(t) == BITS64 <==> letter == 'j') }

  predicate ResultChanges(t: Type, letter: char) { t != Void && (letter == 'v' || !HasWidthOf(t, letter)) }

  /** The text of a signature, and how many arguments it fixes. */
  function TextOf(letters: string, variadic: bool, n: nat): string {
    if variadic then letters + "." + Digits(n) else letters
  }

  /** The numbers of the arguments are what the text can take. */
  predicate TakesAsMany(cif: Cif, letters: string, variadic: bool, n: nat) {
    && |cif.arguments| <= MAX_ARGUMENTS
    && if variadic then |letters| == n + 2 && |cif.arguments| >= n
       else !IsVariadic(cif) && |letters| == |cif.arguments| + 1
  }

  predicate IsKnown(cif: Cif) { forall k :: 0 <= k < |cif.arguments| ==> cif.arguments[k] != OtherType }

  /** For every declaration and text: the call is adapted if and only if the numbers of the arguments fit, each
      declared type is one that its letter can be of, and something differs: the width of an argument, the
      result, or, of a variadic function, where the variable arguments begin. */
  lemma AdaptedIff(cif: Cif, letters: string, variadic: bool, n: nat)
    requires '.' !in letters
    ensures var fixed := if variadic then n else |cif.arguments|;
      IsAdapted(cif, Parsed(TextOf(letters, variadic, n))) <==>
        && TakesAsMany(cif, letters, variadic, n) && IsKnown(cif)
        && ResultCanBe(cif.result, letters[0])
        && (forall k :: 0 <= k < fixed ==> CanBe(cif.arguments[k], letters[k + 1]))
        && ((variadic && (!IsVariadic(cif) || cif.nfixed != n)) || ResultChanges(cif.result, letters[0])
            || exists k :: 0 <= k < fixed && !HasWidthOf(cif.arguments[k], letters[k + 1]))
  {
    TheDotSaysHowManyAreFixed(letters, n);
    var s := Parsed(TextOf(letters, variadic, n));
    assert s.classes == Parsed(letters).classes && s.fixed == if variadic then n else -1;
    FitsIff(cif, letters, variadic, n, s);
    hide Parsed, TextOf, Fits, FixedOf;
    if Fits(cif, s) {
      HowManyAreFixed(cif, letters, variadic, n, s);
      LettersDecide(cif, letters, s);
      hide Agrees, Differs;
      var fixed := if variadic then n else |cif.arguments|;
      assert Agrees(cif, s) <==> (
        && ResultCanBe(cif.result, letters[0])
        && forall k :: 0 <= k < fixed ==> CanBe(cif.arguments[k], letters[k + 1]));
    } else {
      assert !IsAdapted(cif, s);
    }
  }

  lemma HowManyAreFixed(cif: Cif, letters: string, variadic: bool, n: nat, s: Signature)
    requires TakesAsMany(cif, letters, variadic, n) && s.fixed == if variadic then n else -1
    ensures FixedOf(cif, s) == (if variadic then n else |cif.arguments|) <= |cif.arguments|
    ensures FixedOf(cif, s) < |letters|
  {}

  lemma FitsIff(cif: Cif, letters: string, variadic: bool, n: nat, s: Signature)
    requires |s.classes| == |letters| && s.fixed == if variadic then n else -1
    ensures Fits(cif, s) <==> TakesAsMany(cif, letters, variadic, n) && cif.result != OtherType && IsKnown(cif)
  {
    assert forall t :: ClassOf(t) == NoClass <==> t == OtherType;
    hide ClassOf;
  }

  lemma LettersDecide(cif: Cif, letters: string, s: Signature)
    requires Fits(cif, s) && '.' !in letters && s.classes == Parsed(letters).classes && |s.classes| == |letters|
    requires FixedOf(cif, s) < |letters| && FixedOf(cif, s) <= |cif.arguments|
    ensures Agrees(cif, s) <==>
      ResultCanBe(cif.result, letters[0]) &&
      forall k :: 0 <= k < FixedOf(cif, s) ==> CanBe(cif.arguments[k], letters[k + 1])
    ensures Agrees(cif, s) ==>
      (Differs(cif, s) <==>
       (s.fixed >= 0 && (!IsVariadic(cif) || cif.nfixed != s.fixed)) || ResultChanges(cif.result, letters[0]) ||
       exists k :: 0 <= k < FixedOf(cif, s) && !HasWidthOf(cif.arguments[k], letters[k + 1]))
  {
    hide FixedOf, IsVariadic, Parsed;
    LetterOfClass(letters, 0);
    LetterIsTheClass(cif.result, letters[0]);
    forall k | 0 <= k < FixedOf(cif, s)
      ensures CanBe(cif.arguments[k], letters[k + 1]) <==>
        IsAdaptable(ClassOf(cif.arguments[k]), s.classes[k + 1], false)
      ensures CanBe(cif.arguments[k], letters[k + 1]) ==>
        (ClassOf(cif.arguments[k]) == s.classes[k + 1] <==> HasWidthOf(cif.arguments[k], letters[k + 1]))
    {
      LetterOfClass(letters, k + 1);
      LetterIsTheClass(cif.arguments[k], letters[k + 1]);
    }
    hide IsAdaptable, CanBe, HasWidthOf, ResultCanBe, ResultChanges, ClassOf;
  }

  lemma LetterIsTheClass(t: Type, letter: char)
    requires t != OtherType
    ensures IsAdaptable(ClassOf(t), ClassOfLetter(letter), false) <==> CanBe(t, letter)
    ensures CanBe(t, letter) ==> (ClassOf(t) == ClassOfLetter(letter) <==> HasWidthOf(t, letter))
    ensures IsAdaptable(ClassOf(t), ClassOfLetter(letter), true) <==> ResultCanBe(t, letter)
    ensures ResultCanBe(t, letter) ==>
      (ClassOf(t) != ClassOfLetter(letter) && ClassOf(t) != V <==> ResultChanges(t, letter))
  {}
}
