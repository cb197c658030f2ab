module FrameMachine {
  // The reader of the notebook kernel's event frames as an automaton over single bytes.

  import opened Basics
  // Class FrameReader of packaging/emscripten/web/nb-kernel.js. What decodes a line and parses it as
  // JSON is a parameter.

  type Byte = x: int | 0 <= x < 256

  const LF: Byte := 10
  const MAX_ATTACHMENT: nat := 16 * 1024 * 1024 + 64 * 1024
  const MAX_SIDE: nat := 16384
  const MAX_LINE: nat := 6 * 4194304 + 65536
  const MAX_SAFE_INTEGER: nat := 0x1f_ffff_ffff_ffff

  /** A field of an event: missing, an integer, or anything else. */
  datatype Field = Absent | Integer(n: int) | NoInteger

  /** An event object; image says that its mime is image/x-pharo-bgra. */
  datatype Event = Event(name: string, bytes: Field, image: bool, width: Field, height: Field)

  /** What a line holds once decoded and parsed; Blank is the empty text. */
  datatype Line = Blank | NotJson | NotEvent | Header(event: Event)

  type Parser = seq<Byte> -> Line

  datatype Problem = TooLarge | BadSides | BadSize

  datatype Error =
    | LineTooLong
    | LineNotJson
    | LineNotEvent
    | BadLength(event: Event)
    | Rejected(event: Event, problem: Problem)
    | MissingLf(after: Option<Event>)

  datatype Output = Deliver(event: Event, attachment: Option<seq<Byte>>) | Report(error: Error)

  predicate GoodSide(side: Field) { side.Integer? && 1 <= side.n <= MAX_SIDE }

  /** Why an event that announces n bytes is rejected; None when it is not. */
  function AttachmentProblem(e: Event, n: nat): Option<Problem> {
    if n > MAX_ATTACHMENT then Some(TooLarge)
    else if e.image then
      if !GoodSide(e.width) || !GoodSide(e.height) then Some(BadSides)
      else if n != 4 * e.width.n * e.height.n then Some(BadSize)
      else None
    else None
  }

  datatype Attachment = Attachment(got: seq<Byte>, length: nat)

  /** Between two bytes: what the line has so far, or that it is dropped; how much of a rejected
      attachment is still to pass over; the event whose attachment is being collected; and that an LF
      must come now. */
  datatype State = State(line: seq<Byte>, drop: bool, attachment: Option<Attachment>, skip: nat,
                         event: Option<Event>, needLf: bool)

  const READY: State := State([], false, None, 0, None, false)

  /** A line of s ended: what it holds decides what is read next. */
  function EndLine(parse: Parser, s: State): (State, seq<Output>) {
    var t := s.(line := []);
    match parse(s.line)
    case Blank => (t, [])
    case NotJson => (t, [Report(LineNotJson)])
    case NotEvent => (t, [Report(LineNotEvent)])
    case Header(e) =>
      if e.bytes.Absent? then (t, [Deliver(e, None)])
      else if e.bytes.NoInteger? || e.bytes.n < 0 || e.bytes.n > MAX_SAFE_INTEGER then (t, [Report(BadLength(e))])
      else
        var n := e.bytes.n;
        match AttachmentProblem(e, n)
        case Some(p) => (t.(skip := n, needLf := n == 0), [Report(Rejected(e, p))])
        case None => (t.(event := Some(e), attachment := Some(Attachment([], n)), needLf := n == 0), [])
  }

  function LineByte(parse: Parser, s: State, b: Byte): (State, seq<Output>) {
    if b == LF then
      if s.drop then (s.(drop := false), []) else EndLine(parse, s)
    else if s.drop then (s, [])
    else if |s.line| + 1 > MAX_LINE then (s.(line := [], drop := true), [Report(LineTooLong)])
    else (s.(line := s.line + [b]), [])
  }

  function Step(parse: Parser, s: State, b: Byte): (State, seq<Output>) {
    if s.skip > 0 then (s.(skip := s.skip - 1, needLf := s.skip == 1), [])
    else if s.attachment.Some? && !s.needLf then
      var got := s.attachment.value.got + [b];
      (s.(attachment := Some(s.attachment.value.(got := got)), needLf := |got| == s.attachment.value.length), [])
    else if s.needLf then
      var t := s.(needLf := false, event := None, attachment := None);
      if b == LF then
        (t, if s.event.Some? && s.attachment.Some? then [Deliver(s.event.value, Some(s.attachment.value.got))] else [])
      else
        var (u, out) := LineByte(parse, t.(drop := true), b);
        (u, [Report(MissingLf(s.event))] + out)
    else LineByte(parse, s, b)
  }

  /** All of bytes, one by one. */
  function Feed(parse: Parser, s: State, bytes: seq<Byte>): (State, seq<Output>)
    decreases |bytes|
  {
    if bytes == [] then (s, [])
    else
      var (t, out) := Step(parse, s, bytes[0]);
      var (u, more) := Feed(parse, t, bytes[1..]);
      (u, out + more)
  }

  /** A stream may be split anywhere. */
  lemma {:induction false} FeedConcat(parse: Parser, s: State, x: seq<Byte>, y: seq<Byte>)
    ensures var (t, out) := Feed(parse, s, x);
      var (u, more) := Feed(parse, t, y);
      Feed(parse, s, x + y) == (u, out + more)
    decreases |x|
  {
    hide Step;
    if x == [] {
      assert x + y == y;
      assert [] + Feed(parse, s, y).1 == Feed(parse, s, y).1;
    } else {
      var (t, out) := Step(parse, s, x[0]);
      assert (x + y)[1..] == x[1..] + y;
      FeedConcat(parse, t, x[1..], y);
      Associative(out, Feed(parse, t, x[1..]).1, Feed(parse, Feed(parse, t, x[1..]).0, y).1);
    }
  }

  function Flatten(parts: seq<seq<Byte>>): seq<Byte> {
    if parts == [] then [] else parts[0] + Flatten(parts[1..])
  }

  lemma {:induction false} FlattenPush(parts: seq<seq<Byte>>, p: seq<Byte>)
    ensures Flatten(parts + [p]) == Flatten(parts) + p
  {
    if parts == [] {
      assert [p][1..] == [] && parts + [p] == [p];
    } else {
      assert (parts + [p])[1..] == parts[1..] + [p];
      FlattenPush(parts[1..], p);
      Associative(parts[0], Flatten(parts[1..]), p);
    }
  }

  // ---- runs of bytes that the reader takes at once

  lemma FeedNothing(parse: Parser, s: State)
    ensures Feed(parse, s, []) == (s, [])
  {}

  lemma FeedOne(parse: Parser, s: State, b: Byte)
    ensures Feed(parse, s, [b]) == Step(parse, s, b)
  {
    hide Step;
    var (t, out) := Step(parse, s, b);
    assert [b][1..] == [] && out + [] == out;
  }

  lemma {:induction false} FeedSkipped(parse: Parser, s: State, x: seq<Byte>)
    requires 0 < |x| <= s.skip
    ensures Feed(parse, s, x) == (s.(skip := s.skip - |x|, needLf := s.skip == |x|), [])
    decreases |x|
  {
    if |x| == 1 {
      assert x == [x[0]];
      FeedOne(parse, s, x[0]);
    } else {
      FeedSkipped(parse, s.(skip := s.skip - 1, needLf := false), x[1..]);
    }
  }

  lemma {:induction false} FeedAttached(parse: Parser, s: State, x: seq<Byte>)
    requires s.skip == 0 && s.attachment.Some? && !s.needLf
    requires 0 < |x| <= s.attachment.value.length - |s.attachment.value.got|
    ensures var a := s.attachment.value;
      Feed(parse, s, x) == (s.(attachment := Some(a.(got := a.got + x)), needLf := |a.got + x| == a.length), [])
    decreases |x|
  {
    var a := s.attachment.value;
    FeedOne(parse, s, x[0]);
    if |x| == 1 {
      assert x == [x[0]];
    } else {
      FeedAttached(parse, s.(attachment := Some(a.(got := a.got + [x[0]]))), x[1..]);
      assert (a.got + [x[0]]) + x[1..] == a.got + x;
    }
  }

  predicate InLine(s: State) {
    s.skip == 0 && !s.needLf && s.attachment.None?
  }

  /** A piece of a line, without its LF: dropped, too long, or added to the line. */
  lemma {:induction false} FeedPiece(parse: Parser, s: State, x: seq<Byte>)
    requires InLine(s) && LF !in x && (s.drop || |s.line| <= MAX_LINE)
    ensures Feed(parse, s, x) ==
      if s.drop then (s, [])
      else if |s.line| + |x| > MAX_LINE then (s.(line := [], drop := true), [Report(LineTooLong)])
      else (s.(line := s.line + x), [])
    decreases |x|
  {
    if x == [] {
      assert s.line + x == s.line;
    } else {
      var (t, out) := Step(parse, s, x[0]);
      FeedPiece(parse, t, x[1..]);
      var more := Feed(parse, t, x[1..]).1;
      assert out + [] == out && [] + more == more;
      assert (s.line + [x[0]]) + x[1..] == s.line + x;
    }
  }

  // ---- encoded frames

  /** What the kernel may write: a line; a line whose event has an attachment, with it and its
      LF; and the same with something else before that LF. */
  datatype Frame =
    | Plain(line: seq<Byte>)
    | Attached(line: seq<Byte>, data: seq<Byte>)
    | Spoilt(line: seq<Byte>, data: seq<Byte>, garbage: seq<Byte>)

  predicate HasLength(e: Event) { e.bytes.Integer? && 0 <= e.bytes.n <= MAX_SAFE_INTEGER }

  predicate IsFrame(parse: Parser, f: Frame) {
    && LF !in f.line
    && match f
       case Plain(line) =>
         |line| > MAX_LINE || (parse(line).Header? ==> !HasLength(parse(line).event))
       case Attached(line, data) =>
         |line| <= MAX_LINE && parse(line).Header? && HasLength(parse(line).event) &&
           parse(line).event.bytes.n == |data|
       case Spoilt(line, data, garbage) =>
         |line| <= MAX_LINE && parse(line).Header? && HasLength(parse(line).event) &&
           parse(line).event.bytes.n == |data|
         && garbage != [] && LF !in garbage
  }

  function Encode(f: Frame): seq<Byte> {
    match f
    case Plain(line) => line + [LF]
    case Attached(line, data) => line + [LF] + data + [LF]
    case Spoilt(line, data, garbage) => line + [LF] + data + (garbage + [LF])
  }

  /** What the reader makes of a frame: an event with its attachment, or one or two errors. */
  function Meaning(parse: Parser, f: Frame): seq<Output>
    requires IsFrame(parse, f)
  {
    match f
    case Plain(line) =>
      if |line| > MAX_LINE then [Report(LineTooLong)]
      else (match parse(line)
            case Blank => []
            case NotJson => [Report(LineNotJson)]
            case NotEvent => [Report(LineNotEvent)]
            case Header(e) => if e.bytes.Absent? then [Deliver(e, None)] else [Report(BadLength(e))])
    case Attached(line, data) =>
      var e := parse(line).event;
      (match AttachmentProblem(e, |data|)
       case Some(p) => [Report(Rejected(e, p))]
       case None => [Deliver(e, Some(data))])
    case Spoilt(line, data, garbage) =>
      var e := parse(line).event;
      (match AttachmentProblem(e, |data|)
       case Some(p) => [Report(Rejected(e, p)), Report(MissingLf(None))]
       case None => [Report(MissingLf(Some(e)))])
  }

  /** A line and its LF, from the ready state. */
  lemma FeedLine(parse: Parser, line: seq<Byte>)
    requires LF !in line
    ensures Feed(parse, READY, line + [LF]) ==
      if |line| > MAX_LINE then (READY, [Report(LineTooLong)]) else EndLine(parse, READY.(line := line))
  {
    hide EndLine, Feed;
    FeedPiece(parse, READY, line);
    assert [] + line == line;
    var (t, out) := Feed(parse, READY, line);
    FeedConcat(parse, READY, line, [LF]);
    FeedOne(parse, t, LF);
    assert out + [] == out;
    assert [] + Step(parse, t, LF).1 == Step(parse, t, LF).1;
  }

  /** The attachment of an event, kept or skipped by its length. */
  function AfterData(e: Event, data: seq<Byte>): State {
    if AttachmentProblem(e, |data|).Some? then READY.(needLf := true)
    else READY.(needLf := true, event := Some(e), attachment := Some(Attachment(data, |data|)))
  }

  function Complaint(e: Event, n: nat): seq<Output> {
    var p := AttachmentProblem(e, n);
    if p.Some? then [Report(Rejected(e, p.value))] else []
  }

  lemma FeedData(parse: Parser, line: seq<Byte>, data: seq<Byte>)
    requires LF !in line && |line| <= MAX_LINE && parse(line).Header? && HasLength(parse(line).event)
    requires parse(line).event.bytes.n == |data|
    ensures var e := parse(line).event;
      Feed(parse, READY, line + [LF] + data) == (AfterData(e, data), Complaint(e, |data|))
  {
    hide AttachmentProblem, Step;
    var e := parse(line).event;
    FeedLine(parse, line);
    FeedConcat(parse, READY, line + [LF], data);
    hide Feed;
    var (t, out) := EndLine(parse, READY.(line := line));
    if data == [] { FeedNothing(parse, t); }
    assert out == Complaint(e, |data|) && out + [] == out;
    if data != [] {
      if AttachmentProblem(e, |data|).Some? {
        FeedSkipped(parse, t, data);
      } else {
        FeedAttached(parse, t, data);
        assert [] + data == data;
      }
    }
  }

  lemma FrameReadsBack(parse: Parser, f: Frame)
    requires IsFrame(parse, f)
    ensures Feed(parse, READY, Encode(f)) == (READY, Meaning(parse, f))
  {
    match f
    case Plain(line) =>
      FeedLine(parse, line);
    case Attached(line, data) =>
      var e := parse(line).event;
      FeedData(parse, line, data);
      FeedConcat(parse, READY, line + [LF] + data, [LF]);
      FeedOne(parse, AfterData(e, data), LF);
      assert Complaint(e, |data|) + [] == Complaint(e, |data|);
      assert [] + [Deliver(e, Some(data))] == [Deliver(e, Some(data))];
    case Spoilt(line, data, garbage) =>
      var e := parse(line).event;
      FeedData(parse, line, data);
      FeedConcat(parse, READY, line + [LF] + data, garbage + [LF]);
      FeedGarbage(parse, AfterData(e, data), garbage);
      assert Complaint(e, |data|) + [Report(MissingLf(AfterData(e, data).event))] == Meaning(parse, f);
  }

  /** A missing LF is one error, and the reader is ready again after the next LF. */
  lemma FeedGarbage(parse: Parser, s: State, garbage: seq<Byte>)
    requires garbage != [] && LF !in garbage && s.skip == 0 && s.needLf && s.line == []
    requires s.attachment.Some? ==> |s.attachment.value.got| == s.attachment.value.length
    ensures Feed(parse, s, garbage + [LF]) == (READY, [Report(MissingLf(s.event))])
  {
    var t := READY.(drop := true);
    var rest := garbage[1..];
    assert [Report(MissingLf(s.event))] + [] == [Report(MissingLf(s.event))];
    assert Step(parse, s, garbage[0]) == (t, [Report(MissingLf(s.event))]);
    FeedPiece(parse, t, rest);
    FeedConcat(parse, t, rest, [LF]);
    FeedOne(parse, t, LF);
    assert (garbage + [LF])[1..] == rest + [LF];
    assert [Report(MissingLf(s.event))] + ([] + []) == [Report(MissingLf(s.event))];
  }

  function EncodeAll(frames: seq<Frame>): seq<Byte> {
    if frames == [] then [] else Encode(frames[0]) + EncodeAll(frames[1..])
  }

  function Meanings(parse: Parser, frames: seq<Frame>): seq<Output>
    requires forall f :: f in frames ==> IsFrame(parse, f)
  {
    if frames == [] then [] else Meaning(parse, frames[0]) + Meanings(parse, frames[1..])
  }

  /** The reader of an encoded list of frames delivers exactly that list, each event with its
      attachment, and reports exactly the faults among them, in order. */
  lemma {:induction false} EncodedFramesReadBack(parse: Parser, frames: seq<Frame>)
    requires forall f :: f in frames ==> IsFrame(parse, f)
    ensures Feed(parse, READY, EncodeAll(frames)) == (READY, Meanings(parse, frames))
    decreases |frames|
  {
    hide IsFrame, Meaning, Encode, Step;
    if frames != [] {
      FrameReadsBack(parse, frames[0]);
      EncodedFramesReadBack(parse, frames[1..]);
      FeedConcat(parse, READY, Encode(frames[0]), EncodeAll(frames[1..]));
    }
  }

  // ---- what is delivered, whatever comes

  /** An attachment of n bytes is taken for an event: it is not too long, and an image has pixels of four
      bytes for its sides, which are from 1 to 16384. */
  predicate IsAcceptable(e: Event, n: int) {
    && 0 <= n <= 16 * 1024 * 1024 + 64 * 1024
    && (e.image ==>
          && e.width.Integer? && 1 <= e.width.n <= 16384
          && e.height.Integer? && 1 <= e.height.n <= 16384
          && n == 4 * e.width.n * e.height.n)
  }

  /** What is delivered is an event without a length, alone, or with as many bytes as it announced. */
  predicate IsSound(o: Output) {
    o.Deliver? ==>
      if o.attachment.None? then o.event.bytes.Absent?
      else o.event.bytes == Integer(|o.attachment.value|) && IsAcceptable(o.event, |o.attachment.value|)
  }

  /** The attachment being read is one that is taken. */
  predicate IsExpecting(s: State) {
    s.attachment.Some? ==>
      && s.event.Some? && s.event.value.bytes == Integer(s.attachment.value.length)
      && IsAcceptable(s.event.value, s.attachment.value.length)
      && |s.attachment.value.got| <= s.attachment.value.length
      && (s.needLf <==> |s.attachment.value.got| == s.attachment.value.length)
      && s.skip == 0
  }

  lemma RejectedIffNotAcceptable(e: Event, n: nat)
    ensures AttachmentProblem(e, n).None? <==> IsAcceptable(e, n)
  {}

  lemma StepIsSound(parse: Parser, s: State, b: Byte)
    requires IsExpecting(s)
    ensures IsExpecting(Step(parse, s, b).0) && forall o :: o in Step(parse, s, b).1 ==> IsSound(o)
  {
    hide IsAcceptable;
    forall e, n: nat { RejectedIffNotAcceptable(e, n); }
    hide AttachmentProblem;
  }

  /** Over every stream of bytes, whatever it holds and wherever it is broken: each event that is delivered
      with an attachment has exactly the bytes that it announced, and an image those of its sides. */
  lemma {:induction false} DeliveriesAreSound(parse: Parser, s: State, bytes: seq<Byte>)
    requires IsExpecting(s)
    ensures IsExpecting(Feed(parse, s, bytes).0) && forall o :: o in Feed(parse, s, bytes).1 ==> IsSound(o)
    decreases |bytes|
  {
    hide Step, IsSound, IsExpecting;
    if bytes != [] {
      StepIsSound(parse, s, bytes[0]);
      DeliveriesAreSound(parse, Step(parse, s, bytes[0]).0, bytes[1..]);
    }
  }
}
