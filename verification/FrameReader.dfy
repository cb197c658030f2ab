/** The reader itself, which takes whole chunks of bytes at once. The automaton of FrameMachine, which
    takes one byte at a time, says what it does. */
module FrameReader {
  import opened Basics
  import opened FrameMachine

  class Reader {
    const parse: Parser
    var parts: seq<seq<Byte>>
    var partLen: nat
    var dropLine: bool
    var att: array?<Byte>
    var attAt: nat
    var skip: nat
    var frame: Option<Event>
    var needLF: bool
    /** What was delivered and reported so far, in order. */
    var output: seq<Output>

    ghost predicate Valid()
      reads this, att
    {
      && partLen == |Flatten(parts)| <= MAX_LINE
      && (att != null <==> frame.Some?)
      && (att != null ==> attAt <= att.Length && (needLF <==> attAt == att.Length))
      && (skip > 0 ==> att == null && !needLF)
    }

    /** The state of the automaton that the reader is in. */
    ghost function State(): State
      requires Valid()
      reads this, att
    {
      FrameMachine.State(Flatten(parts), dropLine,
                         if att == null then None else Some(Attachment(att[..attAt], att.Length)),
                         skip, frame, needLF)
    }

    constructor (parse: Parser)
      ensures Valid() && State() == READY && output == [] && this.parse == parse
    {
      this.parse := parse;
      parts, partLen, dropLine := [], 0, false;
      att, attAt, skip, frame, needLF := null, 0, 0, None, false;
      output := [];
    }

    method Reset()
      modifies this
      ensures Valid() && State() == READY && output == old(output)
    {
      parts, partLen := [], 0;
      dropLine, needLF := false, false;
      att, frame := null, None;
      attAt, skip := 0, 0;
    }

    /** One chunk, as it comes: the same as its bytes one by one. */
    method Push(chunk: seq<Byte>)
      requires Valid()
      modifies this, att
      ensures Valid() && (att == old(att) || att == null || fresh(att))
      ensures var (s, out) := Feed(parse, old(State()), chunk);
        State() == s && output == old(output) + out
    {
      hide Step, Feed, Flatten;
      var n := |chunk|;
      var i := 0;
      ghost var s0, out0 := State(), output;
      assert chunk[..0] == [] && chunk[..|chunk|] == chunk;
      FeedNothing(parse, s0);
      assert output == out0 + [];
      while i < n
        invariant i <= n && Valid() && (att == old(att) || att == null || fresh(att))
        invariant State() == Feed(parse, s0, chunk[..i]).0
        invariant output == out0 + Feed(parse, s0, chunk[..i]).1
        decreases n - i, needLF
      {
        ghost var at, before := i, State();
        ghost var said := output;
        if skip > 0 {
          i := SkipRejected(chunk, i);
        } else if att != null && !needLF {
          i := TakeAttached(chunk, i);
        } else {
          var ended, missing := needLF, false;
          if ended {
            missing := EndAttachment(chunk[i]);
          }
          if missing || !ended {
            i := TakeLinePiece(chunk, i);
            if missing {
              FeedAfterMissingLf(parse, before, chunk[at..i]);
              Associative(said, [Report(MissingLf(before.event))], Feed(parse, DropState(before), chunk[at..i]).1);
            }
          } else {
            FeedOne(parse, before, chunk[i]);
            assert chunk[i..i + 1] == [chunk[i]];
            i := i + 1;
          }
        }
        FeedOn(parse, s0, chunk, at, i, before);
        assert said + [] == said;
        ghost var added := Feed(parse, before, chunk[at..i]).1;
        assert output == said + added;
        Associative(out0, Feed(parse, s0, chunk[..at]).1, added);
      }
    }

    /** Skips what the chunk has of an attachment that was refused. */
    method SkipRejected(chunk: seq<Byte>, i: nat) returns (next: nat)
      requires Valid() && i < |chunk| && skip > 0
      modifies `skip, `needLF
      ensures i < next <= |chunk| && Valid()
      ensures (State(), []) == Feed(parse, old(State()), chunk[i..next])
    {
      var k := if skip < |chunk| - i then skip else |chunk| - i;
      FeedSkipped(parse, State(), chunk[i..i + k]);
      skip := skip - k;
      next := i + k;
      if skip == 0 {
        needLF := true;
      }
    }

    /** Bytes of the attachment being read. */
    method TakeAttached(chunk: seq<Byte>, i: nat) returns (next: nat)
      requires Valid() && i < |chunk| && skip == 0 && att != null && !needLF
      modifies `attAt, `needLF, att
      ensures i < next <= |chunk| && Valid()
      ensures (State(), []) == Feed(parse, old(State()), chunk[i..next])
    {
      hide Feed, Flatten;
      var k := if att.Length - attAt < |chunk| - i then att.Length - attAt else |chunk| - i;
      FeedAttached(parse, State(), chunk[i..i + k]);
      forall j | 0 <= j < k {
        att[attAt + j] := chunk[i + j];
      }
      assert att[..attAt + k] == old(att[..attAt]) + chunk[i..i + k];
      attAt := attAt + k;
      next := i + k;
      if attAt == att.Length {
        needLF := true;
      }
    }

    /** The attachment ended: deliver its event if b is its LF; otherwise report that it is
        missing, and drop what comes up to the next one. */
    method EndAttachment(b: Byte) returns (missing: bool)
      requires Valid() && skip == 0 && needLF
      modifies this
      ensures Valid() && att == null
      ensures missing <==> b != LF
      ensures if missing then State() == DropState(old(State())) &&
        output == old(output) + [Report(MissingLf(old(frame)))]
              else (State(), output) == (Step(parse, old(State()), b).0, old(output) + Step(parse, old(State()), b).1)
    {
      var ev, was := frame, att;
      needLF := false;
      frame, att := None, null;
      attAt := 0;
      missing := b != LF;
      assert output + [] == output;
      if missing {
        output := output + [Report(MissingLf(ev))];
        dropLine := true;
      } else if ev.Some? {
        assert was[..was.Length] == was[..];
        output := output + [Deliver(ev.value, Some(was[..]))];
      }
    }

    /** The rest of a line, with its LF when the chunk holds it. */
    method TakeLinePiece(chunk: seq<Byte>, i: nat) returns (next: nat)
      requires Valid() && InLine(State()) && i < |chunk|
      modifies this
      ensures i < next <= |chunk| && Valid() && (att == null || fresh(att))
      ensures State() == Feed(parse, old(State()), chunk[i..next]).0
      ensures output == old(output) + Feed(parse, old(State()), chunk[i..next]).1
    {
      hide Step, Feed, EndLine;
      ghost var s0, out0 := State(), output;
      var lf := IndexOfLf(chunk, i);
      var end := if lf < 0 then |chunk| else lf;
      FeedPiece(parse, s0, chunk[i..end]);
      if !dropLine {
        if partLen + end - i > MAX_LINE {
          output := output + [Report(LineTooLong)];
          parts := [];
          partLen := 0;
          dropLine := true;
          FlattenNothing();
        } else if end > i {
          FlattenPush(parts, chunk[i..end]);
          parts := parts + [chunk[i..end]];
          partLen := partLen + end - i;
        } else {
          assert Flatten(parts) + chunk[i..end] == Flatten(parts);
        }
      }
      ghost var s1, out1 := State(), Feed(parse, s0, chunk[i..end]).1;
      assert s1 == Feed(parse, s0, chunk[i..end]).0;
      assert output == out0 + out1;
      if lf < 0 {
        return |chunk|;
      }
      next := lf + 1;
      SliceAndNext(chunk, i, end);
      FeedConcat(parse, s0, chunk[i..end], [LF]);
      FeedOne(parse, s1, LF);
      StepAtLf(parse, s1);
      if dropLine {
        dropLine := false;
        assert output == out0 + (out1 + []);
      } else {
        var text := TakeLine();
        HandleLine(text);
        Associative(out0, out1, EndLine(parse, s1).1);
      }
    }

    method TakeLine() returns (line: seq<Byte>)
      requires Valid()
      modifies this`parts, this`partLen
      ensures Valid() && parts == [] && line == old(Flatten(parts))
    {
      hide Flatten;
      var was, len := parts, partLen;
      parts := [];
      partLen := 0;
      FlattenNothing();
      if |was| == 1 {
        FlattenPush([], was[0]);
        assert was == [] + [was[0]] && [] + was[0] == was[0];
        return was[0];
      }
      var all := new Byte[len](_ => 0);
      var at := 0;
      assert was[..0] == [] && all[..0] == [];
      for k := 0 to |was|
        modifies all
        invariant at == |Flatten(was[..k])| <= len && all[..at] == Flatten(was[..k])
        invariant all.Length == len
      {
        var p := was[k];
        FlattenSplit(was, k);
        FlattenPush(was[..k], p);
        assert was[..k + 1] == was[..k] + [p];
        forall j | 0 <= j < |p| {
          all[at + j] := p[j];
        }
        at := at + |p|;
        assert all[..at] == Flatten(was[..k]) + p;
      }
      assert was[..|was|] == was;
      assert all[..at] == all[..];
      line := all[..];
    }

    /** A whole line: deliver its event, or get ready for its attachment. */
    method HandleLine(text: seq<Byte>)
      requires Valid() && parts == [] && InLine(State())
      modifies this
      ensures Valid() && (att == null || fresh(att))
      ensures (State(), output) == (EndLine(parse, old(State()).(line := text)).0,
                                    old(output) + EndLine(parse, old(State()).(line := text)).1)
    {
      assert output + [] == output;
      match parse(text) {
        case Blank =>
        case NotJson => output := output + [Report(LineNotJson)];
        case NotEvent => output := output + [Report(LineNotEvent)];
        case Header(ev) =>
          match ev.bytes {
            case Absent => output := output + [Deliver(ev, None)];
            case NoInteger => output := output + [Report(BadLength(ev))];
            case Integer(n) =>
              if n < 0 || n > MAX_SAFE_INTEGER {
                output := output + [Report(BadLength(ev))];
              } else {
                var why := AttachmentProblem(ev, n);
                if why.Some? {
                  output := output + [Report(Rejected(ev, why.value))];
                  skip := n;
                } else {
                  frame := Some(ev);
                  att := new Byte[n](_ => 0);
                  attAt := 0;
                  assert att[..0] == [];
                }
                assert output + [] == output;
                if n == 0 {
                  needLF := true;
                }
              }
          }
      }
    }
  }

  /** Whatever pieces a stream comes in, the reader delivers, keeps and reports what its bytes one
      at a time would make it. */
  method PushAll(r: Reader, chunks: seq<seq<Byte>>)
    requires r.Valid()
    modifies r, r.att
    ensures r.Valid() && (r.att == old(r.att) || r.att == null || fresh(r.att))
    ensures var (s, out) := Feed(r.parse, old(r.State()), Flatten(chunks));
      r.State() == s && r.output == old(r.output) + out
  {
    hide Feed, Flatten;
    ghost var s0, output0 := r.State(), r.output;
    FlattenNothing();
    FeedNothing(r.parse, s0);
    assert output0 + [] == output0;
    for i := 0 to |chunks|
      invariant r.Valid() && (r.att == old(r.att) || r.att == null || fresh(r.att))
      invariant r.State() == Feed(r.parse, s0, Flatten(chunks[..i])).0
      invariant r.output == output0 + Feed(r.parse, s0, Flatten(chunks[..i])).1
    {
      assert chunks[..i + 1] == chunks[..i] + [chunks[i]];
      FlattenPush(chunks[..i], chunks[i]);
      FeedConcat(r.parse, s0, Flatten(chunks[..i]), chunks[i]);
      ghost var done, more := Feed(r.parse, s0, Flatten(chunks[..i])).1, Feed(r.parse, r.State(), chunks[i]).1;
      r.Push(chunks[i]);
      Associative(output0, done, more);
    }
    assert chunks[..|chunks|] == chunks;
  }

  /** A stream of frames, cut anywhere, delivers what the frames mean, in order, and leaves the
      reader ready. */
  method PushFrames(r: Reader, chunks: seq<seq<Byte>>, ghost frames: seq<Frame>)
    requires r.Valid() && r.State() == READY
    requires (forall f :: f in frames ==> IsFrame(r.parse, f)) && Flatten(chunks) == EncodeAll(frames)
    modifies r, r.att
    ensures r.Valid() && r.State() == READY && r.output == old(r.output) + Meanings(r.parse, frames)
  {
    hide Feed, Flatten, IsFrame, EncodeAll, Meanings;
    EncodedFramesReadBack(r.parse, frames);
    PushAll(r, chunks);
  }

  lemma SliceAndNext(chunk: seq<Byte>, i: nat, end: nat)
    requires i <= end < |chunk|
    ensures chunk[i..end + 1] == chunk[i..end] + [chunk[end]]
  {}

  method IndexOfLf(chunk: seq<Byte>, i: nat) returns (j: int)
    requires i <= |chunk|
    ensures j == -1 || i <= j < |chunk|
    ensures if j == -1 then LF !in chunk[i..] else chunk[j] == LF && LF !in chunk[i..j]
  {
    j := i;
    while j < |chunk|
      invariant i <= j <= |chunk| && LF !in chunk[i..j]
    {
      if chunk[j] == LF {
        return;
      }
      j := j + 1;
    }
    assert chunk[i..j] == chunk[i..];
    j := -1;
  }

  /** The state that goes on with the byte that was not the LF of an attachment. */
  function DropState(s: FrameMachine.State): FrameMachine.State {
    s.(needLf := false, event := None, attachment := None, drop := true)
  }

  lemma FeedAfterMissingLf(parse: Parser, s: FrameMachine.State, x: seq<Byte>)
    requires s.skip == 0 && s.needLf && x != [] && x[0] != LF
    ensures Feed(parse, s, x)
         == (Feed(parse, DropState(s), x).0, [Report(MissingLf(s.event))] + Feed(parse, DropState(s), x).1)
  {
    hide LineByte;
    var (t, out) := LineByte(parse, DropState(s), x[0]);
    Associative([Report(MissingLf(s.event))], out, Feed(parse, t, x[1..]).1);
  }

  lemma StepAtLf(parse: Parser, s: FrameMachine.State)
    requires InLine(s)
    ensures Step(parse, s, LF) == if s.drop then (s.(drop := false), []) else EndLine(parse, s)
  {}

  lemma FlattenNothing()
    ensures Flatten([]) == []
  {}

  lemma {:induction false} FlattenSplit(parts: seq<seq<Byte>>, k: nat)
    requires k < |parts|
    ensures |Flatten(parts[..k])| + |parts[k]| <= |Flatten(parts)|
  {
    if k > 0 {
      assert parts[..k][1..] == parts[1..][..k - 1];
      FlattenSplit(parts[1..], k - 1);
    }
  }

  /** Feeding goes on where it stopped. */
  lemma FeedOn(parse: Parser, s0: FrameMachine.State, chunk: seq<Byte>, i: nat, j: nat, s: FrameMachine.State)
    requires i <= j <= |chunk| && s == Feed(parse, s0, chunk[..i]).0
    ensures Feed(parse, s0, chunk[..j])
         == (Feed(parse, s, chunk[i..j]).0, Feed(parse, s0, chunk[..i]).1 + Feed(parse, s, chunk[i..j]).1)
  {
    assert chunk[..j] == chunk[..i] + chunk[i..j];
    FeedConcat(parse, s0, chunk[..i], chunk[i..j]);
  }
}
