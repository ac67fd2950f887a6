/** Whole runs of the reader against the one-shot splitter. */
module FrameRuns {
  import opened Base
  import opened Wire
  import opened Framing

  /** The packets handed on, the reader and the undelivered bytes at the end, and what ended the run early. */
  datatype Reading = Reading(frames: seq<Bytes>, r: Reader, stream: Bytes, end: Option<ErrorKind>)

  /** One read; a finished packet is handed on and the reader reset. */
  function Cycle(r: Reader, stream: Bytes, event: Event): Reading
    requires Valid(r)
  {
    match Read(r, stream, event)
    case Err(kind) => Reading([], r, stream, Some(kind))
    case Ok((r', _, stream')) =>
      if r'.Fin? then Reading([r'.data], Reset(r'), stream', None)
      else Reading([], r', stream', None)
  }

  /** What is still to be handed on. */
  function Left(out: Reading): Bytes
    requires Valid(out.r)
  {
    Buffered(out.r) + out.stream
  }

  lemma CycleSound(r: Reader, stream: Bytes, event: Event)
    requires Valid(r)
    ensures var c := Cycle(r, stream, event);
            && Valid(c.r) && c.r.max == r.max && |c.frames| <= 1
            && (c.frames != [] ==> IsFrame(c.frames[0], r.max) && c.r.Init? && |c.r.data| <= 4)
            && (if c.frames == [] then Left(c) == Buffered(r) + stream else c.frames[0] + Left(c) == Buffered(r) + stream)
            && (c.end.Some? ==> c.frames == [] && c.r == r && c.stream == stream)
            && (c.end.Some? ==> c.end == Some(Disconnected) || c.end == Some(MalformedPacket))
            && (c.end == Some(MalformedPacket) ==> FrontOf(Buffered(r) + stream, r.max).Bad?)
  {
    ReadSound(r, stream, event);
    var c := Cycle(r, stream, event);
    if c.frames != [] {
      var (r', _, stream') := Read(r, stream, event).value;
      Regrouped(r'.data, r'.rem, stream');
    }
  }

  function RunReads(r: Reader, stream: Bytes, events: seq<Event>): Reading
    requires Valid(r)
    decreases |events|
  {
    if events == [] then Reading([], r, stream, None)
    else
      CycleSound(r, stream, events[0]);
      var c := Cycle(r, stream, events[0]);
      if c.end.Some? then c
      else
        var rest := RunReads(c.r, c.stream, events[1..]);
        rest.(frames := c.frames + rest.frames)
  }

  lemma {:induction false} ConcatAppend(a: seq<Bytes>, b: seq<Bytes>)
    ensures Concat(a + b) == Concat(a) + Concat(b)
  {
    if a == [] {
      assert a + b == b;
      assert Concat(a) + Concat(b) == Concat(b);
    } else {
      ConcatAppend(a[1..], b);
      assert (a + b)[1..] == a[1..] + b && (a + b)[0] == a[0];
      Regrouped(a[0], Concat(a[1..]), Concat(b));
    }
  }

  /** The packets handed on are the first ones the splitter finds, what is left is all the rest, and a malformed end is the splitter's too. */
  ghost predicate Agrees(from: Bytes, out: Reading, max: nat) {
    && Valid(out.r) && out.r.max == max
    && Split(from, max) == Prepend(out.frames, Split(Left(out), max))
    && Concat(out.frames) + Left(out) == from
    && (forall i :: 0 <= i < |out.frames| ==> IsFrame(out.frames[i], max))
    && (out.end == Some(MalformedPacket) ==> Split(from, max).bad && Split(from, max).frames == out.frames)
    && (out.end.Some? ==> out.end == Some(Disconnected) || out.end == Some(MalformedPacket))
  }

  lemma CycleAgrees(r: Reader, stream: Bytes, event: Event)
    requires Valid(r)
    ensures Agrees(Buffered(r) + stream, Cycle(r, stream, event), r.max)
  {
    CycleSound(r, stream, event);
    var c := Cycle(r, stream, event);
    if c.frames == [] {
      NothingYet(c, r.max);
    } else {
      OneFrame(c, c.frames[0], r.max);
    }
  }

  lemma OneFrame(out: Reading, f: Bytes, max: nat)
    requires Valid(out.r) && out.r.max == max && out.frames == [f] && IsFrame(f, max) && out.end.None?
    ensures Agrees(f + Left(out), out, max)
  {
    SplitFirst(f, Left(out), max);
    assert Concat([f]) == f + [] == f;
  }

  lemma NothingYet(out: Reading, max: nat)
    requires Valid(out.r) && out.r.max == max && out.frames == []
    requires out.end.Some? ==> out.end == Some(Disconnected) || out.end == Some(MalformedPacket)
    requires out.end == Some(MalformedPacket) ==> FrontOf(Left(out), max).Bad?
    ensures Agrees(Left(out), out, max)
  {
    PrependTwice([], [], Split(Left(out), max));
    assert Concat([]) + Left(out) == Left(out);
  }

  lemma AgreesThrough(from: Bytes, c: Reading, rest: Reading, max: nat)
    requires Agrees(from, c, max) && c.end.None? && Agrees(Left(c), rest, max)
    ensures Agrees(from, rest.(frames := c.frames + rest.frames), max)
  {
    PrependTwice(c.frames, rest.frames, Split(Left(rest), max));
    ConcatAppend(c.frames, rest.frames);
    Regrouped(Concat(c.frames), Concat(rest.frames), Left(rest));
  }

  /** Whatever the schedule, what the reader hands on agrees with the splitter on the whole stream. */
  lemma {:induction false} RunSplits(r: Reader, stream: Bytes, events: seq<Event>)
    requires Valid(r)
    ensures Agrees(Buffered(r) + stream, RunReads(r, stream, events), r.max)
    decreases |events|
  {
    if events == [] {
      NothingYet(Reading([], r, stream, None), r.max);
    } else {
      CycleSound(r, stream, events[0]);
      CycleAgrees(r, stream, events[0]);
      var c := Cycle(r, stream, events[0]);
      if c.end.None? {
        RunSplits(c.r, c.stream, events[1..]);
        AgreesThrough(Buffered(r) + stream, c, RunReads(c.r, c.stream, events[1..]), r.max);
      }
    }
  }

  /** No packet exceeds the limit, and at most four bytes are carried over behind one. */
  lemma FramesFit(r: Reader, stream: Bytes, events: seq<Event>)
    requires Valid(r)
    ensures forall f :: f in RunReads(r, stream, events).frames ==> 2 <= |f| <= r.max
    ensures RunReads(r, stream, events).r.Init? ==> |RunReads(r, stream, events).r.data| <= 4
  {
    RunSplits(r, stream, events);
    forall f | f in RunReads(r, stream, events).frames ensures 2 <= |f| <= r.max {
      FrontShape(f, r.max);
    }
  }

  // ----- Nothing is held back -----

  /** A reader that waits for the socket holds no whole packet. */
  lemma WaitingHoldsNone(r: Reader)
    requires Valid(r) && !r.Fin? && PreRead(r) == Ok((r, false))
    ensures Split(Buffered(r), r.max) == Splitting([], Buffered(r), false)
  {
    if r.Init? {
      InitUndecided(r);
      if |r.data| > 1 {
      } else {
        assert !HasLength(r.data);
      }
    }
  }

  /** The connection is up: the socket never fails, and when it is ready it moves something. */
  predicate Up(events: seq<Event>) {
    forall i :: 0 <= i < |events| ==> events[i] != Broken && events[i] != Ready(0)
  }

  function Moves(events: seq<Event>): nat {
    if events == [] then 0 else (if events[0].Ready? then 1 else 0) + Moves(events[1..])
  }

  function Work(r: Reader, stream: Bytes): nat
    requires Valid(r)
  {
    2 * |stream| + |Buffered(r)|
  }

  lemma ReadMoves(r: Reader, stream: Bytes, event: Event)
    requires Valid(r) && !r.Fin? && event != Broken && event != Ready(0)
    ensures match Read(r, stream, event)
            case Ok((r', _, stream')) =>
              if PreRead(r) == Ok((r, false)) then if event.Ready? then |stream'| < |stream| else r' == r && stream' == stream
              else r'.Fin? && stream' == stream
            case Err(kind) => kind == Disconnected ==> stream == [] && PreRead(r) == Ok((r, false))
  {
    PreReadSound(r);
    if PreRead(r) == Ok((r, false)) && event.Ready? && stream != [] {
      GotSound(r, stream[..Min(event.n, Min(Room(r), |stream|))]);
    }
  }

  /** Each ready socket brings the run forward, until the stream is used up. */
  lemma CycleProgress(r: Reader, stream: Bytes, event: Event)
    requires Valid(r) && !r.Fin? && event != Broken && event != Ready(0)
    ensures var c := Cycle(r, stream, event);
            && Valid(c.r) && !c.r.Fin?
            && (c.end.None? ==> Work(c.r, c.stream) <= Work(r, stream))
            && (c.end.None? && event.Ready? ==> Work(c.r, c.stream) < Work(r, stream))
            && (c.end == Some(Disconnected) ==> stream == [] && PreRead(r) == Ok((r, false)))
  {
    ReadMoves(r, stream, event);
    CycleSound(r, stream, event);
    var c := Cycle(r, stream, event);
    if c.frames != [] {
      FrontShape(c.frames[0], r.max);
    }
  }

  /**
   * On a connection that stays up, the run ends once the socket has been ready often enough. Then
   * every packet of the stream has been handed on, and the end is malformed exactly when the splitter
   * meets a bad front.
   */
  lemma {:induction false} RunFinishes(r: Reader, stream: Bytes, events: seq<Event>)
    requires Valid(r) && !r.Fin? && Up(events)
    ensures var out := RunReads(r, stream, events);
            var all := Split(Buffered(r) + stream, r.max);
            && (Moves(events) > Work(r, stream) ==> out.end.Some?)
            && (out.end.Some? ==> out.frames == all.frames && (out.end == Some(MalformedPacket) <==> all.bad))
    decreases |events|
  {
    if events != [] {
      CycleProgress(r, stream, events[0]);
      CycleAgrees(r, stream, events[0]);
      var c := Cycle(r, stream, events[0]);
      if c.end.None? {
        RunFinishes(c.r, c.stream, events[1..]);
      } else {
        StopsAtEnd(r, stream, events[0]);
      }
    }
  }

  lemma StopsAtEnd(r: Reader, stream: Bytes, event: Event)
    requires Valid(r) && !r.Fin? && event != Broken && event != Ready(0) && Cycle(r, stream, event).end.Some?
    ensures var all := Split(Buffered(r) + stream, r.max);
            all.frames == [] && (Cycle(r, stream, event).end == Some(MalformedPacket) <==> all.bad)
    ensures Cycle(r, stream, event).frames == []
  {
    CycleSound(r, stream, event);
    CycleProgress(r, stream, event);
    if Cycle(r, stream, event).end == Some(Disconnected) {
      WaitingHoldsNone(r);
      assert Buffered(r) + stream == Buffered(r);
    }
  }
}
