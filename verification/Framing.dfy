/**
 * Cutting a byte stream into packets: a one-shot splitter over the whole stream, and the resumable
 * reader that gets the stream in pieces of any size, with interruptions.
 */
module Framing {
  import opened Base
  import opened Wire
  import opened Packets

  // ----- The reference -----

  /** Some byte after the first ends the length. */
  predicate HasLength(s: Bytes) {
    exists i :: 1 <= i < |s| && s[i] < 128
  }

  datatype Front = NeedMore | Bad | Packet(len: nat)

  /** What the front of a stream says about its first packet. */
  function FrontOf(s: Bytes, max: nat): Front {
    if !HasLength(s) then NeedMore
    else match DecodeVar(s[1..])
         case Err(_) => Bad
         case Ok((len, m)) => if 1 + m + len > max then Bad else Packet(1 + m + len)
  }

  datatype Splitting = Splitting(frames: seq<Bytes>, rest: Bytes, bad: bool)

  /** The same with packets in front. */
  function Prepend(fs: seq<Bytes>, r: Splitting): Splitting {
    Splitting(fs + r.frames, r.rest, r.bad)
  }

  lemma PrependTwice(fs: seq<Bytes>, gs: seq<Bytes>, r: Splitting)
    ensures Prepend(fs, Prepend(gs, r)) == Prepend(fs + gs, r)
    ensures Prepend([], r) == r
  {
    assert fs + (gs + r.frames) == fs + gs + r.frames;
    assert [] + r.frames == r.frames;
  }

  /** Cut off packets from the front until one is incomplete or bad. */
  function Split(s: Bytes, max: nat): Splitting
    decreases |s|
  {
    match FrontOf(s, max)
    case NeedMore => Splitting([], s, false)
    case Bad => Splitting([], s, true)
    case Packet(n) =>
      if n <= |s| then
        FrontShape(s, max);
        Prepend([s[..n]], Split(s[n..], max))
      else Splitting([], s, false)
  }

  lemma FrontShape(s: Bytes, max: nat)
    ensures FrontOf(s, max).Packet? ==>
              && 2 <= FrontOf(s, max).len <= max
              && DecodeVar(s[1..]).Ok?
              && FrontOf(s, max).len == 1 + DecodeVar(s[1..]).value.1 + DecodeVar(s[1..]).value.0
              && DecodeVar(s[1..]).value.1 < |s|
              && DecodeVar(s[1..]).value.1 <= 4
  {
    if HasLength(s) {
      DecodeVarShape(s[1..]);
    }
  }

  /**
   * The front of a stream in plain bytes: behind the first byte come one to four that hold the length, seven bits each,
   * least first. It is bad if four bytes do not end the length and a later one would, or if the packet exceeds the limit.
   */
  lemma FrontMeans(s: Bytes, max: nat)
    ensures (forall i :: 1 <= i < |s| ==> s[i] >= 128) ==> FrontOf(s, max).NeedMore?
    ensures |s| > 1 && s[1] < 128 ==> FrontOf(s, max) == Sized(2 + Int(s[1]), max)
    ensures |s| > 2 && s[1] >= 128 > s[2] ==> FrontOf(s, max) == Sized(3 + (Int(s[1]) - 128) + Int(s[2]) * 128, max)
    ensures |s| > 3 && s[1] >= 128 && s[2] >= 128 > s[3] ==>
              FrontOf(s, max) == Sized(4 + (Int(s[1]) - 128) + (Int(s[2]) - 128) * 128 + Int(s[3]) * 16_384, max)
    ensures |s| > 4 && s[1] >= 128 && s[2] >= 128 && s[3] >= 128 > s[4] ==>
              FrontOf(s, max) == Sized(5 + (Int(s[1]) - 128) + (Int(s[2]) - 128) * 128 + (Int(s[3]) - 128) * 16_384 + Int(s[4]) * 2_097_152, max)
    ensures |s| > 4 && s[1] >= 128 && s[2] >= 128 && s[3] >= 128 && s[4] >= 128 && HasLength(s) ==> FrontOf(s, max).Bad?
  {
    if |s| > 1 {
      DecodeVarUnrolled(s[1..]);
      if |s| > 4 && s[1] >= 128 && s[2] >= 128 && s[3] >= 128 && s[4] >= 128 {
        DecodeVarShape(s[1..]);
        TooLong(s[1..]);
      }
    }
  }

  /** A packet of this length, if the limit allows it. */
  function Sized(n: nat, max: nat): Front {
    if n > max then Bad else Packet(n)
  }

  lemma TooLong(s: Bytes)
    requires |s| >= 4 && s[0] >= 128 && s[1] >= 128 && s[2] >= 128 && s[3] >= 128
    ensures DecodeVar(s).Err?
  {
    var a := Int(s[0]) % 128 * Weight(0);
    var b := a + Int(s[1]) % 128 * Weight(1);
    var c := b + Int(s[2]) % 128 * Weight(2);
    assert DecodeVar(s) == DecodeVarFrom(s, 1, a) == DecodeVarFrom(s, 2, b) == DecodeVarFrom(s, 3, c);
  }

  /** More bytes never change what has been decided. */
  lemma FrontStable(s: Bytes, t: Bytes, max: nat)
    requires !FrontOf(s, max).NeedMore?
    ensures FrontOf(s + t, max) == FrontOf(s, max)
  {
    var i :| 1 <= i < |s| && s[i] < 128;
    assert (s + t)[i] < 128;
    var a, b := s[1..], (s + t)[1..];
    assert a[..i] == b[..i];
    DecodeVarFromLocal(a, b, 0, 0, i);
  }

  function Concat(ss: seq<Bytes>): Bytes {
    if ss == [] then [] else ss[0] + Concat(ss[1..])
  }

  /** A packet on its own: the front announces exactly these bytes. */
  predicate IsFrame(s: Bytes, max: nat) {
    FrontOf(s, max) == Packet(|s|)
  }

  /** A stream that starts with a whole packet splits into it and the rest. */
  lemma SplitFirst(f: Bytes, rest: Bytes, max: nat)
    requires IsFrame(f, max)
    ensures Split(f + rest, max) == Prepend([f], Split(rest, max))
  {
    FrontStable(f, rest, max);
    assert (f + rest)[..|f|] == f && (f + rest)[|f|..] == rest;
  }

  /** Splitting loses nothing, every piece is a packet on its own, and no piece is left in the rest. */
  lemma {:induction false} SplitSound(s: Bytes, max: nat)
    ensures var r := Split(s, max);
            && Concat(r.frames) + r.rest == s
            && (forall i :: 0 <= i < |r.frames| ==> IsFrame(r.frames[i], max))
            && (r.bad <==> FrontOf(r.rest, max).Bad?)
            && (FrontOf(r.rest, max).Packet? ==> |r.rest| < FrontOf(r.rest, max).len)
    decreases |s|
  {
    var r := Split(s, max);
    if FrontOf(s, max).Packet? && FrontOf(s, max).len <= |s| {
      var n := FrontOf(s, max).len;
      FrontShape(s, max);
      SplitSound(s[n..], max);
      assert s == s[..n] + s[n..];
      FrontOfPrefix(s, n, max);
      assert r.frames[1..] == Split(s[n..], max).frames;
    }
  }

  lemma FrontOfPrefix(s: Bytes, n: nat, max: nat)
    requires FrontOf(s, max) == Packet(n) && n <= |s|
    ensures IsFrame(s[..n], max)
  {
    FrontShape(s, max);
    var m := DecodeVar(s[1..]).value.1;
    DecodeVarShape(s[1..]);
    assert s[..n][m] == s[1..][m - 1] < 128;
    assert s[1..][..m] == s[..n][1..][..m];
    DecodeVarFromLocal(s[1..], s[..n][1..], 0, 0, m);
  }

  /** Packets written one after the other are what the splitter finds. */
  lemma {:induction false} SplitConcat(fs: seq<Bytes>, rest: Bytes, max: nat)
    requires forall i :: 0 <= i < |fs| ==> IsFrame(fs[i], max)
    ensures Split(Concat(fs) + rest, max) == Prepend(fs, Split(rest, max))
    decreases |fs|
  {
    if fs == [] {
      assert Concat(fs) + rest == rest;
      PrependTwice([], [], Split(rest, max));
    } else {
      SplitConcat(fs[1..], rest, max);
      assert Concat(fs) + rest == fs[0] + (Concat(fs[1..]) + rest);
      SplitFirst(fs[0], Concat(fs[1..]) + rest, max);
      assert [fs[0]] + fs[1..] == fs;
      PrependTwice([fs[0]], fs[1..], Split(rest, max));
    }
  }

  // ----- The reader -----

  /** `MQTTRead`; the placeholder left behind while a reader is being stepped is not a state of it. */
  datatype Reader =
    | Init(data: Bytes, max: nat)
    | Header(byte1: byte, data: Bytes, max: nat)
    | Remain(data: Bytes, start: nat, fh: FixedHeader, max: nat)
    | Fin(data: Bytes, rem: Bytes, fh: FixedHeader, max: nat)

  /** What the socket does when asked to move bytes: move up to `n` of them, or none for a reason. */
  datatype Event = Ready(n: nat) | Interrupted | WouldBlock | Broken

  const SCRATCH := 5

  function Zeros(n: nat): Bytes {
    seq(n, i => 0)
  }

  /** What `read` makes of the bytes it has when it looks for a length among them. */
  function Examine(byte1: byte, data: Bytes, max: nat): Result<Reader>
    requires data != []
  {
    if !HasLength(data) then Ok(Header(byte1, data, max))
    else
      DecodeVarShape(data[1..]);
      var (len, m) :- DecodeVar(data[1..]);
      var n := 1 + m + len;
      var fh := FixedHeader(byte1, len);
      if n > max then Err(MalformedPacket)
      else if n <= |data| then Ok(Fin(data[..n], data[n..], fh, max))
      else Ok(Remain(data + Zeros(n - |data|), |data|, fh, max))
  }

  /** `pre_read`: a packet may already be there from the last read. */
  function PreRead(r: Reader): Result<(Reader, bool)> {
    if r.Init? && |r.data| > 1 then
      DecodeVarShape(r.data[1..]);
      match DecodeVar(r.data[1..])
      case Err(_) => Ok((r, false))
      case Ok((len, m)) =>
        var n := 1 + m + len;
        if n > r.max then Err(MalformedPacket)
        else if n <= |r.data| then Ok((Fin(r.data[..n], r.data[n..], FixedHeader(r.data[0], len), r.max), true))
        else Ok((r, false))
    else Ok((r, false))
  }

  /** How many bytes the reader asks for. */
  function Room(r: Reader): nat
    requires r.Remain? ==> r.start <= |r.data|
  {
    match r
    case Init(_, _) => SCRATCH
    case Header(_, _, _) => SCRATCH
    case Remain(data, start, _, _) => |data| - start
    case Fin(_, _, _, _) => 0
  }

  /** The reader after it got `got`, which is not empty. */
  function Got(r: Reader, got: Bytes): Result<Reader>
    requires got != [] && (r.Remain? ==> r.start + |got| <= |r.data|)
  {
    match r
    case Init(data, max) => Examine((data + got)[0], data + got, max)
    case Header(byte1, data, max) => Examine(byte1, data + got, max)
    case Remain(data, start, fh, max) =>
      var data' := data[..start] + got + data[start + |got|..];
      if start + |got| == |data| then Ok(Fin(data', [], fh, max)) else Ok(Remain(data', start + |got|, fh, max))
    case Fin(_, _, _, _) => Ok(r)
  }

  /** `MQTTRead::read` from a socket that still has `stream` to deliver: the next state, whether it would block, and what is left. */
  function Read(r: Reader, stream: Bytes, event: Event): Result<(Reader, bool, Bytes)>
    requires r.Remain? ==> r.start <= |r.data|
  {
    var (r, ready) :- PreRead(r);
    if ready || r.Fin? then Ok((r, false, stream))
    else
      match event
      case Interrupted => Ok((r, false, stream))
      case WouldBlock => Ok((r, true, stream))
      case Broken => Err(Disconnected)
      case Ready(n) =>
        var k := Min(n, Min(Room(r), |stream|));
        if k == 0 then Err(Disconnected)
        else
          var r' :- Got(r, stream[..k]);
          Ok((r', false, stream[k..]))
  }

  /** `reset`, which must not be called in the middle of a packet. */
  function Reset(r: Reader): Reader
    requires r.Fin? || r.Init?
  {
    match r
    case Fin(_, rem, _, max) => Init(rem, max)
    case Init(_, _) => r
  }

  /** The bytes taken from the socket and not yet handed on. */
  function Buffered(r: Reader): Bytes
    requires r.Remain? ==> r.start <= |r.data|
  {
    match r
    case Init(data, _) => data
    case Header(_, data, _) => data
    case Remain(data, start, _, _) => data[..start]
    case Fin(data, rem, _, _) => data + rem
  }

  predicate Valid(r: Reader) {
    match r
    case Init(data, _) => |data| < SCRATCH
    case Header(byte1, data, _) => data != [] && data[0] == byte1 && !HasLength(data)
    case Remain(data, start, fh, max) =>
      0 < start < |data| && FrontOf(data[..start], max) == Packet(|data|) && HeaderIs(data[..start], fh)
    case Fin(data, rem, fh, max) => IsFrame(data, max) && HeaderIs(data, fh) && |rem| < SCRATCH
  }

  predicate HeaderIs(s: Bytes, fh: FixedHeader) {
    |s| > 1 && s[0] == fh.byte1 && DecodeVar(s[1..]).Ok? && DecodeVar(s[1..]).value.0 == fh.remainingLen
  }

  lemma HeaderIsStable(s: Bytes, t: Bytes, fh: FixedHeader, max: nat)
    requires HeaderIs(s, fh) && HasLength(s)
    ensures HeaderIs(s + t, fh)
  {
    var i :| 1 <= i < |s| && s[i] < 128;
    assert s[1..][..i] == (s + t)[1..][..i];
    DecodeVarFromLocal(s[1..], (s + t)[1..], 0, 0, i);
  }

  /** A packet whose front was not decided by the first `k` bytes ends behind them. */
  predicate Undecided(s: Bytes, k: nat, max: nat)
    requires k <= |s|
  {
    k <= 1 || match FrontOf(s[..k], max) case NeedMore => true case Bad => false case Packet(n) => n > k
  }

  lemma UndecidedIsLonger(s: Bytes, k: nat, max: nat)
    requires k <= |s| && Undecided(s, k, max) && FrontOf(s, max).Packet?
    ensures k < FrontOf(s, max).len
  {
    FrontShape(s, max);
    if k > 1 {
      assert s == s[..k] + s[k..];
      if FrontOf(s[..k], max).NeedMore? {
        var m := DecodeVar(s[1..]).value.1;
        DecodeVarShape(s[1..]);
        assert s[m] == s[1..][m - 1] < 128;
        assert forall i :: 1 <= i < k ==> s[..k][i] >= 128;
        assert forall i :: 1 <= i < k ==> s[i] >= 128;
      } else {
        FrontStable(s[..k], s[k..], max);
      }
    }
  }

  /** Looking for a length gives a valid state that holds the same bytes, or fails just when the reference does. */
  lemma ExamineSound(data: Bytes, k: nat, max: nat)
    requires 0 < |data| <= k + SCRATCH && k <= |data| && Undecided(data, k, max)
    ensures match Examine(data[0], data, max)
            case Ok(r) => Valid(r) && Buffered(r) == data && r.max == max && !r.Init?
            case Err(kind) => kind == MalformedPacket && FrontOf(data, max).Bad?
  {
    if HasLength(data) {
      DecodeVarShape(data[1..]);
      if FrontOf(data, max).Packet? {
        UndecidedIsLonger(data, k, max);
        var n := FrontOf(data, max).len;
        if n <= |data| {
          WholePacket(data, n, max);
        } else {
          assert (data + Zeros(n - |data|))[..|data|] == data;
        }
      }
    }
  }

  lemma WholePacket(data: Bytes, n: nat, max: nat)
    requires FrontOf(data, max) == Packet(n) && n <= |data|
    ensures DecodeVar(data[1..]).Ok? && IsFrame(data[..n], max)
    ensures HeaderIs(data[..n], FixedHeader(data[0], DecodeVar(data[1..]).value.0))
  {
    FrontShape(data, max);
    FrontOfPrefix(data, n, max);
    DecodeVarShape(data[1..]);
    var m := DecodeVar(data[1..]).value.1;
    assert data[..n][1..][..m] == data[1..][..m];
    DecodeVarFromLocal(data[..n][1..], data[1..], 0, 0, m);
  }

  // ----- One call of `read` -----

  lemma GotSound(r: Reader, got: Bytes)
    requires Valid(r) && !r.Fin? && 0 < |got| <= Room(r) && PreRead(r) == Ok((r, false))
    ensures match Got(r, got)
            case Ok(r') => Valid(r') && Buffered(r') == Buffered(r) + got && r'.max == r.max && !r'.Init?
            case Err(kind) => kind == MalformedPacket && FrontOf(Buffered(r) + got, r.max).Bad?
  {
    match r
    case Init(data, max) =>
      assert (data + got)[..|data|] == data;
      InitUndecided(r);
      ExamineSound(data + got, |data|, max);
    case Header(byte1, data, max) =>
      assert (data + got)[..|data|] == data;
      ExamineSound(data + got, |data|, max);
    case Remain(data, start, fh, max) =>
      RemainSound(r, got);
  }

  /** What `pre_read` lets through holds no whole packet. */
  lemma InitUndecided(r: Reader)
    requires Valid(r) && r.Init? && PreRead(r) == Ok((r, false))
    ensures |r.data| > 1 ==> !FrontOf(r.data, r.max).Bad?
    ensures FrontOf(r.data, r.max).Packet? ==> |r.data| < FrontOf(r.data, r.max).len
    ensures Undecided(r.data, |r.data|, r.max)
  {
    var data := r.data;
    assert data[..|data|] == data;
    if HasLength(data) {
      DecodeVarEnds(data[1..]);
    }
  }

  /** Up to four bytes with an end among them always decode. */
  lemma DecodeVarEnds(s: Bytes)
    requires |s| <= 4 && exists i :: 0 <= i < |s| && s[i] < 128
    ensures DecodeVar(s).Ok?
  {
    DecodeVarUnrolled(s);
  }

  lemma RemainSound(r: Reader, got: Bytes)
    requires Valid(r) && r.Remain? && 0 < |got| <= Room(r)
    ensures Got(r, got).Ok? && var r' := Got(r, got).value;
            Valid(r') && Buffered(r') == Buffered(r) + got && r'.max == r.max && !r'.Init?
  {
    var data, start := r.data, r.start;
    var data' := data[..start] + got + data[start + |got|..];
    assert data'[..start + |got|] == data[..start] + got;
    FrontStable(data[..start], got, r.max);
    HeaderIsStable(data[..start], got, r.fh, r.max);
    if start + |got| == |data| {
      assert data' == data[..start] + got;
    }
  }

  /** One read keeps the state valid and loses no byte; it fails as malformed just when the reference would. */
  lemma ReadSound(r: Reader, stream: Bytes, event: Event)
    requires Valid(r)
    ensures match Read(r, stream, event)
            case Ok((r', _, stream')) => Valid(r') && Buffered(r') + stream' == Buffered(r) + stream && r'.max == r.max
            case Err(kind) => kind == Disconnected || (kind == MalformedPacket && FrontOf(Buffered(r) + stream, r.max).Bad?)
  {
    PreReadSound(r);
    if PreRead(r).Err? {
      FrontStable(r.data, stream, r.max);
    } else if !PreRead(r).value.1 && !r.Fin? && event.Ready? {
      var k := Min(event.n, Min(Room(r), |stream|));
      if k > 0 {
        assert stream == stream[..k] + stream[k..];
        assert Buffered(r) + stream == Buffered(r) + stream[..k] + stream[k..];
        GotSound(r, stream[..k]);
        if Got(r, stream[..k]).Err? {
          FrontStable(Buffered(r) + stream[..k], stream[k..], r.max);
        }
      }
    }
  }

  lemma PreReadSound(r: Reader)
    requires Valid(r)
    ensures match PreRead(r)
            case Ok((r', ready)) => if ready then r'.Fin? && Valid(r') && Buffered(r') == Buffered(r) && r'.max == r.max else r' == r
            case Err(kind) => kind == MalformedPacket && r.Init? && FrontOf(r.data, r.max).Bad?
  {
    if r.Init? && |r.data| > 1 && DecodeVar(r.data[1..]).Ok? {
      var data := r.data;
      DecodeVarShape(data[1..]);
      var (len, m) := DecodeVar(data[1..]).value;
      assert data[m] == data[1..][m - 1] < 128;
      if 1 + m + len <= |data| && 1 + m + len <= r.max {
        WholePacket(data, 1 + m + len, r.max);
      }
    }
  }
}
