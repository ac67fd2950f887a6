/** From packets on one side to packets on the other: codec, writer, wire, reader and parser together. */
module EndToEnd {
  import opened Base
  import opened Mqtt
  import opened Wire
  import opened Packets
  import opened Framing
  import opened FrameRuns
  import opened Sockets
  import opened SafeReads
  import PublishCodec
  import ConnectCodec
  import SubscribeCodec

  /** The modelled variants of `v5::Packet`. */
  datatype Packet =
    | OfConnect(c: ConnectCodec.Connection)
    | OfPublish(p: PublishCodec.Publication)
    | OfSubscribe(s: SubscribeCodec.Subscribing)

  function Encode(p: Packet): Result<Bytes> {
    match p
    case OfConnect(c) => ConnectCodec.EncodeConnect(c)
    case OfPublish(p) => PublishCodec.EncodePublish(p)
    case OfSubscribe(s) => SubscribeCodec.EncodeSubscribe(s)
  }

  function Normalize(p: Packet): Packet {
    match p
    case OfConnect(c) => OfConnect(ConnectCodec.NormalizeConnect(c))
    case OfPublish(p) => OfPublish(PublishCodec.NormalizePublish(p))
    case OfSubscribe(s) => OfSubscribe(SubscribeCodec.NormalizeSubscribe(s))
  }

  predicate Consistent(p: Packet) {
    match p
    case OfConnect(c) => ConnectCodec.Consistent(c)
    case OfPublish(p) => PublishCodec.Consistent(p)
    case OfSubscribe(s) => SubscribeCodec.Consistent(s)
  }

  function TypeOf(p: Packet): PacketType {
    match p
    case OfConnect(_) => Connect
    case OfPublish(_) => Publish
    case OfSubscribe(_) => Subscribe
  }

  /** The decoded packet must fill the frame. */
  function Filling<T>(data: Bytes, d: Decoded<T>, wrap: T -> Packet): Result<Packet> {
    var (v, n) :- d;
    if n == |data| then Ok(wrap(v)) else Err(MalformedPacket)
  }

  /** `parse`, on a frame of a modelled type; unwrapping the first byte crashes if it holds no packet type or QoS. */
  function Parse(data: Bytes): Result<Packet> {
    if data == [] || Unwrap(data[0]).Err? then Err(Panic)
    else
      match Unwrap(data[0]).value.0
      case Connect => Filling(data, ConnectCodec.DecodeConnect(data), c => OfConnect(c))
      case Publish => Filling(data, PublishCodec.DecodePublish(data), p => OfPublish(p))
      case Subscribe => Filling(data, SubscribeCodec.DecodeSubscribe(data), s => OfSubscribe(s))
      case _ => Err(ProtocolError)
  }

  // ----- One packet -----

  lemma FramedIsFrame(byte1: byte, body: Bytes, max: nat)
    requires Framed(byte1, body).Ok? && |Framed(byte1, body).value| <= max
    ensures IsFrame(Framed(byte1, body).value, max) && Framed(byte1, body).value[0] == byte1
  {
    var len := EncodeVar(|body|).value;
    var s := Framed(byte1, body).value;
    VarRoundTrip(|body|, body);
    DecodeVarShape(len + body);
    assert s == [byte1] + (len + body);
    assert s[1..] == len + body;
    assert s[|len|] == (len + body)[|len| - 1] < 128;
  }

  /** Every encoding is exactly one frame. */
  lemma EncodedIsFrame(p: Packet, max: nat)
    requires Encode(p).Ok? && |Encode(p).value| <= max
    ensures IsFrame(Encode(p).value, max)
  {
    match p
    case OfConnect(c) =>
      FramedIsFrame(FixedByte(Connect, false, AtMostOnce, false), ConnectCodec.ConnectBody(c).value, max);
    case OfPublish(p) =>
      FramedIsFrame(FixedByte(Publish, p.retain, p.qos, p.duplicate), PublishCodec.PublishBody(p).value, max);
    case OfSubscribe(s) =>
      FramedIsFrame(FixedByte(Subscribe, false, AtLeastOnce, false), SubscribeCodec.SubscribeBody(s).value, max);
  }

  lemma FirstByte(t: PacketType, retain: bool, qos: QoS, dup: bool, body: Bytes)
    requires Framed(FixedByte(t, retain, qos, dup), body).Ok?
    ensures var s := Framed(FixedByte(t, retain, qos, dup), body).value;
            s != [] && Unwrap(s[0]).Ok? && Unwrap(s[0]).value.0 == t
  {
    UnwrapFixedByte(t, retain, qos, dup);
  }

  lemma EncodedType(p: Packet)
    requires Encode(p).Ok?
    ensures var s := Encode(p).value; s != [] && Unwrap(s[0]).Ok? && Unwrap(s[0]).value.0 == TypeOf(p)
  {
    match p
    case OfConnect(c) => FirstByte(Connect, false, AtMostOnce, false, ConnectCodec.ConnectBody(c).value);
    case OfPublish(p) => FirstByte(Publish, p.retain, p.qos, p.duplicate, PublishCodec.PublishBody(p).value);
    case OfSubscribe(s) => FirstByte(Subscribe, false, AtLeastOnce, false, SubscribeCodec.SubscribeBody(s).value);
  }

  lemma FillsIfReads<T>(data: Bytes, read: Bytes -> Decoded<T>, v: T, wrap: T -> Packet)
    requires Reads(read, data, v)
    ensures Filling(data, read(data), wrap) == Ok(wrap(v))
  {
    assert data + [] == data;
  }

  /** A consistent packet parses back from its encoding, normalized. */
  lemma EncodedParses(p: Packet)
    requires Encode(p).Ok? && Consistent(p)
    ensures Parse(Encode(p).value) == Ok(Normalize(p))
  {
    EncodedType(p);
    var data := Encode(p).value;
    match p
    case OfConnect(c) =>
      ConnectCodec.ConsistentConnectReads(c);
      FillsIfReads(data, ConnectCodec.DecodeConnect, ConnectCodec.NormalizeConnect(c), c => OfConnect(c));
    case OfPublish(p) =>
      PublishCodec.ConsistentPublishReads(p);
      FillsIfReads(data, PublishCodec.DecodePublish, PublishCodec.NormalizePublish(p), p => OfPublish(p));
    case OfSubscribe(s) =>
      SubscribeCodec.ConsistentSubscribeReads(s);
      FillsIfReads(data, SubscribeCodec.DecodeSubscribe, SubscribeCodec.NormalizeSubscribe(s), s => OfSubscribe(s));
  }

  /** The first byte holds no packet type or QoS, or the type of a modelled packet. */
  predicate Modelled(s: Bytes)
    requires s != []
  {
    Unwrap(s[0]).Ok? ==> Unwrap(s[0]).value.0 in {Connect, Publish, Subscribe}
  }

  /** On a frame of a modelled type `parse` does not crash; on one with no packet type or the reserved QoS it does. */
  lemma ParseCrash(s: Bytes, max: nat)
    requires IsFrame(s, max) && s != [] && Modelled(s)
    ensures Parse(s) == Err(Panic) <==> Unwrap(s[0]).Err?
  {
    FrameIsWhole(s, max);
    PublishIsGentle(s);
    SubscribeIsGentle(s);
    ConnectIsGentle(s);
    FillingCrash(s, PublishCodec.DecodePublish(s), p => OfPublish(p));
    FillingCrash(s, SubscribeCodec.DecodeSubscribe(s), p => OfSubscribe(p));
    FillingCrash(s, ConnectCodec.DecodeConnect(s), c => OfConnect(c));
  }

  /** The empty frame of packet type 0. */
  lemma TypeZeroCrashes()
    ensures IsFrame([0x00, 0x00], 2) && Parse([0x00, 0x00]) == Err(Panic)
  {
    DecodeVarUnrolled([0x00]);
    var s: Bytes := [0x00, 0x00];
    assert s[1..] == [0x00];
  }

  lemma FrameIsWhole(s: Bytes, max: nat)
    requires IsFrame(s, max)
    ensures |s| >= 2 && IsWhole(s)
  {
    FrontShape(s, max);
  }

  lemma FillingCrash<T>(data: Bytes, d: Decoded<T>, wrap: T -> Packet)
    ensures Filling(data, d, wrap) == Err(Panic) <==> d == Err(Panic)
  {
  }

  // ----- The stream -----

  /** Whether a sink with this limit puts the packet on the wire. */
  predicate GoesOut<P>(p: P, encode: P -> Result<Bytes>, max: nat) {
    encode(p).Ok? && |encode(p).value| <= max
  }

  function Kept<P>(ps: seq<P>, encode: P -> Result<Bytes>, max: nat): seq<P> {
    if ps == [] then [] else (if GoesOut(ps[0], encode, max) then [ps[0]] else []) + Kept(ps[1..], encode, max)
  }

  /** The wire form of each packet in turn. */
  ghost predicate AreEncodings<P>(fs: seq<Bytes>, ps: seq<P>, encode: P -> Result<Bytes>) {
    |fs| == |ps| && forall i :: 0 <= i < |ps| ==> encode(ps[i]) == Ok(fs[i])
  }

  lemma {:induction false} OutgoingIsConcat<P>(ps: seq<P>, encode: P -> Result<Bytes>, max: nat) returns (fs: seq<Bytes>)
    ensures AreEncodings(fs, Kept(ps, encode, max), encode)
    ensures Outgoing(ps, encode, max) == Concat(fs)
    ensures forall p :: p in Kept(ps, encode, max) ==> p in ps && GoesOut(p, encode, max)
    decreases |ps|
  {
    if ps == [] {
      fs := [];
    } else {
      var rest := OutgoingIsConcat(ps[1..], encode, max);
      if GoesOut(ps[0], encode, max) {
        fs := [encode(ps[0]).value] + rest;
        assert fs[1..] == rest;
      } else {
        fs := rest;
        assert [] + Concat(rest) == Concat(rest);
      }
    }
  }

  lemma SplitPrefix(s: Bytes, t: Bytes, max: nat)
    ensures Split(s, max).frames <= Split(s + t, max).frames
  {
    SplitSound(s, max);
    var r := Split(s, max);
    Regrouped(Concat(r.frames), r.rest, t);
    SplitConcat(r.frames, r.rest + t, max);
  }

  lemma SplitFrames(fs: seq<Bytes>, max: nat)
    requires forall i :: 0 <= i < |fs| ==> IsFrame(fs[i], max)
    ensures Split(Concat(fs), max) == Splitting(fs, [], false)
  {
    SplitConcat(fs, [], max);
    assert Concat(fs) + [] == Concat(fs);
    assert fs + [] == fs;
  }

  lemma BadStays(s: Bytes, t: Bytes, max: nat)
    requires Split(s, max).bad
    ensures Split(s + t, max).bad
  {
    SplitSound(s, max);
    var r := Split(s, max);
    Regrouped(Concat(r.frames), r.rest, t);
    SplitConcat(r.frames, r.rest + t, max);
    FrontStable(r.rest, t, max);
  }

  /** Frames on the wire, read on any schedule: they come out in order, never malformed, and all of them once the run ends. */
  lemma FramesArrive(fs: seq<Bytes>, wire: Bytes, rest: Bytes, max: nat, events: seq<Event>)
    requires forall i :: 0 <= i < |fs| ==> IsFrame(fs[i], max)
    requires wire + rest == Concat(fs)
    ensures var out := RunReads(Init([], max), wire, events);
            && out.frames <= fs
            && out.end != Some(MalformedPacket)
            && (rest == [] && Up(events) && out.end.Some? ==> out.frames == fs)
            && (rest == [] && Up(events) && Moves(events) > 2 * |wire| ==> out.frames == fs)
  {
    var out := RunReads(Init([], max), wire, events);
    SplitFrames(fs, max);
    assert [] + wire == wire;
    RunSplits(Init([], max), wire, events);
    SplitPrefix(wire, rest, max);
    assert out.frames <= Split(wire, max).frames;
    if out.end == Some(MalformedPacket) {
      BadStays(wire, rest, max);
    }
    if rest == [] {
      assert wire + rest == wire;
      if Up(events) {
        RunFinishes(Init([], max), wire, events);
      }
    }
  }

  /**
   * Packets accepted by a sink and read back by a source, with any partial writes and reads: what has
   * been written is read as the encodings of the packets that fit, in order, and each parses to the packet.
   */
  lemma PacketsArrive(ps: seq<Packet>, wire: Bytes, rest: Bytes, maxWrite: nat, maxRead: nat, events: seq<Event>)
    requires wire + rest == Outgoing(ps, Encode, maxWrite)
    requires forall p :: p in ps && GoesOut(p, Encode, maxWrite) ==> Consistent(p) && GoesOut(p, Encode, maxRead)
    ensures var out := RunReads(Init([], maxRead), wire, events);
            var kept := Kept(ps, Encode, maxWrite);
            && out.end != Some(MalformedPacket)
            && |out.frames| <= |kept|
            && (forall i :: 0 <= i < |out.frames| ==> Encode(kept[i]) == Ok(out.frames[i]) && Parse(out.frames[i]) == Ok(Normalize(kept[i])))
            && (rest == [] && Up(events) && out.end.Some? ==> |out.frames| == |kept|)
            && (rest == [] && Up(events) && Moves(events) > 2 * |wire| ==> |out.frames| == |kept|)
  {
    var kept := Kept(ps, Encode, maxWrite);
    var fs := OutgoingIsConcat(ps, Encode, maxWrite);
    AllFrames(fs, kept, maxRead);
    FramesArrive(fs, wire, rest, maxRead, events);
    var out := RunReads(Init([], maxRead), wire, events);
    forall i | 0 <= i < |out.frames| ensures Encode(kept[i]) == Ok(out.frames[i]) && Parse(out.frames[i]) == Ok(Normalize(kept[i])) {
      assert out.frames[i] == fs[i] && kept[i] in kept;
      EncodedParses(kept[i]);
    }
  }

  /** What any reader in agreement with the splitter has of a stream that a sink has put out so far. */
  lemma FramesAreKept(ps: seq<Packet>, stream: Bytes, maxWrite: nat, maxRead: nat, frames: seq<Bytes>)
    requires stream <= Outgoing(ps, Encode, maxWrite) && frames <= Split(stream, maxRead).frames
    requires forall p :: p in ps && GoesOut(p, Encode, maxWrite) ==> Consistent(p) && GoesOut(p, Encode, maxRead)
    ensures var kept := Kept(ps, Encode, maxWrite);
            |frames| <= |kept| && forall i :: 0 <= i < |frames| ==> Parse(frames[i]) == Ok(Normalize(kept[i]))
    ensures !Split(stream, maxRead).bad
  {
    var kept := Kept(ps, Encode, maxWrite);
    var fs := OutgoingIsConcat(ps, Encode, maxWrite);
    AllFrames(fs, kept, maxRead);
    SplitFrames(fs, maxRead);
    var rest := Concat(fs)[|stream|..];
    assert stream + rest == Concat(fs);
    SplitPrefix(stream, rest, maxRead);
    if Split(stream, maxRead).bad {
      BadStays(stream, rest, maxRead);
    }
    forall i | 0 <= i < |frames| ensures Parse(frames[i]) == Ok(Normalize(kept[i])) {
      assert frames[i] == fs[i] && kept[i] in kept;
      EncodedParses(kept[i]);
    }
  }

  /** A reader that has the whole of it and nothing left over has all of the packets. */
  lemma AllAreRead(ps: seq<Packet>, stream: Bytes, maxWrite: nat, maxRead: nat, frames: seq<Bytes>)
    requires stream == Outgoing(ps, Encode, maxWrite) == Concat(frames) && frames <= Split(stream, maxRead).frames
    requires forall p :: p in ps && GoesOut(p, Encode, maxWrite) ==> Consistent(p) && GoesOut(p, Encode, maxRead)
    ensures |frames| == |Kept(ps, Encode, maxWrite)|
  {
    var fs := OutgoingIsConcat(ps, Encode, maxWrite);
    AllFrames(fs, Kept(ps, Encode, maxWrite), maxRead);
    SplitFrames(fs, maxRead);
    SplitSound(stream, maxRead);
    SplitFrames(frames, maxRead);
  }

  /**
   * A sink and a source with what the sink has put on the wire as its stream: the packets the source has sent on and
   * queued are the first of those the sink accepted and kept, normalized, and the source has no reason to refuse.
   * They are all of them once the sink has put out everything and the source has read all of it.
   */
  lemma SourceHasWhatSinkAccepted(sink: Sink<Packet>, source: Source<Packet>)
    requires sink.encode == Encode && sink.wire <= Outgoing(sink.accepted, Encode, sink.max)
    requires source.Valid() && source.parse == Parse && source.stream <= sink.wire
    requires forall p :: p in sink.accepted && GoesOut(p, Encode, sink.max) ==> Consistent(p) && GoesOut(p, Encode, source.max)
    ensures var kept, got := Kept(sink.accepted, Encode, sink.max), source.sent + source.packets;
            && |got| <= |kept| && (forall i :: 0 <= i < |got| ==> got[i] == Normalize(kept[i]))
            && (source.stream == Outgoing(sink.accepted, Encode, sink.max) && Left(source.past) == [] ==> |got| == |kept|)
    ensures forall kind :: !Refused(source.stream, source.past.frames, source.max, Parse, kind)
  {
    var kept, all := Kept(sink.accepted, Encode, sink.max), Split(source.stream, source.max).frames;
    FramesAreKept(sink.accepted, source.stream, sink.max, source.max, source.past.frames);
    FramesAreKept(sink.accepted, source.stream, sink.max, source.max, all);
    if source.stream == Outgoing(sink.accepted, Encode, sink.max) && Left(source.past) == [] {
      assert Concat(source.past.frames) + [] == Concat(source.past.frames);
      AllAreRead(sink.accepted, source.stream, sink.max, source.max, source.past.frames);
    }
  }

  lemma AllFrames(fs: seq<Bytes>, kept: seq<Packet>, maxRead: nat)
    requires AreEncodings(fs, kept, Encode)
    requires forall p :: p in kept ==> GoesOut(p, Encode, maxRead)
    ensures forall i :: 0 <= i < |fs| ==> IsFrame(fs[i], maxRead)
  {
    forall i | 0 <= i < |fs| ensures IsFrame(fs[i], maxRead) {
      assert kept[i] in kept;
      EncodedIsFrame(kept[i], maxRead);
    }
  }
}
