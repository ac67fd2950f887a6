/** Fixed headers, and fields read at an offset, as every packet codec uses them. */
module Packets {
  import opened Base
  import opened Mqtt
  import opened Wire

  datatype PacketType =
    | Connect | ConnAck | Publish | PubAck | PubRec | PubRel | PubComp | Subscribe | SubAck
    | UnSubscribe | UnsubAck | PingReq | PingResp | Disconnect | Auth

  function TypeCode(t: PacketType): (n: nat)
    ensures 1 <= n <= 15
  {
    match t
    case Connect => 1
    case ConnAck => 2
    case Publish => 3
    case PubAck => 4
    case PubRec => 5
    case PubRel => 6
    case PubComp => 7
    case Subscribe => 8
    case SubAck => 9
    case UnSubscribe => 10
    case UnsubAck => 11
    case PingReq => 12
    case PingResp => 13
    case Disconnect => 14
    case Auth => 15
  }

  function ToPacketType(n: nat): (r: Result<PacketType>)
    ensures r.Ok? ==> TypeCode(r.value) == n
  {
    match n
    case 1 => Ok(Connect)
    case 2 => Ok(ConnAck)
    case 3 => Ok(Publish)
    case 4 => Ok(PubAck)
    case 5 => Ok(PubRec)
    case 6 => Ok(PubRel)
    case 7 => Ok(PubComp)
    case 8 => Ok(Subscribe)
    case 9 => Ok(SubAck)
    case 10 => Ok(UnSubscribe)
    case 11 => Ok(UnsubAck)
    case 12 => Ok(PingReq)
    case 13 => Ok(PingResp)
    case 14 => Ok(Disconnect)
    case 15 => Ok(Auth)
    case _ => Err(MalformedPacket)
  }

  datatype FixedHeader = FixedHeader(byte1: byte, remainingLen: nat)

  /** `fixed_byte!` */
  function FixedByte(t: PacketType, retain: bool, qos: QoS, dup: bool): byte {
    TypeCode(t) * 16 + (if retain then 1 else 0) + qos.Level() * 2 + (if dup then 8 else 0)
  }

  /** The four fields of the first byte: type, retain, QoS, duplicate. */
  function Unwrap(b: byte): Result<(PacketType, bool, QoS, bool)> {
    var qos :- ToQoS(Int(b) / 2 % 4);
    var t :- ToPacketType(Int(b) / 16);
    Ok((t, b % 2 == 1, qos, Int(b) / 8 % 2 == 1))
  }

  lemma UnwrapFixedByte(t: PacketType, retain: bool, qos: QoS, dup: bool)
    ensures Unwrap(FixedByte(t, retain, qos, dup)) == Ok((t, retain, qos, dup))
  {
    FieldsOfByte(TypeCode(t), if retain then 1 else 0, qos.Level(), if dup then 1 else 0);
  }

  lemma FieldsOfByte(t: nat, r: nat, q: nat, d: nat)
    requires r <= 1 && q <= 3 && d <= 1
    ensures var b := t * 16 + r + q * 2 + d * 8; b / 16 == t && b / 2 % 4 == q && b % 2 == r && b / 8 % 2 == d
  {
    var b := t * 16 + r + q * 2 + d * 8;
    assert b / 8 == 2 * t + d;
    assert b / 2 == 8 * t + 4 * d + q;
  }

  /** `FixedHeader::validate`: PUBLISH may carry flags, three types must carry QoS 1 or nothing, the others nothing. */
  function ValidateHeader(b: byte): Result<()> {
    var (t, retain, qos, dup) :- Unwrap(b);
    var plain := !retain && !dup;
    if t == Publish then Ok(())
    else if (t == PubRel || t == Subscribe || t == UnSubscribe) && qos == AtLeastOnce && plain then Ok(())
    else if plain && qos == AtMostOnce then Ok(())
    else Err(MalformedPacket)
  }

  function EncodeHeader(fh: FixedHeader): Result<Bytes> {
    var _ :- ValidateHeader(fh.byte1);
    var len :- EncodeVar(fh.remainingLen);
    Ok([fh.byte1] + len)
  }

  function DecodeHeader(s: Bytes): Decoded<FixedHeader> {
    var (byte1, n) :- DecodeU8(s);
    var (len, m) :- DecodeVar(s[n..]);
    var _ :- ValidateHeader(byte1);
    Ok((FixedHeader(byte1, len), n + m))
  }

  lemma HeaderRoundTrip(fh: FixedHeader, tail: Bytes)
    requires EncodeHeader(fh).Ok?
    ensures DecodeHeader(EncodeHeader(fh).value + tail) == Ok((fh, |EncodeHeader(fh).value|))
    ensures 2 <= |EncodeHeader(fh).value| <= 5
  {
    var len := EncodeVar(fh.remainingLen).value;
    VarRoundTrip(fh.remainingLen, tail);
    assert ([fh.byte1] + len + tail)[1..] == len + tail;
  }

  /** The buffer work of `insert_fixed_header` and `insert_property_len`: append, shift everything up, overwrite. */
  method InsertFront(front: Bytes, data: Bytes) returns (buf: Bytes)
    ensures buf == front + data
  {
    var a, n := |data|, |front|;
    buf := data + front;
    buf := buf[..n] + buf[..a];
    buf := front + buf[n..];
  }

  /** A packet: the header for `body`, then `body`. */
  function Framed(byte1: byte, body: Bytes): Result<Bytes> {
    if |body| > VAR_MAX then Err(ProtocolError)
    else
      var fh :- EncodeHeader(FixedHeader(byte1, |body|));
      Ok(fh + body)
  }

  lemma FramedShape(byte1: byte, body: Bytes, tail: Bytes)
    requires Framed(byte1, body).Ok?
    ensures EncodeHeader(FixedHeader(byte1, |body|)).Ok?
    ensures var h := EncodeHeader(FixedHeader(byte1, |body|)).value;
            && Framed(byte1, body).value == h + body
            && DecodeHeader(Framed(byte1, body).value + tail) == Ok((FixedHeader(byte1, |body|), |h|))
            && 2 <= |h| <= 5
  {
    var h := EncodeHeader(FixedHeader(byte1, |body|)).value;
    HeaderRoundTrip(FixedHeader(byte1, |body|), body + tail);
    assert h + body + tail == h + (body + tail);
  }

  // ----- Fields at an offset -----

  /** `dec_field!` */
  function Field<T>(s: Bytes, n: nat, read: Bytes -> Decoded<T>): Decoded<T> {
    var rest :- Advance(s, n);
    var (v, m) :- read(rest);
    Ok((v, n + m))
  }

  /** `dec_field!` under a condition */
  function FieldIf<T>(s: Bytes, n: nat, read: Bytes -> Decoded<T>, present: bool): Decoded<Option<T>> {
    if !present then Ok((None, n))
    else
      var (v, m) :- Field(s, n, read);
      Ok((Some(v), m))
  }

  /** The bytes read back as the value, all of them, whatever follows. */
  ghost predicate Reads<T>(read: Bytes -> Decoded<T>, enc: Bytes, v: T) {
    forall tail: Bytes :: read(enc + tail) == Ok((v, |enc|))
  }

  lemma FieldReads<T>(pre: Bytes, enc: Bytes, tail: Bytes, read: Bytes -> Decoded<T>, v: T)
    requires Reads(read, enc, v)
    ensures Field(pre + enc + tail, |pre|, read) == Ok((v, |pre| + |enc|))
  {
    assert pre + enc + tail == pre + (enc + tail);
    AdvanceOver(pre, enc + tail);
  }

  /** The fields most packets start with: one always there, one under a condition, one more. */
  function Fields<A, B, C>(s: Bytes, n: nat, readA: Bytes -> Decoded<A>, readB: Bytes -> Decoded<B>, hasB: bool,
      readC: Bytes -> Decoded<C>): Decoded<(A, Option<B>, C)> {
    var (a, n1) :- Field(s, n, readA);
    var (b, n2) :- FieldIf(s, n1, readB, hasB);
    var (c, n3) :- Field(s, n2, readC);
    Ok(((a, b, c), n3))
  }

  lemma Regroup(pre: Bytes, a: Bytes, b: Bytes, c: Bytes, tail: Bytes)
    ensures pre + (a + b + c) + tail == pre + a + (b + c + tail)
    ensures pre + (a + b + c) + tail == (pre + a) + b + (c + tail)
    ensures pre + (a + b + c) + tail == (pre + a + b) + c + tail
  {
  }

  lemma RegroupTwo(pre: Bytes, a: Bytes, b: Bytes, tail: Bytes)
    ensures pre + (a + b) + tail == pre + a + (b + tail) == (pre + a) + b + tail
  {
  }

  /** Written one after the other, the fields are read one after the other. */
  lemma FieldsRead<A, B, C>(pre: Bytes, ea: Bytes, eb: Bytes, ec: Bytes, tail: Bytes,
      readA: Bytes -> Decoded<A>, readB: Bytes -> Decoded<B>, readC: Bytes -> Decoded<C>, a: A, b: Option<B>, c: C)
    requires Reads(readA, ea, a)
    requires if b.Some? then Reads(readB, eb, b.value) else eb == []
    requires Reads(readC, ec, c)
    ensures Fields(pre + (ea + eb + ec) + tail, |pre|, readA, readB, b.Some?, readC) ==
            Ok(((a, b, c), |pre| + |ea| + |eb| + |ec|))
  {
    Regroup(pre, ea, eb, ec, tail);
    FieldReads(pre, ea, eb + ec + tail, readA, a);
    if b.Some? {
      FieldReads(pre + ea, eb, ec + tail, readB, b.value);
    }
    FieldReads(pre + ea + eb, ec, tail, readC, c);
  }

  /** One field after another, each at the offset where the one before ended. */
  function Both<A, B>(readA: Bytes -> Decoded<A>, readB: Bytes -> Decoded<B>): Bytes -> Decoded<(A, B)> {
    (s: Bytes) => ReadBoth(s, readA, readB)
  }

  function ReadBoth<A, B>(s: Bytes, readA: Bytes -> Decoded<A>, readB: Bytes -> Decoded<B>): Decoded<(A, B)> {
    var (a, n) :- readA(s);
    var (b, m) :- Field(s, n, readB);
    Ok(((a, b), m))
  }

  /** A field under a condition. */
  function When<T>(present: bool, read: Bytes -> Decoded<T>): Bytes -> Decoded<Option<T>> {
    (s: Bytes) => FieldIf(s, 0, read, present)
  }

  lemma BothRead<A, B>(readA: Bytes -> Decoded<A>, readB: Bytes -> Decoded<B>, ea: Bytes, eb: Bytes, a: A, b: B)
    requires Reads(readA, ea, a) && Reads(readB, eb, b)
    ensures Reads(Both(readA, readB), ea + eb, (a, b))
  {
    forall tail: Bytes ensures ReadBoth(ea + eb + tail, readA, readB) == Ok(((a, b), |ea + eb|)) {
      assert ea + eb + tail == ea + (eb + tail);
      FieldReads(ea, eb, tail, readB, b);
    }
  }

  lemma WhenReads<T>(read: Bytes -> Decoded<T>, enc: Bytes, v: Option<T>)
    requires if v.Some? then Reads(read, enc, v.value) else enc == []
    ensures Reads(When(v.Some?, read), enc, v)
  {
    forall tail: Bytes ensures FieldIf(enc + tail, 0, read, v.Some?) == Ok((v, |enc|)) {
      if v.Some? {
        FieldReads([], enc, tail, read, v.value);
        assert [] + enc + tail == enc + tail;
      }
    }
  }

  lemma TopicReads(name: Str)
    requires EncodeTopic(name).Ok?
    ensures Reads(DecodeTopic, EncodeTopic(name).value, name)
  {
    forall tail: Bytes ensures DecodeTopic(EncodeTopic(name).value + tail) == Ok((name, |EncodeTopic(name).value|)) {
      TopicRoundTrip(name, tail);
    }
  }

  // ----- Behind the fixed header -----

  /** How a packet is read behind its header: input, where the header ends, where the packet ends, and the header's flags. */
  type BodyReader<!T> = (Bytes, nat, nat, bool, QoS, bool) -> Decoded<T>

  function WithHeader<T>(s: Bytes, body: BodyReader<T>): Decoded<T> {
    var (fh, n) :- DecodeHeader(s);
    var (_, retain, qos, dup) :- Unwrap(fh.byte1);
    body(s, n, n + fh.remainingLen, retain, qos, dup)
  }

  /** A framed body is handed to the body reader with the bounds and flags it was framed with. */
  lemma WithHeaderFramed<T>(t: PacketType, retain: bool, qos: QoS, dup: bool, data: Bytes, tail: Bytes, body: BodyReader<T>)
    returns (h: Bytes)
    requires Framed(FixedByte(t, retain, qos, dup), data).Ok?
    ensures Framed(FixedByte(t, retain, qos, dup), data).value == h + data
    ensures WithHeader(h + data + tail, body) == body(h + data + tail, |h|, |h| + |data|, retain, qos, dup)
  {
    FramedShape(FixedByte(t, retain, qos, dup), data, tail);
    UnwrapFixedByte(t, retain, qos, dup);
    h := EncodeHeader(FixedHeader(FixedByte(t, retain, qos, dup), |data|)).value;
  }

  /** If the body reads back wherever it stands, so does the packet framed around it. */
  lemma FramedReads<T>(t: PacketType, retain: bool, qos: QoS, dup: bool, data: Bytes, body: BodyReader<T>, read: Bytes -> Decoded<T>, v: T)
    requires Framed(FixedByte(t, retain, qos, dup), data).Ok?
    requires forall s: Bytes :: read(s) == WithHeader(s, body)
    requires BodyReads(body, data, retain, qos, dup, v)
    ensures Reads(read, Framed(FixedByte(t, retain, qos, dup), data).value, v)
  {
    var enc := Framed(FixedByte(t, retain, qos, dup), data).value;
    forall tail: Bytes ensures read(enc + tail) == Ok((v, |enc|)) {
      var h := WithHeaderFramed(t, retain, qos, dup, data, tail, body);
    }
  }

  ghost predicate BodyReads<T>(body: BodyReader<T>, data: Bytes, retain: bool, qos: QoS, dup: bool, v: T) {
    forall pre: Bytes, tail: Bytes ::
      body(pre + data + tail, |pre|, |pre| + |data|, retain, qos, dup) == Ok((v, |pre| + |data|))
  }

  /** Whatever is read behind a header was read by the body reader. */
  lemma WithHeaderOk<T>(s: Bytes, body: BodyReader<T>) returns (n: nat, m: nat, retain: bool, qos: QoS, dup: bool)
    requires WithHeader(s, body).Ok?
    ensures WithHeader(s, body) == body(s, n, m, retain, qos, dup)
  {
    var (fh, n0) := DecodeHeader(s).value;
    var (_, retain0, qos0, dup0) := Unwrap(fh.byte1).value;
    n, m, retain, qos, dup := n0, n0 + fh.remainingLen, retain0, qos0, dup0;
  }
}
