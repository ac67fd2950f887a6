/** Decoders stay inside their input and do not crash, so decoding a whole frame never does. */
module SafeReads {
  import opened Base
  import opened Mqtt
  import opened Wire
  import opened ItemLoops
  import opened Properties
  import opened Packets
  import opened PublishCodec
  import opened SubscribeCodec
  import ConnectCodec

  predicate SafeAt<T>(d: Decoded<T>, s: Bytes) {
    match d
    case Ok((_, n)) => n <= |s|
    case Err(kind) => kind != Panic
  }

  ghost predicate Safe<T>(read: Bytes -> Decoded<T>) {
    forall s: Bytes :: SafeAt(read(s), s)
  }

  ghost predicate Gentle<T(!new), I(!new)>(enter: (T, I) -> Result<T>) {
    forall t: T, i: I :: enter(t, i) != Err(Panic)
  }

  // ----- Parts -----

  lemma SafeTexts()
    ensures Safe(DecodeBinary) && Safe(DecodeString) && Safe(DecodeTopic) && Safe(DecodeFilter)
    ensures Safe(DecodeU8) && Safe(DecodeU16) && Safe(DecodeU32)
  {
  }

  lemma SafePair()
    ensures Safe(DecodePair)
  {
    SafeTexts();
    forall s: Bytes ensures SafeAt(DecodePair(s), s) {
      assert SafeAt(DecodeString(s), s);
      if DecodeString(s).Ok? {
        var m := DecodeString(s).value.1;
        assert SafeAt(DecodeString(s[m..]), s[m..]);
      }
    }
  }

  lemma {:induction false} VarErrors(s: Bytes, i: nat, out: nat)
    ensures DecodeVarFrom(s, i, out).Err? ==> DecodeVarFrom(s, i, out).kind == MalformedPacket
    decreases 4 - i
  {
    if i < 4 && i < |s| && s[i] >= 128 {
      VarErrors(s, i + 1, out + Int(s[i]) % 128 * Weight(i));
    }
  }

  lemma SafeVar()
    ensures Safe(DecodeVar)
  {
    forall s: Bytes ensures SafeAt(DecodeVar(s), s) {
      VarErrors(s, 0, 0);
      DecodeVarShape(s);
    }
  }

  lemma SafeValue(kind: Kind, s: Bytes)
    ensures SafeAt(DecodeValue(kind, s), s)
  {
    match kind
    case KVarInt =>
      SafeVar();
      assert SafeAt(DecodeVar(s), s);
    case KPair =>
      SafePair();
      assert SafeAt(DecodePair(s), s);
    case _ =>
  }

  lemma SafeProperty()
    ensures Safe(DecodeProperty)
  {
    SafeVar();
    forall s: Bytes ensures SafeAt(DecodeProperty(s), s) {
      assert SafeAt(DecodeVar(s), s);
      if DecodeVar(s).Ok? && FromCode(DecodeVar(s).value.0).Ok? {
        var (code, n) := DecodeVar(s).value;
        SafeValue(KindOf(FromCode(code).value), s[n..]);
      }
    }
  }

  lemma {:induction false} SafeLoop<I(!new), T(!new)>(s: Bytes, n: nat, limit: nat, acc: T, read: Bytes -> Decoded<I>, enter: (T, I) -> Result<T>)
    requires Progresses(read) && Safe(read) && Gentle(enter) && n <= |s|
    ensures SafeAt(DecodeLoop(s, n, limit, acc, read, enter), s)
    decreases if n < limit then limit - n else 0
  {
    if n < limit {
      assert SafeAt(read(s[n..]), s[n..]);
      if read(s[n..]).Ok? {
        var (item, m) := read(s[n..]).value;
        if enter(acc, item).Ok? {
          SafeLoop(s, n + m, limit, enter(acc, item).value, read, enter);
        }
      }
    }
  }

  lemma SafeSection<T(!new)>(s: Bytes, default: T, rules: Rules<T>)
    requires Gentle(rules.apply)
    ensures SafeAt(DecodeSection(s, default, rules), s)
  {
    SafeVar();
    assert SafeAt(DecodeVar(s), s);
    PropertiesProgress();
    SafeProperty();
    SafeCounted(s, Gathered({}, default), DecodeProperty, Entering(rules));
  }

  lemma SafeCounted<I(!new), T(!new)>(s: Bytes, acc: T, read: Bytes -> Decoded<I>, enter: (T, I) -> Result<T>)
    requires Progresses(read) && Safe(read) && Gentle(enter)
    ensures SafeAt(DecodeCounted(s, acc, read, enter), s)
  {
    SafeVar();
    assert SafeAt(DecodeVar(s), s);
    if DecodeVar(s).Ok? {
      var (len, n) := DecodeVar(s).value;
      SafeLoop(s, n, len + n, acc, read, enter);
    }
  }

  lemma SafeSections()
    ensures Safe(DecodePublishSection) && Safe(DecodeSubscribeSection)
    ensures Safe(ConnectCodec.DecodeConnectSection) && Safe(ConnectCodec.DecodeWillSection)
  {
    forall s: Bytes ensures SafeAt(DecodePublishSection(s), s) {
      SafeSection(s, NO_PROPS, PUBLISH_RULES);
    }
    forall s: Bytes ensures SafeAt(DecodeSubscribeSection(s), s) {
      SafeSection(s, NO_SUBSCRIBE, SUBSCRIBE_RULES);
    }
    forall s: Bytes ensures SafeAt(ConnectCodec.DecodeConnectSection(s), s) {
      SafeSection(s, ConnectCodec.NO_CONNECT, ConnectCodec.CONNECT_RULES);
    }
    forall s: Bytes ensures SafeAt(ConnectCodec.DecodeWillSection(s), s) {
      SafeSection(s, ConnectCodec.NO_WILL, ConnectCodec.WILL_RULES);
    }
  }

  // ----- Combinations -----

  lemma SafeField<T>(s: Bytes, n: nat, read: Bytes -> Decoded<T>)
    requires Safe(read)
    ensures SafeAt(Field(s, n, read), s)
  {
    if n <= |s| {
      assert SafeAt(read(s[n..]), s[n..]);
    }
  }

  lemma SafeBoth<A, B>(readA: Bytes -> Decoded<A>, readB: Bytes -> Decoded<B>)
    requires Safe(readA) && Safe(readB)
    ensures Safe(Both(readA, readB))
  {
    forall s: Bytes ensures SafeAt(ReadBoth(s, readA, readB), s) {
      assert SafeAt(readA(s), s);
      if readA(s).Ok? {
        SafeField(s, readA(s).value.1, readB);
      }
    }
  }

  lemma SafeWhen<T>(present: bool, read: Bytes -> Decoded<T>)
    requires Safe(read)
    ensures Safe(When(present, read))
  {
    forall s: Bytes ensures SafeAt(FieldIf(s, 0, read, present), s) {
      SafeField(s, 0, read);
    }
  }

  /** What the reader hands on: the first byte, and a length that ends with the input. */
  predicate IsWhole(s: Bytes) {
    DecodeHeader(s).Ok? ==> DecodeHeader(s).value.1 + DecodeHeader(s).value.0.remainingLen == |s|
  }

  // ----- Packets -----

  lemma HeaderIsGentle(s: Bytes)
    ensures DecodeHeader(s) != Err(Panic)
    ensures DecodeHeader(s).Ok? ==> Unwrap(DecodeHeader(s).value.0.byte1).Ok?
  {
    if s != [] {
      VarErrors(s[1..], 0, 0);
    }
  }

  lemma SafeFields<A, B, C>(s: Bytes, n: nat, readA: Bytes -> Decoded<A>, readB: Bytes -> Decoded<B>, hasB: bool, readC: Bytes -> Decoded<C>)
    requires Safe(readA) && Safe(readB) && Safe(readC)
    ensures SafeAt(Fields(s, n, readA, readB, hasB, readC), s)
  {
    SafeField(s, n, readA);
    if Field(s, n, readA).Ok? {
      var n1 := Field(s, n, readA).value.1;
      SafeField(s, n1, readB);
      if FieldIf(s, n1, readB, hasB).Ok? {
        SafeField(s, FieldIf(s, n1, readB, hasB).value.1, readC);
      }
    }
  }

  /** If the body reader never crashes on a packet that ends where the input does, neither does the decoder. */
  lemma WholeIsGentle<T>(s: Bytes, body: BodyReader<T>)
    requires IsWhole(s)
    requires forall n: nat, retain, qos, dup :: body(s, n, |s|, retain, qos, dup) != Err(Panic)
    ensures WithHeader(s, body) != Err(Panic)
  {
    HeaderIsGentle(s);
  }

  /** `Publish::decode` never crashes on a frame. */
  lemma PublishIsGentle(s: Bytes)
    requires IsWhole(s)
    ensures DecodePublish(s) != Err(Panic)
  {
    forall n: nat, retain, qos, dup ensures DecodePublishBody(s, n, |s|, retain, qos, dup) != Err(Panic) {
      PublishBodyIsGentle(s, n, retain, qos, dup);
    }
    WholeIsGentle(s, DecodePublishBody);
  }

  lemma PublishBodyIsGentle(s: Bytes, n: nat, retain: bool, qos: QoS, dup: bool)
    ensures DecodePublishBody(s, n, |s|, retain, qos, dup) != Err(Panic)
  {
    SafeTexts();
    SafeSections();
    SafeFields(s, n, DecodeTopic, DecodeU16, qos != AtMostOnce, DecodePublishSection);
  }

  lemma ReadSubscribeIsGentle(s: Bytes, n: nat, readHead: Bytes -> Decoded<(u16, Option<SubscribeProps>)>,
      readFilters: Bytes -> Result<seq<SubscribeFilter>>)
    requires Safe(readHead) && forall t: Bytes :: readFilters(t) != Err(Panic)
    ensures ReadSubscribe(s, n, |s|, readHead, readFilters) != Err(Panic)
  {
    SafeField(s, n, readHead);
  }

  /** `Subscribe::decode` never crashes on a frame. */
  lemma SubscribeIsGentle(s: Bytes)
    requires IsWhole(s)
    ensures DecodeSubscribe(s) != Err(Panic)
  {
    forall n: nat, retain, qos, dup ensures DecodeSubscribeBody(s, n, |s|, retain, qos, dup) != Err(Panic) {
      SubscribeBodyIsGentle(s, n);
    }
    WholeIsGentle(s, DecodeSubscribeBody);
  }

  lemma SubscribeBodyIsGentle(s: Bytes, n: nat)
    ensures ReadSubscribe(s, n, |s|, HeadReader(), DecodeFilters) != Err(Panic)
  {
    SafeTexts();
    SafeSections();
    SafeBoth(DecodeU16, DecodeSubscribeSection);
    forall t: Bytes ensures DecodeFilters(t) != Err(Panic) {
      FiltersAreGentle(t);
    }
    ReadSubscribeIsGentle(s, n, HeadReader(), DecodeFilters);
  }

  lemma SafeSubscribeFilter()
    ensures Safe(DecodeSubscribeFilter)
  {
    SafeTexts();
    forall s: Bytes ensures SafeAt(DecodeSubscribeFilter(s), s) {
      assert SafeAt(DecodeFilter(s), s);
      if DecodeFilter(s).Ok? {
        SafeField(s, DecodeFilter(s).value.1, DecodeU8);
      }
    }
  }

  lemma FiltersAreGentle(payload: Bytes)
    ensures DecodeFilters(payload) != Err(Panic)
  {
    SafeSubscribeFilter();
    FiltersProgress();
    SafeLoop(payload, 0, |payload|, [], DecodeSubscribeFilter, Push);
  }

  /** `Connect::decode` never crashes at all: it does not look at the stated length. */
  lemma ConnectIsGentle(s: Bytes)
    ensures ConnectCodec.DecodeConnect(s) != Err(Panic)
  {
    HeaderIsGentle(s);
    if DecodeHeader(s).Ok? {
      ConnectBodyIsGentle(s, DecodeHeader(s).value.1);
    }
  }

  lemma SafeFront()
    ensures Safe(ConnectCodec.FrontReader(ConnectCodec.DecodeConnectSection))
  {
    SafeTexts();
    SafeSections();
    assert Safe(ConnectCodec.DecodeProtocol);
    assert Safe(ConnectCodec.DecodeFlags);
    SafeBoth(ConnectCodec.DecodeConnectSection, DecodeString);
    SafeBoth(DecodeU16, Both(ConnectCodec.DecodeConnectSection, DecodeString));
    SafeBoth(ConnectCodec.DecodeFlags, Both(DecodeU16, Both(ConnectCodec.DecodeConnectSection, DecodeString)));
    var last := Both(ConnectCodec.DecodeFlags, Both(DecodeU16, Both(ConnectCodec.DecodeConnectSection, DecodeString)));
    SafeBoth(ConnectCodec.DecodeProtocol, last);
    SafeBoth(DecodeString, Both(ConnectCodec.DecodeProtocol, last));
  }

  lemma SafeBack(flags: byte)
    ensures Safe(ConnectCodec.BackReader(flags))
  {
    var will, user, password := ConnectCodec.IsWill(flags), ConnectCodec.IsUsername(flags), ConnectCodec.IsPassword(flags);
    SafeTexts();
    SafeSections();
    assert Safe(ConnectCodec.WillSection(will)) by {
      forall s: Bytes ensures SafeAt(ConnectCodec.WillSection(will)(s), s) {
        assert SafeAt(ConnectCodec.DecodeWillSection(s), s);
      }
    }
    SafeWhen(will, DecodeTopic);
    SafeWhen(will, DecodeBinary);
    SafeWhen(user, DecodeString);
    SafeWhen(password, DecodeBinary);
    SafeBoth(When(will, DecodeTopic), When(will, DecodeBinary));
    SafeBoth(ConnectCodec.WillSection(will), Both(When(will, DecodeTopic), When(will, DecodeBinary)));
    SafeBoth(When(user, DecodeString), When(password, DecodeBinary));
    SafeBoth(Both(ConnectCodec.WillSection(will), Both(When(will, DecodeTopic), When(will, DecodeBinary))),
             Both(When(user, DecodeString), When(password, DecodeBinary)));
  }

  lemma ConnectBodyIsGentle(s: Bytes, n: nat)
    ensures ConnectCodec.ReadConnect(s, n, ConnectCodec.FrontReader(ConnectCodec.DecodeConnectSection), ConnectCodec.BackReader) != Err(Panic)
  {
    SafeFront();
    SafeField(s, n, ConnectCodec.FrontReader(ConnectCodec.DecodeConnectSection));
    if Field(s, n, ConnectCodec.FrontReader(ConnectCodec.DecodeConnectSection)).Ok? {
      var (f, k) := Field(s, n, ConnectCodec.FrontReader(ConnectCodec.DecodeConnectSection)).value;
      SafeBack(f.1.1.0);
      SafeField(s, k, ConnectCodec.BackReader(f.1.1.0));
      if Field(s, k, ConnectCodec.BackReader(f.1.1.0)).Ok? {
        ConnectCodec.ReadBack(s[k..], f.1.1.0);
      }
    }
  }

  // ----- Encoding a connection -----

  lemma {:induction false} ItemsEncodeGently(ps: seq<Property>)
    ensures EncodeItems(ps, EncodeProperty) != Err(Panic)
  {
    if ps != [] {
      ItemsEncodeGently(ps[1..]);
    }
  }

  lemma FrontEncodesGently(c: ConnectCodec.Connection)
    ensures ConnectCodec.EncodeFront(c) != Err(Panic)
  {
    if c.properties.Some? {
      ItemsEncodeGently(ConnectCodec.ConnectList(c.properties.value));
    }
    assert ConnectCodec.EncodeConnectSection(c.properties) != Err(Panic);
  }

  lemma OptsEncodeGently(s: Option<Str>)
    ensures ConnectCodec.EncodeOpt(s, EncodeTopic) != Err(Panic)
    ensures ConnectCodec.EncodeOpt(s, EncodeString) != Err(Panic) && ConnectCodec.EncodeOpt(s, EncodeBinary) != Err(Panic)
  {
  }

  lemma BackEncodesGently(c: ConnectCodec.Connection)
    ensures ConnectCodec.EncodeBack(c) != Err(Panic)
  {
    if c.willProperties.Some? {
      ItemsEncodeGently(ConnectCodec.WillList(c.willProperties.value));
    }
    assert ConnectCodec.EncodeWillSection(c.willProperties) != Err(Panic);
    OptsEncodeGently(c.willTopic);
    OptsEncodeGently(c.willPayload);
    OptsEncodeGently(c.username);
    OptsEncodeGently(c.password);
  }

  lemma FramesGently(byte1: byte, body: Bytes)
    ensures Framed(byte1, body) != Err(Panic)
  {
  }

  /** A will that is said to be UTF-8 and has no payload, behind flags that announce no will. */
  predicate BareWill(c: ConnectCodec.Connection) {
    && c.protocolName == ConnectCodec.MQTT && c.protocolVersion == ConnectCodec.V5
    && c.flags % 2 == 0 && !ConnectCodec.IsWill(c.flags) && ToQoS(Int(c.flags) / 8 % 4).Ok?
    && c.willProperties.Some? && c.willProperties.value.format.Utf8Payload? && c.willPayload.None?
  }

  lemma ValidateCrash(c: ConnectCodec.Connection)
    ensures ConnectCodec.ValidateConnect(c) == Err(Panic) <==> BareWill(c)
  {
  }

  lemma OnlyValidateCrashes(c: ConnectCodec.Connection, valid: Result<()>, front: Result<Bytes>, back: Result<Bytes>)
    requires valid == ConnectCodec.ValidateConnect(c) && front == ConnectCodec.EncodeFront(c) && back == ConnectCodec.EncodeBack(c)
    requires front != Err(Panic) && back != Err(Panic)
    ensures ConnectCodec.EncodeConnect(c) == Err(Panic) <==> valid == Err(Panic)
  {
    if valid.Ok? && front.Ok? && back.Ok? {
      FramesGently(FixedByte(Connect, false, AtMostOnce, false), front.value + back.value);
    }
  }

  /** Encoding a connection crashes exactly on these. */
  lemma EncodeConnectCrash(c: ConnectCodec.Connection)
    ensures ConnectCodec.EncodeConnect(c) == Err(Panic) <==> BareWill(c)
  {
    FrontEncodesGently(c);
    BackEncodesGently(c);
    ValidateCrash(c);
    OnlyValidateCrashes(c, ConnectCodec.ValidateConnect(c), ConnectCodec.EncodeFront(c), ConnectCodec.EncodeBack(c));
  }

  /** A connection whose will has no topic and no payload and is said to be UTF-8. */
  lemma BareWillCrashes()
    ensures var will := ConnectCodec.NO_WILL.(format := Utf8Payload);
            ConnectCodec.EncodeConnect(ConnectCodec.Connection(ConnectCodec.MQTT, ConnectCodec.V5, 0, 0, None, [], Some(will), None, None, None, None)) == Err(Panic)
  {
  }
}
