/** What the bytes of packets mean, apart from how they are written: flags, property numbers, what may be written and what is refused. */
module PacketLayout {
  import opened Base
  import opened Mqtt
  import opened Topics
  import opened Wire
  import opened ItemLoops
  import opened Properties
  import opened Packets
  import opened WireLayout
  import PublishCodec
  import ConnectCodec
  import SubscribeCodec

  // ----- The flag byte of CONNECT -----

  /** Clean start, will, two bits of will QoS, will retain, user name, password; the lowest bit is reserved. */
  lemma FlagBits(c: nat, w: nat, q: nat, r: nat, u: nat, p: nat)
    requires c < 2 && w < 2 && q < 4 && r < 2 && u < 2 && p < 2
    ensures var flags := 2 * c + 4 * w + 8 * q + 32 * r + 64 * u + 128 * p;
            && (ConnectCodec.IsWill(flags) <==> w == 1) && Int(flags) / 8 % 4 == q
            && (ConnectCodec.IsUsername(flags) <==> u == 1) && (ConnectCodec.IsPassword(flags) <==> p == 1)
  {
    var flags := 2 * c + 4 * w + 8 * q + 32 * r + 64 * u + 128 * p;
    assert flags / 4 == w + 2 * q + 8 * r + 16 * u + 32 * p;
    assert flags / 8 == q + 4 * r + 8 * u + 16 * p;
    assert flags / 64 == u + 2 * p;
  }

  /** In every decoded connection the will, the user name and the password are there exactly as their bits say. */
  lemma DecodedFlags(s: Bytes, c: nat, w: nat, q: nat, r: nat, u: nat, p: nat)
    requires ConnectCodec.DecodeConnect(s).Ok? && c < 2 && w < 2 && q < 4 && r < 2 && u < 2 && p < 2
    requires ConnectCodec.DecodeConnect(s).value.0.flags == 2 * c + 4 * w + 8 * q + 32 * r + 64 * u + 128 * p
    ensures var x := ConnectCodec.DecodeConnect(s).value.0;
            && (x.willTopic.Some? <==> w == 1) && (x.willPayload.Some? <==> w == 1) && (x.willProperties.Some? <==> w == 1)
            && (x.username.Some? <==> u == 1) && (x.password.Some? <==> p == 1)
  {
    ConnectCodec.DecodedConnectAgrees(s);
    FlagsSay(ConnectCodec.DecodeConnect(s).value.0, c, w, q, r, u, p);
  }

  lemma FlagsSay(x: ConnectCodec.Connection, c: nat, w: nat, q: nat, r: nat, u: nat, p: nat)
    requires ConnectCodec.FlagsAgree(x) && c < 2 && w < 2 && q < 4 && r < 2 && u < 2 && p < 2
    requires x.flags == 2 * c + 4 * w + 8 * q + 32 * r + 64 * u + 128 * p
    ensures (x.willTopic.Some? <==> w == 1) && (x.willPayload.Some? <==> w == 1) && (x.willProperties.Some? <==> w == 1)
    ensures (x.username.Some? <==> u == 1) && (x.password.Some? <==> p == 1)
  {
    FlagBits(c, w, q, r, u, p);
  }

  /** What `validate` asks of a connection. */
  lemma ConnectValidation(x: ConnectCodec.Connection, c: nat, w: nat, q: nat, r: nat, u: nat, p: nat, z: nat)
    requires c < 2 && w < 2 && q < 4 && r < 2 && u < 2 && p < 2 && z < 2
    requires x.flags == z + 2 * c + 4 * w + 8 * q + 32 * r + 64 * u + 128 * p
    ensures ConnectCodec.ValidateConnect(x).Ok? <==>
              && x.protocolName == [0x4d, 0x51, 0x54, 0x54] && x.protocolVersion == ConnectCodec.V5 && z == 0 && q != 3
              && (w == 1 ==> x.willTopic.Some? && x.willProperties.Some? && x.willPayload.Some?)
              && (x.willProperties.Some? && x.willProperties.value.format.Utf8Payload? ==> x.willPayload.Some? && IsUtf8(x.willPayload.value))
  {
    if z == 0 {
      FlagBits(c, w, q, r, u, p);
    } else {
      assert x.flags == 1 + 2 * (c + 2 * w + 4 * q + 16 * r + 32 * u + 64 * p);
    }
  }

  // ----- Properties -----

  /** The property numbers of section 2.2.2.2 of MQTT Version 5.0 up to 18. */
  lemma LowNumbers()
    ensures Code(PayloadFormatIndicator) == 1 && Code(MessageExpiryInterval) == 2 && Code(ContentType) == 3
    ensures Code(ResponseTopic) == 8 && Code(CorrelationData) == 9 && Code(SubscriptionIdentifier) == 11
    ensures Code(SessionExpiryInterval) == 17 && Code(AssignedClientIdentifier) == 18
  {
  }

  /** Those from 19 to 31. */
  lemma MiddleNumbers()
    ensures Code(ServerKeepAlive) == 19 && Code(AuthenticationMethod) == 21 && Code(AuthenticationData) == 22
    ensures Code(RequestProblemInformation) == 23 && Code(WillDelayInterval) == 24 && Code(RequestResponseInformation) == 25
    ensures Code(ResponseInformation) == 26 && Code(ServerReference) == 28 && Code(ReasonString) == 31
  {
  }

  /** Those from 33 on. */
  lemma HighNumbers()
    ensures Code(ReceiveMaximum) == 33 && Code(TopicAliasMaximum) == 34 && Code(TopicAlias) == 35
    ensures Code(MaximumQoS) == 36 && Code(RetainAvailable) == 37 && Code(UserProp) == 38
  {
  }

  /** And the rest. */
  lemma HighestNumbers()
    ensures Code(MaximumPacketSize) == 39 && Code(WildcardSubscriptionAvailable) == 40 && Code(SubscriptionIdentifierAvailable) == 41
    ensures Code(SharedSubscriptionAvailable) == 42
  {
  }

  /** And how their values are written. */
  lemma PropertyForms(pt: PropertyType)
    ensures KindOf(pt) ==
              if pt in {PayloadFormatIndicator, RequestProblemInformation, RequestResponseInformation, RetainAvailable,
                        WildcardSubscriptionAvailable, SubscriptionIdentifierAvailable, SharedSubscriptionAvailable} then KOneByte
              else if pt in {ServerKeepAlive, ReceiveMaximum, TopicAliasMaximum, TopicAlias} then KTwoBytes
              else if pt in {MessageExpiryInterval, SessionExpiryInterval, WillDelayInterval, MaximumPacketSize} then KFourBytes
              else if pt == SubscriptionIdentifier then KVarInt
              else if pt in {CorrelationData, AuthenticationData} then KBinary
              else if pt == ResponseTopic then KTopic
              else if pt == UserProp then KPair
              else if pt == MaximumQoS then KService
              else KText
  {
  }

  /** A property that may not repeat and does makes the whole section unreadable. */
  lemma {:induction false} RepeatsAreRefused<T>(ps: seq<Property>, g: Gathered<T>, rules: Rules<T>, i: nat)
    requires i < |ps| && ps[i].pt !in rules.repeatable && (ps[i].pt in g.seen || exists j :: 0 <= j < i && ps[j].pt == ps[i].pt)
    ensures Fold(ps, g, Entering(rules)).Err?
    decreases |ps|
  {
    var next := Enter(g, ps[0], rules);
    if i > 0 && next.Ok? {
      assert ps[1..][i - 1] == ps[i];
      if ps[0].pt != ps[i].pt && ps[i].pt !in g.seen {
        var j :| 0 <= j < i && ps[j].pt == ps[i].pt;
        assert ps[1..][j - 1] == ps[j];
      }
      RepeatsAreRefused(ps[1..], next.value, rules, i - 1);
    }
  }

  lemma BuildOne<T>(p: Property, default: T, rules: Rules<T>)
    ensures Build([p], default, rules) == rules.apply(default, p)
  {
    assert [p][1..] == [] && [p][0] == p;
    var next := Enter(Gathered({}, default), p, rules);
    assert Entering(rules)(Gathered({}, default), p) == next;
    if next.Ok? {
      assert Fold([p], Gathered({}, default), Entering(rules)) == Fold([], next.value, Entering(rules));
    }
  }

  /** Which property a PUBLISH may carry, also of those that are never written. */
  lemma PublishProperty(p: Property)
    requires Fits(p)
    ensures Build([p], PublishCodec.NO_PROPS, PublishCodec.PUBLISH_RULES).Ok? <==>
              match p.value
              case OneByte(b) => p.pt == PayloadFormatIndicator && b <= 1
              case TwoBytes(h) => p.pt == TopicAlias && h != 0
              case FourBytes(_) => p.pt == MessageExpiryInterval
              case VarInt(_) => true
              case Text(_) => p.pt == ContentType
              case Topic(_) => true
              case Binary(_) => p.pt == CorrelationData
              case Pair(_, _) => true
              case Service(_) => false
    ensures p == Property(PayloadFormatIndicator, OneByte(0)) ==>
              Build([p], PublishCodec.NO_PROPS, PublishCodec.PUBLISH_RULES) == Ok(PublishCodec.NO_PROPS)
    ensures PublishCodec.PUBLISH_RULES.repeatable == {UserProp, SubscriptionIdentifier}
  {
    BuildOne(p, PublishCodec.NO_PROPS, PublishCodec.PUBLISH_RULES);
    PropertyForms(p.pt);
  }

  /** Likewise a CONNECT. */
  lemma ConnectProperty(p: Property)
    requires Fits(p)
    ensures Build([p], ConnectCodec.NO_CONNECT, ConnectCodec.CONNECT_RULES).Ok? <==>
              match p.value
              case OneByte(b) => p.pt in {RequestResponseInformation, RequestProblemInformation} && b <= 1
              case TwoBytes(h) => (p.pt == ReceiveMaximum && h != 0) || p.pt == TopicAliasMaximum
              case FourBytes(w) => p.pt == SessionExpiryInterval || (p.pt == MaximumPacketSize && w != 0)
              case Text(_) => p.pt == AuthenticationMethod
              case Binary(_) => p.pt == AuthenticationData
              case Pair(_, _) => true
              case _ => false
    ensures ConnectCodec.CONNECT_RULES.repeatable == {UserProp}
  {
    BuildOne(p, ConnectCodec.NO_CONNECT, ConnectCodec.CONNECT_RULES);
    PropertyForms(p.pt);
  }

  /** Likewise a will. */
  lemma WillProperty(p: Property)
    requires Fits(p)
    ensures Build([p], ConnectCodec.NO_WILL, ConnectCodec.WILL_RULES).Ok? <==>
              match p.value
              case OneByte(b) => p.pt == PayloadFormatIndicator && b <= 1
              case FourBytes(_) => p.pt in {WillDelayInterval, MessageExpiryInterval}
              case Text(_) => p.pt == ContentType
              case Topic(_) => true
              case Binary(_) => p.pt == CorrelationData
              case Pair(_, _) => true
              case _ => false
    ensures ConnectCodec.WILL_RULES.repeatable == {UserProp}
  {
    BuildOne(p, ConnectCodec.NO_WILL, ConnectCodec.WILL_RULES);
    PropertyForms(p.pt);
  }

  /** Likewise a SUBSCRIBE. */
  lemma SubscribeProperty(p: Property)
    requires Fits(p)
    ensures Build([p], SubscribeCodec.NO_SUBSCRIBE, SubscribeCodec.SUBSCRIBE_RULES).Ok? <==>
              (p.value.VarInt? && p.value.n != 0) || p.value.Pair?
    ensures SubscribeCodec.SUBSCRIBE_RULES.repeatable == {UserProp}
  {
    BuildOne(p, SubscribeCodec.NO_SUBSCRIBE, SubscribeCodec.SUBSCRIBE_RULES);
    PropertyForms(p.pt);
  }

  // ----- What can be written -----

  function VarSize(n: nat): nat {
    if n < 128 then 1 else if n < 16_384 then 2 else if n < 2_097_152 then 3 else 4
  }

  predicate StringFits(s: Str) {
    IsText(s) && |s| <= 65535
  }

  predicate Encodable(v: Value) {
    match v
    case VarInt(n) => n <= 268_435_455
    case Text(s) => StringFits(s)
    case Topic(name) => ValidateName(name).Ok? && StringFits(name)
    case Binary(bs) => |bs| <= 65535
    case Pair(key, val) => StringFits(key) && StringFits(val)
    case _ => true
  }

  function ValueSize(v: Value): nat {
    match v
    case OneByte(_) => 1
    case TwoBytes(_) => 2
    case FourBytes(_) => 4
    case VarInt(n) => VarSize(n)
    case Text(s) => 2 + |s|
    case Topic(name) => 2 + |name|
    case Binary(bs) => 2 + |bs|
    case Pair(key, val) => 4 + |key| + |val|
    case Service(_) => 1
  }

  lemma ValueEncodes(v: Value)
    ensures EncodeValue(v).Ok? <==> Encodable(v)
    ensures Encodable(v) ==> |EncodeValue(v).value| == ValueSize(v)
  {
  }

  lemma PropertyEncodes(p: Property)
    ensures EncodeProperty(p).Ok? <==> Encodable(p.value)
    ensures Encodable(p.value) ==> |EncodeProperty(p).value| == 1 + ValueSize(p.value)
  {
    ValueEncodes(p.value);
  }

  ghost predicate AllEncodable(ps: seq<Property>) {
    forall i :: 0 <= i < |ps| ==> Encodable(ps[i].value)
  }

  function PropsSize(ps: seq<Property>): nat {
    if ps == [] then 0 else 1 + ValueSize(ps[0].value) + PropsSize(ps[1..])
  }

  lemma {:induction false} ItemsEncode(ps: seq<Property>)
    ensures EncodeItems(ps, EncodeProperty).Ok? <==> AllEncodable(ps)
    ensures AllEncodable(ps) ==> |EncodeItems(ps, EncodeProperty).value| == PropsSize(ps)
  {
    if ps != [] {
      ItemsEncode(ps[1..]);
      PropertyEncodes(ps[0]);
      assert AllEncodable(ps) <==> Encodable(ps[0].value) && AllEncodable(ps[1..]) by {
        assert ps == [ps[0]] + ps[1..];
        assert forall i :: 0 < i < |ps| ==> ps[i] == ps[1..][i - 1];
        if Encodable(ps[0].value) && AllEncodable(ps[1..]) {
          forall i | 0 <= i < |ps| ensures Encodable(ps[i].value) {
            assert i > 0 ==> Encodable(ps[1..][i - 1].value);
          }
        }
        if AllEncodable(ps) {
          forall i | 0 <= i < |ps[1..]| ensures Encodable(ps[1..][i].value) {
            assert ps[1..][i] == ps[i + 1];
          }
        }
      }
    }
  }

  /** The properties of a section, if there are any, with the length in front. */
  function SectionSize(ps: seq<Property>): nat {
    VarSize(PropsSize(ps)) + PropsSize(ps)
  }

  lemma SectionEncodes(ps: seq<Property>)
    ensures EncodeProps(ps).Ok? <==> AllEncodable(ps) && PropsSize(ps) <= 268_435_455
    ensures EncodeProps(ps).Ok? ==> |EncodeProps(ps).value| == SectionSize(ps)
  {
    ItemsEncode(ps);
  }

  /** A frame can be written exactly if its first byte is valid and its body is not too long. */
  lemma FrameEncodes(byte1: byte, body: Bytes)
    requires ValidateHeader(byte1).Ok?
    ensures Framed(byte1, body).Ok? <==> |body| <= 268_435_455
    ensures Framed(byte1, body).Ok? ==> Framed(byte1, body).value == [byte1] + EncodeVar(|body|).value + body
  {
  }

  function PublishSize(p: PublishCodec.Publication): nat {
    2 + |p.topicName| + (if p.packetId.Some? then 2 else 0)
    + (if p.properties.Some? then SectionSize(PublishCodec.PublishList(p.properties.value)) else 1)
    + (if p.payload.Some? then |p.payload.value| else 0)
  }

  /** A publication can be written exactly if its topic and properties can and it is not too long. */
  lemma PublishEncodes(p: PublishCodec.Publication)
    ensures PublishCodec.EncodePublish(p).Ok? <==>
              && ValidateName(p.topicName).Ok? && StringFits(p.topicName)
              && (p.properties.Some? ==> AllEncodable(PublishCodec.PublishList(p.properties.value)))
              && PublishSize(p) <= 268_435_455
  {
    UnwrapFixedByte(Publish, p.retain, p.qos, p.duplicate);
    StringLayout(p.topicName);
    BinaryLayout(p.topicName, []);
    if p.properties.Some? {
      SectionEncodes(PublishCodec.PublishList(p.properties.value));
    }
    if PublishCodec.PublishBody(p).Ok? {
      FrameEncodes(FixedByte(Publish, p.retain, p.qos, p.duplicate), PublishCodec.PublishBody(p).value);
    }
  }

  function FiltersSize(fs: seq<SubscribeCodec.SubscribeFilter>): nat {
    if fs == [] then 0 else 3 + |fs[0].topicFilter| + FiltersSize(fs[1..])
  }

  ghost predicate FiltersFit(fs: seq<SubscribeCodec.SubscribeFilter>) {
    forall i :: 0 <= i < |fs| ==> ValidateFilter(fs[i].topicFilter).Ok? && StringFits(fs[i].topicFilter)
  }

  lemma {:induction false} FiltersEncode(fs: seq<SubscribeCodec.SubscribeFilter>)
    ensures EncodeItems(fs, SubscribeCodec.EncodeSubscribeFilter).Ok? <==> FiltersFit(fs)
    ensures FiltersFit(fs) ==> |EncodeItems(fs, SubscribeCodec.EncodeSubscribeFilter).value| == FiltersSize(fs)
  {
    if fs != [] {
      FiltersEncode(fs[1..]);
      StringLayout(fs[0].topicFilter);
      BinaryLayout(fs[0].topicFilter, []);
      assert forall i :: 0 < i < |fs| ==> fs[i] == fs[1..][i - 1];
      if FiltersFit(fs) {
        forall i | 0 <= i < |fs[1..]| ensures ValidateFilter(fs[1..][i].topicFilter).Ok? && StringFits(fs[1..][i].topicFilter) {
          assert fs[1..][i] == fs[i + 1];
        }
      }
    }
  }

  function SubscribeSize(p: SubscribeCodec.Subscribing): nat {
    2 + (if p.properties.Some? then SectionSize(SubscribeCodec.SubscribeList(p.properties.value)) else 1) + FiltersSize(p.filters)
  }

  /** A SUBSCRIBE can be written exactly if it has filters, all of them and their options valid, its properties can be, and it is not too long. */
  lemma SubscribeEncodes(p: SubscribeCodec.Subscribing)
    ensures SubscribeCodec.EncodeSubscribe(p).Ok? <==>
              && p.filters != [] && FiltersFit(p.filters)
              && (forall i :: 0 <= i < |p.filters| ==> var o := Int(p.filters[i].opt); o < 64 && o / 16 != 3 && o % 4 != 3)
              && (p.properties.Some? ==> AllEncodable(SubscribeCodec.SubscribeList(p.properties.value)))
              && SubscribeSize(p) <= 268_435_455
  {
    UnwrapFixedByte(Subscribe, false, AtLeastOnce, false);
    FiltersEncode(p.filters);
    if p.properties.Some? {
      SectionEncodes(SubscribeCodec.SubscribeList(p.properties.value));
    }
    OptionsValid(p);
    if SubscribeCodec.SubscribeBody(p).Ok? {
      FrameEncodes(FixedByte(Subscribe, false, AtLeastOnce, false), SubscribeCodec.SubscribeBody(p).value);
    }
  }

  lemma OptionsValid(p: SubscribeCodec.Subscribing)
    ensures SubscribeCodec.ValidateSubscribe(p).Ok? <==>
              p.filters != [] && forall i :: 0 <= i < |p.filters| ==> var o := Int(p.filters[i].opt); o < 64 && o / 16 != 3 && o % 4 != 3
  {
    forall i | 0 <= i < |p.filters|
      ensures SubscribeCodec.OptValid(p.filters[i].opt) <==> var o := Int(p.filters[i].opt); o < 64 && o / 16 != 3 && o % 4 != 3
    {
    }
  }

  function OptSize(v: Option<Bytes>): nat {
    if v.Some? then 2 + |v.value| else 0
  }

  function ConnectSize(c: ConnectCodec.Connection): nat {
    10 + (if c.properties.Some? then SectionSize(ConnectCodec.ConnectList(c.properties.value)) else 1) + (2 + |c.clientId|)
    + (if c.willProperties.Some? then SectionSize(ConnectCodec.WillList(c.willProperties.value)) else 0)
    + OptSize(c.willTopic) + OptSize(c.willPayload) + OptSize(c.username) + OptSize(c.password)
  }

  ghost predicate FieldsFit(c: ConnectCodec.Connection) {
    && (c.properties.Some? ==> AllEncodable(ConnectCodec.ConnectList(c.properties.value))) && StringFits(c.clientId)
    && (c.willProperties.Some? ==> AllEncodable(ConnectCodec.WillList(c.willProperties.value)))
    && (c.willTopic.Some? ==> ValidateName(c.willTopic.value).Ok? && StringFits(c.willTopic.value))
    && (c.willPayload.Some? ==> |c.willPayload.value| <= 65535)
    && (c.username.Some? ==> StringFits(c.username.value)) && (c.password.Some? ==> |c.password.value| <= 65535)
  }

  /** Printable ASCII is text. */
  lemma {:induction false} PlainIsText(s: Str)
    requires forall i :: 0 <= i < |s| ==> 0x20 <= s[i] < 0x7F
    ensures IsText(s)
  {
    if s != [] {
      PlainIsText(s[1..]);
    }
  }

  lemma NameEncodes()
    ensures EncodeString(ConnectCodec.MQTT).Ok? && |EncodeString(ConnectCodec.MQTT).value| == 6
    ensures EncodeString(ConnectCodec.MQTT).value == [0, 4, 0x4d, 0x51, 0x54, 0x54]
  {
    PlainIsText(ConnectCodec.MQTT);
    assert EncodeU16(4) == [0, 4];
    assert [0, 4] + ConnectCodec.MQTT == [0, 4, 0x4d, 0x51, 0x54, 0x54];
  }

  lemma FrontEncodes(c: ConnectCodec.Connection)
    requires c.protocolName == ConnectCodec.MQTT
    ensures ConnectCodec.EncodeFront(c).Ok? <==>
              && StringFits(c.clientId)
              && (c.properties.Some? ==> AllEncodable(ConnectCodec.ConnectList(c.properties.value)) && PropsSize(ConnectCodec.ConnectList(c.properties.value)) <= 268_435_455)
    ensures ConnectCodec.EncodeFront(c).Ok? ==>
              |ConnectCodec.EncodeFront(c).value| ==
              10 + (if c.properties.Some? then SectionSize(ConnectCodec.ConnectList(c.properties.value)) else 1) + (2 + |c.clientId|)
  {
    NameEncodes();
    BinaryLayout(c.clientId, []);
    ConnectSectionEncodes(c.properties);
  }

  lemma ConnectSectionEncodes(r: Option<ConnectCodec.ConnectProps>)
    ensures var e := ConnectCodec.EncodeConnectSection(r);
            && (e.Ok? <==> (r.Some? ==> AllEncodable(ConnectCodec.ConnectList(r.value)) && PropsSize(ConnectCodec.ConnectList(r.value)) <= 268_435_455))
            && (e.Ok? ==> |e.value| == if r.Some? then SectionSize(ConnectCodec.ConnectList(r.value)) else 1)
  {
    if r.Some? {
      SectionEncodes(ConnectCodec.ConnectList(r.value));
    }
  }

  lemma BackEncodes(c: ConnectCodec.Connection)
    ensures ConnectCodec.EncodeBack(c).Ok? <==>
              && (c.willProperties.Some? ==> AllEncodable(ConnectCodec.WillList(c.willProperties.value)) && PropsSize(ConnectCodec.WillList(c.willProperties.value)) <= 268_435_455)
              && (c.willTopic.Some? ==> ValidateName(c.willTopic.value).Ok? && StringFits(c.willTopic.value))
              && (c.willPayload.Some? ==> |c.willPayload.value| <= 65535)
              && (c.username.Some? ==> StringFits(c.username.value)) && (c.password.Some? ==> |c.password.value| <= 65535)
    ensures ConnectCodec.EncodeBack(c).Ok? ==>
              |ConnectCodec.EncodeBack(c).value| ==
              (if c.willProperties.Some? then SectionSize(ConnectCodec.WillList(c.willProperties.value)) else 0)
              + OptSize(c.willTopic) + OptSize(c.willPayload) + OptSize(c.username) + OptSize(c.password)
  {
    if c.willProperties.Some? {
      SectionEncodes(ConnectCodec.WillList(c.willProperties.value));
    }
    if c.willTopic.Some? {
      StringLayout(c.willTopic.value);
    }
  }

  /** A connection can be written exactly if it is valid, its fields can be, and it is not too long. */
  lemma ConnectEncodes(c: ConnectCodec.Connection)
    ensures ConnectCodec.EncodeConnect(c).Ok? <==>
              ConnectCodec.ValidateConnect(c).Ok? && FieldsFit(c) && ConnectSize(c) <= 268_435_455
  {
    ConnectFramed(c);
    if ConnectCodec.ValidateConnect(c).Ok? {
      FrontEncodes(c);
      BackEncodes(c);
    }
  }

  // ----- Whole packets, byte by byte -----

  /** Data behind its length, high byte first. */
  function Prefixed(data: Bytes): Bytes
    requires |data| <= 65535
  {
    [|data| / 256, |data| % 256] + data
  }

  predicate Short(data: Option<Bytes>) {
    data.Some? ==> |data.value| <= 65535
  }

  function OptPrefixed(data: Option<Bytes>): Bytes
    requires Short(data)
  {
    if data.Some? then Prefixed(data.value) else []
  }

  /** The bytes of a property value. */
  lemma ValueLayout(v: Value)
    requires Encodable(v)
    ensures EncodeValue(v).value ==
              match v
              case OneByte(b) => [b]
              case TwoBytes(h) => [h / 256, h % 256]
              case FourBytes(w) => [w / 0x100_0000, w / 0x1_0000 % 256, w / 256 % 256, w % 256]
              case VarInt(n) => EncodeVar(n).value
              case Text(s) => Prefixed(s)
              case Topic(name) => Prefixed(name)
              case Binary(bs) => Prefixed(bs)
              case Pair(key, val) => Prefixed(key) + Prefixed(val)
              case Service(qos) => [qos.Level()]
  {
    ValueEncodes(v);
    match v
    case FourBytes(w) => FourDigits(w);
    case _ =>
  }

  lemma FourDigits(w: u32)
    ensures EncodeU32(w) == [w / 0x100_0000, w / 0x1_0000 % 256, w / 256 % 256, w % 256]
  {
    var high, low := w / 0x1_0000, w % 0x1_0000;
    HighHalf(w);
    LowHalf(high, low);
    assert EncodeU32(w) == [high / 256, high % 256, low / 256, low % 256];
  }

  lemma HighHalf(w: nat)
    ensures w / 0x1_0000 / 256 == w / 0x100_0000
  {
  }

  lemma LowHalf(high: nat, low: nat)
    requires low < 0x1_0000
    ensures var w := 0x1_0000 * high + low; low / 256 == w / 256 % 256 && low % 256 == w % 256
  {
    assert (0x1_0000 * high + low) / 256 == 256 * high + low / 256;
  }

  /** Number and value of each property, one after the other. */
  function PropBytes(ps: seq<Property>): Bytes
    requires forall i :: 0 <= i < |ps| ==> Encodable(ps[i].value)
  {
    if ps == [] then [] else (ValueEncodes(ps[0].value); [Code(ps[0].pt)] + EncodeValue(ps[0].value).value + PropBytes(ps[1..]))
  }

  lemma {:induction false} ItemsLayout(ps: seq<Property>)
    requires AllEncodable(ps)
    ensures EncodeItems(ps, EncodeProperty) == Ok(PropBytes(ps))
  {
    if ps != [] {
      ItemsLayout(ps[1..]);
      ValueEncodes(ps[0].value);
    }
  }

  /** A section is its length, then its properties. */
  lemma SectionLayout(ps: seq<Property>)
    requires EncodeProps(ps).Ok?
    ensures AllEncodable(ps) && EncodeVar(|PropBytes(ps)|).Ok?
    ensures EncodeProps(ps).value == EncodeVar(|PropBytes(ps)|).value + PropBytes(ps)
  {
    SectionEncodes(ps);
    ItemsLayout(ps);
  }

  /** Flags, topic, packet id if there is one, properties, payload. */
  lemma PublishLayout(p: PublishCodec.Publication)
    requires PublishCodec.EncodePublish(p).Ok?
    ensures |p.topicName| <= 65535 && PublishCodec.EncodePublishSection(p.properties).Ok?
    ensures var body := Prefixed(p.topicName)
                        + (if p.packetId.Some? then [p.packetId.value / 256, p.packetId.value % 256] else [])
                        + PublishCodec.EncodePublishSection(p.properties).value
                        + (if p.payload.Some? then p.payload.value else []);
            |body| <= 268_435_455 &&
            PublishCodec.EncodePublish(p).value ==
            [0x30 + (if p.retain then 1 else 0) + 2 * p.qos.Level() + (if p.duplicate then 8 else 0)] + EncodeVar(|body|).value + body
  {
    StringLayout(p.topicName);
    BinaryLayout(p.topicName, []);
    UnwrapFixedByte(Publish, p.retain, p.qos, p.duplicate);
    FrameEncodes(FixedByte(Publish, p.retain, p.qos, p.duplicate), PublishCodec.PublishBody(p).value);
  }

  function FilterBytes(fs: seq<SubscribeCodec.SubscribeFilter>): Bytes
    requires forall i :: 0 <= i < |fs| ==> |fs[i].topicFilter| <= 65535
  {
    if fs == [] then [] else Prefixed(fs[0].topicFilter) + [fs[0].opt] + FilterBytes(fs[1..])
  }

  lemma {:induction false} FiltersLayout(fs: seq<SubscribeCodec.SubscribeFilter>)
    requires EncodeItems(fs, SubscribeCodec.EncodeSubscribeFilter).Ok?
    ensures (forall i :: 0 <= i < |fs| ==> |fs[i].topicFilter| <= 65535)
    ensures EncodeItems(fs, SubscribeCodec.EncodeSubscribeFilter).value == FilterBytes(fs)
  {
    FiltersEncode(fs);
    if fs != [] {
      FiltersLayout(fs[1..]);
      StringLayout(fs[0].topicFilter);
      BinaryLayout(fs[0].topicFilter, []);
    }
  }

  /** Packet id, properties, and each filter with its option byte. */
  lemma SubscribeLayout(p: SubscribeCodec.Subscribing)
    requires SubscribeCodec.EncodeSubscribe(p).Ok?
    ensures SubscribeCodec.EncodeSubscribeSection(p.properties).Ok? && (forall i :: 0 <= i < |p.filters| ==> |p.filters[i].topicFilter| <= 65535)
    ensures var body := [p.packetId / 256, p.packetId % 256] + SubscribeCodec.EncodeSubscribeSection(p.properties).value + FilterBytes(p.filters);
            |body| <= 268_435_455 && SubscribeCodec.EncodeSubscribe(p).value == [0x82] + EncodeVar(|body|).value + body
  {
    FiltersLayout(p.filters);
    UnwrapFixedByte(Subscribe, false, AtLeastOnce, false);
    FrameEncodes(FixedByte(Subscribe, false, AtLeastOnce, false), SubscribeCodec.SubscribeBody(p).value);
  }

  lemma FrontLayout(c: ConnectCodec.Connection)
    requires ConnectCodec.EncodeFront(c).Ok? && c.protocolName == ConnectCodec.MQTT && c.protocolVersion == ConnectCodec.V5
    ensures |c.clientId| <= 65535 && ConnectCodec.EncodeConnectSection(c.properties).Ok?
    ensures ConnectCodec.EncodeFront(c).value ==
            [0, 4, 0x4d, 0x51, 0x54, 0x54, 5, c.flags, c.keepAlive / 256, c.keepAlive % 256]
            + ConnectCodec.EncodeConnectSection(c.properties).value + Prefixed(c.clientId)
  {
    NameEncodes();
    BinaryLayout(c.clientId, []);
    Grouped([0, 4, 0x4d, 0x51, 0x54, 0x54], c.flags, c.keepAlive, ConnectCodec.EncodeConnectSection(c.properties).value, Prefixed(c.clientId));
  }

  lemma Grouped(name: Bytes, flags: byte, keepAlive: u16, props: Bytes, id: Bytes)
    ensures name + ([5] + ([flags] + (EncodeU16(keepAlive) + (props + id)))) == name + [5, flags, keepAlive / 256, keepAlive % 256] + props + id
  {
  }

  lemma BackLayout(c: ConnectCodec.Connection)
    requires ConnectCodec.EncodeBack(c).Ok?
    ensures ConnectCodec.EncodeWillSection(c.willProperties).Ok? && Short(c.willTopic) && Short(c.willPayload) && Short(c.username) && Short(c.password)
    ensures ConnectCodec.EncodeBack(c).value ==
            ConnectCodec.EncodeWillSection(c.willProperties).value + OptPrefixed(c.willTopic) + OptPrefixed(c.willPayload)
            + OptPrefixed(c.username) + OptPrefixed(c.password)
  {
    BackEncodes(c);
    OptLayout(c.willTopic);
    OptLayout(c.willPayload);
    OptLayout(c.username);
    OptLayout(c.password);
    var will := ConnectCodec.EncodeWillSection(c.willProperties).value;
    FiveGrouped(will, OptPrefixed(c.willTopic), OptPrefixed(c.willPayload), OptPrefixed(c.username), OptPrefixed(c.password));
  }

  lemma OptLayout(v: Option<Bytes>)
    requires Short(v)
    ensures ConnectCodec.EncodeOpt(v, EncodeBinary) == Ok(OptPrefixed(v))
    ensures ConnectCodec.EncodeOpt(v, EncodeString).Ok? ==> ConnectCodec.EncodeOpt(v, EncodeString) == Ok(OptPrefixed(v))
    ensures ConnectCodec.EncodeOpt(v, EncodeTopic).Ok? ==> ConnectCodec.EncodeOpt(v, EncodeTopic) == Ok(OptPrefixed(v))
  {
    if v.Some? {
      BinaryLayout(v.value, []);
      StringLayout(v.value);
    }
  }

  lemma FiveGrouped(a: Bytes, b: Bytes, c: Bytes, d: Bytes, e: Bytes)
    ensures (a + (b + c)) + (d + e) == a + b + c + d + e
  {
  }

  /** Name, version, flags and keep alive, properties, client id, the will, user name and password. */
  lemma ConnectLayout(c: ConnectCodec.Connection)
    requires ConnectCodec.EncodeConnect(c).Ok?
    ensures |c.clientId| <= 65535 && ConnectCodec.EncodeConnectSection(c.properties).Ok?
    ensures ConnectCodec.EncodeWillSection(c.willProperties).Ok? && Short(c.willTopic) && Short(c.willPayload) && Short(c.username) && Short(c.password)
    ensures var body := [0, 4, 0x4d, 0x51, 0x54, 0x54, 5, c.flags, c.keepAlive / 256, c.keepAlive % 256]
                        + ConnectCodec.EncodeConnectSection(c.properties).value + Prefixed(c.clientId)
                        + (ConnectCodec.EncodeWillSection(c.willProperties).value + OptPrefixed(c.willTopic) + OptPrefixed(c.willPayload)
                           + OptPrefixed(c.username) + OptPrefixed(c.password));
            |body| <= 268_435_455 && ConnectCodec.EncodeConnect(c).value == [0x10] + EncodeVar(|body|).value + body
  {
    FrontLayout(c);
    BackLayout(c);
    ConnectFramed(c);
  }

  lemma ConnectFramed(c: ConnectCodec.Connection)
    ensures ConnectCodec.EncodeConnect(c).Ok? <==>
              && ConnectCodec.ValidateConnect(c).Ok? && ConnectCodec.EncodeFront(c).Ok? && ConnectCodec.EncodeBack(c).Ok?
              && |ConnectCodec.EncodeFront(c).value| + |ConnectCodec.EncodeBack(c).value| <= 268_435_455
    ensures ConnectCodec.EncodeConnect(c).Ok? ==>
              var body := ConnectCodec.EncodeFront(c).value + ConnectCodec.EncodeBack(c).value;
              EncodeVar(|body|).Ok? && ConnectCodec.EncodeConnect(c).value == [0x10] + EncodeVar(|body|).value + body
  {
    UnwrapFixedByte(Connect, false, AtMostOnce, false);
    if ConnectCodec.ConnectBody(c).Ok? {
      FrameEncodes(FixedByte(Connect, false, AtMostOnce, false), ConnectCodec.ConnectBody(c).value);
    }
  }

  // ----- Where decoding ends -----

  /** A section that is read ends where its length says, also where a property runs over it; only an empty one is nothing. */
  lemma SectionEnds<T>(s: Bytes, default: T, rules: Rules<T>)
    requires DecodeSection(s, default, rules).Ok?
    ensures DecodeVar(s).Ok?
    ensures var (props, n) := DecodeSection(s, default, rules).value;
            n == DecodeVar(s).value.1 + DecodeVar(s).value.0 && (props.None? <==> DecodeVar(s).value.0 == 0)
  {
  }

  /** A PUBLISH that is read ends where its header says. */
  lemma PublishEnds(s: Bytes)
    requires PublishCodec.DecodePublish(s).Ok?
    ensures DecodeHeader(s).Ok? && PublishCodec.DecodePublish(s).value.1 == DecodeHeader(s).value.1 + DecodeHeader(s).value.0.remainingLen
  {
  }

  /** Likewise a SUBSCRIBE, and all of it is there. */
  lemma SubscribeEnds(s: Bytes)
    requires SubscribeCodec.DecodeSubscribe(s).Ok?
    ensures DecodeHeader(s).Ok? &&
            SubscribeCodec.DecodeSubscribe(s).value.1 == DecodeHeader(s).value.1 + DecodeHeader(s).value.0.remainingLen <= |s|
  {
  }
}
