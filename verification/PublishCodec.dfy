/** PUBLISH (section 3.3 of MQTT Version 5.0): encode, decode, and when they undo each other. */
module PublishCodec {
  import opened Base
  import opened Mqtt
  import opened Wire
  import opened ItemLoops
  import opened Properties
  import opened Packets

  datatype PublishProps = PublishProps(
    format: PayloadFormat,
    messageExpiry: Option<u32>,
    topicAlias: Option<u16>,
    responseTopic: Option<Str>,
    correlationData: Option<Bytes>,
    subscriptionIds: seq<nat>,
    contentType: Option<Str>,
    userProperties: seq<(Str, Str)>)

  datatype Publication = Publication(
    retain: bool,
    qos: QoS,
    duplicate: bool,
    topicName: Str,
    packetId: Option<u16>,
    properties: Option<PublishProps>,
    payload: Option<Bytes>)

  const NO_PROPS := PublishProps(RawPayload, None, None, None, None, [], None, [])

  // ----- Properties -----

  /** The properties `encode` writes, in its order. */
  function PublishList(r: PublishProps): seq<Property> {
    Opt(FormatProp(r.format))
    + (Opt(FourByteProp(MessageExpiryInterval, r.messageExpiry))
       + (Opt(TwoByteProp(TopicAlias, r.topicAlias))
          + (Opt(TopicProp(ResponseTopic, r.responseTopic))
             + (Opt(BinaryProp(CorrelationData, r.correlationData))
                + (Opt(TextProp(ContentType, r.contentType))
                   + (IdList(r.subscriptionIds) + (UserList(r.userProperties) + [])))))))
  }

  /** The `match property` of `PublishProperties::decode`. */
  function ApplyPublish(r: PublishProps, p: Property): Result<PublishProps> {
    match (p.pt, p.value)
    case (PayloadFormatIndicator, OneByte(b)) =>
      if b == 0 then Ok(r.(format := RawPayload))
      else if b == 1 then Ok(r.(format := Utf8Payload))
      else Err(MalformedPacket)
    case (MessageExpiryInterval, FourBytes(w)) => Ok(r.(messageExpiry := Some(w)))
    case (TopicAlias, TwoBytes(h)) => if h == 0 then Err(ProtocolError) else Ok(r.(topicAlias := Some(h)))
    case (ResponseTopic, Topic(s)) => Ok(r.(responseTopic := Some(s)))
    case (CorrelationData, Binary(bs)) => Ok(r.(correlationData := Some(bs)))
    case (SubscriptionIdentifier, VarInt(n)) => Ok(r.(subscriptionIds := r.subscriptionIds + [n]))
    case (ContentType, Text(s)) => Ok(r.(contentType := Some(s)))
    case (UserProp, Pair(k, v)) => Ok(r.(userProperties := r.userProperties + [(k, v)]))
    case _ => Err(ProtocolError)
  }

  const PUBLISH_RULES: Rules<PublishProps> := Rules({UserProp, SubscriptionIdentifier}, ApplyPublish)

  lemma PublishListFits(r: PublishProps)
    ensures AllFit(PublishList(r))
    ensures PublishList(r) == [] <==> r == NO_PROPS
  {
    var l6 := IdList(r.subscriptionIds) + (UserList(r.userProperties) + []);
    var l5 := Opt(TextProp(ContentType, r.contentType)) + l6;
    var l4 := Opt(BinaryProp(CorrelationData, r.correlationData)) + l5;
    var l3 := Opt(TopicProp(ResponseTopic, r.responseTopic)) + l4;
    var l2 := Opt(TwoByteProp(TopicAlias, r.topicAlias)) + l3;
    var l1 := Opt(FourByteProp(MessageExpiryInterval, r.messageExpiry)) + l2;
    AllFitAppend(IdList(r.subscriptionIds), UserList(r.userProperties) + []);
    AllFitAppend(Opt(TextProp(ContentType, r.contentType)), l6);
    AllFitAppend(Opt(BinaryProp(CorrelationData, r.correlationData)), l5);
    AllFitAppend(Opt(TopicProp(ResponseTopic, r.responseTopic)), l4);
    AllFitAppend(Opt(TwoByteProp(TopicAlias, r.topicAlias)), l3);
    AllFitAppend(Opt(FourByteProp(MessageExpiryInterval, r.messageExpiry)), l2);
    AllFitAppend(Opt(FormatProp(r.format)), l1);
  }

  /** The optional properties of the second half of the list, entered into what the first half built. */
  lemma PublishBuildBack(r: PublishProps, g: Gathered<PublishProps>)
    requires g.record == NO_PROPS.(format := r.format, messageExpiry := r.messageExpiry, topicAlias := r.topicAlias)
    requires g.seen <= {PayloadFormatIndicator, MessageExpiryInterval, TopicAlias}
    ensures var l5 := Opt(TextProp(ContentType, r.contentType)) + (IdList(r.subscriptionIds) + (UserList(r.userProperties) + []));
            var l4 := Opt(BinaryProp(CorrelationData, r.correlationData)) + l5;
            var l := Fold(Opt(TopicProp(ResponseTopic, r.responseTopic)) + l4, g, Entering(PUBLISH_RULES));
            l.Ok? && l.value.record == r
  {
    var l6 := IdList(r.subscriptionIds) + (UserList(r.userProperties) + []);
    var l5 := Opt(TextProp(ContentType, r.contentType)) + l6;
    var l4 := Opt(BinaryProp(CorrelationData, r.correlationData)) + l5;
    var g4 := Gathered(g.seen + Mark(TopicProp(ResponseTopic, r.responseTopic)), g.record.(responseTopic := r.responseTopic));
    var g5 := Gathered(g4.seen + Mark(BinaryProp(CorrelationData, r.correlationData)), g4.record.(correlationData := r.correlationData));
    var g6 := Gathered(g5.seen + Mark(TextProp(ContentType, r.contentType)), g5.record.(contentType := r.contentType));
    FoldOpt(TopicProp(ResponseTopic, r.responseTopic), l4, g, g4.record, PUBLISH_RULES);
    FoldOpt(BinaryProp(CorrelationData, r.correlationData), l5, g4, g5.record, PUBLISH_RULES);
    FoldOpt(TextProp(ContentType, r.contentType), l6, g5, g6.record, PUBLISH_RULES);
    PublishBuildLists(r, g6);
  }

  /** Reading the written properties rebuilds the record. */
  lemma PublishBuild(r: PublishProps)
    requires r.topicAlias != Some(0)
    ensures Build(PublishList(r), NO_PROPS, PUBLISH_RULES) == Ok(r)
  {
    var l5 := Opt(TextProp(ContentType, r.contentType)) + (IdList(r.subscriptionIds) + (UserList(r.userProperties) + []));
    var l4 := Opt(BinaryProp(CorrelationData, r.correlationData)) + l5;
    var l3 := Opt(TopicProp(ResponseTopic, r.responseTopic)) + l4;
    var l2 := Opt(TwoByteProp(TopicAlias, r.topicAlias)) + l3;
    var l1 := Opt(FourByteProp(MessageExpiryInterval, r.messageExpiry)) + l2;
    var g0: Gathered<PublishProps> := Gathered({}, NO_PROPS);
    var g1 := Gathered(g0.seen + Mark(FormatProp(r.format)), NO_PROPS.(format := r.format));
    var g2 := Gathered(g1.seen + Mark(FourByteProp(MessageExpiryInterval, r.messageExpiry)), g1.record.(messageExpiry := r.messageExpiry));
    var g3 := Gathered(g2.seen + Mark(TwoByteProp(TopicAlias, r.topicAlias)), g2.record.(topicAlias := r.topicAlias));
    FoldOpt(FormatProp(r.format), l1, g0, g1.record, PUBLISH_RULES);
    FoldOpt(FourByteProp(MessageExpiryInterval, r.messageExpiry), l2, g1, g2.record, PUBLISH_RULES);
    FoldOpt(TwoByteProp(TopicAlias, r.topicAlias), l3, g2, g3.record, PUBLISH_RULES);
    PublishBuildBack(r, g3);
  }

  lemma PublishBuildLists(r: PublishProps, g: Gathered<PublishProps>)
    requires g.record == r.(subscriptionIds := [], userProperties := [])
    ensures var l := Fold(IdList(r.subscriptionIds) + (UserList(r.userProperties) + []), g, Entering(PUBLISH_RULES));
            l.Ok? && l.value.record == r
  {
    var ids, us := r.subscriptionIds, r.userProperties;
    var records := seq(|ids| + 1, i requires 0 <= i < |ids| + 1 => g.record.(subscriptionIds := ids[..i]));
    forall i | 0 <= i < |ids| ensures ApplyPublish(records[i], IdList(ids)[i]) == Ok(records[i + 1]) {
      assert ids[..i + 1] == ids[..i] + [ids[i]];
    }
    assert records[0] == g.record && ids[..|ids|] == ids;
    var seen := FoldMany(IdList(ids), UserList(us) + [], g.seen, records, PUBLISH_RULES);
    PublishBuildUsers(r, seen);
  }

  lemma PublishBuildUsers(r: PublishProps, seen: set<PropertyType>)
    ensures var l := Fold(UserList(r.userProperties) + [], Gathered(seen, r.(userProperties := [])), Entering(PUBLISH_RULES));
            l.Ok? && l.value.record == r
  {
    var us := r.userProperties;
    var records := seq(|us| + 1, i requires 0 <= i < |us| + 1 => r.(userProperties := us[..i]));
    forall i | 0 <= i < |us| ensures ApplyPublish(records[i], UserList(us)[i]) == Ok(records[i + 1]) {
      assert us[..i + 1] == us[..i] + [us[i]];
    }
    assert us[..|us|] == us;
    var seen' := FoldMany(UserList(us), [], seen, records, PUBLISH_RULES);
  }

  // ----- The packet -----

  /** The property section of a packet: a lone zero when there are no properties. */
  function EncodePublishSection(r: Option<PublishProps>): Result<Bytes> {
    if r.Some? then EncodeProps(PublishList(r.value)) else EncodeVar(0)
  }

  function DecodePublishSection(s: Bytes): Decoded<Option<PublishProps>> {
    DecodeSection(s, NO_PROPS, PUBLISH_RULES)
  }

  function OptU16(h: Option<u16>): Bytes {
    if h.Some? then EncodeU16(h.value) else []
  }

  function OptBytes(bs: Option<Bytes>): Bytes {
    if bs.Some? then bs.value else []
  }

  /** The variable header and payload of a packet, as `encode` appends them. */
  function PublishBody(p: Publication): Result<Bytes> {
    var topic :- EncodeTopic(p.topicName);
    var props :- EncodePublishSection(p.properties);
    Ok(topic + OptU16(p.packetId) + props + OptBytes(p.payload))
  }

  /** `Publish::encode`; nothing is validated but the topic name. */
  function EncodePublish(p: Publication): Result<Bytes> {
    var body :- PublishBody(p);
    Framed(FixedByte(Publish, p.retain, p.qos, p.duplicate), body)
  }

  /** `Publish::validate` */
  function ValidatePublish(p: Publication): Result<()> {
    if p.qos == AtMostOnce && p.duplicate then Err(MalformedPacket)
    else if p.qos != AtMostOnce && p.packetId.None? then Err(MalformedPacket)
    else if p.payload.Some? && p.properties.Some? && p.properties.value.format.Utf8Payload? && !IsUtf8(p.payload.value) then
      Err(MalformedPacket)
    else Ok(())
  }

  /** The payload fills what is left of the stated length; a slice that ends before it starts is a crash. */
  function DecodePayload(s: Bytes, n: nat, m: nat): Decoded<Option<Bytes>> {
    if m == n then Ok((None, n))
    else if m > |s| then Err(MalformedPacket)
    else if m < n then Err(Panic)
    else Ok((Some(s[n..m]), m))
  }

  /** `Publish::decode` behind the fixed header, which ends at `n` and states that the packet ends at `m`. */
  function ReadPublish(s: Bytes, n: nat, m: nat, retain: bool, qos: QoS, dup: bool,
      readTopic: Bytes -> Decoded<Str>, readProps: Bytes -> Decoded<Option<PublishProps>>): Decoded<Publication> {
    var (fields, k) :- Fields(s, n, readTopic, DecodeU16, qos != AtMostOnce, readProps);
    var (payload, end) :- DecodePayload(s, k, m);
    var p := Publication(retain, qos, dup, fields.0, fields.1, fields.2, payload);
    var _ :- ValidatePublish(p);
    Ok((p, end))
  }

  function DecodePublishBody(s: Bytes, n: nat, m: nat, retain: bool, qos: QoS, dup: bool): Decoded<Publication> {
    ReadPublish(s, n, m, retain, qos, dup, DecodeTopic, DecodePublishSection)
  }

  /** `Publish::decode` */
  function DecodePublish(s: Bytes): Decoded<Publication> {
    WithHeader(s, DecodePublishBody)
  }

  /** `Publish::normalize`: an empty property record and an empty payload are nothing. */
  function NormalizePublish(p: Publication): Publication {
    p.(properties := if p.properties == Some(NO_PROPS) then None else p.properties,
       payload := if p.payload == Some([]) then None else p.payload)
  }

  /** What a publication must satisfy for its encoding to be readable as itself. */
  predicate Consistent(p: Publication) {
    && (p.packetId.Some? <==> p.qos != AtMostOnce)
    && (p.qos == AtMostOnce ==> !p.duplicate)
    && (p.properties.Some? ==>
          && p.properties.value.topicAlias != Some(0)
          && (p.properties.value.format.Utf8Payload? && p.payload.Some? ==> IsUtf8(p.payload.value)))
  }

  /** A written section reads back as the record, an empty one as nothing. */
  lemma PublishSectionRoundTrip(r: Option<PublishProps>, tail: Bytes)
    requires EncodePublishSection(r).Ok? && (r.Some? ==> r.value.topicAlias != Some(0))
    ensures DecodePublishSection(EncodePublishSection(r).value + tail) ==
            Ok((if r == Some(NO_PROPS) then None else r, |EncodePublishSection(r).value|))
  {
    match r
    case None =>
      EmptySection(tail, NO_PROPS, PUBLISH_RULES);
    case Some(props) =>
      PublishListFits(props);
      PublishBuild(props);
      SectionRoundTrip(PublishList(props), tail, NO_PROPS, PUBLISH_RULES);
  }

  lemma U16Reads(h: u16)
    ensures Reads(DecodeU16, EncodeU16(h), h)
  {
  }

  lemma PayloadReads(a: Bytes, payload: Option<Bytes>, tail: Bytes)
    ensures DecodePayload(a + OptBytes(payload) + tail, |a|, |a| + |OptBytes(payload)|) ==
            Ok((if payload == Some([]) then None else payload, |a| + |OptBytes(payload)|))
  {
    assert (a + OptBytes(payload) + tail)[|a|..|a| + |OptBytes(payload)|] == OptBytes(payload);
  }

  /** The body of a consistent publication, read with any readers that undo how its topic and properties were written. */
  lemma ReadPublishReads(p: Publication, pre: Bytes, topic: Bytes, props: Bytes, tail: Bytes,
      readTopic: Bytes -> Decoded<Str>, readProps: Bytes -> Decoded<Option<PublishProps>>)
    requires Consistent(p) && Reads(readTopic, topic, p.topicName) && Reads(readProps, props, NormalizePublish(p).properties)
    ensures var body := topic + OptU16(p.packetId) + props + OptBytes(p.payload);
            ReadPublish(pre + body + tail, |pre|, |pre| + |body|, p.retain, p.qos, p.duplicate, readTopic, readProps) ==
            Ok((NormalizePublish(p), |pre| + |body|))
  {
    var front := topic + OptU16(p.packetId) + props;
    RegroupTwo(pre, front, OptBytes(p.payload), tail);
    if p.packetId.Some? {
      U16Reads(p.packetId.value);
    }
    FieldsRead(pre, topic, OptU16(p.packetId), props, OptBytes(p.payload) + tail, readTopic, DecodeU16, readProps,
               p.topicName, p.packetId, NormalizePublish(p).properties);
    PayloadReads(pre + front, p.payload, tail);
  }

  lemma PublishSectionReads(r: Option<PublishProps>)
    requires EncodePublishSection(r).Ok? && (r.Some? ==> r.value.topicAlias != Some(0))
    ensures Reads(DecodePublishSection, EncodePublishSection(r).value, if r == Some(NO_PROPS) then None else r)
  {
    forall tail: Bytes
      ensures DecodePublishSection(EncodePublishSection(r).value + tail) ==
              Ok((if r == Some(NO_PROPS) then None else r, |EncodePublishSection(r).value|))
    {
      PublishSectionRoundTrip(r, tail);
    }
  }

  lemma ReadPublishBodyReads(p: Publication, topic: Bytes, props: Bytes,
      readTopic: Bytes -> Decoded<Str>, readProps: Bytes -> Decoded<Option<PublishProps>>, body: BodyReader<Publication>)
    requires Consistent(p) && Reads(readTopic, topic, p.topicName) && Reads(readProps, props, NormalizePublish(p).properties)
    requires forall s, n, m, retain, qos, dup :: body(s, n, m, retain, qos, dup) == ReadPublish(s, n, m, retain, qos, dup, readTopic, readProps)
    ensures BodyReads(body, topic + OptU16(p.packetId) + props + OptBytes(p.payload), p.retain, p.qos, p.duplicate, NormalizePublish(p))
  {
    forall pre: Bytes, tail: Bytes
      ensures var data := topic + OptU16(p.packetId) + props + OptBytes(p.payload);
              body(pre + data + tail, |pre|, |pre| + |data|, p.retain, p.qos, p.duplicate) == Ok((NormalizePublish(p), |pre| + |data|))
    {
      ReadPublishReads(p, pre, topic, props, tail, readTopic, readProps);
    }
  }

  lemma PublishBodyReads(p: Publication)
    requires PublishBody(p).Ok? && Consistent(p)
    ensures BodyReads(DecodePublishBody, PublishBody(p).value, p.retain, p.qos, p.duplicate, NormalizePublish(p))
  {
    TopicReads(p.topicName);
    PublishSectionReads(p.properties);
    ReadPublishBodyReads(p, EncodeTopic(p.topicName).value, EncodePublishSection(p.properties).value,
                         DecodeTopic, DecodePublishSection, DecodePublishBody);
  }

  /** Encoding a consistent publication and decoding it, whatever follows, gives it back normalized, with its exact length. */
  lemma ConsistentPublishReads(p: Publication)
    requires EncodePublish(p).Ok? && Consistent(p)
    ensures Reads(DecodePublish, EncodePublish(p).value, NormalizePublish(p))
  {
    PublishBodyReads(p);
    FramedReads(Publish, p.retain, p.qos, p.duplicate, PublishBody(p).value, DecodePublishBody, DecodePublish, NormalizePublish(p));
  }

  predicate AliasOk(r: PublishProps) {
    r.topicAlias != Some(0)
  }

  lemma ApplyKeepsAlias(r: PublishProps, p: Property)
    requires AliasOk(r) && ApplyPublish(r, p).Ok?
    ensures AliasOk(ApplyPublish(r, p).value)
  {
  }

  lemma DecodedSectionIsConsistent(s: Bytes)
    requires DecodePublishSection(s).Ok? && DecodePublishSection(s).value.0.Some?
    ensures DecodePublishSection(s).value.0.value.topicAlias != Some(0)
  {
    forall r: PublishProps, p: Property | AliasOk(r) && ApplyPublish(r, p).Ok? ensures AliasOk(ApplyPublish(r, p).value) {
      ApplyKeepsAlias(r, p);
    }
    PropsKeep(s, NO_PROPS, PUBLISH_RULES, AliasOk);
  }

  lemma DecodedBodyIsConsistent(s: Bytes, n: nat, m: nat, retain: bool, qos: QoS, dup: bool)
    requires DecodePublishBody(s, n, m, retain, qos, dup).Ok?
    ensures Consistent(DecodePublishBody(s, n, m, retain, qos, dup).value.0)
  {
    var p := DecodePublishBody(s, n, m, retain, qos, dup).value.0;
    var n1 := Field(s, n, DecodeTopic).value.1;
    var n2 := FieldIf(s, n1, DecodeU16, qos != AtMostOnce).value.1;
    if p.properties.Some? {
      DecodedSectionIsConsistent(s[n2..]);
    }
  }

  /** Whatever `decode` returns is consistent. */
  lemma DecodedPublishIsConsistent(s: Bytes)
    requires DecodePublish(s).Ok?
    ensures Consistent(DecodePublish(s).value.0)
  {
    var n, m, retain, qos, dup := WithHeaderOk(s, DecodePublishBody);
    DecodedBodyIsConsistent(s, n, m, retain, qos, dup);
  }

  /** The round trip holds exactly for consistent publications. */
  lemma PublishRoundTrip(p: Publication, tail: Bytes)
    requires EncodePublish(p).Ok?
    ensures DecodePublish(EncodePublish(p).value + tail) == Ok((NormalizePublish(p), |EncodePublish(p).value|)) <==> Consistent(p)
  {
    if Consistent(p) {
      ConsistentPublishReads(p);
    } else if DecodePublish(EncodePublish(p).value + tail).Ok? {
      DecodedPublishIsConsistent(EncodePublish(p).value + tail);
    }
  }
}
