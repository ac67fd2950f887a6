/** CONNECT (section 3.1 of MQTT Version 5.0): the flag byte decides which payload fields are there. */
module ConnectCodec {
  import opened Base
  import opened Mqtt
  import opened Wire
  import opened ItemLoops
  import opened Properties
  import opened Packets

  datatype Protocol = V4 | V5

  datatype ConnectProps = ConnectProps(
    sessionExpiry: Option<u32>,
    receiveMaximum: Option<u16>,
    maxPacketSize: Option<u32>,
    topicAliasMax: Option<u16>,
    requestResponse: Option<bool>,
    requestProblem: Option<bool>,
    authMethod: Option<Str>,
    authData: Option<Bytes>,
    userProperties: seq<(Str, Str)>)

  datatype WillProps = WillProps(
    willDelay: Option<u32>,
    format: PayloadFormat,
    messageExpiry: Option<u32>,
    contentType: Option<Str>,
    responseTopic: Option<Str>,
    correlationData: Option<Bytes>,
    userProperties: seq<(Str, Str)>)

  datatype Connection = Connection(
    protocolName: Str,
    protocolVersion: Protocol,
    flags: byte,
    keepAlive: u16,
    properties: Option<ConnectProps>,
    clientId: Str,
    willProperties: Option<WillProps>,
    willTopic: Option<Str>,
    willPayload: Option<Bytes>,
    username: Option<Str>,
    password: Option<Bytes>)

  const NO_CONNECT := ConnectProps(None, None, None, None, None, None, None, None, [])
  const NO_WILL := WillProps(None, RawPayload, None, None, None, None, [])
  const MQTT: Str := [0x4d, 0x51, 0x54, 0x54]

  predicate IsWill(flags: byte) {
    Int(flags) / 4 % 2 == 1
  }

  predicate IsUsername(flags: byte) {
    Int(flags) / 64 % 2 == 1
  }

  predicate IsPassword(flags: byte) {
    Int(flags) / 128 == 1
  }

  // ----- CONNECT properties -----

  function BoolProp(pt: PropertyType, b: Option<bool>): Option<Property> {
    if b.Some? then Some(Property(pt, OneByte(if b.value then 1 else 0))) else None
  }

  /** The properties `ConnectProperties::encode` writes, in its order. */
  function ConnectList(r: ConnectProps): seq<Property> {
    Opt(FourByteProp(SessionExpiryInterval, r.sessionExpiry))
    + (Opt(TwoByteProp(ReceiveMaximum, r.receiveMaximum)) + ConnectList1(r))
  }

  function ConnectList1(r: ConnectProps): seq<Property> {
    Opt(FourByteProp(MaximumPacketSize, r.maxPacketSize))
    + (Opt(TwoByteProp(TopicAliasMaximum, r.topicAliasMax)) + ConnectList2(r))
  }

  function ConnectList2(r: ConnectProps): seq<Property> {
    Opt(BoolProp(RequestResponseInformation, r.requestResponse))
    + (Opt(BoolProp(RequestProblemInformation, r.requestProblem)) + ConnectList3(r))
  }

  function ConnectList3(r: ConnectProps): seq<Property> {
    Opt(TextProp(AuthenticationMethod, r.authMethod))
    + (Opt(BinaryProp(AuthenticationData, r.authData)) + (UserList(r.userProperties) + []))
  }

  function ApplyConnect(r: ConnectProps, p: Property): Result<ConnectProps> {
    match (p.pt, p.value)
    case (SessionExpiryInterval, FourBytes(w)) => Ok(r.(sessionExpiry := Some(w)))
    case (ReceiveMaximum, TwoBytes(h)) => if h == 0 then Err(ProtocolError) else Ok(r.(receiveMaximum := Some(h)))
    case (MaximumPacketSize, FourBytes(w)) => if w == 0 then Err(ProtocolError) else Ok(r.(maxPacketSize := Some(w)))
    case (TopicAliasMaximum, TwoBytes(h)) => Ok(r.(topicAliasMax := Some(h)))
    case (RequestResponseInformation, OneByte(b)) =>
      if b > 1 then Err(ProtocolError) else Ok(r.(requestResponse := Some(b == 1)))
    case (RequestProblemInformation, OneByte(b)) =>
      if b > 1 then Err(ProtocolError) else Ok(r.(requestProblem := Some(b == 1)))
    case (UserProp, Pair(k, v)) => Ok(r.(userProperties := r.userProperties + [(k, v)]))
    case (AuthenticationMethod, Text(s)) => Ok(r.(authMethod := Some(s)))
    case (AuthenticationData, Binary(bs)) => Ok(r.(authData := Some(bs)))
    case _ => Err(ProtocolError)
  }

  const CONNECT_RULES: Rules<ConnectProps> := Rules({UserProp}, ApplyConnect)

  predicate ConnectPropsOk(r: ConnectProps) {
    r.receiveMaximum != Some(0) && r.maxPacketSize != Some(0)
  }

  lemma ConnectListFits2(r: ConnectProps)
    ensures AllFit(ConnectList2(r))
    ensures ConnectList2(r) == [] <==>
            r == NO_CONNECT.(sessionExpiry := r.sessionExpiry, receiveMaximum := r.receiveMaximum,
                             maxPacketSize := r.maxPacketSize, topicAliasMax := r.topicAliasMax)
  {
    var users := UserList(r.userProperties) + [];
    ListFits(BinaryProp(AuthenticationData, r.authData), users);
    ListFits(TextProp(AuthenticationMethod, r.authMethod), Opt(BinaryProp(AuthenticationData, r.authData)) + users);
    ListFits(BoolProp(RequestProblemInformation, r.requestProblem), ConnectList3(r));
    ListFits(BoolProp(RequestResponseInformation, r.requestResponse), Opt(BoolProp(RequestProblemInformation, r.requestProblem)) + ConnectList3(r));
  }

  lemma ConnectListFits(r: ConnectProps)
    ensures AllFit(ConnectList(r))
    ensures ConnectList(r) == [] <==> r == NO_CONNECT
  {
    ConnectListFits2(r);
    ListFits(TwoByteProp(TopicAliasMaximum, r.topicAliasMax), ConnectList2(r));
    ListFits(FourByteProp(MaximumPacketSize, r.maxPacketSize), Opt(TwoByteProp(TopicAliasMaximum, r.topicAliasMax)) + ConnectList2(r));
    ListFits(TwoByteProp(ReceiveMaximum, r.receiveMaximum), ConnectList1(r));
    ListFits(FourByteProp(SessionExpiryInterval, r.sessionExpiry), Opt(TwoByteProp(ReceiveMaximum, r.receiveMaximum)) + ConnectList1(r));
  }

  lemma ListFits(p: Option<Property>, rest: seq<Property>)
    requires AllFit(rest) && (p.Some? ==> Fits(p.value))
    ensures AllFit(Opt(p) + rest)
    ensures Opt(p) + rest == [] <==> p.None? && rest == []
  {
  }

  lemma ConnectBuildUsers(r: ConnectProps, seen: set<PropertyType>)
    ensures var l := Fold(UserList(r.userProperties) + [], Gathered(seen, r.(userProperties := [])), Entering(CONNECT_RULES));
            l.Ok? && l.value.record == r
  {
    var us := r.userProperties;
    var records := seq(|us| + 1, i requires 0 <= i < |us| + 1 => r.(userProperties := us[..i]));
    forall i | 0 <= i < |us| ensures ApplyConnect(records[i], UserList(us)[i]) == Ok(records[i + 1]) {
      assert us[..i + 1] == us[..i] + [us[i]];
    }
    assert us[..|us|] == us;
    var seen' := FoldMany(UserList(us), [], seen, records, CONNECT_RULES);
  }

  lemma ConnectBuild3(r: ConnectProps, g: Gathered<ConnectProps>)
    requires g.record == r.(authMethod := None, authData := None, userProperties := [])
    requires AuthenticationMethod !in g.seen && AuthenticationData !in g.seen
    ensures var l := Fold(ConnectList3(r), g, Entering(CONNECT_RULES)); l.Ok? && l.value.record == r
  {
    var a, b := TextProp(AuthenticationMethod, r.authMethod), BinaryProp(AuthenticationData, r.authData);
    var users := UserList(r.userProperties) + [];
    var r1 := g.record.(authMethod := r.authMethod);
    var r2 := r1.(authData := r.authData);
    FoldTwo(a, b, users, g, r1, r2, CONNECT_RULES);
    ConnectBuildUsers(r, g.seen + Mark(a) + Mark(b));
  }

  lemma ConnectBuild2(r: ConnectProps, g: Gathered<ConnectProps>)
    requires g.record == r.(requestResponse := None, requestProblem := None, authMethod := None, authData := None, userProperties := [])
    requires g.seen !! {RequestResponseInformation, RequestProblemInformation, AuthenticationMethod, AuthenticationData}
    ensures var l := Fold(ConnectList2(r), g, Entering(CONNECT_RULES)); l.Ok? && l.value.record == r
  {
    var a, b := BoolProp(RequestResponseInformation, r.requestResponse), BoolProp(RequestProblemInformation, r.requestProblem);
    var r1 := g.record.(requestResponse := r.requestResponse);
    var r2 := r1.(requestProblem := r.requestProblem);
    FoldTwo(a, b, ConnectList3(r), g, r1, r2, CONNECT_RULES);
    ConnectBuild3(r, Gathered(g.seen + Mark(a) + Mark(b), r2));
  }

  lemma ConnectBuild1(r: ConnectProps, g: Gathered<ConnectProps>)
    requires ConnectPropsOk(r)
    requires g.record == NO_CONNECT.(sessionExpiry := r.sessionExpiry, receiveMaximum := r.receiveMaximum)
    requires g.seen !! {MaximumPacketSize, TopicAliasMaximum, RequestResponseInformation, RequestProblemInformation,
                        AuthenticationMethod, AuthenticationData}
    ensures var l := Fold(ConnectList1(r), g, Entering(CONNECT_RULES)); l.Ok? && l.value.record == r
  {
    var a, b := FourByteProp(MaximumPacketSize, r.maxPacketSize), TwoByteProp(TopicAliasMaximum, r.topicAliasMax);
    var r1 := g.record.(maxPacketSize := r.maxPacketSize);
    var r2 := r1.(topicAliasMax := r.topicAliasMax);
    FoldTwo(a, b, ConnectList2(r), g, r1, r2, CONNECT_RULES);
    ConnectBuild2(r, Gathered(g.seen + Mark(a) + Mark(b), r2));
  }

  /** Reading the written properties rebuilds the record. */
  lemma ConnectBuild(r: ConnectProps)
    requires ConnectPropsOk(r)
    ensures Build(ConnectList(r), NO_CONNECT, CONNECT_RULES) == Ok(r)
  {
    var a, b := FourByteProp(SessionExpiryInterval, r.sessionExpiry), TwoByteProp(ReceiveMaximum, r.receiveMaximum);
    var g: Gathered<ConnectProps> := Gathered({}, NO_CONNECT);
    var r1 := g.record.(sessionExpiry := r.sessionExpiry);
    var r2 := r1.(receiveMaximum := r.receiveMaximum);
    FoldTwo(a, b, ConnectList1(r), g, r1, r2, CONNECT_RULES);
    ConnectBuild1(r, Gathered(g.seen + Mark(a) + Mark(b), r2));
  }

  // ----- Will properties -----

  function WillListBack(r: WillProps): seq<Property> {
    Opt(TextProp(ContentType, r.contentType))
    + (Opt(TopicProp(ResponseTopic, r.responseTopic))
       + (Opt(BinaryProp(CorrelationData, r.correlationData))
          + (UserList(r.userProperties) + [])))
  }

  /** The properties `WillProperties::encode` writes, in its order. */
  function WillList(r: WillProps): seq<Property> {
    Opt(FourByteProp(WillDelayInterval, r.willDelay))
    + (Opt(FormatProp(r.format))
       + (Opt(FourByteProp(MessageExpiryInterval, r.messageExpiry))
          + WillListBack(r)))
  }

  function ApplyWill(r: WillProps, p: Property): Result<WillProps> {
    match (p.pt, p.value)
    case (WillDelayInterval, FourBytes(w)) => Ok(r.(willDelay := Some(w)))
    case (PayloadFormatIndicator, OneByte(b)) =>
      if b == 0 then Ok(r.(format := RawPayload))
      else if b == 1 then Ok(r.(format := Utf8Payload))
      else Err(MalformedPacket)
    case (MessageExpiryInterval, FourBytes(w)) => Ok(r.(messageExpiry := Some(w)))
    case (ContentType, Text(s)) => Ok(r.(contentType := Some(s)))
    case (ResponseTopic, Topic(s)) => Ok(r.(responseTopic := Some(s)))
    case (CorrelationData, Binary(bs)) => Ok(r.(correlationData := Some(bs)))
    case (UserProp, Pair(k, v)) => Ok(r.(userProperties := r.userProperties + [(k, v)]))
    case _ => Err(ProtocolError)
  }

  const WILL_RULES: Rules<WillProps> := Rules({UserProp}, ApplyWill)

  lemma WillListFits(r: WillProps)
    ensures AllFit(WillList(r))
    ensures WillList(r) == [] <==> r == NO_WILL
  {
    var users := UserList(r.userProperties) + [];
    var l1 := Opt(BinaryProp(CorrelationData, r.correlationData)) + users;
    var l2 := Opt(TopicProp(ResponseTopic, r.responseTopic)) + l1;
    var l3 := Opt(FourByteProp(MessageExpiryInterval, r.messageExpiry)) + WillListBack(r);
    ListFits(BinaryProp(CorrelationData, r.correlationData), users);
    ListFits(TopicProp(ResponseTopic, r.responseTopic), l1);
    ListFits(TextProp(ContentType, r.contentType), l2);
    ListFits(FourByteProp(MessageExpiryInterval, r.messageExpiry), WillListBack(r));
    ListFits(FormatProp(r.format), l3);
    ListFits(FourByteProp(WillDelayInterval, r.willDelay), Opt(FormatProp(r.format)) + l3);
  }

  lemma WillBuildUsers(r: WillProps, seen: set<PropertyType>)
    ensures var l := Fold(UserList(r.userProperties) + [], Gathered(seen, r.(userProperties := [])), Entering(WILL_RULES));
            l.Ok? && l.value.record == r
  {
    var us := r.userProperties;
    var records := seq(|us| + 1, i requires 0 <= i < |us| + 1 => r.(userProperties := us[..i]));
    forall i | 0 <= i < |us| ensures ApplyWill(records[i], UserList(us)[i]) == Ok(records[i + 1]) {
      assert us[..i + 1] == us[..i] + [us[i]];
    }
    assert us[..|us|] == us;
    var seen' := FoldMany(UserList(us), [], seen, records, WILL_RULES);
  }

  lemma WillBuildBack(r: WillProps, g: Gathered<WillProps>)
    requires g.record == r.(contentType := None, responseTopic := None, correlationData := None, userProperties := [])
    requires g.seen <= {WillDelayInterval, PayloadFormatIndicator, MessageExpiryInterval}
    ensures var l := Fold(WillListBack(r), g, Entering(WILL_RULES)); l.Ok? && l.value.record == r
  {
    var l5 := UserList(r.userProperties) + [];
    var l4 := Opt(BinaryProp(CorrelationData, r.correlationData)) + l5;
    var l3 := Opt(TopicProp(ResponseTopic, r.responseTopic)) + l4;
    var g1 := Gathered(g.seen + Mark(TextProp(ContentType, r.contentType)), g.record.(contentType := r.contentType));
    var g2 := Gathered(g1.seen + Mark(TopicProp(ResponseTopic, r.responseTopic)), g1.record.(responseTopic := r.responseTopic));
    var g3 := Gathered(g2.seen + Mark(BinaryProp(CorrelationData, r.correlationData)), g2.record.(correlationData := r.correlationData));
    FoldOpt(TextProp(ContentType, r.contentType), l3, g, g1.record, WILL_RULES);
    FoldOpt(TopicProp(ResponseTopic, r.responseTopic), l4, g1, g2.record, WILL_RULES);
    FoldOpt(BinaryProp(CorrelationData, r.correlationData), l5, g2, g3.record, WILL_RULES);
    WillBuildUsers(r, g3.seen);
  }

  /** Reading the written will properties rebuilds the record. */
  lemma WillBuild(r: WillProps)
    ensures Build(WillList(r), NO_WILL, WILL_RULES) == Ok(r)
  {
    var l2 := WillListBack(r);
    var l1 := Opt(FourByteProp(MessageExpiryInterval, r.messageExpiry)) + l2;
    var l0 := Opt(FormatProp(r.format)) + l1;
    var g: Gathered<WillProps> := Gathered({}, NO_WILL);
    var g1 := Gathered(g.seen + Mark(FourByteProp(WillDelayInterval, r.willDelay)), g.record.(willDelay := r.willDelay));
    var g2 := Gathered(g1.seen + Mark(FormatProp(r.format)), g1.record.(format := r.format));
    var g3 := Gathered(g2.seen + Mark(FourByteProp(MessageExpiryInterval, r.messageExpiry)), g2.record.(messageExpiry := r.messageExpiry));
    FoldOpt(FourByteProp(WillDelayInterval, r.willDelay), l0, g, g1.record, WILL_RULES);
    FoldOpt(FormatProp(r.format), l1, g1, g2.record, WILL_RULES);
    FoldOpt(FourByteProp(MessageExpiryInterval, r.messageExpiry), l2, g2, g3.record, WILL_RULES);
    WillBuildBack(r, g3);
  }

  // ----- The packet -----

  function DecodeProtocol(s: Bytes): Decoded<Protocol> {
    var (b, n) :- DecodeU8(s);
    if b == 4 then Ok((V4, n)) else if b == 5 then Ok((V5, n)) else Err(MalformedPacket)
  }

  function EncodeProtocol(v: Protocol): Bytes {
    [if v.V4? then 4 else 5]
  }

  function DecodeFlags(s: Bytes): Decoded<byte> {
    var (b, n) :- DecodeU8(s);
    if b % 2 == 1 then Err(MalformedPacket) else Ok((b, n))
  }

  function DecodeConnectSection(s: Bytes): Decoded<Option<ConnectProps>> {
    DecodeSection(s, NO_CONNECT, CONNECT_RULES)
  }

  function DecodeWillSection(s: Bytes): Decoded<Option<WillProps>> {
    DecodeSection(s, NO_WILL, WILL_RULES)
  }

  function EncodeConnectSection(r: Option<ConnectProps>): Result<Bytes> {
    if r.Some? then EncodeProps(ConnectList(r.value)) else EncodeVar(0)
  }

  /** Nothing at all is written for absent will properties. */
  function EncodeWillSection(r: Option<WillProps>): Result<Bytes> {
    if r.Some? then EncodeProps(WillList(r.value)) else Ok([])
  }

  function EncodeOpt<T>(v: Option<T>, write: T -> Result<Bytes>): Result<Bytes> {
    if v.Some? then write(v.value) else Ok([])
  }

  /** `Connect::validate`; a UTF-8 will without a payload makes the `unwrap` in it crash. */
  function ValidateConnect(c: Connection): Result<()> {
    if c.protocolName != MQTT then Err(ProtocolError)
    else if c.protocolVersion != V5 then Err(ProtocolError)
    else if c.flags % 2 == 1 then Err(MalformedPacket)
    else if ToQoS(Int(c.flags) / 8 % 4).Err? then Err(MalformedPacket)
    else if IsWill(c.flags) && (c.willTopic.None? || c.willProperties.None? || c.willPayload.None?) then Err(MalformedPacket)
    else if c.willProperties.Some? && c.willProperties.value.format.Utf8Payload? then
      if c.willPayload.None? then Err(Panic)
      else if !IsUtf8(c.willPayload.value) then Err(MalformedPacket)
      else Ok(())
    else Ok(())
  }

  type Front = (Str, (Protocol, (byte, (u16, (Option<ConnectProps>, Str)))))
  type Will = (Option<WillProps>, (Option<Str>, Option<Bytes>))
  type Back = (Will, (Option<Str>, Option<Bytes>))

  /** From the protocol name to the client id; these fields are always there. */
  function FrontReader(readProps: Bytes -> Decoded<Option<ConnectProps>>): Bytes -> Decoded<Front> {
    Both(DecodeString, Both(DecodeProtocol, Both(DecodeFlags, Both(DecodeU16, Both(readProps, DecodeString)))))
  }

  /** An absent section and a section of length zero are both nothing. */
  function WillSection(present: bool): Bytes -> Decoded<Option<WillProps>> {
    (s: Bytes) => if present then DecodeWillSection(s) else Ok((None, 0))
  }

  /** The rest of the payload, as the flag byte announces it. */
  function BackReader(flags: byte): Bytes -> Decoded<Back> {
    Both(Both(WillSection(IsWill(flags)), Both(When(IsWill(flags), DecodeTopic), When(IsWill(flags), DecodeBinary))),
         Both(When(IsUsername(flags), DecodeString), When(IsPassword(flags), DecodeBinary)))
  }

  function Assemble(f: Front, b: Back): Connection {
    Connection(f.0, f.1.0, f.1.1.0, f.1.1.1.0, f.1.1.1.1.0, f.1.1.1.1.1, b.0.0, b.0.1.0, b.0.1.1, b.1.0, b.1.1)
  }

  function FrontOf(c: Connection): Front {
    (c.protocolName, (c.protocolVersion, (c.flags, (c.keepAlive, (c.properties, c.clientId)))))
  }

  function BackOf(c: Connection): Back {
    ((c.willProperties, (c.willTopic, c.willPayload)), (c.username, c.password))
  }

  function ReadConnect(s: Bytes, n: nat, front: Bytes -> Decoded<Front>, back: byte -> (Bytes -> Decoded<Back>)): Decoded<Connection> {
    var (f, k) :- Field(s, n, front);
    var (b, end) :- Field(s, k, back(f.1.1.0));
    var _ :- ValidateConnect(Assemble(f, b));
    Ok((Assemble(f, b), end))
  }

  /** `Connect::decode` behind the fixed header; the stated length is not looked at. */
  function DecodeConnectBody(s: Bytes, n: nat, m: nat, retain: bool, qos: QoS, dup: bool): Decoded<Connection> {
    ReadConnect(s, n, FrontReader(DecodeConnectSection), BackReader)
  }

  /** `Connect::decode` */
  function DecodeConnect(s: Bytes): Decoded<Connection> {
    WithHeader(s, DecodeConnectBody)
  }

  function EncodeFront(c: Connection): Result<Bytes> {
    var name :- EncodeString(c.protocolName);
    var props :- EncodeConnectSection(c.properties);
    var id :- EncodeString(c.clientId);
    Ok(name + (EncodeProtocol(c.protocolVersion) + ([c.flags] + (EncodeU16(c.keepAlive) + (props + id)))))
  }

  function EncodeBack(c: Connection): Result<Bytes> {
    var props :- EncodeWillSection(c.willProperties);
    var topic :- EncodeOpt(c.willTopic, EncodeTopic);
    var payload :- EncodeOpt(c.willPayload, EncodeBinary);
    var user :- EncodeOpt(c.username, EncodeString);
    var password :- EncodeOpt(c.password, EncodeBinary);
    Ok((props + (topic + payload)) + (user + password))
  }

  /** The variable header and payload, as `encode` appends them. */
  function ConnectBody(c: Connection): Result<Bytes> {
    var front :- EncodeFront(c);
    var back :- EncodeBack(c);
    Ok(front + back)
  }

  /** `Connect::encode` */
  function EncodeConnect(c: Connection): Result<Bytes> {
    var _ :- ValidateConnect(c);
    var body :- ConnectBody(c);
    Framed(FixedByte(Connect, false, AtMostOnce, false), body)
  }

  /** `Connect::normalize` */
  function NormalizeConnect(c: Connection): Connection {
    c.(properties := if c.properties == Some(NO_CONNECT) then None else c.properties,
       willProperties := if c.willProperties == Some(NO_WILL) then None else c.willProperties)
  }

  /** The flag byte says which payload fields are there, and no property holds a value its reader refuses. */
  predicate FlagsAgree(c: Connection) {
    && (c.willProperties.Some? <==> IsWill(c.flags))
    && (c.willTopic.Some? <==> IsWill(c.flags))
    && (c.willPayload.Some? <==> IsWill(c.flags))
    && (c.username.Some? <==> IsUsername(c.flags))
    && (c.password.Some? <==> IsPassword(c.flags))
    && (c.properties.Some? ==> ConnectPropsOk(c.properties.value))
  }

  /** What a connection must satisfy for its encoding to be readable as itself. */
  predicate Consistent(c: Connection) {
    FlagsAgree(c) && c.willProperties != Some(NO_WILL)
  }

  // ----- What is written reads back -----

  lemma ConnectSectionReads(r: Option<ConnectProps>)
    requires EncodeConnectSection(r).Ok? && (r.Some? ==> ConnectPropsOk(r.value))
    ensures Reads(DecodeConnectSection, EncodeConnectSection(r).value, if r == Some(NO_CONNECT) then None else r)
  {
    var v := if r == Some(NO_CONNECT) then None else r;
    forall tail: Bytes ensures DecodeConnectSection(EncodeConnectSection(r).value + tail) == Ok((v, |EncodeConnectSection(r).value|)) {
      match r
      case None =>
        EmptySection(tail, NO_CONNECT, CONNECT_RULES);
      case Some(props) =>
        ConnectListFits(props);
        ConnectBuild(props);
        SectionRoundTrip(ConnectList(props), tail, NO_CONNECT, CONNECT_RULES);
    }
  }

  lemma WillSectionReads(r: Option<WillProps>)
    requires EncodeWillSection(r).Ok? && r != Some(NO_WILL)
    ensures Reads(WillSection(r.Some?), EncodeWillSection(r).value, r)
  {
    forall tail: Bytes ensures WillSection(r.Some?)(EncodeWillSection(r).value + tail) == Ok((r, |EncodeWillSection(r).value|)) {
      if r.Some? {
        WillListFits(r.value);
        WillBuild(r.value);
        SectionRoundTrip(WillList(r.value), tail, NO_WILL, WILL_RULES);
      }
    }
  }

  lemma StringReads(s: Str)
    requires EncodeString(s).Ok?
    ensures Reads(DecodeString, EncodeString(s).value, s)
  {
    forall tail: Bytes ensures DecodeString(EncodeString(s).value + tail) == Ok((s, |EncodeString(s).value|)) {
      StringRoundTrip(s, tail);
    }
  }

  lemma BinaryReads(bs: Bytes)
    requires EncodeBinary(bs).Ok?
    ensures Reads(DecodeBinary, EncodeBinary(bs).value, bs)
  {
    forall tail: Bytes ensures DecodeBinary(EncodeBinary(bs).value + tail) == Ok((bs, |EncodeBinary(bs).value|)) {
      BinaryRoundTrip(bs, tail);
    }
  }

  lemma NumbersRead(v: Protocol, flags: byte, h: u16)
    requires flags % 2 == 0
    ensures Reads(DecodeProtocol, EncodeProtocol(v), v)
    ensures Reads(DecodeFlags, [flags], flags)
    ensures Reads(DecodeU16, EncodeU16(h), h)
  {
  }

  lemma FrontReads(c: Connection)
    requires EncodeFront(c).Ok? && c.flags % 2 == 0 && (c.properties.Some? ==> ConnectPropsOk(c.properties.value))
    ensures Reads(FrontReader(DecodeConnectSection), EncodeFront(c).value, FrontOf(NormalizeConnect(c)))
  {
    var name, props, id := EncodeString(c.protocolName).value, EncodeConnectSection(c.properties).value, EncodeString(c.clientId).value;
    StringReads(c.protocolName);
    StringReads(c.clientId);
    ConnectSectionReads(c.properties);
    NumbersRead(c.protocolVersion, c.flags, c.keepAlive);
    FrontCombines(name, EncodeProtocol(c.protocolVersion), [c.flags], EncodeU16(c.keepAlive), props, id,
                  DecodeString, DecodeProtocol, DecodeFlags, DecodeU16, DecodeConnectSection, FrontOf(NormalizeConnect(c)));
  }

  lemma FrontCombines<A, B, C, D, E>(e0: Bytes, e1: Bytes, e2: Bytes, e3: Bytes, e4: Bytes, e5: Bytes,
      r0: Bytes -> Decoded<A>, r1: Bytes -> Decoded<B>, r2: Bytes -> Decoded<C>, r3: Bytes -> Decoded<D>, r4: Bytes -> Decoded<E>,
      v: (A, (B, (C, (D, (E, A))))))
    requires Reads(r0, e0, v.0) && Reads(r1, e1, v.1.0) && Reads(r2, e2, v.1.1.0)
    requires Reads(r3, e3, v.1.1.1.0) && Reads(r4, e4, v.1.1.1.1.0) && Reads(r0, e5, v.1.1.1.1.1)
    ensures Reads(Both(r0, Both(r1, Both(r2, Both(r3, Both(r4, r0))))), e0 + (e1 + (e2 + (e3 + (e4 + e5)))), v)
  {
    BothRead(r4, r0, e4, e5, v.1.1.1.1.0, v.1.1.1.1.1);
    BothRead(r3, Both(r4, r0), e3, e4 + e5, v.1.1.1.0, v.1.1.1.1);
    BothRead(r2, Both(r3, Both(r4, r0)), e2, e3 + (e4 + e5), v.1.1.0, v.1.1.1);
    BothRead(r1, Both(r2, Both(r3, Both(r4, r0))), e1, e2 + (e3 + (e4 + e5)), v.1.0, v.1.1);
    BothRead(r0, Both(r1, Both(r2, Both(r3, Both(r4, r0)))), e0, e1 + (e2 + (e3 + (e4 + e5))), v.0, v.1);
  }

  lemma OptReads<T>(v: Option<T>, write: T -> Result<Bytes>, read: Bytes -> Decoded<T>)
    requires EncodeOpt(v, write).Ok? && (v.Some? ==> Reads(read, write(v.value).value, v.value))
    ensures Reads(When(v.Some?, read), EncodeOpt(v, write).value, v)
  {
    WhenReads(read, EncodeOpt(v, write).value, v);
  }

  lemma WillReads(c: Connection)
    requires EncodeBack(c).Ok? && Consistent(c)
    ensures Reads(Both(WillSection(IsWill(c.flags)), Both(When(IsWill(c.flags), DecodeTopic), When(IsWill(c.flags), DecodeBinary))),
                  EncodeWillSection(c.willProperties).value
                  + (EncodeOpt(c.willTopic, EncodeTopic).value + EncodeOpt(c.willPayload, EncodeBinary).value), BackOf(c).0)
  {
    WillSectionReads(c.willProperties);
    if c.willTopic.Some? {
      TopicReads(c.willTopic.value);
      BinaryReads(c.willPayload.value);
    }
    OptReads(c.willTopic, EncodeTopic, DecodeTopic);
    OptReads(c.willPayload, EncodeBinary, DecodeBinary);
    BothRead(When(IsWill(c.flags), DecodeTopic), When(IsWill(c.flags), DecodeBinary),
             EncodeOpt(c.willTopic, EncodeTopic).value, EncodeOpt(c.willPayload, EncodeBinary).value, c.willTopic, c.willPayload);
    BothRead(WillSection(IsWill(c.flags)), Both(When(IsWill(c.flags), DecodeTopic), When(IsWill(c.flags), DecodeBinary)),
             EncodeWillSection(c.willProperties).value,
             EncodeOpt(c.willTopic, EncodeTopic).value + EncodeOpt(c.willPayload, EncodeBinary).value,
             c.willProperties, (c.willTopic, c.willPayload));
  }

  lemma BackReads(c: Connection)
    requires EncodeBack(c).Ok? && Consistent(c)
    ensures Reads(BackReader(c.flags), EncodeBack(c).value, BackOf(c))
  {
    WillReads(c);
    if c.username.Some? {
      StringReads(c.username.value);
    }
    if c.password.Some? {
      BinaryReads(c.password.value);
    }
    OptReads(c.username, EncodeString, DecodeString);
    OptReads(c.password, EncodeBinary, DecodeBinary);
    var user, password := EncodeOpt(c.username, EncodeString).value, EncodeOpt(c.password, EncodeBinary).value;
    BothRead(When(IsUsername(c.flags), DecodeString), When(IsPassword(c.flags), DecodeBinary), user, password, c.username, c.password);
    BothRead(Both(WillSection(IsWill(c.flags)), Both(When(IsWill(c.flags), DecodeTopic), When(IsWill(c.flags), DecodeBinary))),
             Both(When(IsUsername(c.flags), DecodeString), When(IsPassword(c.flags), DecodeBinary)),
             EncodeWillSection(c.willProperties).value
             + (EncodeOpt(c.willTopic, EncodeTopic).value + EncodeOpt(c.willPayload, EncodeBinary).value),
             user + password, BackOf(c).0, BackOf(c).1);
  }

  /** The body of a valid connection, read with any readers that undo how its two halves were written. */
  lemma ReadConnectReads(c: Connection, ef: Bytes, eb: Bytes, front: Bytes -> Decoded<Front>, back: byte -> (Bytes -> Decoded<Back>),
      body: BodyReader<Connection>, retain: bool, qos: QoS, dup: bool)
    requires Reads(front, ef, FrontOf(c)) && Reads(back(c.flags), eb, BackOf(c)) && ValidateConnect(c).Ok?
    requires forall s, n, m, retain, qos, dup :: body(s, n, m, retain, qos, dup) == ReadConnect(s, n, front, back)
    ensures BodyReads(body, ef + eb, retain, qos, dup, c)
  {
    forall pre: Bytes, tail: Bytes
      ensures body(pre + (ef + eb) + tail, |pre|, |pre| + |ef + eb|, retain, qos, dup) == Ok((c, |pre| + |ef + eb|))
    {
      RegroupTwo(pre, ef, eb, tail);
      FieldReads(pre, ef, eb + tail, front, FrontOf(c));
      FieldReads(pre + ef, eb, tail, back(c.flags), BackOf(c));
    }
  }

  lemma FramedConnectReads(c: Connection, ef: Bytes, eb: Bytes)
    requires Reads(FrontReader(DecodeConnectSection), ef, FrontOf(c)) && Reads(BackReader(c.flags), eb, BackOf(c)) && ValidateConnect(c).Ok?
    requires Framed(FixedByte(Connect, false, AtMostOnce, false), ef + eb).Ok?
    ensures Reads(DecodeConnect, Framed(FixedByte(Connect, false, AtMostOnce, false), ef + eb).value, c)
  {
    ReadConnectReads(c, ef, eb, FrontReader(DecodeConnectSection), BackReader, DecodeConnectBody, false, AtMostOnce, false);
    FramedReads(Connect, false, AtMostOnce, false, ef + eb, DecodeConnectBody, DecodeConnect, c);
  }

  lemma ConnectHalvesRead(c: Connection)
    requires ConnectBody(c).Ok? && ValidateConnect(c).Ok? && Consistent(c)
    ensures Reads(FrontReader(DecodeConnectSection), EncodeFront(c).value, FrontOf(NormalizeConnect(c)))
    ensures Reads(BackReader(c.flags), EncodeBack(c).value, BackOf(NormalizeConnect(c)))
  {
    FrontReads(c);
    BackReads(c);
  }

  lemma NormalizedIsValid(c: Connection)
    requires ValidateConnect(c).Ok? && Consistent(c)
    ensures ValidateConnect(NormalizeConnect(c)).Ok?
  {
  }

  /** Encoding a consistent connection and decoding it, whatever follows, gives it back normalized, with its exact length. */
  lemma ConsistentConnectReads(c: Connection)
    requires EncodeConnect(c).Ok? && Consistent(c)
    ensures Reads(DecodeConnect, EncodeConnect(c).value, NormalizeConnect(c))
  {
    ConnectHalvesRead(c);
    NormalizedIsValid(c);
    FramedConnectReads(NormalizeConnect(c), EncodeFront(c).value, EncodeBack(c).value);
  }

  // ----- What is read is consistent -----

  lemma ApplyKeepsOk(r: ConnectProps, p: Property)
    requires ConnectPropsOk(r) && ApplyConnect(r, p).Ok?
    ensures ConnectPropsOk(ApplyConnect(r, p).value)
  {
  }

  lemma ReadSectionIsOk(s: Bytes)
    requires DecodeConnectSection(s).Ok? && DecodeConnectSection(s).value.0.Some?
    ensures ConnectPropsOk(DecodeConnectSection(s).value.0.value)
  {
    forall r: ConnectProps, p: Property | ConnectPropsOk(r) && ApplyConnect(r, p).Ok? ensures ConnectPropsOk(ApplyConnect(r, p).value) {
      ApplyKeepsOk(r, p);
    }
    PropsKeep(s, NO_CONNECT, CONNECT_RULES, ConnectPropsOk);
  }

  lemma ReadWhen<T>(s: Bytes, present: bool, read: Bytes -> Decoded<T>)
    requires When(present, read)(s).Ok?
    ensures When(present, read)(s).value.0.Some? <==> present
  {
  }

  /** Each part of a composed read was read by its own reader. */
  lemma ReadParts<A, B>(s: Bytes, readA: Bytes -> Decoded<A>, readB: Bytes -> Decoded<B>) returns (n: nat)
    requires Both(readA, readB)(s).Ok?
    ensures readA(s).Ok? && readA(s).value.0 == Both(readA, readB)(s).value.0.0
    ensures n <= |s| && readB(s[n..]).Ok? && readB(s[n..]).value.0 == Both(readA, readB)(s).value.0.1
  {
    n := readA(s).value.1;
  }

  lemma ReadFront(s: Bytes)
    requires FrontReader(DecodeConnectSection)(s).Ok?
    ensures var p := FrontReader(DecodeConnectSection)(s).value.0.1.1.1.1.0; p.Some? ==> ConnectPropsOk(p.value)
  {
    var r4 := Both(DecodeConnectSection, DecodeString);
    var r3 := Both(DecodeU16, r4);
    var r2 := Both(DecodeFlags, r3);
    var r1 := Both(DecodeProtocol, r2);
    var n0 := ReadParts(s, DecodeString, r1);
    var s1 := s[n0..];
    var n1 := ReadParts(s1, DecodeProtocol, r2);
    var s2 := s1[n1..];
    var n2 := ReadParts(s2, DecodeFlags, r3);
    var s3 := s2[n2..];
    var n3 := ReadParts(s3, DecodeU16, r4);
    var s4 := s3[n3..];
    var n4 := ReadParts(s4, DecodeConnectSection, DecodeString);
    if DecodeConnectSection(s4).value.0.Some? {
      ReadSectionIsOk(s4);
    }
  }

  lemma ReadBack(s: Bytes, flags: byte)
    requires BackReader(flags)(s).Ok?
    ensures var b := BackReader(flags)(s).value.0;
            && (b.0.0.Some? ==> IsWill(flags)) && (b.0.1.0.Some? <==> IsWill(flags)) && (b.0.1.1.Some? <==> IsWill(flags))
            && (b.1.0.Some? <==> IsUsername(flags)) && (b.1.1.Some? <==> IsPassword(flags))
  {
    var topic, payload := When(IsWill(flags), DecodeTopic), When(IsWill(flags), DecodeBinary);
    var user, password := When(IsUsername(flags), DecodeString), When(IsPassword(flags), DecodeBinary);
    var n := ReadParts(s, Both(WillSection(IsWill(flags)), Both(topic, payload)), Both(user, password));
    var k := ReadParts(s, WillSection(IsWill(flags)), Both(topic, payload));
    var j := ReadParts(s[k..], topic, payload);
    var i := ReadParts(s[n..], user, password);
    ReadWhen(s[k..], IsWill(flags), DecodeTopic);
    ReadWhen(s[k..][j..], IsWill(flags), DecodeBinary);
    ReadWhen(s[n..], IsUsername(flags), DecodeString);
    ReadWhen(s[n..][i..], IsPassword(flags), DecodeBinary);
  }

  lemma ReadBodyAgrees(s: Bytes, n: nat, m: nat, retain: bool, qos: QoS, dup: bool)
    requires DecodeConnectBody(s, n, m, retain, qos, dup).Ok?
    ensures FlagsAgree(DecodeConnectBody(s, n, m, retain, qos, dup).value.0)
  {
    var (f, k) := Field(s, n, FrontReader(DecodeConnectSection)).value;
    ReadFront(s[n..]);
    ReadBack(s[k..], f.1.1.0);
  }

  /** Whatever `decode` returns, its flag byte says which fields it has. */
  lemma DecodedConnectAgrees(s: Bytes)
    requires DecodeConnect(s).Ok?
    ensures FlagsAgree(DecodeConnect(s).value.0)
  {
    var n, m, retain, qos, dup := WithHeaderOk(s, DecodeConnectBody);
    ReadBodyAgrees(s, n, m, retain, qos, dup);
  }

  function OptLength(v: Option<Bytes>): nat {
    if v.Some? then 2 + |v.value| else 0
  }

  lemma ReadCredentials(s: Bytes, user: bool, password: bool)
    requires Both(When(user, DecodeString), When(password, DecodeBinary))(s).Ok?
    ensures var (v, n) := Both(When(user, DecodeString), When(password, DecodeBinary))(s).value;
            n == OptLength(v.0) + OptLength(v.1)
  {
  }

  /** Without a will the announced fields are the user name and password, and they take their own length. */
  lemma ReadWithoutWill(s: Bytes, flags: byte)
    requires BackReader(flags)(s).Ok? && !IsWill(flags)
    ensures BackReader(flags)(s).value.1 == OptLength(BackReader(flags)(s).value.0.1.0) + OptLength(BackReader(flags)(s).value.0.1.1)
  {
    assert s[0..] == s;
    ReadCredentials(s, IsUsername(flags), IsPassword(flags));
  }

  lemma WriteStray(c: Connection)
    requires EncodeBack(c).Ok? && c.willProperties == Some(NO_WILL) && c.willTopic.None? && c.willPayload.None?
    ensures |EncodeBack(c).value| == 1 + OptLength(c.username) + OptLength(c.password)
  {
    WillListFits(NO_WILL);
    VarRoundTrip(0, []);
  }

  /** No reading that gives this value takes this many bytes. */
  ghost predicate NeverTakes(read: Bytes -> Decoded<Back>, v: Back, n: nat) {
    forall s: Bytes :: read(s).Ok? && read(s).value.0 == v ==> read(s).value.1 != n
  }

  lemma ReadConnectMisses(c: Connection, ef: Bytes, eb: Bytes, tail: Bytes,
      front: Bytes -> Decoded<Front>, back: byte -> (Bytes -> Decoded<Back>), body: BodyReader<Connection>, read: Bytes -> Decoded<Connection>)
    requires Reads(front, ef, FrontOf(c)) && NeverTakes(back(c.flags), BackOf(c), |eb|)
    requires forall s, n, m, retain, qos, dup :: body(s, n, m, retain, qos, dup) == ReadConnect(s, n, front, back)
    requires forall s: Bytes :: read(s) == WithHeader(s, body)
    requires Framed(FixedByte(Connect, false, AtMostOnce, false), ef + eb).Ok?
    ensures var enc := Framed(FixedByte(Connect, false, AtMostOnce, false), ef + eb).value; read(enc + tail) != Ok((c, |enc|))
  {
    var h := WithHeaderFramed(Connect, false, AtMostOnce, false, ef + eb, tail, body);
    RegroupTwo(h, ef, eb, tail);
    FieldReads(h, ef, eb + tail, front, FrontOf(c));
  }

  lemma StrayLength(c: Connection, n: nat)
    requires !IsWill(c.flags) && n == 1 + OptLength(c.username) + OptLength(c.password)
    ensures NeverTakes(BackReader(c.flags), BackOf(c), n)
  {
    forall s: Bytes | BackReader(c.flags)(s).Ok? && BackReader(c.flags)(s).value.0 == BackOf(c)
      ensures BackReader(c.flags)(s).value.1 != n
    {
      ReadWithoutWill(s, c.flags);
    }
  }

  lemma FramedConnectMisses(c: Connection, ef: Bytes, eb: Bytes, tail: Bytes)
    requires Reads(FrontReader(DecodeConnectSection), ef, FrontOf(c)) && NeverTakes(BackReader(c.flags), BackOf(c), |eb|)
    requires Framed(FixedByte(Connect, false, AtMostOnce, false), ef + eb).Ok?
    ensures var enc := Framed(FixedByte(Connect, false, AtMostOnce, false), ef + eb).value; DecodeConnect(enc + tail) != Ok((c, |enc|))
  {
    ReadConnectMisses(c, ef, eb, tail, FrontReader(DecodeConnectSection), BackReader, DecodeConnectBody, DecodeConnect);
  }

  lemma StrayHalves(c: Connection)
    requires ConnectBody(c).Ok? && c.flags % 2 == 0 && FlagsAgree(NormalizeConnect(c)) && c.willProperties == Some(NO_WILL)
    ensures Reads(FrontReader(DecodeConnectSection), EncodeFront(c).value, FrontOf(NormalizeConnect(c)))
    ensures NeverTakes(BackReader(c.flags), BackOf(NormalizeConnect(c)), |EncodeBack(c).value|)
  {
    FrontReads(c);
    WriteStray(c);
    StrayLength(NormalizeConnect(c), |EncodeBack(c).value|);
  }

  /** An empty property record without a will flag writes a zero byte that the reader never expects. */
  lemma StrayWill(c: Connection, tail: Bytes)
    requires EncodeConnect(c).Ok? && FlagsAgree(NormalizeConnect(c)) && c.willProperties == Some(NO_WILL)
    ensures DecodeConnect(EncodeConnect(c).value + tail) != Ok((NormalizeConnect(c), |EncodeConnect(c).value|))
  {
    WrittenAs(c);
    StrayHalves(c);
    FramedConnectMisses(NormalizeConnect(c), EncodeFront(c).value, EncodeBack(c).value, tail);
  }

  lemma WrittenAs(c: Connection)
    requires EncodeConnect(c).Ok?
    ensures ConnectBody(c).Ok? && c.flags % 2 == 0 && EncodeFront(c).Ok? && EncodeBack(c).Ok? && NormalizeConnect(c).flags == c.flags
    ensures EncodeConnect(c) == Framed(FixedByte(Connect, false, AtMostOnce, false), EncodeFront(c).value + EncodeBack(c).value)
  {
  }

  /** The round trip holds exactly for consistent connections. */
  lemma ConnectRoundTrip(c: Connection, tail: Bytes)
    requires EncodeConnect(c).Ok?
    ensures DecodeConnect(EncodeConnect(c).value + tail) == Ok((NormalizeConnect(c), |EncodeConnect(c).value|)) <==> Consistent(c)
  {
    var s := EncodeConnect(c).value + tail;
    if Consistent(c) {
      ConsistentConnectReads(c);
    } else if DecodeConnect(s) == Ok((NormalizeConnect(c), |EncodeConnect(c).value|)) {
      DecodedConnectAgrees(s);
      StrayWill(c, tail);
    }
  }
}
