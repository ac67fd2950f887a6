/** SUBSCRIBE (section 3.8 of MQTT Version 5.0): a packet id, properties, and filters to the end of the packet. */
module SubscribeCodec {
  import opened Base
  import opened Mqtt
  import opened Wire
  import opened ItemLoops
  import opened Properties
  import opened Packets

  datatype SubscribeProps = SubscribeProps(subscriptionId: Option<nat>, userProperties: seq<(Str, Str)>)

  /** A filter with its raw option byte. */
  datatype SubscribeFilter = SubscribeFilter(topicFilter: Str, opt: byte)

  datatype Subscribing = Subscribing(packetId: u16, properties: Option<SubscribeProps>, filters: seq<SubscribeFilter>)

  const NO_SUBSCRIBE := SubscribeProps(None, [])

  // ----- Properties -----

  function IdProp(id: Option<nat>): Option<Property> {
    if id.Some? then Some(Property(SubscriptionIdentifier, VarInt(id.value))) else None
  }

  function SubscribeList(r: SubscribeProps): seq<Property> {
    Opt(IdProp(r.subscriptionId)) + (UserList(r.userProperties) + [])
  }

  function ApplySubscribe(r: SubscribeProps, p: Property): Result<SubscribeProps> {
    match (p.pt, p.value)
    case (SubscriptionIdentifier, VarInt(n)) => if n == 0 then Err(ProtocolError) else Ok(r.(subscriptionId := Some(n)))
    case (UserProp, Pair(k, v)) => Ok(r.(userProperties := r.userProperties + [(k, v)]))
    case _ => Err(ProtocolError)
  }

  const SUBSCRIBE_RULES: Rules<SubscribeProps> := Rules({UserProp}, ApplySubscribe)

  predicate SubscribePropsOk(r: SubscribeProps) {
    r.subscriptionId != Some(0)
  }

  /** Reading the written properties rebuilds the record. */
  lemma SubscribeBuild(r: SubscribeProps)
    requires SubscribePropsOk(r)
    ensures Build(SubscribeList(r), NO_SUBSCRIBE, SUBSCRIBE_RULES) == Ok(r)
    ensures AllFit(SubscribeList(r)) && (SubscribeList(r) == [] <==> r == NO_SUBSCRIBE)
  {
    var us := r.userProperties;
    var records := seq(|us| + 1, i requires 0 <= i < |us| + 1 => r.(userProperties := us[..i]));
    forall i | 0 <= i < |us| ensures ApplySubscribe(records[i], UserList(us)[i]) == Ok(records[i + 1]) {
      assert us[..i + 1] == us[..i] + [us[i]];
    }
    assert us[..|us|] == us;
    FoldOpt(IdProp(r.subscriptionId), UserList(us) + [], Gathered({}, NO_SUBSCRIBE), records[0], SUBSCRIBE_RULES);
    var seen := FoldMany(UserList(us), [], {} + Mark(IdProp(r.subscriptionId)), records, SUBSCRIBE_RULES);
  }

  function EncodeSubscribeSection(r: Option<SubscribeProps>): Result<Bytes> {
    if r.Some? then EncodeProps(SubscribeList(r.value)) else EncodeVar(0)
  }

  function DecodeSubscribeSection(s: Bytes): Decoded<Option<SubscribeProps>> {
    DecodeSection(s, NO_SUBSCRIBE, SUBSCRIBE_RULES)
  }

  // ----- Filters -----

  function EncodeSubscribeFilter(f: SubscribeFilter): Result<Bytes> {
    var filter :- EncodeFilter(f.topicFilter);
    Ok(filter + [f.opt])
  }

  function DecodeSubscribeFilter(s: Bytes): (r: Decoded<SubscribeFilter>)
    ensures r.Ok? ==> r.value.1 > 0
  {
    var (filter, n) :- DecodeFilter(s);
    var (opt, m) :- Field(s, n, DecodeU8);
    Ok((SubscribeFilter(filter, opt), m))
  }

  lemma SubscribeFilterReads(f: SubscribeFilter)
    ensures RoundTrips(f, EncodeSubscribeFilter, DecodeSubscribeFilter)
  {
    if EncodeSubscribeFilter(f).Ok? {
      var enc := EncodeFilter(f.topicFilter).value;
      forall tail: Bytes ensures DecodeSubscribeFilter(enc + [f.opt] + tail) == Ok((f, |enc| + 1)) {
        FilterRoundTrip(f.topicFilter, [f.opt] + tail);
        assert enc + [f.opt] + tail == enc + ([f.opt] + tail);
        AdvanceOver(enc, [f.opt] + tail);
      }
    }
  }

  lemma FiltersProgress()
    ensures Progresses(DecodeSubscribeFilter)
  {
  }

  function Push(fs: seq<SubscribeFilter>, f: SubscribeFilter): Result<seq<SubscribeFilter>> {
    Ok(fs + [f])
  }

  lemma {:induction false} PushAll(fs: seq<SubscribeFilter>, done: seq<SubscribeFilter>)
    ensures Fold(fs, done, Push) == Ok(done + fs)
  {
    if fs == [] {
      assert done + fs == done;
    } else {
      PushAll(fs[1..], done + [fs[0]]);
      assert done + [fs[0]] + fs[1..] == done + fs;
    }
  }

  /** The filters of a payload, which they fill. */
  function DecodeFilters(payload: Bytes): Result<seq<SubscribeFilter>> {
    FiltersProgress();
    var (fs, _) :- DecodeLoop(payload, 0, |payload|, [], DecodeSubscribeFilter, Push);
    Ok(fs)
  }

  method DecodeFiltersLoop(payload: Bytes) returns (r: Result<seq<SubscribeFilter>>)
    ensures r == DecodeFilters(payload)
  {
    FiltersProgress();
    var end := RunLoop(payload, 0, |payload|, [], DecodeSubscribeFilter, Push);
    if end.Err? {
      return Err(end.kind);
    }
    return Ok(end.value.0);
  }

  /** A written list of filters reads back in order. */
  lemma FiltersRead(fs: seq<SubscribeFilter>)
    requires EncodeItems(fs, EncodeSubscribeFilter).Ok?
    ensures DecodeFilters(EncodeItems(fs, EncodeSubscribeFilter).value) == Ok(fs)
    ensures fs != [] ==> EncodeItems(fs, EncodeSubscribeFilter).value != []
  {
    FiltersProgress();
    forall i | 0 <= i < |fs| ensures RoundTrips(fs[i], EncodeSubscribeFilter, DecodeSubscribeFilter) {
      SubscribeFilterReads(fs[i]);
    }
    LoopReadsSlice(fs, [], EncodeSubscribeFilter, DecodeSubscribeFilter, Push);
    PushAll(fs, []);
    assert [] + fs == fs;
  }

  // ----- The packet -----

  /** Two reserved bits clear, retain handling 0 to 2, QoS 0 to 2. */
  predicate OptValid(opt: byte) {
    Int(opt) / 64 == 0 && Int(opt) / 16 % 4 != 3 && Int(opt) % 4 != 3
  }

  /** `Subscribe::validate` */
  function ValidateSubscribe(p: Subscribing): Result<()> {
    if p.filters == [] then Err(ProtocolError)
    else if exists i :: 0 <= i < |p.filters| && !OptValid(p.filters[i].opt) then Err(MalformedPacket)
    else Ok(())
  }

  /** What follows the properties up to the stated end; nothing there is an error, an end before it a crash. */
  function SubscribePayload(s: Bytes, n: nat, m: nat): Result<Bytes> {
    if m == n then Err(MalformedPacket)
    else if m > |s| then Err(MalformedPacket)
    else if m < n then Err(Panic)
    else Ok(s[n..m])
  }

  function ReadSubscribe(s: Bytes, n: nat, m: nat, readHead: Bytes -> Decoded<(u16, Option<SubscribeProps>)>,
      readFilters: Bytes -> Result<seq<SubscribeFilter>>): Decoded<Subscribing> {
    var (head, k) :- Field(s, n, readHead);
    var payload :- SubscribePayload(s, k, m);
    var filters :- readFilters(payload);
    var p := Subscribing(head.0, head.1, filters);
    var _ :- ValidateSubscribe(p);
    Ok((p, m))
  }

  function HeadReader(): Bytes -> Decoded<(u16, Option<SubscribeProps>)> {
    Both(DecodeU16, DecodeSubscribeSection)
  }

  /** `Subscribe::decode` behind the fixed header. */
  function DecodeSubscribeBody(s: Bytes, n: nat, m: nat, retain: bool, qos: QoS, dup: bool): Decoded<Subscribing> {
    ReadSubscribe(s, n, m, HeadReader(), DecodeFilters)
  }

  /** `Subscribe::decode` */
  function DecodeSubscribe(s: Bytes): Decoded<Subscribing> {
    WithHeader(s, DecodeSubscribeBody)
  }

  function SubscribeBody(p: Subscribing): Result<Bytes> {
    var props :- EncodeSubscribeSection(p.properties);
    var filters :- EncodeItems(p.filters, EncodeSubscribeFilter);
    Ok((EncodeU16(p.packetId) + props) + filters)
  }

  /** `Subscribe::encode` */
  function EncodeSubscribe(p: Subscribing): Result<Bytes> {
    var _ :- ValidateSubscribe(p);
    var body :- SubscribeBody(p);
    Framed(FixedByte(Subscribe, false, AtLeastOnce, false), body)
  }

  /** `Subscribe::normalize` */
  function NormalizeSubscribe(p: Subscribing): Subscribing {
    p.(properties := if p.properties == Some(NO_SUBSCRIBE) then None else p.properties)
  }

  /** What a packet that encodes must satisfy besides for its encoding to be readable. */
  predicate Consistent(p: Subscribing) {
    p.properties.Some? ==> SubscribePropsOk(p.properties.value)
  }

  lemma SubscribeHeadReads(p: Subscribing)
    requires EncodeSubscribeSection(p.properties).Ok? && Consistent(p)
    ensures Reads(HeadReader(), EncodeU16(p.packetId) + EncodeSubscribeSection(p.properties).value, (p.packetId, NormalizeSubscribe(p).properties))
  {
    var v := NormalizeSubscribe(p).properties;
    var enc := EncodeSubscribeSection(p.properties).value;
    forall tail: Bytes ensures DecodeSubscribeSection(enc + tail) == Ok((v, |enc|)) {
      match p.properties
      case None =>
        EmptySection(tail, NO_SUBSCRIBE, SUBSCRIBE_RULES);
      case Some(props) =>
        SubscribeBuild(props);
        SectionRoundTrip(SubscribeList(props), tail, NO_SUBSCRIBE, SUBSCRIBE_RULES);
    }
    BothRead(DecodeU16, DecodeSubscribeSection, EncodeU16(p.packetId), enc, p.packetId, v);
  }

  /** The body of a valid packet, read with any readers that undo how its head and filters were written. */
  lemma ReadSubscribeReads(p: Subscribing, head: Bytes, filters: Bytes, readHead: Bytes -> Decoded<(u16, Option<SubscribeProps>)>,
      readFilters: Bytes -> Result<seq<SubscribeFilter>>, body: BodyReader<Subscribing>, retain: bool, qos: QoS, dup: bool)
    requires Reads(readHead, head, (p.packetId, p.properties)) && readFilters(filters) == Ok(p.filters) && filters != []
    requires ValidateSubscribe(p).Ok?
    requires forall s, n, m, retain, qos, dup :: body(s, n, m, retain, qos, dup) == ReadSubscribe(s, n, m, readHead, readFilters)
    ensures BodyReads(body, head + filters, retain, qos, dup, p)
  {
    forall pre: Bytes, tail: Bytes
      ensures body(pre + (head + filters) + tail, |pre|, |pre| + |head + filters|, retain, qos, dup) == Ok((p, |pre| + |head + filters|))
    {
      RegroupTwo(pre, head, filters, tail);
      FieldReads(pre, head, filters + tail, readHead, (p.packetId, p.properties));
      assert (pre + head + filters + tail)[|pre| + |head|..|pre| + |head| + |filters|] == filters;
    }
  }

  lemma FramedSubscribeReads(p: Subscribing, head: Bytes, filters: Bytes)
    requires Reads(HeadReader(), head, (p.packetId, p.properties)) && DecodeFilters(filters) == Ok(p.filters) && filters != []
    requires ValidateSubscribe(p).Ok? && Framed(FixedByte(Subscribe, false, AtLeastOnce, false), head + filters).Ok?
    ensures Reads(DecodeSubscribe, Framed(FixedByte(Subscribe, false, AtLeastOnce, false), head + filters).value, p)
  {
    ReadSubscribeReads(p, head, filters, HeadReader(), DecodeFilters, DecodeSubscribeBody, false, AtLeastOnce, false);
    FramedReads(Subscribe, false, AtLeastOnce, false, head + filters, DecodeSubscribeBody, DecodeSubscribe, p);
  }

  /** Encoding a consistent packet and decoding it, whatever follows, gives it back normalized, with its exact length. */
  lemma ConsistentSubscribeReads(p: Subscribing)
    requires EncodeSubscribe(p).Ok? && Consistent(p)
    ensures Reads(DecodeSubscribe, EncodeSubscribe(p).value, NormalizeSubscribe(p))
  {
    SubscribeHeadReads(p);
    FiltersRead(p.filters);
    FramedSubscribeReads(NormalizeSubscribe(p), EncodeU16(p.packetId) + EncodeSubscribeSection(p.properties).value,
                         EncodeItems(p.filters, EncodeSubscribeFilter).value);
  }

  lemma ReadHead(s: Bytes)
    requires HeadReader()(s).Ok?
    ensures var r := HeadReader()(s).value.0.1; r.Some? ==> SubscribePropsOk(r.value)
  {
    var n := DecodeU16(s).value.1;
    PropsKeep(s[n..], NO_SUBSCRIBE, SUBSCRIBE_RULES, SubscribePropsOk);
  }

  /** Whatever `decode` returns is consistent. */
  lemma DecodedSubscribeIsConsistent(s: Bytes)
    requires DecodeSubscribe(s).Ok?
    ensures Consistent(DecodeSubscribe(s).value.0) && ValidateSubscribe(DecodeSubscribe(s).value.0).Ok?
  {
    var n, m, retain, qos, dup := WithHeaderOk(s, DecodeSubscribeBody);
    ReadHead(s[n..]);
  }

  /** The round trip holds exactly for consistent packets. */
  lemma SubscribeRoundTrip(p: Subscribing, tail: Bytes)
    requires EncodeSubscribe(p).Ok?
    ensures DecodeSubscribe(EncodeSubscribe(p).value + tail) == Ok((NormalizeSubscribe(p), |EncodeSubscribe(p).value|)) <==> Consistent(p)
  {
    var s := EncodeSubscribe(p).value + tail;
    if Consistent(p) {
      ConsistentSubscribeReads(p);
    } else if DecodeSubscribe(s).Ok? {
      DecodedSubscribeIsConsistent(s);
    }
  }
}
