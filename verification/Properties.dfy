/**
 * MQTT properties (section 2.2.2 of MQTT Version 5.0). Each packet type reads its properties with the
 * same loop and differs in which types may repeat and how a property enters its record; those rules
 * are an argument here.
 */
module Properties {
  import opened Base
  import opened Mqtt
  import opened Wire
  import opened ItemLoops

  datatype PropertyType =
    | PayloadFormatIndicator | MessageExpiryInterval | ContentType | ResponseTopic | CorrelationData
    | SubscriptionIdentifier | SessionExpiryInterval | AssignedClientIdentifier | ServerKeepAlive
    | AuthenticationMethod | AuthenticationData | RequestProblemInformation | WillDelayInterval
    | RequestResponseInformation | ResponseInformation | ServerReference | ReasonString | ReceiveMaximum
    | TopicAliasMaximum | TopicAlias | MaximumQoS | RetainAvailable | UserProp | MaximumPacketSize
    | WildcardSubscriptionAvailable | SubscriptionIdentifierAvailable | SharedSubscriptionAvailable

  function Code(pt: PropertyType): (n: nat)
    ensures n < 128
  {
    match pt
    case PayloadFormatIndicator => 1
    case MessageExpiryInterval => 2
    case ContentType => 3
    case ResponseTopic => 8
    case CorrelationData => 9
    case SubscriptionIdentifier => 11
    case SessionExpiryInterval => 17
    case AssignedClientIdentifier => 18
    case ServerKeepAlive => 19
    case AuthenticationMethod => 21
    case AuthenticationData => 22
    case RequestProblemInformation => 23
    case WillDelayInterval => 24
    case RequestResponseInformation => 25
    case ResponseInformation => 26
    case ServerReference => 28
    case ReasonString => 31
    case ReceiveMaximum => 33
    case TopicAliasMaximum => 34
    case TopicAlias => 35
    case MaximumQoS => 36
    case RetainAvailable => 37
    case UserProp => 38
    case MaximumPacketSize => 39
    case WildcardSubscriptionAvailable => 40
    case SubscriptionIdentifierAvailable => 41
    case SharedSubscriptionAvailable => 42
  }

  /** `PropertyType::try_from`, the inverse of `Code` */
  function FromCode(n: nat): (r: Result<PropertyType>)
    ensures r.Ok? ==> Code(r.value) == n
  {
    if n <= 24 then FromLowCode(n) else FromHighCode(n)
  }

  function FromLowCode(n: nat): (r: Result<PropertyType>)
    ensures r.Ok? ==> Code(r.value) == n
  {
    match n
    case 1 => Ok(PayloadFormatIndicator)
    case 2 => Ok(MessageExpiryInterval)
    case 3 => Ok(ContentType)
    case 8 => Ok(ResponseTopic)
    case 9 => Ok(CorrelationData)
    case 11 => Ok(SubscriptionIdentifier)
    case 17 => Ok(SessionExpiryInterval)
    case 18 => Ok(AssignedClientIdentifier)
    case 19 => Ok(ServerKeepAlive)
    case 21 => Ok(AuthenticationMethod)
    case 22 => Ok(AuthenticationData)
    case 23 => Ok(RequestProblemInformation)
    case 24 => Ok(WillDelayInterval)
    case _ => Err(MalformedPacket)
  }

  function FromHighCode(n: nat): (r: Result<PropertyType>)
    ensures r.Ok? ==> Code(r.value) == n
  {
    match n
    case 25 => Ok(RequestResponseInformation)
    case 26 => Ok(ResponseInformation)
    case 28 => Ok(ServerReference)
    case 31 => Ok(ReasonString)
    case 33 => Ok(ReceiveMaximum)
    case 34 => Ok(TopicAliasMaximum)
    case 35 => Ok(TopicAlias)
    case 36 => Ok(MaximumQoS)
    case 37 => Ok(RetainAvailable)
    case 38 => Ok(UserProp)
    case 39 => Ok(MaximumPacketSize)
    case 40 => Ok(WildcardSubscriptionAvailable)
    case 41 => Ok(SubscriptionIdentifierAvailable)
    case 42 => Ok(SharedSubscriptionAvailable)
    case _ => Err(MalformedPacket)
  }

  lemma FromCodeOfCode(pt: PropertyType)
    ensures FromCode(Code(pt)) == Ok(pt)
  {
  }

  /** The wire forms a property value can have. */
  datatype Value =
    | OneByte(b: byte)
    | TwoBytes(h: u16)
    | FourBytes(w: u32)
    | VarInt(n: nat)
    | Text(s: Str)
    | Topic(name: Str)
    | Binary(bs: Bytes)
    | Pair(key: Str, val: Str)
    | Service(qos: QoS)

  datatype Kind = KOneByte | KTwoBytes | KFourBytes | KVarInt | KText | KTopic | KBinary | KPair | KService

  function KindOf(pt: PropertyType): Kind {
    match pt
    case PayloadFormatIndicator => KOneByte
    case MessageExpiryInterval => KFourBytes
    case ContentType => KText
    case ResponseTopic => KTopic
    case CorrelationData => KBinary
    case SubscriptionIdentifier => KVarInt
    case SessionExpiryInterval => KFourBytes
    case AssignedClientIdentifier => KText
    case ServerKeepAlive => KTwoBytes
    case AuthenticationMethod => KText
    case AuthenticationData => KBinary
    case RequestProblemInformation => KOneByte
    case WillDelayInterval => KFourBytes
    case RequestResponseInformation => KOneByte
    case ResponseInformation => KText
    case ServerReference => KText
    case ReasonString => KText
    case ReceiveMaximum => KTwoBytes
    case TopicAliasMaximum => KTwoBytes
    case TopicAlias => KTwoBytes
    case MaximumQoS => KService
    case RetainAvailable => KOneByte
    case UserProp => KPair
    case MaximumPacketSize => KFourBytes
    case WildcardSubscriptionAvailable => KOneByte
    case SubscriptionIdentifierAvailable => KOneByte
    case SharedSubscriptionAvailable => KOneByte
  }

  function KindOfValue(v: Value): Kind {
    match v
    case OneByte(_) => KOneByte
    case TwoBytes(_) => KTwoBytes
    case FourBytes(_) => KFourBytes
    case VarInt(_) => KVarInt
    case Text(_) => KText
    case Topic(_) => KTopic
    case Binary(_) => KBinary
    case Pair(_, _) => KPair
    case Service(_) => KService
  }

  datatype Property = Property(pt: PropertyType, value: Value)

  /** The value has the form its type calls for, as the variants of the source's `Property` enforce. */
  predicate Fits(p: Property) {
    KindOfValue(p.value) == KindOf(p.pt)
  }

  ghost predicate AllFit(ps: seq<Property>) {
    forall i :: 0 <= i < |ps| ==> Fits(ps[i])
  }

  function EncodeValue(v: Value): Result<Bytes> {
    match v
    case OneByte(b) => Ok([b])
    case TwoBytes(h) => Ok(EncodeU16(h))
    case FourBytes(w) => Ok(EncodeU32(w))
    case VarInt(n) => EncodeVar(n)
    case Text(s) => EncodeString(s)
    case Topic(name) => EncodeTopic(name)
    case Binary(bs) => EncodeBinary(bs)
    case Pair(key, val) => EncodePair(key, val)
    case Service(qos) => Ok([qos.Level()])
  }

  function DecodeValue(kind: Kind, s: Bytes): (r: Decoded<Value>)
    ensures r.Ok? ==> KindOfValue(r.value.0) == kind
  {
    match kind
    case KOneByte => (var (b, n) :- DecodeU8(s); Ok((OneByte(b), n)))
    case KTwoBytes => (var (h, n) :- DecodeU16(s); Ok((TwoBytes(h), n)))
    case KFourBytes => (var (w, n) :- DecodeU32(s); Ok((FourBytes(w), n)))
    case KVarInt => (var (v, n) :- DecodeVar(s); Ok((VarInt(v), n)))
    case KText => (var (t, n) :- DecodeString(s); Ok((Text(t), n)))
    case KTopic => (var (t, n) :- DecodeTopic(s); Ok((Topic(t), n)))
    case KBinary => (var (bs, n) :- DecodeBinary(s); Ok((Binary(bs), n)))
    case KPair => (var (p, n) :- DecodePair(s); Ok((Pair(p.0, p.1), n)))
    case KService => (var (b, n) :- DecodeU8(s); var q :- ToQoS(b); Ok((Service(q), n)))
  }

  lemma NumberRoundTrip(v: Value, tail: Bytes)
    requires EncodeValue(v).Ok? && (v.OneByte? || v.TwoBytes? || v.FourBytes? || v.VarInt? || v.Service?)
    ensures DecodeValue(KindOfValue(v), EncodeValue(v).value + tail) == Ok((v, |EncodeValue(v).value|))
  {
    match v
    case FourBytes(w) => U32RoundTrip(w, tail);
    case VarInt(n) => VarRoundTrip(n, tail);
    case _ =>
  }

  lemma TextRoundTrip(v: Value, tail: Bytes)
    requires EncodeValue(v).Ok? && (v.Text? || v.Topic? || v.Binary? || v.Pair?)
    ensures DecodeValue(KindOfValue(v), EncodeValue(v).value + tail) == Ok((v, |EncodeValue(v).value|))
  {
    match v
    case Text(s) => StringRoundTrip(s, tail);
    case Topic(name) => TopicRoundTrip(name, tail);
    case Binary(bs) => BinaryRoundTrip(bs, tail);
    case Pair(key, val) => PairRoundTrip(key, val, tail);
  }

  lemma ValueRoundTrip(v: Value, tail: Bytes)
    requires EncodeValue(v).Ok?
    ensures DecodeValue(KindOfValue(v), EncodeValue(v).value + tail) == Ok((v, |EncodeValue(v).value|))
  {
    if v.Text? || v.Topic? || v.Binary? || v.Pair? {
      TextRoundTrip(v, tail);
    } else {
      NumberRoundTrip(v, tail);
    }
  }

  function EncodeProperty(p: Property): Result<Bytes> {
    var t :- EncodeVar(Code(p.pt));
    var v :- EncodeValue(p.value);
    Ok(t + v)
  }

  function DecodeProperty(s: Bytes): (r: Decoded<Property>)
    ensures r.Ok? ==> 0 < r.value.1 && Fits(r.value.0)
  {
    DecodeVarShape(s);
    var (code, n) :- DecodeVar(s);
    var pt :- FromCode(code);
    var (v, m) :- DecodeValue(KindOf(pt), s[n..]);
    Ok((Property(pt, v), n + m))
  }

  lemma PropertyRoundTrip(p: Property, tail: Bytes)
    requires EncodeProperty(p).Ok? && Fits(p)
    ensures DecodeProperty(EncodeProperty(p).value + tail) == Ok((p, |EncodeProperty(p).value|))
  {
    var t, v := EncodeVar(Code(p.pt)).value, EncodeValue(p.value).value;
    VarRoundTrip(Code(p.pt), v + tail);
    assert t + v + tail == t + (v + tail);
    assert (t + (v + tail))[|t|..] == v + tail;
    ValueRoundTrip(p.value, tail);
    FromCodeOfCode(p.pt);
  }

  lemma PropertyReads(p: Property)
    requires Fits(p)
    ensures RoundTrips(p, EncodeProperty, DecodeProperty)
  {
    if EncodeProperty(p).Ok? {
      forall tail: Bytes ensures DecodeProperty(EncodeProperty(p).value + tail) == Ok((p, |EncodeProperty(p).value|)) {
        PropertyRoundTrip(p, tail);
      }
    }
  }

  lemma PropertiesProgress()
    ensures Progresses(DecodeProperty)
  {
  }

  // ----- Property lists -----

  /** Which types may repeat, and how a property enters the record being built. */
  datatype Rules<!T> = Rules(repeatable: set<PropertyType>, apply: (T, Property) -> Result<T>)

  /** The `dups` array and the record. */
  datatype Gathered<T> = Gathered(seen: set<PropertyType>, record: T)

  function Enter<T>(g: Gathered<T>, p: Property, rules: Rules<T>): Result<Gathered<T>> {
    if p.pt !in rules.repeatable && p.pt in g.seen then Err(ProtocolError)
    else
      var record :- rules.apply(g.record, p);
      Ok(Gathered(g.seen + {p.pt}, record))
  }

  function Entering<T>(rules: Rules<T>): (Gathered<T>, Property) -> Result<Gathered<T>> {
    (g, p) => Enter(g, p, rules)
  }

  /** `decode` of a property record: the length, then the loop. */
  function DecodeProps<T>(s: Bytes, default: T, rules: Rules<T>): Decoded<T> {
    PropertiesProgress();
    var (g, m) :- DecodeCounted(s, Gathered({}, default), DecodeProperty, Entering(rules));
    Ok((g.record, m))
  }

  method DecodePropsLoop<T>(s: Bytes, default: T, rules: Rules<T>) returns (r: Decoded<T>)
    ensures r == DecodeProps(s, default, rules)
  {
    PropertiesProgress();
    var g := RunCounted(s, Gathered({}, default), DecodeProperty, Entering(rules));
    return if g.Ok? then Ok((g.value.0.record, g.value.1)) else Err(g.kind);
  }

  /** `insert_property_len`: the list with its length in front. */
  function EncodeProps(ps: seq<Property>): Result<Bytes> {
    EncodeCounted(ps, EncodeProperty)
  }

  /** The record a list of properties builds. */
  function Build<T>(ps: seq<Property>, default: T, rules: Rules<T>): Result<T> {
    var g :- Fold(ps, Gathered({}, default), Entering(rules));
    Ok(g.record)
  }

  lemma AllRead(ps: seq<Property>)
    requires AllFit(ps)
    ensures AllRoundTrip(ps, EncodeProperty, DecodeProperty)
  {
    forall i | 0 <= i < |ps| ensures RoundTrips(ps[i], EncodeProperty, DecodeProperty) {
      PropertyReads(ps[i]);
    }
  }

  /** A property of records that holds of the default and survives every applied property holds of every decoded record. */
  lemma PropsKeep<T(!new)>(s: Bytes, default: T, rules: Rules<T>, good: T -> bool)
    requires good(default)
    requires forall t: T, p: Property :: good(t) && rules.apply(t, p).Ok? ==> good(rules.apply(t, p).value)
    ensures DecodeProps(s, default, rules).Ok? ==> good(DecodeProps(s, default, rules).value.0)
  {
    PropertiesProgress();
    CountedKeeps(s, Gathered({}, default), DecodeProperty, Entering(rules), (g: Gathered<T>) => good(g.record));
  }

  // ----- Reading back what a record writes -----

  function Opt(p: Option<Property>): seq<Property> {
    if p.Some? then [p.value] else []
  }

  function Mark(p: Option<Property>): set<PropertyType> {
    if p.Some? then {p.value.pt} else {}
  }

  /** An optional field at the front of the list. */
  lemma FoldOpt<T>(p: Option<Property>, rest: seq<Property>, g: Gathered<T>, record: T, rules: Rules<T>)
    requires p.None? ==> record == g.record
    requires p.Some? ==> p.value.pt !in g.seen && rules.apply(g.record, p.value) == Ok(record)
    ensures Fold(Opt(p) + rest, g, Entering(rules)) == Fold(rest, Gathered(g.seen + Mark(p), record), Entering(rules))
  {
    assert (Opt(p) + rest)[|Opt(p)|..] == rest;
    assert g.seen + {} == g.seen;
  }

  lemma FoldTwo<T>(a: Option<Property>, b: Option<Property>, rest: seq<Property>, g: Gathered<T>, r1: T, r2: T, rules: Rules<T>)
    requires a.None? ==> r1 == g.record
    requires a.Some? ==> a.value.pt !in g.seen && rules.apply(g.record, a.value) == Ok(r1)
    requires b.None? ==> r2 == r1
    requires b.Some? ==> b.value.pt !in g.seen + Mark(a) && rules.apply(r1, b.value) == Ok(r2)
    ensures Fold(Opt(a) + (Opt(b) + rest), g, Entering(rules)) ==
            Fold(rest, Gathered(g.seen + Mark(a) + Mark(b), r2), Entering(rules))
  {
    FoldOpt(a, Opt(b) + rest, g, r1, rules);
    FoldOpt(b, rest, Gathered(g.seen + Mark(a), r1), r2, rules);
  }

  /** A repeated field at the front of the list, taking the record through `records`. */
  lemma {:induction false} FoldMany<T>(ps: seq<Property>, rest: seq<Property>, seen: set<PropertyType>, records: seq<T>, rules: Rules<T>)
    returns (seen': set<PropertyType>)
    requires |records| == |ps| + 1
    requires forall i :: 0 <= i < |ps| ==> ps[i].pt in rules.repeatable && rules.apply(records[i], ps[i]) == Ok(records[i + 1])
    ensures Fold(ps + rest, Gathered(seen, records[0]), Entering(rules)) == Fold(rest, Gathered(seen', records[|ps|]), Entering(rules))
    decreases |ps|
  {
    if ps == [] {
      assert ps + rest == rest;
      seen' := seen;
    } else {
      assert (ps + rest)[1..] == ps[1..] + rest;
      seen' := FoldMany(ps[1..], rest, seen + {ps[0].pt}, records[1..], rules);
    }
  }

  // ----- Writing optional and repeated fields -----

  datatype PayloadFormat = RawPayload | Utf8Payload

  function UserList(us: seq<(Str, Str)>): (ps: seq<Property>)
    ensures |ps| == |us| && AllFit(ps)
  {
    seq(|us|, i requires 0 <= i < |us| => Property(UserProp, Pair(us[i].0, us[i].1)))
  }

  function IdList(ids: seq<nat>): (ps: seq<Property>)
    ensures |ps| == |ids| && AllFit(ps)
  {
    seq(|ids|, i requires 0 <= i < |ids| => Property(SubscriptionIdentifier, VarInt(ids[i])))
  }

  function FormatProp(f: PayloadFormat): Option<Property> {
    if f.Utf8Payload? then Some(Property(PayloadFormatIndicator, OneByte(1))) else None
  }

  function FourByteProp(pt: PropertyType, w: Option<u32>): Option<Property> {
    if w.Some? then Some(Property(pt, FourBytes(w.value))) else None
  }

  function TwoByteProp(pt: PropertyType, h: Option<u16>): Option<Property> {
    if h.Some? then Some(Property(pt, TwoBytes(h.value))) else None
  }

  function TextProp(pt: PropertyType, s: Option<Str>): Option<Property> {
    if s.Some? then Some(Property(pt, Text(s.value))) else None
  }

  function TopicProp(pt: PropertyType, s: Option<Str>): Option<Property> {
    if s.Some? then Some(Property(pt, Topic(s.value))) else None
  }

  function BinaryProp(pt: PropertyType, bs: Option<Bytes>): Option<Property> {
    if bs.Some? then Some(Property(pt, Binary(bs.value))) else None
  }

  lemma AllFitAppend(a: seq<Property>, b: seq<Property>)
    requires AllFit(a) && AllFit(b)
    ensures AllFit(a + b)
    ensures a + b == [] <==> a == [] && b == []
  {
  }

  // ----- Optional property sections -----

  /** `dec_props!`: a zero length means no properties; otherwise the loop must end at the stated length. */
  function DecodeSection<T>(s: Bytes, default: T, rules: Rules<T>): Decoded<Option<T>> {
    var (p, m) :- DecodeVar(s);
    if p == 0 then Ok((None, m))
    else
      var (props, r) :- DecodeProps(s, default, rules);
      if r == m + p then Ok((Some(props), r)) else Err(ProtocolError)
  }

  /** A section written from `ps` reads back as nothing when empty, and otherwise as what the list builds. */
  lemma SectionRoundTrip<T>(ps: seq<Property>, tail: Bytes, default: T, rules: Rules<T>)
    requires EncodeProps(ps).Ok? && AllFit(ps)
    ensures DecodeSection(EncodeProps(ps).value + tail, default, rules) ==
            if ps == [] then Ok((None, |EncodeProps(ps).value|))
            else match Build(ps, default, rules)
                 case Ok(t) => Ok((Some(t), |EncodeProps(ps).value|))
                 case Err(kind) => Err(kind)
  {
    PropertiesProgress();
    AllRead(ps);
    CountedRoundTrip(ps, tail, Gathered({}, default), EncodeProperty, DecodeProperty, Entering(rules));
  }

  /** The lone zero written for absent properties. */
  lemma EmptySection<T>(tail: Bytes, default: T, rules: Rules<T>)
    ensures EncodeVar(0) == Ok([0]) && DecodeSection([0] + tail, default, rules) == Ok((None, 1))
  {
    VarRoundTrip(0, tail);
  }
}
