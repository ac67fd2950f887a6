/** Protocol values shared by subscriptions, routing and the packet codec. */
module Mqtt {
  import opened Base

  datatype QoS = AtMostOnce | AtLeastOnce | ExactlyOnce {
    function Level(): (n: nat)
      ensures n <= 2
    {
      match this
      case AtMostOnce => 0
      case AtLeastOnce => 1
      case ExactlyOnce => 2
    }
  }

  /** `QoS::try_from` */
  function ToQoS(n: nat): Result<QoS> {
    if n == 0 then Ok(AtMostOnce)
    else if n == 1 then Ok(AtLeastOnce)
    else if n == 2 then Ok(ExactlyOnce)
    else Err(MalformedPacket)
  }

  function MinQoS(a: QoS, b: QoS): QoS {
    if a.Level() <= b.Level() then a else b
  }

  function MaxQoS(a: QoS, b: QoS): QoS {
    if a.Level() <= b.Level() then b else a
  }

  datatype RetainForwardRule = OnEverySubscribe | OnNewSubscribe | Never

  /** An active subscription of a client. */
  datatype Subscription = Subscription(
    topicFilter: Str,
    clientId: Str,
    shardId: nat,
    subscriptionId: Option<nat>,
    qos: QoS,
    noLocal: bool,
    retainAsPublished: bool,
    retainForwardRule: RetainForwardRule)

  /** `PartialEq for Subscription`: everything but the hosting shard. */
  predicate Equal(a: Subscription, b: Subscription) {
    a.(shardId := b.shardId) == b
  }

  /** `Ord for Subscription` compares the client and then the filter, and nothing else. */
  predicate SameKey(a: Subscription, b: Subscription) {
    a.clientId == b.clientId && a.topicFilter == b.topicFilter
  }

  predicate KeyLess(a: Subscription, b: Subscription) {
    Less(a.clientId, b.clientId) || (a.clientId == b.clientId && Less(a.topicFilter, b.topicFilter))
  }

  lemma KeyIrreflexive(a: Subscription, b: Subscription)
    requires SameKey(a, b)
    ensures !KeyLess(a, b)
  {
    LessIrreflexive(a.clientId);
    LessIrreflexive(a.topicFilter);
  }

  lemma KeyTransitive(a: Subscription, b: Subscription, c: Subscription)
    requires KeyLess(a, b) && KeyLess(b, c)
    ensures KeyLess(a, c)
  {
    if Less(a.clientId, b.clientId) && Less(b.clientId, c.clientId) {
      LessTransitive(a.clientId, b.clientId, c.clientId);
    } else if a.clientId == b.clientId == c.clientId {
      LessTransitive(a.topicFilter, b.topicFilter, c.topicFilter);
    }
  }

  lemma KeyTotal(a: Subscription, b: Subscription)
    ensures SameKey(a, b) || KeyLess(a, b) || KeyLess(b, a)
  {
    LessTotal(a.clientId, b.clientId);
    LessTotal(a.topicFilter, b.topicFilter);
  }
}
