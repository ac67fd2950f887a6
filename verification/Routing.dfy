/** From the subscriptions a topic matches to the one message each client is sent. */
module Routing {
  import opened Base
  import opened Mqtt
  import opened Topics
  import opened Trie
  import opened TrieContents
  import opened Properties
  import opened PublishCodec
  import SubscribedRuns

  type Group = (Subscription, seq<nat>)

  // ----- Grouping by client -----

  /** The matches of one client, in order. */
  function Mine(ms: seq<Subscription>, client: Str): seq<Subscription> {
    if ms == [] then []
    else
      var last := ms[|ms| - 1];
      Mine(ms[..|ms| - 1], client) + if last.clientId == client then [last] else []
  }

  function IdOf(s: Subscription): seq<nat> {
    if s.subscriptionId.Some? then [s.subscriptionId.value] else []
  }

  /** One more match of a client. */
  function Fold(g: Group, s: Subscription): Group {
    (g.0.(noLocal := g.0.noLocal && s.noLocal,
          retainAsPublished := g.0.retainAsPublished || s.retainAsPublished,
          qos := MaxQoS(g.0.qos, s.qos)),
     g.1 + IdOf(s))
  }

  /** All matches of a client, merged from the first on. */
  function Merge(ss: seq<Subscription>): Group
    requires ss != []
  {
    if |ss| == 1 then (ss[0], IdOf(ss[0])) else Fold(Merge(ss[..|ss| - 1]), ss[|ss| - 1])
  }

  predicate GroupedAt(groups: map<Str, Group>, ms: seq<Subscription>, c: Str) {
    if Mine(ms, c) == [] then c !in groups else c in groups && groups[c] == Merge(Mine(ms, c))
  }

  /** One group for each client with a match, and it merges all of them. */
  ghost predicate Grouped(groups: map<Str, Group>, ms: seq<Subscription>) {
    forall c: Str :: GroupedAt(groups, ms, c)
  }

  /** `match_subscribers`: the loop that groups matches by client. */
  method MatchSubscribers(ms: seq<Subscription>) returns (groups: map<Str, Group>)
    ensures Grouped(groups, ms)
  {
    groups := map[];
    for i := 0 to |ms|
      invariant Grouped(groups, ms[..i])
    {
      var s := ms[i];
      assert ms[..i + 1] == ms[..i] + [s];
      GroupedNext(groups, ms[..i], s);
      if s.clientId in groups {
        groups := groups[s.clientId := Fold(groups[s.clientId], s)];
      } else {
        groups := groups[s.clientId := (s, IdOf(s))];
      }
    }
    assert ms[..|ms|] == ms;
  }

  lemma MineNext(ms: seq<Subscription>, s: Subscription, c: Str)
    ensures Mine(ms + [s], c) == if s.clientId == c then Mine(ms, c) + [s] else Mine(ms, c)
  {
    assert (ms + [s])[..|ms|] == ms;
  }

  lemma GroupedNext(groups: map<Str, Group>, ms: seq<Subscription>, s: Subscription)
    requires Grouped(groups, ms)
    ensures Grouped(groups[s.clientId := if s.clientId in groups then Fold(groups[s.clientId], s) else (s, IdOf(s))], ms + [s])
  {
    var groups' := groups[s.clientId := if s.clientId in groups then Fold(groups[s.clientId], s) else (s, IdOf(s))];
    forall c: Str ensures GroupedAt(groups', ms + [s], c) {
      assert GroupedAt(groups, ms, c);
      MineNext(ms, s, c);
      MergeNext(Mine(ms, c), s);
    }
  }

  lemma MergeNext(ss: seq<Subscription>, s: Subscription)
    ensures Merge(ss + [s]) == if ss == [] then (s, IdOf(s)) else Fold(Merge(ss), s)
  {
    assert (ss + [s])[..|ss|] == ss;
  }

  function Ids(ss: seq<Subscription>): seq<nat> {
    if ss == [] then [] else Ids(ss[..|ss| - 1]) + IdOf(ss[|ss| - 1])
  }

  /** The merged QoS is the greatest, `no_local` holds if all say so, `retain_as_published` if any does; every id is kept in order. */
  ghost predicate Merged(ss: seq<Subscription>, g: Group) {
    && (forall s :: s in ss ==> s.qos.Level() <= g.0.qos.Level())
    && (exists s :: s in ss && s.qos == g.0.qos)
    && (g.0.noLocal <==> forall s :: s in ss ==> s.noLocal)
    && (g.0.retainAsPublished <==> exists s :: s in ss && s.retainAsPublished)
    && g.1 == Ids(ss)
  }

  lemma {:induction false} MergeMeans(ss: seq<Subscription>)
    requires ss != []
    ensures Merged(ss, Merge(ss))
    ensures ss[0].(noLocal := Merge(ss).0.noLocal, retainAsPublished := Merge(ss).0.retainAsPublished, qos := Merge(ss).0.qos) == Merge(ss).0
    decreases |ss|
  {
    if |ss| == 1 {
      assert ss[0] in ss;
      assert Ids(ss) == [] + IdOf(ss[0]);
    } else {
      var init, last := ss[..|ss| - 1], ss[|ss| - 1];
      MergeMeans(init);
      assert ss == init + [last];
      MergedNext(init, Merge(init), last);
    }
  }

  lemma MergedNext(ss: seq<Subscription>, g: Group, s: Subscription)
    requires Merged(ss, g)
    ensures Merged(ss + [s], Fold(g, s))
  {
    var all := ss + [s];
    assert forall t :: t in all <==> t in ss || t == s;
    assert all[..|ss|] == ss;
  }

  lemma {:induction false} MineMeans(ms: seq<Subscription>, client: Str)
    ensures forall s :: s in Mine(ms, client) <==> s in ms && s.clientId == client
    decreases |ms|
  {
    if ms != [] {
      var init, last := ms[..|ms| - 1], ms[|ms| - 1];
      MineMeans(init, client);
      assert forall s :: s in ms <==> s in init || s == last;
    }
  }

  // ----- Order does not matter -----

  lemma {:induction false} MineCounts(ms: seq<Subscription>, client: Str, s: Subscription)
    ensures multiset(Mine(ms, client))[s] == if s.clientId == client then multiset(ms)[s] else 0
    decreases |ms|
  {
    if ms != [] {
      MineCounts(ms[..|ms| - 1], client, s);
      assert ms == ms[..|ms| - 1] + [ms[|ms| - 1]];
    }
  }

  lemma MinePermuted(a: seq<Subscription>, b: seq<Subscription>, client: Str)
    requires multiset(a) == multiset(b)
    ensures multiset(Mine(a, client)) == multiset(Mine(b, client))
  {
    forall s ensures multiset(Mine(a, client))[s] == multiset(Mine(b, client))[s] {
      MineCounts(a, client, s);
      MineCounts(b, client, s);
    }
  }

  /**
   * Whatever order the trie returns the matches in, a client gets the same QoS, flags and ids. The shard it is
   * looked for in is that of the first match, so it is the same if all its matches name the same shard.
   */
  lemma OrderIndependent(a: seq<Subscription>, b: seq<Subscription>, client: Str)
    requires multiset(a) == multiset(b)
    ensures Mine(a, client) != [] <==> Mine(b, client) != []
    ensures Mine(a, client) != [] ==>
              var (s, ids) := Merge(Mine(a, client));
              var (t, jds) := Merge(Mine(b, client));
              && s.qos == t.qos && s.noLocal == t.noLocal && s.retainAsPublished == t.retainAsPublished
              && s.clientId == t.clientId == client && multiset(ids) == multiset(jds)
              && ((forall m :: m in Mine(a, client) ==> m.shardId == s.shardId) ==> t.shardId == s.shardId)
  {
    var x, y := Mine(a, client), Mine(b, client);
    MinePermuted(a, b, client);
    SameMembers(x, y);
    if x != [] {
      MergeMeans(x);
      MergeMeans(y);
      SameIds(x, y);
      MineMeans(a, client);
      MineMeans(b, client);
      SameQoS(x, y, Merge(x), Merge(y));
    }
  }

  lemma SameMembers<T>(a: seq<T>, b: seq<T>)
    requires multiset(a) == multiset(b)
    ensures forall t :: t in a <==> t in b
    ensures |a| == |b|
  {
    assert |multiset(a)| == |a| && |multiset(b)| == |b|;
    forall t ensures t in a <==> t in b {
      assert t in a <==> t in multiset(a);
      assert t in b <==> t in multiset(b);
    }
  }

  lemma SameQoS(x: seq<Subscription>, y: seq<Subscription>, g: Group, h: Group)
    requires Merged(x, g) && Merged(y, h) && forall s :: s in x <==> s in y
    ensures g.0.qos == h.0.qos && g.0.noLocal == h.0.noLocal && g.0.retainAsPublished == h.0.retainAsPublished
  {
    var s :| s in x && s.qos == g.0.qos;
    var t :| t in y && t.qos == h.0.qos;
    assert s in y && t in x;
  }

  lemma {:induction false} IdsAppend(a: seq<Subscription>, b: seq<Subscription>)
    ensures Ids(a + b) == Ids(a) + Ids(b)
    decreases |b|
  {
    if b == [] {
      assert a + b == a;
    } else {
      var init, last := b[..|b| - 1], b[|b| - 1];
      assert (a + b)[..|a + b| - 1] == a + init && (a + b)[|a + b| - 1] == last;
      IdsAppend(a, init);
    }
  }

  lemma MiddleOut<T>(p: seq<T>, q: seq<T>, r: seq<T>)
    ensures multiset(p + (q + r)) == multiset(p + r) + multiset(q)
  {
  }

  lemma IdsCount(ss: seq<Subscription>, i: nat)
    requires i < |ss|
    ensures multiset(Ids(ss)) == multiset(Ids(Without(ss, i))) + multiset(IdOf(ss[i]))
  {
    SplitAt(ss, i);
    IdsMiddle(ss[..i], ss[i], ss[i + 1..]);
  }

  lemma IdsMiddle(a: seq<Subscription>, s: Subscription, b: seq<Subscription>)
    ensures multiset(Ids(a + ([s] + b))) == multiset(Ids(a + b)) + multiset(IdOf(s))
  {
    IdsAppend(a, [s] + b);
    IdsAppend([s], b);
    IdsAppend(a, b);
    IdsOfOne(s);
    MiddleOut(Ids(a), IdOf(s), Ids(b));
  }

  lemma IdsOfOne(s: Subscription)
    ensures Ids([s]) == IdOf(s)
  {
    assert Ids([]) + IdOf(s) == IdOf(s);
  }

  lemma {:induction false} SameIds(x: seq<Subscription>, y: seq<Subscription>)
    requires multiset(x) == multiset(y)
    ensures multiset(Ids(x)) == multiset(Ids(y))
    decreases |x|
  {
    SameMembers(x, y);
    if x != [] {
      var i, last := |x| - 1, x[|x| - 1];
      assert last in y;
      var j :| 0 <= j < |y| && y[j] == last;
      MultisetWithout(x, i);
      MultisetWithout(y, j);
      assert Without(x, i) == x[..i];
      SameIds(Without(x, i), Without(y, j));
      IdsCount(x, i);
      IdsCount(y, j);
    }
  }

  // ----- The copy each client is sent -----

  /** What `set_subscription_ids` makes of a publication. */
  function AddIds(p: Publication, ids: seq<nat>): Publication {
    if ids == [] then p
    else
      var props := if p.properties.Some? then p.properties.value else NO_PROPS;
      p.(properties := Some(props.(subscriptionIds := props.subscriptionIds + ids)))
  }

  method SetSubscriptionIds(publish: Publication, ids: seq<nat>) returns (p: Publication)
    ensures p == AddIds(publish, ids)
  {
    p := publish;
    for i := 0 to |ids|
      invariant p == AddIds(publish, ids[..i])
    {
      assert ids[..i + 1] == ids[..i] + [ids[i]];
      AddIdsNext(publish, ids[..i], ids[i]);
      match p.properties
      case Some(props) =>
        p := p.(properties := Some(props.(subscriptionIds := props.subscriptionIds + [ids[i]])));
      case None =>
        assert NO_PROPS.subscriptionIds + [ids[i]] == [ids[i]];
        p := p.(properties := Some(NO_PROPS.(subscriptionIds := [ids[i]])));
    }
    assert ids[..|ids|] == ids;
  }

  lemma AddIdsNext(p: Publication, ids: seq<nat>, id: nat)
    ensures var q := AddIds(p, ids);
            var props := if q.properties.Some? then q.properties.value else NO_PROPS;
            AddIds(p, ids + [id]) == q.(properties := Some(props.(subscriptionIds := props.subscriptionIds + [id])))
  {
    var props := if p.properties.Some? then p.properties.value else NO_PROPS;
    assert props.subscriptionIds + (ids + [id]) == props.subscriptionIds + ids + [id];
    if ids == [] {
      assert ids + [id] == [id];
    }
  }

  /** `route_qos` */
  function RouteQoS(server: QoS, publish: QoS, subscribed: QoS): (q: QoS)
    ensures q.Level() == Min(server.Level(), Min(publish.Level(), subscribed.Level()))
  {
    MinQoS(MinQoS(server, publish), subscribed)
  }

  function Copy(p: Publication, server: QoS, g: Group): Publication {
    AddIds(p.(retain := g.0.retainAsPublished && p.retain, qos := RouteQoS(server, p.qos, g.0.qos), duplicate := false), g.1)
  }

  datatype Envelope = Envelope(shardId: nat, clientId: Str, inpSeqno: nat, publish: Publication, ackNeeded: bool)

  function Enclose(p: Publication, server: QoS, seqno: nat, c: Str, g: Group): Envelope {
    Envelope(g.0.shardId, c, seqno, Copy(p, server, g), p.packetId.Some?)
  }

  /** What is in the message for one client, field by field. */
  lemma EnvelopeMeans(p: Publication, server: QoS, seqno: nat, c: Str, g: Group)
    ensures var e := Enclose(p, server, seqno, c, g);
            && e.shardId == g.0.shardId && e.clientId == c && e.inpSeqno == seqno && (e.ackNeeded <==> p.packetId.Some?)
            && (e.publish.retain <==> p.retain && g.0.retainAsPublished) && !e.publish.duplicate
            && e.publish.qos.Level() == Min(server.Level(), Min(p.qos.Level(), g.0.qos.Level()))
            && e.publish.topicName == p.topicName && e.publish.payload == p.payload && e.publish.packetId == p.packetId
            && IdsOf(e.publish) == IdsOf(p) + g.1
            && (g.1 == [] ==> e.publish.properties == p.properties)
            && (g.1 != [] ==> e.publish.properties.Some?)
            && (g.1 != [] ==> e.publish.properties.value.(subscriptionIds := []) ==
                              (if p.properties.Some? then p.properties.value.(subscriptionIds := []) else NO_PROPS))
  {
  }

  function IdsOf(p: Publication): seq<nat> {
    if p.properties.Some? then p.properties.value.subscriptionIds else []
  }

  /** Whether the publisher itself is passed over. */
  predicate Skipped(from: Str, c: Str, g: Group) {
    g.0.noLocal && c == from
  }

  // ----- What the shard keeps of routed messages -----

  /** An entry of `ack_timestamps`, which is searched by shard. */
  datatype Timestamp = Timestamp(shardId: nat, lastRouted: nat, lastAcked: nat)

  ghost predicate Ordered(ts: seq<Timestamp>) {
    forall i, j :: 0 <= i < j < |ts| ==> ts[i].shardId < ts[j].shardId
  }

  ghost predicate Known(ts: seq<Timestamp>, shard: nat) {
    exists i :: 0 <= i < |ts| && ts[i].shardId == shard
  }

  /** Where the search for a shard ends. */
  function Slot(ts: seq<Timestamp>, shard: nat): (off: nat)
    ensures off <= |ts| && (off < |ts| ==> shard <= ts[off].shardId)
    ensures forall i :: 0 <= i < off ==> ts[i].shardId < shard
  {
    if ts == [] || shard <= ts[0].shardId then 0 else 1 + Slot(ts[1..], shard)
  }

  /** `book_routed_timestamps`: an entry that is not found is assigned where it should have been inserted. */
  function BookRouted(ts: seq<Timestamp>, shard: nat, seqno: nat): Result<seq<Timestamp>> {
    var off := Slot(ts, shard);
    if off == |ts| then Err(Panic)
    else if ts[off].shardId == shard then Ok(ts[off := ts[off].(lastRouted := seqno)])
    else Ok(ts[off := Timestamp(shard, seqno, 0)])
  }

  /** It crashes exactly when every entry is of a lower shard, and otherwise, unless the shard is known, another shard's entry is lost. */
  lemma BookRoutedMeans(ts: seq<Timestamp>, shard: nat, seqno: nat)
    requires Ordered(ts)
    ensures BookRouted(ts, shard, seqno).Err? <==> forall i :: 0 <= i < |ts| ==> ts[i].shardId < shard
    ensures BookRouted(ts, shard, seqno).Ok? ==>
              var ts' := BookRouted(ts, shard, seqno).value;
              && Ordered(ts') && |ts'| == |ts| && Known(ts', shard)
              && (Known(ts, shard) ==> forall s :: Known(ts', s) <==> Known(ts, s))
              && (!Known(ts, shard) ==> exists s :: Known(ts, s) && !Known(ts', s))
  {
    var off := Slot(ts, shard);
    if off < |ts| {
      var ts' := BookRouted(ts, shard, seqno).value;
      assert ts'[off].shardId == shard;
      if ts[off].shardId == shard {
        forall s ensures Known(ts', s) <==> Known(ts, s) {
          SameShards(ts, ts', s);
        }
      } else {
        assert forall i :: 0 <= i < |ts| ==> ts[i].shardId != shard;
        assert Known(ts, ts[off].shardId) && !Known(ts', ts[off].shardId);
      }
    }
  }

  lemma SameShards(ts: seq<Timestamp>, ts': seq<Timestamp>, s: nat)
    requires |ts| == |ts'| && forall i :: 0 <= i < |ts| ==> ts[i].shardId == ts'[i].shardId
    ensures Known(ts', s) <==> Known(ts, s)
  {
    if Known(ts, s) {
      var i :| 0 <= i < |ts| && ts[i].shardId == s;
      assert ts'[i].shardId == s;
    }
  }

  /** Somebody is to be sent a copy. */
  ghost predicate Somebody(from: Str, groups: map<Str, Group>) {
    exists c :: c in groups && !Skipped(from, c, groups[c])
  }

  /** Each client of a group has one message, unless it is passed over. */
  ghost predicate Routes(from: Str, p: Publication, server: QoS, seqno: nat, groups: map<Str, Group>, todo: set<Str>, out: map<Str, Envelope>) {
    && (forall c :: c in out <==> c in groups && c !in todo && !Skipped(from, c, groups[c]))
    && (forall c :: c in out ==> out[c] == Enclose(p, server, seqno, c, groups[c]))
  }

  /** The shards of all clients have an entry. */
  ghost predicate AllKnown(groups: map<Str, Group>, ts: seq<Timestamp>) {
    forall c :: c in groups ==> Known(ts, groups[c].0.shardId)
  }

  /**
   * The routing loop of `rx_publish`. Each client of a group gets one message, unless it is passed over. On a shard
   * as it is created, which has no entries and never gets any, the first message that is routed is a crash.
   */
  method RouteToClients(from: Str, p: Publication, server: QoS, seqno: nat, groups: map<Str, Group>, timestamps: seq<Timestamp>)
    returns (r: Result<map<Str, Envelope>>, ts: seq<Timestamp>)
    requires Ordered(timestamps)
    ensures Ordered(ts) && |ts| == |timestamps|
    ensures r.Ok? ==> Routes(from, p, server, seqno, groups, {}, r.value)
    ensures AllKnown(groups, timestamps) ==> r.Ok?
    ensures timestamps == [] ==> r == if Somebody(from, groups) then Err(Panic) else Ok(map[])
  {
    var out := map[];
    var todo := groups.Keys;
    ts := timestamps;
    while todo != {}
      invariant todo <= groups.Keys && Ordered(ts) && |ts| == |timestamps|
      invariant Routes(from, p, server, seqno, groups, todo, out)
      invariant AllKnown(groups, timestamps) ==> AllKnown(groups, ts)
      invariant timestamps == [] ==> out == map[]
      decreases |todo|
    {
      var c :| c in todo;
      var (subscr, ids) := groups[c];
      RoutesNext(from, p, server, seqno, groups, todo, out, c);
      if !(subscr.noLocal && c == from) {
        var copy := MakeCopy(p, server, subscr, ids);
        out := out[c := Envelope(subscr.shardId, c, seqno, copy, p.packetId.Some?)];
        StillKnown(groups, ts, subscr.shardId, seqno);
        var booked := BookRouted(ts, subscr.shardId, seqno);
        if booked.Err? {
          return Err(Panic), ts;
        }
        ts := booked.value;
      }
      todo := todo - {c};
    }
    return Ok(out), ts;
  }

  method MakeCopy(p: Publication, server: QoS, subscr: Subscription, ids: seq<nat>) returns (copy: Publication)
    ensures copy == Copy(p, server, (subscr, ids))
  {
    copy := p.(retain := subscr.retainAsPublished && p.retain, qos := RouteQoS(server, p.qos, subscr.qos), duplicate := false);
    copy := SetSubscriptionIds(copy, ids);
  }

  lemma RoutesNext(from: Str, p: Publication, server: QoS, seqno: nat, groups: map<Str, Group>, todo: set<Str>, out: map<Str, Envelope>, c: Str)
    requires Routes(from, p, server, seqno, groups, todo, out) && c in todo && todo <= groups.Keys
    ensures var out' := if Skipped(from, c, groups[c]) then out else out[c := Enclose(p, server, seqno, c, groups[c])];
            Routes(from, p, server, seqno, groups, todo - {c}, out')
  {
  }

  lemma StillKnown(groups: map<Str, Group>, ts: seq<Timestamp>, shard: nat, seqno: nat)
    requires Ordered(ts)
    ensures var booked := BookRouted(ts, shard, seqno);
            && (booked.Ok? ==> Ordered(booked.value) && |booked.value| == |ts|)
            && (ts == [] ==> booked.Err?)
            && (Known(ts, shard) ==> booked.Ok? && (AllKnown(groups, ts) ==> AllKnown(groups, booked.value)))
  {
    BookRoutedMeans(ts, shard, seqno);
  }

  /** `book_index` with the message it is given: it takes only routed ones at QoS 1 and none at QoS 2. */
  function BookIndex(qos: QoS): Result<()> {
    match qos
    case AtMostOnce => Ok(())
    case AtLeastOnce => Err(Panic)
    case ExactlyOnce => Err(Panic)
  }

  // ----- An incoming publication -----

  /** What the configuration allows a publisher. */
  datatype Limits = Limits(qos: QoS, retainAvailable: bool, ignoreDuplicate: bool, aliasMax: Option<nat>)

  /** What a session keeps of what its client published: packet ids not yet acknowledged, and topic aliases. */
  datatype Incoming = Incoming(seen: set<nat>, aliases: map<nat, Str>)

  /** `is_duplicate` */
  function IsDuplicate(l: Limits, inc: Incoming, p: Publication): Result<bool> {
    if p.qos == AtMostOnce then Ok(false)
    else if p.duplicate then Ok(!l.ignoreDuplicate)
    else if p.packetId.None? then Err(Panic)
    else Ok(p.packetId.value in inc.seen)
  }

  /** `book_qos` */
  function BookQoS(inc: Incoming, p: Publication): Result<Incoming> {
    if p.qos == AtMostOnce then Ok(inc)
    else if p.packetId.None? then Err(Panic)
    else Ok(inc.(seen := inc.seen + {p.packetId.value}))
  }

  function AliasOf(p: Publication): Option<nat> {
    if p.properties.Some? && p.properties.value.topicAlias.Some? then Some(p.properties.value.topicAlias.value) else None
  }

  /** `publish_topic_name`: the topic, and the aliases with the one that was just given. */
  function TopicName(l: Limits, inc: Incoming, p: Publication): Result<(Str, Incoming)> {
    match AliasOf(p)
    case Some(alias) =>
      if l.aliasMax.None? || alias > l.aliasMax.value then Err(ProtocolError)
      else if p.topicName != [] then Ok((p.topicName, inc.(aliases := inc.aliases[alias := p.topicName])))
      else if alias in inc.aliases then Ok((inc.aliases[alias], inc))
      else Err(ProtocolError)
    case None =>
      if p.topicName == [] then Err(ProtocolError) else Ok((p.topicName, inc))
  }

  /** The topic alias of a publication, if it has one. */
  ghost predicate Carries(p: Publication, alias: nat) {
    p.properties.Some? && p.properties.value.topicAlias == Some(alias)
  }

  /** The topic a publication is for, case by case. */
  lemma TopicNameMeans(l: Limits, inc: Incoming, p: Publication, alias: nat)
    ensures (p.properties.None? || p.properties.value.topicAlias.None?) ==>
              TopicName(l, inc, p) == if p.topicName == [] then Err(ProtocolError) else Ok((p.topicName, inc))
    ensures Carries(p, alias) && (l.aliasMax.None? || l.aliasMax.value < alias) ==> TopicName(l, inc, p) == Err(ProtocolError)
    ensures Carries(p, alias) && l.aliasMax.Some? && alias <= l.aliasMax.value && p.topicName != [] ==>
              TopicName(l, inc, p) == Ok((p.topicName, Incoming(inc.seen, inc.aliases[alias := p.topicName])))
    ensures Carries(p, alias) && l.aliasMax.Some? && alias <= l.aliasMax.value && p.topicName == [] ==>
              TopicName(l, inc, p) == if alias in inc.aliases then Ok((inc.aliases[alias], inc)) else Err(ProtocolError)
  {
  }

  /** When a publication is dropped as a duplicate. */
  lemma DuplicateMeans(l: Limits, inc: Incoming, p: Publication)
    requires Consistent(p)
    ensures p.qos == AtMostOnce ==> IsDuplicate(l, inc, p) == Ok(false)
    ensures p.qos != AtMostOnce && p.duplicate ==> IsDuplicate(l, inc, p) == Ok(!l.ignoreDuplicate)
    ensures p.qos != AtMostOnce && !p.duplicate ==> IsDuplicate(l, inc, p) == Ok(p.packetId.value in inc.seen)
  {
  }

  /** Not above the allowed QoS, no duplicate, and retained only if that is available. */
  predicate Passes(l: Limits, inc: Incoming, p: Publication) {
    p.qos.Level() <= l.qos.Level() && IsDuplicate(l, inc, p) == Ok(false) && (p.retain ==> l.retainAvailable)
  }

  /** What `rx_publish` keeps of a publication. */
  function After(l: Limits, inc: Incoming, p: Publication): Incoming {
    if !Passes(l, inc, p) || BookQoS(inc, p).Err? then inc
    else
      var booked := BookQoS(inc, p).value;
      if TopicName(l, booked, p).Ok? then TopicName(l, booked, p).value.1 else booked
  }

  /** Exactly the packet id of a publication that passes above QoS 0 is remembered. */
  lemma SeenAfter(l: Limits, inc: Incoming, p: Publication)
    requires Consistent(p)
    ensures After(l, inc, p).seen == inc.seen + if Passes(l, inc, p) && p.qos != AtMostOnce then {p.packetId.value} else {}
  {
  }

  /** So the same packet id is dropped the second time, marked as a duplicate or not, unless duplicates are ignored. */
  lemma SecondTimeIsDuplicate(l: Limits, inc: Incoming, p: Publication, q: Publication)
    requires Consistent(p) && Consistent(q) && Passes(l, inc, p) && p.qos != AtMostOnce && q.qos != AtMostOnce && q.packetId == p.packetId
    ensures IsDuplicate(l, After(l, inc, p), q) == Ok(!q.duplicate || !l.ignoreDuplicate)
  {
    SeenAfter(l, inc, p);
  }

  function AfterAll(l: Limits, ps: seq<Publication>): Incoming {
    if ps == [] then Incoming({}, map[]) else After(l, AfterAll(l, ps[..|ps| - 1]), ps[|ps| - 1])
  }

  /** A publication gives an alias a name. */
  ghost predicate Names(l: Limits, inc: Incoming, p: Publication, alias: nat) {
    Passes(l, inc, p) && Carries(p, alias) && l.aliasMax.Some? && alias <= l.aliasMax.value && p.topicName != []
  }

  /** The name last given with an alias in a run of publications. */
  ghost function LastName(l: Limits, ps: seq<Publication>, alias: nat): Option<Str> {
    if ps == [] then None
    else
      var init, last := ps[..|ps| - 1], ps[|ps| - 1];
      if Names(l, AfterAll(l, init), last, alias) then Some(last.topicName) else LastName(l, init, alias)
  }

  /** After any run an alias stands for the name last given with it. */
  lemma {:induction false} AliasesAreLatest(l: Limits, ps: seq<Publication>, alias: nat)
    requires forall i :: 0 <= i < |ps| ==> Consistent(ps[i])
    ensures var aliases := AfterAll(l, ps).aliases;
            LastName(l, ps, alias) == if alias in aliases then Some(aliases[alias]) else None
    decreases |ps|
  {
    if ps != [] {
      var init, last := ps[..|ps| - 1], ps[|ps| - 1];
      AliasesAreLatest(l, init, alias);
      AliasAfter(l, AfterAll(l, init), last, alias);
    }
  }

  lemma AliasAfter(l: Limits, inc: Incoming, p: Publication, alias: nat)
    requires Consistent(p)
    ensures var aliases := After(l, inc, p).aliases;
            && (Names(l, inc, p, alias) ==> alias in aliases && aliases[alias] == p.topicName)
            && (!Names(l, inc, p, alias) ==> (alias in aliases <==> alias in inc.aliases) && (alias in aliases ==> aliases[alias] == inc.aliases[alias]))
  {
  }

  /**
   * `rx_publish`, except that setting or resetting a retained message is left to the cluster; `topic` is the one that
   * subscribers are looked up for. A publication that gets that far is a crash above QoS 0, before anything is routed.
   * So on a shard as it is created only one at QoS 0 that nobody is to be sent goes through.
   */
  method RxPublish(from: Str, p: Publication, l: Limits, inc: Incoming, seqno: nat, subscribers: Str -> map<Str, Group>, timestamps: seq<Timestamp>)
    returns (r: Result<map<Str, Envelope>>, inc': Incoming, ghost topic: Option<Str>)
    requires Ordered(timestamps)
    ensures Consistent(p) ==> inc' == After(l, inc, p)
    ensures Consistent(p) && p.qos.Level() > l.qos.Level() ==> r == Err(ProtocolError) && topic.None?
    ensures Consistent(p) && p.qos.Level() <= l.qos.Level() && p.qos != AtMostOnce ==>
              ((if p.duplicate then !l.ignoreDuplicate else p.packetId.value in inc.seen) ==> r == Ok(map[]) && topic.None?)
    ensures Consistent(p) && Passes(l, inc, p) ==>
              topic == if p.properties.Some? && p.properties.value.topicAlias.Some? then
                         var alias := p.properties.value.topicAlias.value;
                         if l.aliasMax.None? || l.aliasMax.value < alias then None
                         else if p.topicName != [] then Some(p.topicName)
                         else if alias in inc.aliases then Some(inc.aliases[alias]) else None
                       else if p.topicName != [] then Some(p.topicName) else None
    ensures Consistent(p) && (if Passes(l, inc, p) then topic.None? else p.qos.Level() <= l.qos.Level() && IsDuplicate(l, inc, p) == Ok(false)) ==>
              r == Err(ProtocolError)
    ensures Consistent(p) && topic.Some? && p.qos != AtMostOnce ==> r == Err(Panic)
    ensures topic.Some? && r.Ok? ==> Routes(from, p, l.qos, seqno, subscribers(topic.value), {}, r.value)
    ensures Consistent(p) && topic.Some? && p.qos == AtMostOnce && AllKnown(subscribers(topic.value), timestamps) ==> r.Ok?
    ensures Consistent(p) && timestamps == [] ==>
              (r == Err(Panic) <==> topic.Some? && (p.qos != AtMostOnce || Somebody(from, subscribers(topic.value)))) && (r.Ok? ==> r.value == map[])
  {
    inc', topic := inc, None;
    if p.qos.Level() > l.qos.Level() {
      return Err(ProtocolError), inc', topic;
    }
    var duplicate :- IsDuplicate(l, inc, p);
    if duplicate {
      return Ok(map[]), inc', topic;
    }
    if p.retain && !l.retainAvailable {
      return Err(ProtocolError), inc', topic;
    }
    inc' :- BookQoS(inc, p);
    var named :- TopicName(l, inc', p);
    topic, inc' := Some(named.0), named.1;
    if p.packetId.Some? {
      var _ :- BookIndex(p.qos);
    }
    var ts;
    r, ts := RouteToClients(from, p, l.qos, seqno, subscribers(named.0), timestamps);
  }

  // ----- From subscriptions to copies -----

  /** The stored subscriptions of a client that a topic is delivered to. */
  function Interested(flat: seq<(Path, Subscription)>, topic: Str, client: Str): seq<Subscription> {
    Mine(Pick(flat, KeepDelivered(Split(topic))), client)
  }

  /**
   * After any run of subscribe and unsubscribe, a client is routed to exactly when it has a subscription the
   * topic is delivered to, and what it is sent follows from all of those.
   */
  lemma RoutedAsSubscribed(ops: seq<SubscribedRuns.Op>, topic: Str, groups: map<Str, Group>, client: Str)
    requires SubscribedRuns.Run(ops).Ok? && ValidateName(topic).Ok?
    requires Grouped(groups, MatchTopic(SubscribedRuns.Run(ops).value.root, Split(topic), true))
    ensures var mine := Interested(SubscribedRuns.FlatRun(ops), topic, client);
            && (client in groups <==> mine != [])
            && (client in groups ==>
                  var s := groups[client].0;
                  && (forall m :: m in mine ==> m.qos.Level() <= s.qos.Level()) && (exists m :: m in mine && m.qos == s.qos)
                  && (s.noLocal <==> forall m :: m in mine ==> m.noLocal)
                  && (s.retainAsPublished <==> exists m :: m in mine && m.retainAsPublished)
                  && multiset(groups[client].1) == multiset(Ids(mine)))
  {
    var ms := MatchTopic(SubscribedRuns.Run(ops).value.root, Split(topic), true);
    var flat := Pick(SubscribedRuns.FlatRun(ops), KeepDelivered(Split(topic)));
    SubscribedRuns.RunMatches(ops, topic);
    OrderIndependent(ms, flat, client);
    assert GroupedAt(groups, ms, client);
    if client in groups {
      MergeMeans(Mine(flat, client));
    }
  }

  /** Somebody is to be sent a copy exactly when a delivered subscription is another client's or not `no_local`. */
  lemma SomebodySubscribed(ops: seq<SubscribedRuns.Op>, topic: Str, groups: map<Str, Group>, from: Str)
    requires SubscribedRuns.Run(ops).Ok? && ValidateName(topic).Ok?
    requires Grouped(groups, MatchTopic(SubscribedRuns.Run(ops).value.root, Split(topic), true))
    ensures Somebody(from, groups) <==>
              exists m :: m in Pick(SubscribedRuns.FlatRun(ops), KeepDelivered(Split(topic))) && !(m.noLocal && m.clientId == from)
  {
    var flat := Pick(SubscribedRuns.FlatRun(ops), KeepDelivered(Split(topic)));
    if Somebody(from, groups) {
      var c :| c in groups && !Skipped(from, c, groups[c]);
      RoutedAsSubscribed(ops, topic, groups, c);
      MineMeans(flat, c);
    }
    if m :| m in flat && !(m.noLocal && m.clientId == from) {
      RoutedAsSubscribed(ops, topic, groups, m.clientId);
      MineMeans(flat, m.clientId);
      assert m in Mine(flat, m.clientId);
      assert !Skipped(from, m.clientId, groups[m.clientId]);
    }
  }

  // ----- What goes out -----

  /** `into_packet`: a packet id is set for QoS above 0 and otherwise left as it came. */
  function IntoPublish(p: Publication, id: Option<nat>): Publication
    requires id.Some? ==> id.value < 0x1_0000
  {
    if id.Some? then p.(packetId := Some(id.value)) else p
  }

  /**
   * The copy of a consistent publication, with a packet id exactly when its QoS is above 0, is consistent again
   * unless a publication above QoS 0 is delivered at QoS 0: then the publisher's packet id stays in it.
   */
  lemma RoutedIsConsistent(p: Publication, server: QoS, g: Group, id: Option<nat>)
    requires Consistent(p) && (id.Some? ==> id.value < 0x1_0000)
    requires id.Some? <==> Copy(p, server, g).qos != AtMostOnce
    ensures Consistent(IntoPublish(Copy(p, server, g), id)) <==>
              p.qos == AtMostOnce || (server != AtMostOnce && g.0.qos != AtMostOnce)
  {
  }

  /** Such a copy does not read back from the wire as itself. */
  lemma DowngradedDoesNotRoundTrip(p: Publication, server: QoS, g: Group)
    requires Consistent(p) && p.qos != AtMostOnce && (server == AtMostOnce || g.0.qos == AtMostOnce)
    requires EncodePublish(Copy(p, server, g)).Ok?
    ensures var q := Copy(p, server, g); DecodePublish(EncodePublish(q).value) != Ok((NormalizePublish(q), |EncodePublish(q).value|))
  {
    var q := Copy(p, server, g);
    RoutedIsConsistent(p, server, g, None);
    PublishRoundTrip(q, []);
    assert EncodePublish(q).value + [] == EncodePublish(q).value;
  }

  /** A publication at QoS 1 to `a`, for a subscription at QoS 0. */
  lemma DowngradedExample(s: Subscription)
    requires s.qos == AtMostOnce
    ensures var p := Publication(false, AtLeastOnce, false, [0x61], Some(7), None, None);
            && Consistent(p) && Copy(p, ExactlyOnce, (s, [])) == p.(qos := AtMostOnce)
            && EncodePublish(Copy(p, ExactlyOnce, (s, []))).Ok? && !Consistent(Copy(p, ExactlyOnce, (s, [])))
  {
  }
}
