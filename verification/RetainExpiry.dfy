/** When a retained message is there, told from the requests and ticks alone. */
module RetainExpiry {
  import opened Base
  import opened Topics
  import opened Trie
  import opened Timers
  import TimerRuns
  import opened Retained
  import opened RetainBooks

  /** What the requests say of a topic: the last message set and not reset since, and whether there was a tick since. */
  datatype Last<M> = Nothing | Just(at: nat, m: M, expiry: Option<nat>, ticked: bool)

  function Next<M>(known: Last<M>, now: nat, op: Op<M>, topic: Str): Last<M> {
    match op
    case Set(t, m, expiry) => if t == topic then Just(now, m, expiry, false) else known
    case Reset(t) => if t == topic then Nothing else known
    case Tick => if known.Just? then known.(ticked := true) else known
  }

  function Latest<M>(known: Last<M>, ops: seq<(nat, Op<M>)>, topic: Str): Last<M>
    decreases |ops|
  {
    if ops == [] then known else Latest(Next(known, ops[0].0, ops[0].1, topic), ops[1..], topic)
  }

  // ----- The invariant -----

  ghost predicate AllExpire(vs: seq<Held>) {
    forall x :: x in vs ==> x.v.expires
  }

  /** The book has of a topic what the requests say. */
  ghost predicate Stands<M>(b: Book<M>, held: map<Str, M>, known: Last<M>, topic: Str) {
    match known
    case Nothing => topic !in held
    case Just(at, m, expiry, ticked) =>
      && (expiry.None? || !ticked ==> topic in held)
      && (topic in held ==>
            && held[topic] == m && topic in b.topics && (b.topics[topic].v.expires <==> expiry.Some?)
            && (expiry.Some? ==> b.topics[topic].due == at + expiry.value * 1_000_000_000))
  }

  ghost predicate Known<M>(b: Book<M>, held: map<Str, M>, known: Last<M>, topic: Str) {
    BookInv(b, held) && AllExpire(Values(b.items)) && Stands(b, held, known, topic)
  }

  lemma SetStands<M>(b: Book<M>, held: map<Str, M>, known: Last<M>, topic: Str, now: nat, t: Str, m: M, expiry: Option<nat>)
    requires Known(b, held, known, topic) && b.now <= now
    ensures Known(SetTopic(b, now, t, m, expiry), held[t := m], Next(known, now, Set(t, m, expiry), topic), topic)
  {
    SetKeeps(b, held, now, t, m, expiry);
    if expiry.Some? {
      AlsoExpires(b.items, Delay(expiry.value, Micros(now, b.instant)), SetTopic(b, now, t, m, expiry).topics[t]);
    }
  }

  lemma AlsoExpires(items: Entries<Held>, d: nat, x: Held)
    requires AllExpire(Values(items)) && x.v.expires
    ensures AllExpire(Values(Insert(items, d, x)))
  {
    TimerRuns.InsertValues(items, d, x);
    forall y | y in Values(Insert(items, d, x)) ensures y.v.expires {
      assert y in multiset(Values(Insert(items, d, x)));
      assert y != x ==> y in multiset(Values(items));
    }
  }

  lemma ResetStands<M>(b: Book<M>, held: map<Str, M>, known: Last<M>, topic: Str, now: nat, t: Str)
    requires Known(b, held, known, topic) && b.now <= now && ResetTopic(b, now, t).Ok?
    ensures Known(ResetTopic(b, now, t).value, held - {t}, Next(known, now, Reset(t), topic), topic)
  {
    ResetKeeps(b, held, now, t);
  }

  lemma TickStands<M>(b: Book<M>, held: map<Str, M>, known: Last<M>, topic: Str, now: nat) returns (held': map<Str, M>)
    requires Known(b, held, known, topic) && b.now <= now
    ensures Expires(b, now).Ok? && Known(Expires(b, now).value, held', Next(known, now, Tick, topic), topic)
  {
    held' := ExpiryKeeps(b, held, now);
    var micros := Micros(now, b.instant);
    var es := Expired(b.items, micros, b.deleted);
    TimerRuns.LeftValues(b.items, micros);
    TopicsStay(b, held, held', now, topic);
    assert AllExpire(Values(Left(b.items, micros)));
  }

  /** A tick drops a topic only if it expires, and leaves the entries of all others. */
  lemma TopicsStay<M>(b: Book<M>, held: map<Str, M>, held': map<Str, M>, now: nat, topic: Str)
    requires BookInv(b, held) && AllExpire(Values(b.items)) && b.now <= now && Expires(b, now).Ok?
    requires held' == held - TopicsOf(Expired(b.items, Micros(now, b.instant), b.deleted)) && BookInv(Expires(b, now).value, held')
    ensures topic in held && !b.topics[topic].v.expires ==> topic in held'
    ensures topic in held' ==> topic in Expires(b, now).value.topics && Expires(b, now).value.topics[topic] == b.topics[topic]
  {
    var micros := Micros(now, b.instant);
    var popped, left := Values(b.items[..Popped(b.items, micros)]), Values(Left(b.items, micros));
    var es := Undeleted(popped, b.deleted);
    TimerRuns.LeftValues(b.items, micros);
    EsAreCurrent(Values(b.items), popped, left, b.topics, b.deleted, b.next);
    forall x | x in es ensures x.v.expires {
      TimerRuns.UndeletedParts(popped, b.deleted);
      assert x in multiset(es) && x in multiset(popped);
      assert x in Values(b.items);
    }
    ExpirySplits(Values(b.items), popped, left, b.topics, b.deleted, b.next);
    DropAllOk(b.trie, held, b.topics, b.deleted, es);
  }

  lemma StepStands<M>(b: Book<M>, held: map<Str, M>, known: Last<M>, topic: Str, now: nat, op: Op<M>) returns (held': map<Str, M>)
    requires Known(b, held, known, topic) && b.now <= now && Step(b, now, op).Ok?
    ensures Known(Step(b, now, op).value, held', Next(known, now, op, topic), topic)
  {
    match op
    case Set(t, m, expiry) =>
      SetStands(b, held, known, topic, now, t, m, expiry);
      held' := held[t := m];
    case Reset(t) =>
      ResetStands(b, held, known, topic, now, t);
      held' := held - {t};
    case Tick =>
      held' := TickStands(b, held, known, topic, now);
  }

  lemma {:induction false} RunStands<M>(b: Book<M>, held: map<Str, M>, known: Last<M>, topic: Str, ops: seq<(nat, Op<M>)>) returns (held': map<Str, M>)
    requires Known(b, held, known, topic) && InOrder(b.now, ops) && Run(b, ops).Ok?
    ensures Known(Run(b, ops).value, held', Latest(known, ops, topic), topic)
    decreases |ops|
  {
    if ops == [] {
      held' := held;
    } else {
      var next := StepStands(b, held, known, topic, ops[0].0, ops[0].1);
      StepClock(b, ops[0].0, ops[0].1);
      held' := RunStands(Step(b, ops[0].0, ops[0].1).value, next, Next(known, ops[0].0, ops[0].1, topic), topic, ops[1..]);
    }
  }

  lemma FreshRunStands<M>(start: nat, ops: seq<(nat, Op<M>)>, topic: Str) returns (held: map<Str, M>)
    requires InOrder(start, ops) && Run(NewBook<M>(start), ops).Ok?
    ensures Known(Run(NewBook<M>(start), ops).value, held, Latest(Nothing, ops, topic), topic)
  {
    NewInv<M>(start);
    held := RunStands(NewBook<M>(start), map[], Nothing, topic, ops);
  }

  // ----- What is there -----

  /** A topic is in the index with this message in the trie, or in neither. */
  ghost predicate Has<M>(b: Book<M>, topic: Str, m: M) {
    topic in b.topics && LookupForest(b.trie.root, Split(topic)) == [m]
  }

  ghost predicate Lacks<M>(b: Book<M>, topic: Str) {
    topic !in b.topics && LookupForest(b.trie.root, Split(topic)) == []
  }

  lemma HasOrLacks<M>(b: Book<M>, held: map<Str, M>, topic: Str)
    requires BookInv(b, held)
    ensures if topic in held then Has(b, topic, held[topic]) else Lacks(b, topic)
  {
    WantedAt(held, topic);
  }

  /** A message without an expiry stays until its topic is set again or reset, however often it ticks. */
  lemma StaysWithoutExpiry<M>(start: nat, ops: seq<(nat, Op<M>)>, topic: Str)
    requires InOrder(start, ops) && Run(NewBook<M>(start), ops).Ok?
    requires Latest(Nothing, ops, topic).Just? && Latest(Nothing, ops, topic).expiry.None?
    ensures Has(Run(NewBook<M>(start), ops).value, topic, Latest(Nothing, ops, topic).m)
  {
    var held := FreshRunStands(start, ops, topic);
    HasOrLacks(Run(NewBook<M>(start), ops).value, held, topic);
  }

  /** Any message stays until the next tick. */
  lemma StaysUntilTick<M>(start: nat, ops: seq<(nat, Op<M>)>, topic: Str)
    requires InOrder(start, ops) && Run(NewBook<M>(start), ops).Ok?
    requires Latest(Nothing, ops, topic).Just? && !Latest(Nothing, ops, topic).ticked
    ensures Has(Run(NewBook<M>(start), ops).value, topic, Latest(Nothing, ops, topic).m)
  {
    var held := FreshRunStands(start, ops, topic);
    HasOrLacks(Run(NewBook<M>(start), ops).value, held, topic);
  }

  /** A topic that was never set, or was reset since, has none. */
  lemma NothingAfterReset<M>(start: nat, ops: seq<(nat, Op<M>)>, topic: Str)
    requires InOrder(start, ops) && Run(NewBook<M>(start), ops).Ok? && Latest(Nothing, ops, topic).Nothing?
    ensures Lacks(Run(NewBook<M>(start), ops).value, topic)
  {
    var held := FreshRunStands(start, ops, topic);
    HasOrLacks(Run(NewBook<M>(start), ops).value, held, topic);
  }

  /** A message with an expiry is gone after the first tick at or behind it. */
  lemma GoneWhenDue<M>(start: nat, ops: seq<(nat, Op<M>)>, now: nat, topic: Str)
    requires InOrder(start, ops) && Run(NewBook<M>(start), ops).Ok? && Run(NewBook<M>(start), ops).value.now <= now
    requires var last := Latest(Nothing, ops, topic);
             last.Just? && last.expiry.Some? && now >= last.at + last.expiry.value * 1_000_000_000
    ensures var b := Run(NewBook<M>(start), ops).value;
            b.instant <= b.now && Expires(b, now).Ok? && Lacks(Expires(b, now).value, topic)
  {
    var held := FreshRunStands(start, ops, topic);
    var b := Run(NewBook<M>(start), ops).value;
    var held' := ExpiryKeeps(b, held, now);
    TopicsStay(b, held, held', now, topic);
    HasOrLacks(Expires(b, now).value, held', topic);
  }

  /** The first message of a new book is dropped by a tick exactly when its expiry has come. */
  lemma LoneMessageIsPunctual<M>(start: nat, topic: Str, m: M, secs: nat, now: nat)
    requires start <= now && secs * 1_000_000 < U64
    ensures var b := SetTopic(NewBook<M>(start), start, topic, m, Some(secs));
            && Expires(b, now).Ok?
            && (topic in Expires(b, now).value.topics <==> now < start + secs * 1_000_000_000)
  {
    var b := SetTopic(NewBook<M>(start), start, topic, m, Some(secs));
    NewInv<M>(start);
    SetKeeps(NewBook<M>(start), map[], start, topic, m, Some(secs));
    SetAlone(start, topic, m, secs);
    var held' := ExpiryKeeps(b, map[topic := m], now);
    OneEntry(b.items, b.topics[topic], Micros(now, start), secs * 1_000_000);
    WholeSeconds(start, now, secs);
    assert topic in held' <==> topic in Expires(b, now).value.topics;
  }

  lemma SetAlone<M>(start: nat, topic: Str, m: M, secs: nat)
    requires secs * 1_000_000 < U64
    ensures var b := SetTopic(NewBook<M>(start), start, topic, m, Some(secs));
            && b.items == [Entry(secs * 1_000_000, b.topics[topic])] && b.topics[topic].v.topic == topic
            && b.deleted == {} && b.instant == start && b.now == start
  {
    assert Delay(secs, Micros(start, start)) == secs * 1_000_000;
  }

  lemma WholeSeconds(start: nat, now: nat, secs: nat)
    requires start <= now
    ensures Micros(now, start) >= secs * 1_000_000 <==> now >= start + secs * 1_000_000_000
  {
  }

  lemma OneEntry(items: Entries<Held>, x: Held, micros: nat, delta: nat)
    requires items == [Entry(delta, x)]
    ensures Expired(items, micros, {}) == if delta <= micros then [x] else []
    ensures TopicsOf(Expired(items, micros, {})) == if delta <= micros then {x.v.topic} else {}
  {
    assert items[1..] == [] && items[..1] == items && items[..0] == [];
    assert Popped(items, micros) == if delta <= micros then 1 else 0;
    assert Values(items) == [x] && [x][1..] == [];
    assert Undeleted([x], {}) == [x] + Undeleted([], {}) == [x];
  }
}
