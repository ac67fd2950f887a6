/** The cluster's book-keeping of retained messages: set, reset and expiry over whole runs. */
module RetainBooks {
  import opened Base
  import opened Topics
  import opened Trie
  import opened Timers
  import opened TimerRuns
  import opened Retained

  /** `Retain`, told apart by `id` as the source's shared objects are by identity; `expires` if the message has an expiry. */
  datatype Retain = Retain(id: nat, topic: Str, expires: bool)

  type Held = Dated<Retain>

  /** The retained trie, the `retain_topics` index, the timer, and which objects carry the deleted mark. */
  datatype Book<M> = Book(
    now: nat,
    instant: nat,
    trie: Kept<M>,
    topics: map<Str, Held>,
    items: Entries<Held>,
    deleted: set<Held>,
    next: nat)

  function NewBook<M>(now: nat): Book<M> {
    Book(now, now, Kept([], 0, 0), map[], [], {}, 0)
  }

  /** The mark left on a replaced or reset message. */
  function Marked(topics: map<Str, Held>, topic: Str): set<Held> {
    if topic in topics then {topics[topic]} else {}
  }

  /** `handle_set_retain_topic` */
  function SetTopic<M>(b: Book<M>, now: nat, topic: Str, m: M, expiry: Option<nat>): Book<M>
    requires b.instant <= b.now <= now
  {
    var x := Dated(Retain(b.next, topic, expiry.Some?), if expiry.Some? then DueAt(now, expiry.value) else 0);
    b.(now := now,
       trie := DoSet(b.trie, topic, m),
       topics := b.topics[topic := x],
       items := if expiry.Some? then Insert(b.items, Delay(expiry.value, Micros(now, b.instant)), x) else b.items,
       deleted := b.deleted + Marked(b.topics, topic),
       next := b.next + 1)
  }

  /** `handle_reset_retain_topic` */
  function ResetTopic<M>(b: Book<M>, now: nat, topic: Str): Result<Book<M>> {
    var trie :- DoRemove(b.trie, topic);
    Ok(b.(now := now, trie := trie, topics := b.topics - {topic}, deleted := b.deleted + Marked(b.topics, topic)))
  }

  /** The loop of `retain_expires`; a marked message or a topic missing from the index would be a crash. */
  function DropAll<M>(trie: Kept<M>, topics: map<Str, Held>, deleted: set<Held>, es: seq<Held>): Result<(Kept<M>, map<Str, Held>)>
    decreases |es|
  {
    if es == [] then Ok((trie, topics))
    else if es[0] in deleted then Err(Panic)
    else
      var trie' :- DoRemove(trie, es[0].v.topic);
      if es[0].v.topic !in topics then Err(Panic)
      else DropAll(trie', topics - {es[0].v.topic}, deleted, es[1..])
  }

  /** `retain_expires` */
  function Expires<M>(b: Book<M>, now: nat): Result<Book<M>>
    requires b.instant <= b.now <= now
  {
    var micros := Micros(now, b.instant);
    var (trie, topics) :- DropAll(b.trie, b.topics, b.deleted, Expired(b.items, micros, b.deleted));
    Ok(b.(now := now, instant := b.instant + 1000 * micros, items := Left(b.items, micros), trie := trie, topics := topics))
  }

  // ----- The invariant -----

  ghost predicate NoRepeat<T(!new)>(s: seq<T>) {
    forall x :: multiset(s)[x] <= 1
  }

  /** Each topic's entry is its own and not marked. */
  ghost predicate Indexed(topics: map<Str, Held>, deleted: set<Held>, next: nat) {
    && (forall t :: t in topics ==> topics[t].v.topic == t && topics[t].v.id < next && topics[t] !in deleted)
    && (forall x :: x in deleted ==> x.v.id < next)
  }

  /** Each unmarked value in the timer is the current entry of its topic. */
  ghost predicate Current(vs: seq<Held>, topics: map<Str, Held>, deleted: set<Held>, next: nat) {
    forall x :: x in vs ==> x.v.id < next && (x in deleted || (x.v.topic in topics && topics[x.v.topic] == x))
  }

  /** Each message with an expiry is in the timer. */
  ghost predicate Timed(vs: seq<Held>, topics: map<Str, Held>) {
    forall t :: t in topics && topics[t].v.expires ==> topics[t] in vs
  }

  /** The trie holds the latest message of exactly the indexed topics, and timer and index agree. */
  ghost predicate BookInv<M>(b: Book<M>, held: map<Str, M>) {
    && b.instant <= b.now && NotLate(b.instant, b.items)
    && Holds(b.trie.root, held) && held.Keys == b.topics.Keys
    && Indexed(b.topics, b.deleted, b.next)
    && Current(Values(b.items), b.topics, b.deleted, b.next)
    && Timed(Values(b.items), b.topics)
    && NoRepeat(Values(b.items))
  }

  /** The trie counts the topics that hold a message. */
  ghost predicate Counted<M>(trie: Kept<M>, topics: map<Str, Held>) {
    trie.count == |topics| && trie.missing == 0
  }

  lemma OneLess(topics: map<Str, Held>, topic: Str)
    ensures |topics - {topic}| == |topics| - if topic in topics then 1 else 0
  {
    assert (topics - {topic}).Keys == topics.Keys - {topic};
  }

  lemma {:induction false} FewerTopics(a: map<Str, Held>, b: map<Str, Held>)
    requires a.Keys <= b.Keys
    ensures |a| <= |b|
    decreases |a|
  {
    if a != map[] {
      var t :| t in a;
      OneLess(a, t);
      OneLess(b, t);
      FewerTopics(a - {t}, b - {t});
    }
  }

  lemma NewInv<M>(now: nat)
    ensures BookInv(NewBook<M>(now), map[]) && Counted(NewBook<M>(now).trie, NewBook<M>(now).topics)
  {
  }

  // ----- Set -----

  lemma IndexSet(vs: seq<Held>, vs': seq<Held>, topics: map<Str, Held>, deleted: set<Held>, next: nat, x: Held)
    requires Indexed(topics, deleted, next) && Current(vs, topics, deleted, next) && Timed(vs, topics) && NoRepeat(vs)
    requires x.v.id == next
    requires multiset(vs') == if x.v.expires then multiset(vs) + multiset{x} else multiset(vs)
    ensures var topics', deleted' := topics[x.v.topic := x], deleted + Marked(topics, x.v.topic);
            && Indexed(topics', deleted', next + 1) && Current(vs', topics', deleted', next + 1)
            && Timed(vs', topics') && NoRepeat(vs')
  {
    var topics', deleted' := topics[x.v.topic := x], deleted + Marked(topics, x.v.topic);
    forall y | y in vs' ensures y.v.id < next + 1 && (y in deleted' || (y.v.topic in topics' && topics'[y.v.topic] == y)) {
      assert y in multiset(vs');
      if y != x {
        assert y in multiset(vs);
      }
    }
    assert x !in multiset(vs);
    forall t | t in topics' && topics'[t].v.expires ensures topics'[t] in vs' {
      if t != x.v.topic {
        assert topics[t] in multiset(vs);
      }
      assert topics'[t] in multiset(vs');
    }
  }

  lemma SetKeeps<M>(b: Book<M>, held: map<Str, M>, now: nat, topic: Str, m: M, expiry: Option<nat>)
    requires BookInv(b, held) && b.now <= now
    ensures BookInv(SetTopic(b, now, topic, m, expiry), held[topic := m])
  {
    var b' := SetTopic(b, now, topic, m, expiry);
    var x := b'.topics[topic];
    SetHolds(b.trie, held, topic, m);
    if expiry.Some? {
      InsertNotLate(b.instant, b.items, now, expiry.value, x);
      InsertValues(b.items, Delay(expiry.value, Micros(now, b.instant)), x);
    }
    IndexSet(Values(b.items), Values(b'.items), b.topics, b.deleted, b.next, x);
  }

  // ----- Reset -----

  /** A reset never crashes on a held topic, and on another one exactly when the topic is an inner level of a held one. */
  lemma ResetCrash<M>(b: Book<M>, held: map<Str, M>, now: nat, topic: Str)
    requires BookInv(b, held)
    ensures ResetTopic(b, now, topic).Err? <==> topic !in b.topics && Above(topic, held)
  {
    if topic in held {
      RemoveHolds(b.trie, held, topic);
    } else {
      RemoveMissing(b.trie, held, topic);
    }
  }

  lemma ResetKeeps<M>(b: Book<M>, held: map<Str, M>, now: nat, topic: Str)
    requires BookInv(b, held) && b.now <= now && ResetTopic(b, now, topic).Ok?
    ensures BookInv(ResetTopic(b, now, topic).value, held - {topic})
  {
    var b' := ResetTopic(b, now, topic).value;
    if topic in held {
      RemoveHolds(b.trie, held, topic);
    } else {
      RemoveMissing(b.trie, held, topic);
      assert held - {topic} == held;
    }
  }

  // ----- Expiry -----

  function TopicsOf(es: seq<Held>): set<Str> {
    set x | x in es :: x.v.topic
  }

  /** Unmarked, current and distinct entries. */
  ghost predicate Droppable(es: seq<Held>, topics: map<Str, Held>, deleted: set<Held>) {
    NoRepeat(es) && forall x :: x in es ==> x !in deleted && x.v.topic in topics && topics[x.v.topic] == x
  }

  lemma DropFirst<M>(trie: Kept<M>, held: map<Str, M>, topics: map<Str, Held>, deleted: set<Held>, es: seq<Held>)
    requires Holds(trie.root, held) && held.Keys == topics.Keys && es != [] && Droppable(es, topics, deleted)
    ensures DoRemove(trie, es[0].v.topic).Ok?
    ensures var t := es[0].v.topic;
            var trie' := DoRemove(trie, t).value;
            && DropAll(trie, topics, deleted, es) == DropAll(trie', topics - {t}, deleted, es[1..])
            && Holds(trie'.root, held - {t}) && Droppable(es[1..], topics - {t}, deleted)
            && (Counted(trie, topics) ==> Counted(trie', topics - {t}))
  {
    var x := es[0];
    assert es == [x] + es[1..] && x in es;
    RemoveHolds(trie, held, x.v.topic);
    OneLess(topics, x.v.topic);
    RestIsDroppable(x, es[1..], topics, deleted);
  }

  /** What dropping all of them comes to. */
  ghost predicate Dropped<M>(trie: Kept<M>, held: map<Str, M>, topics: map<Str, Held>, es: seq<Held>, r: Result<(Kept<M>, map<Str, Held>)>) {
    && r.Ok? && Holds(r.value.0.root, held - TopicsOf(es)) && r.value.1 == topics - TopicsOf(es)
    && (Counted(trie, topics) ==> Counted(r.value.0, r.value.1))
  }

  /** They can all be dropped without a crash. */
  lemma {:induction false} DropAllOk<M>(trie: Kept<M>, held: map<Str, M>, topics: map<Str, Held>, deleted: set<Held>, es: seq<Held>)
    requires Holds(trie.root, held) && held.Keys == topics.Keys && Droppable(es, topics, deleted)
    ensures Dropped(trie, held, topics, es, DropAll(trie, topics, deleted, es))
    decreases |es|
  {
    if es == [] {
      DroppedNone(trie, held, topics);
    } else {
      DropFirst(trie, held, topics, deleted, es);
      var t := es[0].v.topic;
      var trie' := DoRemove(trie, t).value;
      DropAllOk(trie', held - {t}, topics - {t}, deleted, es[1..]);
      DroppedMore(trie, trie', held, topics, es, DropAll(trie', topics - {t}, deleted, es[1..]));
    }
  }

  lemma DroppedNone<M>(trie: Kept<M>, held: map<Str, M>, topics: map<Str, Held>)
    requires Holds(trie.root, held)
    ensures Dropped(trie, held, topics, [], Ok((trie, topics)))
  {
    assert held - {} == held && topics - {} == topics && TopicsOf([]) == {};
  }

  lemma DroppedMore<M>(trie: Kept<M>, trie': Kept<M>, held: map<Str, M>, topics: map<Str, Held>, es: seq<Held>,
      r: Result<(Kept<M>, map<Str, Held>)>)
    requires es != [] && Dropped(trie', held - {es[0].v.topic}, topics - {es[0].v.topic}, es[1..], r)
    requires Counted(trie, topics) ==> Counted(trie', topics - {es[0].v.topic})
    ensures Dropped(trie, held, topics, es, r)
  {
    TopicsOfMore(es);
    MinusTwice(held, es[0].v.topic, TopicsOf(es[1..]), TopicsOf(es));
    MinusTwice(topics, es[0].v.topic, TopicsOf(es[1..]), TopicsOf(es));
  }

  lemma MinusTwice<V>(m: map<Str, V>, t: Str, s: set<Str>, all: set<Str>)
    requires all == {t} + s
    ensures m - {t} - s == m - all
  {
  }

  lemma TopicsOfMore(es: seq<Held>)
    requires es != []
    ensures TopicsOf(es) == {es[0].v.topic} + TopicsOf(es[1..])
  {
    assert es == [es[0]] + es[1..];
  }

  lemma RestIsDroppable(x: Held, rest: seq<Held>, topics: map<Str, Held>, deleted: set<Held>)
    requires NoRepeat([x] + rest)
    requires forall y :: y in [x] + rest ==> y !in deleted && y.v.topic in topics && topics[y.v.topic] == y
    ensures NoRepeat(rest)
    ensures forall y :: y in rest ==> y !in deleted && y.v.topic in topics - {x.v.topic} && (topics - {x.v.topic})[y.v.topic] == y
  {
    assert multiset([x] + rest) == multiset{x} + multiset(rest);
    forall y ensures multiset(rest)[y] <= 1 {
      assert multiset([x] + rest)[y] <= 1;
    }
    forall y | y in rest ensures y !in deleted && y.v.topic in topics - {x.v.topic} && (topics - {x.v.topic})[y.v.topic] == y {
      assert y in [x] + rest && x in [x] + rest;
      assert multiset([x] + rest)[x] <= 1;
      assert x !in multiset(rest);
    }
  }

  /** What expiry takes out of the timer and what stays. */
  lemma ExpirySplits(vs: seq<Held>, popped: seq<Held>, left: seq<Held>, topics: map<Str, Held>, deleted: set<Held>, next: nat)
    requires vs == popped + left && Indexed(topics, deleted, next) && Current(vs, topics, deleted, next) && Timed(vs, topics) && NoRepeat(vs)
    ensures var es := Undeleted(popped, deleted);
            && Droppable(es, topics, deleted)
            && Indexed(topics - TopicsOf(es), deleted, next)
            && Current(left, topics - TopicsOf(es), deleted, next)
            && Timed(left, topics - TopicsOf(es))
            && NoRepeat(left)
  {
    var es := Undeleted(popped, deleted);
    UndeletedParts(popped, deleted);
    assert multiset(vs) == multiset(popped) + multiset(left);
    forall x ensures multiset(es)[x] <= 1 && multiset(left)[x] <= 1 {
      assert multiset(vs)[x] <= 1;
    }
    EsAreCurrent(vs, popped, left, topics, deleted, next);
    forall x | x in left ensures x.v.id < next && (x in deleted || (x.v.topic in topics - TopicsOf(es) && topics[x.v.topic] == x)) {
      assert x in vs && x in multiset(left) && multiset(vs)[x] <= 1;
      assert x !in multiset(es);
      forall e | e in es ensures x in deleted || e.v.topic != x.v.topic {
        assert e in multiset(es);
      }
    }
    forall t | t in topics - TopicsOf(es) && topics[t].v.expires ensures topics[t] in left {
      var x := topics[t];
      assert x in es ==> x.v.topic in TopicsOf(es);
      assert x !in multiset(es);
      assert x !in multiset(popped);
      assert x in multiset(vs);
    }
  }

  lemma EsAreCurrent(vs: seq<Held>, popped: seq<Held>, left: seq<Held>, topics: map<Str, Held>, deleted: set<Held>, next: nat)
    requires vs == popped + left && Current(vs, topics, deleted, next)
    ensures forall x :: x in Undeleted(popped, deleted) ==> x !in deleted && x.v.topic in topics && topics[x.v.topic] == x
  {
    UndeletedParts(popped, deleted);
    forall x | x in Undeleted(popped, deleted) ensures x !in deleted && x.v.topic in topics && topics[x.v.topic] == x {
      assert x in multiset(Undeleted(popped, deleted));
      assert x in multiset(popped);
      assert x in vs;
    }
  }

  lemma NoneDue(items: Entries<Held>, topics: map<Str, Held>, now: nat)
    requires Timed(Values(items), topics) && forall i :: 0 <= i < |items| ==> items[i].value.due > now
    ensures forall t :: t in topics && topics[t].v.expires ==> topics[t].due > now
  {
    ValuesAreItems(items);
  }

  /** Expiry never crashes, keeps the invariant, and leaves no message whose expiry has come. */
  lemma ExpiryKeeps<M>(b: Book<M>, held: map<Str, M>, now: nat) returns (held': map<Str, M>)
    requires BookInv(b, held) && b.now <= now
    ensures Expires(b, now).Ok?
    ensures BookInv(Expires(b, now).value, held')
    ensures held' == held - TopicsOf(Expired(b.items, Micros(now, b.instant), b.deleted))
    ensures Expires(b, now).value.topics.Keys <= b.topics.Keys
    ensures Counted(b.trie, b.topics) ==> Counted(Expires(b, now).value.trie, Expires(b, now).value.topics)
    ensures var topics := Expires(b, now).value.topics;
            forall t :: t in topics && topics[t].v.expires ==> topics[t].due > now
  {
    var micros := Micros(now, b.instant);
    var k := Popped(b.items, micros);
    var es := Expired(b.items, micros, b.deleted);
    LeftValues(b.items, micros);
    ExpirySplits(Values(b.items), Values(b.items[..k]), Values(Left(b.items, micros)), b.topics, b.deleted, b.next);
    DropAllOk(b.trie, held, b.topics, b.deleted, es);
    assert Dropped(b.trie, held, b.topics, es, DropAll(b.trie, b.topics, b.deleted, es));
    held' := held - TopicsOf(es);
    LeftNotLate(b.instant, b.items, now);
    NoneDue(Left(b.items, micros), b.topics - TopicsOf(es), now);
  }

  // ----- Runs -----

  datatype Op<M> = Set(topic: Str, m: M, expiry: Option<nat>) | Reset(topic: Str) | Tick

  function Step<M>(b: Book<M>, now: nat, op: Op<M>): Result<Book<M>>
    requires b.instant <= b.now <= now
  {
    match op
    case Set(topic, m, expiry) => Ok(SetTopic(b, now, topic, m, expiry))
    case Reset(topic) => ResetTopic(b, now, topic)
    case Tick => Expires(b, now)
  }

  predicate InOrder<M>(now: nat, ops: seq<(nat, Op<M>)>)
    decreases |ops|
  {
    ops == [] || (now <= ops[0].0 && InOrder(ops[0].0, ops[1..]))
  }

  lemma StepClock<M>(b: Book<M>, now: nat, op: Op<M>)
    requires b.instant <= b.now <= now && Step(b, now, op).Ok?
    ensures Step(b, now, op).value.instant <= Step(b, now, op).value.now == now
  {
  }

  function Run<M>(b: Book<M>, ops: seq<(nat, Op<M>)>): Result<Book<M>>
    requires b.instant <= b.now && InOrder(b.now, ops)
    decreases |ops|
  {
    if ops == [] then Ok(b)
    else
      var b' :- Step(b, ops[0].0, ops[0].1);
      StepClock(b, ops[0].0, ops[0].1);
      Run(b', ops[1..])
  }

  /** A reset of a topic that is not held but is an inner level of a held one. */
  predicate BadReset(topics: map<Str, Held>, topic: Str) {
    topic !in topics && exists t :: t in topics && Split(topic) <= Split(t)
  }

  lemma BookStepKeeps<M>(b: Book<M>, held: map<Str, M>, now: nat, op: Op<M>) returns (held': map<Str, M>)
    requires BookInv(b, held) && b.now <= now
    ensures Step(b, now, op).Err? <==> op.Reset? && BadReset(b.topics, op.topic)
    ensures Step(b, now, op).Ok? ==> BookInv(Step(b, now, op).value, held')
  {
    match op
    case Set(topic, m, expiry) =>
      SetKeeps(b, held, now, topic, m, expiry);
      held' := held[topic := m];
    case Reset(topic) =>
      ResetCrash(b, held, now, topic);
      if ResetTopic(b, now, topic).Ok? {
        ResetKeeps(b, held, now, topic);
      }
      held' := held - {topic};
    case Tick =>
      held' := ExpiryKeeps(b, held, now);
  }

  /** Whether the run comes to a bad reset. */
  predicate MeetsBadReset<M>(b: Book<M>, ops: seq<(nat, Op<M>)>)
    requires b.instant <= b.now && InOrder(b.now, ops)
    decreases |ops|
  {
    ops != [] &&
    ((ops[0].1.Reset? && BadReset(b.topics, ops[0].1.topic)) ||
     (Step(b, ops[0].0, ops[0].1).Ok? &&
      (StepClock(b, ops[0].0, ops[0].1); MeetsBadReset(Step(b, ops[0].0, ops[0].1).value, ops[1..]))))
  }

  /** A run crashes exactly at a bad reset; otherwise trie, index and timer agree at its end. */
  lemma {:induction false} RunKeeps<M>(b: Book<M>, held: map<Str, M>, ops: seq<(nat, Op<M>)>) returns (held': map<Str, M>)
    requires BookInv(b, held) && InOrder(b.now, ops)
    ensures Run(b, ops).Err? <==> MeetsBadReset(b, ops)
    ensures Run(b, ops).Ok? ==> BookInv(Run(b, ops).value, held')
    decreases |ops|
  {
    if ops == [] {
      held' := held;
    } else {
      var next := BookStepKeeps(b, held, ops[0].0, ops[0].1);
      held' := next;
      if Step(b, ops[0].0, ops[0].1).Ok? {
        StepClock(b, ops[0].0, ops[0].1);
        held' := RunKeeps(Step(b, ops[0].0, ops[0].1).value, next, ops[1..]);
      }
    }
  }

  lemma SetCounts<M>(b: Book<M>, held: map<Str, M>, now: nat, topic: Str, m: M, expiry: Option<nat>)
    requires BookInv(b, held) && b.now <= now && Counted(b.trie, b.topics) && |b.topics| < USIZE_MAX
    ensures var b' := SetTopic(b, now, topic, m, expiry); Counted(b'.trie, b'.topics) && |b'.topics| <= |b.topics| + 1
  {
    SetHolds(b.trie, held, topic, m);
    OneMore(b.topics, topic, SetTopic(b, now, topic, m, expiry).topics[topic]);
  }

  lemma OneMore(topics: map<Str, Held>, topic: Str, x: Held)
    ensures |topics[topic := x]| == |topics| + if topic in topics then 0 else 1
  {
    assert topics[topic := x].Keys == topics.Keys + {topic};
  }

  lemma ResetCounts<M>(b: Book<M>, held: map<Str, M>, now: nat, topic: Str)
    requires BookInv(b, held) && Counted(b.trie, b.topics) && ResetTopic(b, now, topic).Ok?
    ensures var b' := ResetTopic(b, now, topic).value; Counted(b'.trie, b'.topics) && |b'.topics| <= |b.topics|
  {
    OneLess(b.topics, topic);
    if topic in held {
      RemoveHolds(b.trie, held, topic);
    } else {
      RemoveMissing(b.trie, held, topic);
    }
  }

  lemma StepCounts<M>(b: Book<M>, held: map<Str, M>, now: nat, op: Op<M>)
    requires BookInv(b, held) && b.now <= now && Step(b, now, op).Ok?
    requires Counted(b.trie, b.topics) && |b.topics| < USIZE_MAX
    ensures var b' := Step(b, now, op).value; Counted(b'.trie, b'.topics) && |b'.topics| <= |b.topics| + 1
  {
    match op
    case Set(topic, m, expiry) => SetCounts(b, held, now, topic, m, expiry);
    case Reset(topic) => ResetCounts(b, held, now, topic);
    case Tick =>
      var held' := ExpiryKeeps(b, held, now);
      FewerTopics(Expires(b, now).value.topics, b.topics);
  }

  /** As long as the counter cannot saturate, it is the number of topics that hold a message, and no removal is missing. */
  lemma {:induction false} RunCounts<M>(b: Book<M>, held: map<Str, M>, ops: seq<(nat, Op<M>)>)
    requires BookInv(b, held) && InOrder(b.now, ops) && Run(b, ops).Ok?
    requires Counted(b.trie, b.topics) && |b.topics| + |ops| <= USIZE_MAX
    ensures Counted(Run(b, ops).value.trie, Run(b, ops).value.topics)
    decreases |ops|
  {
    if ops != [] {
      var next := BookStepKeeps(b, held, ops[0].0, ops[0].1);
      StepCounts(b, held, ops[0].0, ops[0].1);
      StepClock(b, ops[0].0, ops[0].1);
      RunCounts(Step(b, ops[0].0, ops[0].1).value, next, ops[1..]);
    }
  }

  /** Setting `a/b` and resetting `a`. */
  lemma InnerResetCrashes<M>(m: M)
    ensures Run(NewBook<M>(0), [(0, Set([0x61, SLASH, 0x62], m, None)), (0, Reset([0x61]))]).Err?
  {
    var topic: Str := [0x61, SLASH, 0x62];
    var put, reset: (nat, Op<M>) := (0, Set(topic, m, None)), (0, Reset([0x61]));
    SplitPlain(0x61);
    SplitTwo(0x61, 0x62);
    NewInv<M>(0);
    assert [put, reset][1..] == [reset] && [reset][0] == reset;
    var held := RunKeeps(NewBook<M>(0), map[], [put, reset]);
    var b := SetTopic(NewBook<M>(0), 0, topic, m, None);
    assert topic in b.topics && [0x61] !in b.topics && Split([0x61]) <= Split(topic);
  }

  /** After any run, expiry at a later time does not crash and leaves no message whose expiry has come by then. */
  lemma NothingOverdue<M>(start: nat, ops: seq<(nat, Op<M>)>, now: nat)
    requires InOrder(start, ops) && Run(NewBook<M>(start), ops).Ok? && Run(NewBook<M>(start), ops).value.now <= now
    ensures var b := Run(NewBook<M>(start), ops).value;
            && b.instant <= b.now && Expires(b, now).Ok?
            && var topics := Expires(b, now).value.topics;
               forall t :: t in topics && topics[t].v.expires ==> topics[t].due > now
  {
    NewInv<M>(start);
    var held := RunKeeps(NewBook<M>(start), map[], ops);
    var held' := ExpiryKeeps(Run(NewBook<M>(start), ops).value, held, now);
  }

  // ----- The object -----

  /** The loop drops each expired message from the trie and from the index. */
  method DropLoop<M>(trie0: Kept<M>, topics0: map<Str, Held>, deleted: set<Held>, es: seq<Held>)
    returns (trie: Kept<M>, topics: map<Str, Held>)
    requires DropAll(trie0, topics0, deleted, es).Ok?
    ensures DropAll(trie0, topics0, deleted, es) == Ok((trie, topics))
  {
    trie, topics := trie0, topics0;
    var i := 0;
    assert es[0..] == es;
    while i < |es|
      invariant i <= |es|
      invariant DropAll(trie, topics, deleted, es[i..]) == DropAll(trie0, topics0, deleted, es)
    {
      assert es[i..][0] == es[i] && es[i..][1..] == es[i + 1..];
      assert es[i] !in deleted && es[i].v.topic in topics;
      trie := DoRemove(trie, es[i].v.topic).value;
      topics := topics - {es[i].v.topic};
      i := i + 1;
    }
  }

  method ExpireLoop<M>(b: Book<M>, now: nat) returns (b': Book<M>)
    requires b.instant <= b.now <= now && Expires(b, now).Ok?
    ensures Expires(b, now) == Ok(b')
  {
    var micros := Micros(now, b.instant);
    var trie, topics := DropLoop(b.trie, b.topics, b.deleted, Expired(b.items, micros, b.deleted));
    b' := b.(now := now, instant := b.instant + 1000 * micros, items := Left(b.items, micros), trie := trie, topics := topics);
  }

  class Cluster<M> {
    var book: Book<M>
    ghost var held: map<Str, M>

    ghost predicate Valid()
      reads this
    {
      BookInv(book, held)
    }

    constructor (now: nat)
      ensures Valid() && book == NewBook(now) && held == map[]
    {
      book := NewBook(now);
      held := map[];
    }

    method HandleSetRetainTopic(now: nat, topic: Str, m: M, expiry: Option<nat>)
      requires Valid() && book.now <= now
      modifies this
      ensures Valid() && book == SetTopic(old(book), now, topic, m, expiry) && held == old(held)[topic := m]
    {
      SetKeeps(book, held, now, topic, m, expiry);
      book := SetTopic(book, now, topic, m, expiry);
      held := held[topic := m];
    }

    /** A crash leaves the book as it was. */
    method HandleResetRetainTopic(now: nat, topic: Str) returns (r: Result<()>)
      requires Valid() && book.now <= now
      modifies this
      ensures Valid()
      ensures r.Err? <==> BadReset(old(book).topics, topic)
      ensures r.Ok? ==> Ok(book) == ResetTopic(old(book), now, topic) && held == old(held) - {topic} && topic !in book.topics
      ensures r.Err? ==> book == old(book) && held == old(held)
    {
      var held' := BookStepKeeps(book, held, now, Reset(topic));
      var next := ResetTopic(book, now, topic);
      if next.Err? {
        return Err(next.kind);
      }
      ResetKeeps(book, held, now, topic);
      book := next.value;
      held := held - {topic};
      return Ok(());
    }

    method RetainExpires(now: nat)
      requires Valid() && book.now <= now
      modifies this
      ensures Valid()
      ensures Expires(old(book), now) == Ok(book)
      ensures forall t :: t in book.topics && book.topics[t].v.expires ==> book.topics[t].due > now
    {
      ghost var held' := ExpiryKeeps(book, held, now);
      book := ExpireLoop(book, now);
      held := held';
    }
  }
}
