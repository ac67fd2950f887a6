/**
 * Messages between shards. Each shard appends to a back log per target and flushes it into the targets'
 * bounded queues; every queue is fed by all shards and drained by one. Each atomic send and receive is a step
 * of its own, so that flushes of several shards and receives interleave in any way.
 */
module Shards {
  import opened Base
  import opened Channels

  type Shard = nat
  type Pair = (Shard, Shard)
  type Log<M> = map<Pair, seq<M>>

  function At<K(==), M>(log: map<K, seq<M>>, k: K): seq<M> {
    if k in log then log[k] else []
  }

  /** `append_index!` */
  function AppendIndex<K(==), M>(log: map<K, seq<M>>, k: K, m: M): (log': map<K, seq<M>>)
    ensures log'.Keys == log.Keys + {k}
    ensures log'[k] == At(log, k) + [m]
    ensures forall j :: j in log && j != k ==> log'[j] == log[j]
  {
    if k in log then log[k := log[k] + [m]] else log[k := [m]]
  }

  /** Where a shard is in `send_to_shards`: appending as usual, between targets, or in the middle of one. */
  datatype Phase<M> = Routing | Flushing | Sending(to: Shard, left: seq<M>)

  datatype World<M> = World(
    capacity: nat,
    back: Log<M>,                          // `shard_back_log` of every shard
    taken: Log<M>,                         // what flushes have taken out and not yet come to
    phase: map<Shard, Phase<M>>,
    queues: map<Shard, seq<(Shard, M)>>,   // tagged with the sender
    routed: Log<M>,
    received: Log<M>)

  datatype Action<M> =
    | Route(from: Shard, to: Shard, m: M)
    | StartFlush(from: Shard)
    | NextTarget(from: Shard, to: Shard)
    | SendOne(from: Shard)
    | EndFlush(from: Shard)
    | Receive(to: Shard)

  function PhaseOf<M>(w: World<M>, s: Shard): Phase<M> {
    if s in w.phase then w.phase[s] else Routing
  }

  function Queue<M>(w: World<M>, s: Shard): seq<(Shard, M)> {
    if s in w.queues then w.queues[s] else []
  }

  function OfSender<M>(log: Log<M>, s: Shard): Log<M> {
    map p | p in log && p.0 == s :: log[p]
  }

  function NotOfSender<M>(log: Log<M>, s: Shard): Log<M> {
    map p | p in log && p.0 != s :: log[p]
  }

  /** A step that does not apply changes nothing. */
  function Act<M>(w: World<M>, act: Action<M>): World<M> {
    match act
    case Route(from, to, m) =>
      if PhaseOf(w, from).Routing? then w.(back := AppendIndex(w.back, (from, to), m), routed := AppendIndex(w.routed, (from, to), m)) else w
    case StartFlush(from) =>
      if PhaseOf(w, from).Routing? then
        w.(taken := w.taken + OfSender(w.back, from), back := NotOfSender(w.back, from), phase := w.phase[from := Flushing])
      else w
    case NextTarget(from, to) =>
      if PhaseOf(w, from).Flushing? && (from, to) in w.taken then
        w.(taken := w.taken - {(from, to)}, phase := w.phase[from := Sending(to, w.taken[(from, to)])])
      else w
    case SendOne(from) =>
      if PhaseOf(w, from).Sending? then
        var Sending(to, left) := PhaseOf(w, from);
        if left != [] && |Queue(w, to)| < w.capacity then
          w.(queues := w.queues[to := Queue(w, to) + [(from, left[0])]], phase := w.phase[from := Sending(to, left[1..])])
        else
          w.(back := w.back[(from, to) := left], phase := w.phase[from := Flushing])
      else w
    case EndFlush(from) =>
      if PhaseOf(w, from).Flushing? && (forall p :: p in w.taken ==> p.0 != from) then w.(phase := w.phase[from := Routing]) else w
    case Receive(to) =>
      if Queue(w, to) != [] then
        var (from, m) := Queue(w, to)[0];
        w.(queues := w.queues[to := Queue(w, to)[1..]], received := AppendIndex(w.received, (from, to), m))
      else w
  }

  function Run<M>(w: World<M>, acts: seq<Action<M>>): World<M>
    decreases |acts|
  {
    if acts == [] then w else Run(Act(w, acts[0]), acts[1..])
  }

  function Start<M>(capacity: nat): World<M> {
    World(capacity, map[], map[], map[], map[], map[], map[])
  }

  // ----- Where the messages of a pair are -----

  /** The queued messages of one sender. */
  function From<M>(q: seq<(Shard, M)>, s: Shard): seq<M> {
    if q == [] then [] else (if q[0].0 == s then [q[0].1] else []) + From(q[1..], s)
  }

  function InFlight<M>(w: World<M>, p: Pair): seq<M> {
    match PhaseOf(w, p.0)
    case Sending(to, left) => if to == p.1 then left else []
    case _ => []
  }

  /** What the sender still holds, in the one place where it holds it. */
  function Held<M>(w: World<M>, p: Pair): seq<M> {
    if PhaseOf(w, p.0).Sending? && PhaseOf(w, p.0).to == p.1 then InFlight(w, p)
    else if p in w.taken then At(w.taken, p)
    else At(w.back, p)
  }

  /** A sender holds the messages for a target in one place at a time. */
  ghost predicate OnePlace<M>(w: World<M>, p: Pair) {
    && (PhaseOf(w, p.0).Routing? ==> p !in w.taken)
    && (p in w.taken ==> At(w.back, p) == [])
    && (PhaseOf(w, p.0).Sending? && PhaseOf(w, p.0).to == p.1 ==> p !in w.taken && At(w.back, p) == [])
  }

  lemma HeldIsEverything<M>(w: World<M>, p: Pair)
    requires OnePlace(w, p)
    ensures Held(w, p) == InFlight(w, p) + At(w.taken, p) + At(w.back, p)
  {
  }

  ghost predicate InvAt<M>(w: World<M>, p: Pair) {
    Parts(At(w.received, p), From(Queue(w, p.1), p.0), Held(w, p), At(w.routed, p)) && OnePlace(w, p) && |Queue(w, p.1)| <= w.capacity
  }

  ghost predicate Inv<M>(w: World<M>) {
    forall p: Pair :: InvAt(w, p)
  }

  lemma {:induction false} FromAppend<M>(q: seq<(Shard, M)>, s: Shard, m: M, t: Shard)
    ensures From(q + [(s, m)], t) == From(q, t) + if s == t then [m] else []
  {
    if q == [] {
      assert q + [(s, m)] == [(s, m)];
      assert From([(s, m)][1..], t) == [];
    } else {
      FromAppend(q[1..], s, m, t);
      assert (q + [(s, m)])[1..] == q[1..] + [(s, m)] && (q + [(s, m)])[0] == q[0];
      Regrouped(if q[0].0 == t then [q[0].1] else [], From(q[1..], t), if s == t then [m] else []);
    }
  }

  // ----- Every step keeps it -----

  predicate Parts<M(==)>(a: seq<M>, b: seq<M>, c: seq<M>, all: seq<M>) {
    a + b + c == all
  }

  lemma Entered<M>(a: seq<M>, b: seq<M>, c: seq<M>, m: M, all: seq<M>)
    requires Parts(a, b, c, all)
    ensures Parts(a, b, c + [m], all + [m])
  {
  }

  lemma MovedOn<M>(a: seq<M>, b: seq<M>, c: seq<M>, m: M, all: seq<M>)
    ensures Parts(a, b, [m] + c, all) <==> Parts(a, b + [m], c, all)
    ensures Parts(a, [m] + b, c, all) <==> Parts(a + [m], b, c, all)
  {
    assert a + b + ([m] + c) == a + (b + [m]) + c;
    assert a + ([m] + b) + c == a + [m] + b + c;
  }

  /** A step that leaves everything of a pair where it was. */
  lemma Unmoved<M>(w: World<M>, w': World<M>, p: Pair)
    requires InvAt(w, p) && OnePlace(w', p) && Held(w', p) == Held(w, p)
    requires At(w'.received, p) == At(w.received, p) && At(w'.routed, p) == At(w.routed, p)
    requires Queue(w', p.1) == Queue(w, p.1) && w'.capacity == w.capacity
    ensures InvAt(w', p)
  {
  }

  /** What is held for a pair depends on its phase, its taken and its back log only. */
  lemma SamePlace<M>(w: World<M>, w': World<M>, p: Pair)
    requires InvAt(w, p) && OnePlace(w', p)
    requires if PhaseOf(w', p.0).Sending? && PhaseOf(w', p.0).to == p.1 then PhaseOf(w', p.0).left == Held(w, p)
             else if p in w'.taken then w'.taken[p] == Held(w, p)
             else At(w'.back, p) == Held(w, p)
    requires At(w'.received, p) == At(w.received, p) && At(w'.routed, p) == At(w.routed, p)
    requires Queue(w', p.1) == Queue(w, p.1) && w'.capacity == w.capacity
    ensures InvAt(w', p)
  {
    Unmoved(w, w', p);
  }

  lemma RouteKeeps<M>(w: World<M>, from: Shard, to: Shard, m: M, p: Pair)
    requires InvAt(w, p)
    ensures InvAt(Act(w, Route(from, to, m)), p)
  {
    if PhaseOf(w, from).Routing? {
      var w' := Act(w, Route(from, to, m));
      if p == (from, to) {
        assert Held(w', p) == Held(w, p) + [m];
        Entered(At(w.received, p), From(Queue(w, p.1), p.0), Held(w, p), m, At(w.routed, p));
      } else {
        assert At(w'.back, p) == At(w.back, p);
        SamePlace(w, w', p);
      }
    }
  }

  lemma StartFlushKeeps<M>(w: World<M>, from: Shard, p: Pair)
    requires InvAt(w, p)
    ensures InvAt(Act(w, StartFlush(from)), p)
  {
    var w' := Act(w, StartFlush(from));
    if PhaseOf(w, from).Routing? {
      assert At(w'.back, p) == if p.0 == from then [] else At(w.back, p);
      assert p in w'.taken <==> p in w.taken || (p.0 == from && p in w.back);
      assert p in w'.taken ==> w'.taken[p] == if p.0 == from && p in w.back then w.back[p] else w.taken[p];
      assert PhaseOf(w', p.0) == if p.0 == from then Flushing else PhaseOf(w, p.0);
      SamePlace(w, w', p);
    }
  }

  lemma NextTargetKeeps<M>(w: World<M>, from: Shard, to: Shard, p: Pair)
    requires InvAt(w, p)
    ensures InvAt(Act(w, NextTarget(from, to)), p)
  {
    var w' := Act(w, NextTarget(from, to));
    if PhaseOf(w, from).Flushing? && (from, to) in w.taken {
      assert p in w'.taken <==> p in w.taken && p != (from, to);
      assert p in w'.taken ==> w'.taken[p] == w.taken[p];
      assert PhaseOf(w', p.0) == if p.0 == from then Sending(to, w.taken[(from, to)]) else PhaseOf(w, p.0);
      SamePlace(w, w', p);
    }
  }

  /** A message goes into the target's queue. */
  lemma SendHere<M>(w: World<M>, from: Shard, to: Shard, left: seq<M>)
    requires InvAt(w, (from, to)) && PhaseOf(w, from) == Sending(to, left) && left != [] && |Queue(w, to)| < w.capacity
    ensures InvAt(Act(w, SendOne(from)), (from, to))
  {
    var w', p := Act(w, SendOne(from)), (from, to);
    FromAppend(Queue(w, to), from, left[0], from);
    HeldHere(w, w', p, left);
    MovedOn(At(w.received, p), From(Queue(w, to), from), Held(w', p), left[0], At(w.routed, p));
  }

  lemma HeldHere<M>(w: World<M>, w': World<M>, p: Pair, left: seq<M>)
    requires left != [] && PhaseOf(w, p.0) == Sending(p.1, left) && PhaseOf(w', p.0) == Sending(p.1, left[1..])
    ensures Held(w, p) == [left[0]] + Held(w', p)
  {
    assert left == [left[0]] + left[1..];
  }

  lemma SendElsewhere<M>(w: World<M>, from: Shard, to: Shard, left: seq<M>, p: Pair)
    requires InvAt(w, p) && p != (from, to)
    requires PhaseOf(w, from) == Sending(to, left) && left != [] && |Queue(w, to)| < w.capacity
    ensures InvAt(Act(w, SendOne(from)), p)
  {
    var w' := Act(w, SendOne(from));
    FromAppend(Queue(w, to), from, left[0], p.0);
    assert InFlight(w', p) == InFlight(w, p);
    if p.1 == to {
      assert From(Queue(w', to), p.0) == From(Queue(w, to), p.0) + [] == From(Queue(w, to), p.0);
    }
  }

  /** The queue is full, or nothing is left: what is left goes back. */
  lemma PutBackKeeps<M>(w: World<M>, from: Shard, to: Shard, left: seq<M>, p: Pair)
    requires InvAt(w, p) && PhaseOf(w, from) == Sending(to, left) && (left == [] || |Queue(w, to)| >= w.capacity)
    ensures InvAt(Act(w, SendOne(from)), p)
  {
    var w' := Act(w, SendOne(from));
    assert At(w'.back, p) == if p == (from, to) then left else At(w.back, p);
    assert PhaseOf(w', p.0) == if p.0 == from then Flushing else PhaseOf(w, p.0);
    SamePlace(w, w', p);
  }

  lemma EndFlushKeeps<M>(w: World<M>, from: Shard, p: Pair)
    requires InvAt(w, p)
    ensures InvAt(Act(w, EndFlush(from)), p)
  {
    var w' := Act(w, EndFlush(from));
    if PhaseOf(w, from).Flushing? && (forall p :: p in w.taken ==> p.0 != from) {
      assert PhaseOf(w', p.0) == if p.0 == from then Routing else PhaseOf(w, p.0);
      SamePlace(w, w', p);
    }
  }

  lemma ReceiveHere<M>(w: World<M>, to: Shard)
    requires Queue(w, to) != [] && InvAt(w, (Queue(w, to)[0].0, to))
    ensures InvAt(Act(w, Receive(to)), (Queue(w, to)[0].0, to))
  {
    var w' := Act(w, Receive(to));
    var (from, m) := Queue(w, to)[0];
    MovedOn(At(w.received, (from, to)), From(Queue(w', to), from), Held(w, (from, to)), m, At(w.routed, (from, to)));
    assert Held(w', (from, to)) == Held(w, (from, to));
  }

  lemma ReceiveElsewhere<M>(w: World<M>, to: Shard, p: Pair)
    requires InvAt(w, p) && Queue(w, to) != [] && p != (Queue(w, to)[0].0, to)
    ensures InvAt(Act(w, Receive(to)), p)
  {
    var w' := Act(w, Receive(to));
    assert From(Queue(w', p.1), p.0) == From(Queue(w, p.1), p.0) by {
      FromRest(Queue(w, to), p.0);
    }
    assert At(w'.received, p) == At(w.received, p);
    assert Held(w', p) == Held(w, p) by {
      assert InFlight(w', p) == InFlight(w, p);
    }
  }

  lemma FromRest<M>(q: seq<(Shard, M)>, s: Shard)
    requires q != []
    ensures q[0].0 != s ==> From(q, s) == From(q[1..], s)
  {
    if q[0].0 != s {
      assert [] + From(q[1..], s) == From(q[1..], s);
    }
  }

  lemma ActKeeps<M>(w: World<M>, act: Action<M>)
    requires Inv(w)
    ensures Inv(Act(w, act))
  {
    forall p: Pair ensures InvAt(Act(w, act), p) {
      assert InvAt(w, p);
      match act
      case Route(from, to, m) => RouteKeeps(w, from, to, m, p);
      case StartFlush(from) => StartFlushKeeps(w, from, p);
      case NextTarget(from, to) => NextTargetKeeps(w, from, to, p);
      case SendOne(from) =>
        if PhaseOf(w, from).Sending? {
          var Sending(to, left) := PhaseOf(w, from);
          if left != [] && |Queue(w, to)| < w.capacity {
            if p == (from, to) {
              SendHere(w, from, to, left);
            } else {
              SendElsewhere(w, from, to, left, p);
            }
          } else {
            PutBackKeeps(w, from, to, left, p);
          }
        }
      case EndFlush(from) => EndFlushKeeps(w, from, p);
      case Receive(to) =>
        if Queue(w, to) != [] {
          if p == (Queue(w, to)[0].0, to) {
            ReceiveHere(w, to);
          } else {
            ReceiveElsewhere(w, to, p);
          }
        }
    }
  }

  lemma {:induction false} RunKeeps<M>(w: World<M>, acts: seq<Action<M>>)
    requires Inv(w)
    ensures Inv(Run(w, acts))
    decreases |acts|
  {
    if acts != [] {
      ActKeeps(w, acts[0]);
      RunKeeps(Act(w, acts[0]), acts[1..]);
    }
  }

  /** The message that an action gives one shard for another, unless the shard is flushing. */
  function GivenNow<M>(w: World<M>, act: Action<M>, p: Pair): seq<M> {
    if act.Route? && (act.from, act.to) == p && PhaseOf(w, act.from).Routing? then [act.m] else []
  }

  /** All of those over a run, in order. */
  function Given<M>(w: World<M>, acts: seq<Action<M>>, p: Pair): seq<M>
    decreases |acts|
  {
    if acts == [] then [] else GivenNow(w, acts[0], p) + Given(Act(w, acts[0]), acts[1..], p)
  }

  lemma RoutedNow<M>(w: World<M>, act: Action<M>, p: Pair)
    ensures At(Act(w, act).routed, p) == At(w.routed, p) + GivenNow(w, act, p) && Act(w, act).capacity == w.capacity
  {
    match act
    case Route(from, to, m) =>
    case StartFlush(from) =>
    case NextTarget(from, to) =>
    case SendOne(from) =>
    case EndFlush(from) =>
    case Receive(to) =>
  }

  lemma {:induction false} RoutedIsGiven<M>(w: World<M>, acts: seq<Action<M>>, p: Pair)
    ensures At(Run(w, acts).routed, p) == At(w.routed, p) + Given(w, acts, p) && Run(w, acts).capacity == w.capacity
    decreases |acts|
  {
    if acts != [] {
      var w1 := Act(w, acts[0]);
      RoutedNow(w, acts[0], p);
      RoutedIsGiven(w1, acts[1..], p);
      Regrouped(At(w.routed, p), GivenNow(w, acts[0], p), Given(w1, acts[1..], p));
    }
  }

  /**
   * For every pair of shards and every interleaving: what was received, queued and held back is what the actions of
   * the run gave the one shard for the other, in order.
   */
  lemma NothingLost<M>(capacity: nat, acts: seq<Action<M>>, p: Pair)
    ensures var w, given := Run(Start<M>(capacity), acts), Given(Start<M>(capacity), acts, p);
            && At(w.received, p) + From(Queue(w, p.1), p.0) + Held(w, p) == given
            && At(w.received, p) <= given
            && |Queue(w, p.1)| <= capacity
            && (Queue(w, p.1) == [] && Held(w, p) == [] ==> At(w.received, p) == given)
  {
    RunKeeps(Start<M>(capacity), acts);
    RoutedIsGiven(Start<M>(capacity), acts, p);
    assert At(Start<M>(capacity).routed, p) + Given(Start<M>(capacity), acts, p) == Given(Start<M>(capacity), acts, p);
    assert InvAt(Run(Start<M>(capacity), acts), p);
  }

  /** A shard that receives takes the front of its queue, whoever sent it, and no other queue changes. */
  lemma ReceiveTakesFront<M>(w: World<M>, to: Shard, p: Pair)
    ensures var w' := Act(w, Receive(to));
            if Queue(w, to) == [] then w' == w
            else
              && Queue(w, to) == [Queue(w, to)[0]] + Queue(w', to) && (p.1 != to ==> Queue(w', p.1) == Queue(w, p.1))
              && At(w'.received, p) == At(w.received, p) + (if p == (Queue(w, to)[0].0, to) then [Queue(w, to)[0].1] else [])
  {
  }

  // ----- One flush -----

  /** How many of `n` messages a queue takes that holds `used`. */
  function Fits(n: nat, used: nat, capacity: nat): nat {
    if used >= capacity then 0 else Min(n, capacity - used)
  }

  function Tagged<M>(s: Shard, ms: seq<M>): seq<(Shard, M)> {
    seq(|ms|, i requires 0 <= i < |ms| => (s, ms[i]))
  }

  function Sends<M>(from: Shard, n: nat): seq<Action<M>> {
    seq(n, _ => SendOne(from))
  }

  lemma {:induction false} RunAppend<M>(w: World<M>, a: seq<Action<M>>, b: seq<Action<M>>)
    ensures Run(w, a + b) == Run(Run(w, a), b)
    decreases |a|
  {
    if a == [] {
      assert a + b == b;
    } else {
      assert (a + b)[0] == a[0] && (a + b)[1..] == a[1..] + b;
      RunAppend(Act(w, a[0]), a[1..], b);
    }
  }

  lemma RunOne<M>(w: World<M>, act: Action<M>)
    ensures Run(w, [act]) == Act(w, act)
  {
    assert [act][1..] == [];
  }

  function Pushed<T>(queues: map<Shard, seq<T>>, to: Shard, ts: seq<T>): map<Shard, seq<T>> {
    if ts == [] then queues else queues[to := At(queues, to) + ts]
  }

  lemma PushedMore<T>(queues: map<Shard, seq<T>>, to: Shard, t: T, ts: seq<T>)
    ensures Pushed(Pushed(queues, to, [t]), to, ts) == Pushed(queues, to, [t] + ts)
  {
    Regrouped(At(queues, to), [t], ts);
    if ts == [] {
      assert [t] + ts == [t];
    } else {
      assert queues[to := At(queues, to) + [t]][to := At(queues, to) + ([t] + ts)] == queues[to := At(queues, to) + ([t] + ts)];
    }
  }

  /** Messages in flight that fit go into the queue, one after the other. */
  lemma {:induction false} SendMany<M>(w: World<M>, from: Shard, to: Shard, left: seq<M>, n: nat)
    requires PhaseOf(w, from) == Sending(to, left) && n <= |left| && |Queue(w, to)| + n <= w.capacity
    ensures Run(w, Sends(from, n)) ==
            w.(queues := Pushed(w.queues, to, Tagged(from, left[..n])), phase := w.phase[from := Sending(to, left[n..])])
    decreases n
  {
    if n == 0 {
      assert left[0..] == left && Sends<M>(from, 0) == [];
      assert w.phase[from := Sending(to, left)] == w.phase;
    } else {
      var w1 := Act(w, SendOne(from));
      assert Sends<M>(from, n)[0] == SendOne(from) && Sends<M>(from, n)[1..] == Sends(from, n - 1);
      SendFirst(w, from, to, left);
      SendMany(w1, from, to, left[1..], n - 1);
      assert left[1..][n - 1..] == left[n..];
      assert Tagged(from, left[..n]) == [(from, left[0])] + Tagged(from, left[1..][..n - 1]);
      PushedMore(w.queues, to, (from, left[0]), Tagged(from, left[1..][..n - 1]));
      assert w.phase[from := Sending(to, left[1..])][from := Sending(to, left[n..])] == w.phase[from := Sending(to, left[n..])];
    }
  }

  lemma SendFirst<M>(w: World<M>, from: Shard, to: Shard, left: seq<M>)
    requires PhaseOf(w, from) == Sending(to, left) && left != [] && |Queue(w, to)| < w.capacity
    ensures Act(w, SendOne(from)) == w.(queues := Pushed(w.queues, to, [(from, left[0])]), phase := w.phase[from := Sending(to, left[1..])])
  {
  }

  lemma PutBackIs<M>(w: World<M>, from: Shard, to: Shard, left: seq<M>)
    requires PhaseOf(w, from) == Sending(to, left) && (left == [] || |Queue(w, to)| >= w.capacity)
    ensures Act(w, SendOne(from)) == w.(back := w.back[(from, to) := left], phase := w.phase[from := Flushing])
  {
  }

  /** How many of the messages taken for a target go into its queue. */
  function Fitting<M>(w: World<M>, from: Shard, to: Shard): nat {
    Fits(|At(w.taken, (from, to))|, |Queue(w, to)|, w.capacity)
  }

  /** A target takes what fits, and the rest goes back. */
  function FlushTarget<M>(w: World<M>, from: Shard, to: Shard): World<M> {
    var msgs, n := At(w.taken, (from, to)), Fitting(w, from, to);
    w.(taken := w.taken - {(from, to)}, back := w.back[(from, to) := msgs[n..]],
       queues := Pushed(w.queues, to, Tagged(from, msgs[..n])))
  }

  function TargetActs<M>(w: World<M>, from: Shard, to: Shard): seq<Action<M>> {
    [NextTarget(from, to)] + (Sends(from, Fitting(w, from, to)) + [SendOne(from)])
  }

  lemma TargetDone<M>(w: World<M>, from: Shard, to: Shard)
    requires PhaseOf(w, from).Flushing? && (from, to) in w.taken && |Queue(w, to)| <= w.capacity
    ensures Run(w, TargetActs(w, from, to)) == FlushTarget(w, from, to)
  {
    var msgs, n := w.taken[(from, to)], Fitting(w, from, to);
    var w1 := Act(w, NextTarget(from, to));
    RunAppend(w, [NextTarget(from, to)], Sends(from, n) + [SendOne(from)]);
    RunOne(w, NextTarget(from, to));
    SendAndPutBack(w1, from, to, msgs, n);
    assert w.phase[from := Sending(to, msgs)][from := Flushing] == w.phase;
  }

  lemma SendAndPutBack<M>(w: World<M>, from: Shard, to: Shard, left: seq<M>, n: nat)
    requires PhaseOf(w, from) == Sending(to, left) && |Queue(w, to)| <= w.capacity && n == Fits(|left|, |Queue(w, to)|, w.capacity)
    ensures Run(w, Sends(from, n) + [SendOne(from)]) ==
            w.(queues := Pushed(w.queues, to, Tagged(from, left[..n])), back := w.back[(from, to) := left[n..]],
               phase := w.phase[from := Flushing])
  {
    var w1 := Run(w, Sends(from, n));
    RunAppend(w, Sends(from, n), [SendOne(from)]);
    RunOne(w1, SendOne(from));
    SendMany(w, from, to, left, n);
    PutBackIs(w1, from, to, left[n..]);
    assert w.phase[from := Sending(to, left[n..])][from := Flushing] == w.phase[from := Flushing];
  }

  ghost predicate Distinct(order: seq<Shard>) {
    forall i, j :: 0 <= i < j < |order| ==> order[i] != order[j]
  }

  function FlushTargets<M>(w: World<M>, from: Shard, order: seq<Shard>): World<M>
    decreases |order|
  {
    if order == [] then w else FlushTargets(FlushTarget(w, from, order[0]), from, order[1..])
  }

  /** The steps for all targets, in some order. */
  function AllActs<M>(w: World<M>, from: Shard, order: seq<Shard>): seq<Action<M>>
    decreases |order|
  {
    if order == [] then [] else TargetActs(w, from, order[0]) + AllActs(FlushTarget(w, from, order[0]), from, order[1..])
  }

  /** There is something to take for each of these targets. */
  ghost predicate Due<M>(w: World<M>, from: Shard, order: seq<Shard>) {
    && PhaseOf(w, from).Flushing? && Distinct(order)
    && forall t :: t in order ==> (from, t) in w.taken && |Queue(w, t)| <= w.capacity
  }

  lemma StillDue<M>(w: World<M>, from: Shard, order: seq<Shard>)
    requires order != [] && Due(w, from, order)
    ensures Due(FlushTarget(w, from, order[0]), from, order[1..]) && order[0] !in order[1..]
  {
    assert order == [order[0]] + order[1..];
  }

  lemma {:induction false} TargetsDone<M>(w: World<M>, from: Shard, order: seq<Shard>)
    requires Due(w, from, order)
    ensures Run(w, AllActs(w, from, order)) == FlushTargets(w, from, order)
    decreases |order|
  {
    if order != [] {
      StillDue(w, from, order);
      TargetDone(w, from, order[0]);
      TargetsDone(FlushTarget(w, from, order[0]), from, order[1..]);
      RunAppend(w, TargetActs(w, from, order[0]), AllActs(FlushTarget(w, from, order[0]), from, order[1..]));
    }
  }

  /** What became of one target. */
  ghost predicate Took<M>(w: World<M>, w': World<M>, from: Shard, to: Shard) {
    var msgs, n := At(w.taken, (from, to)), Fitting(w, from, to);
    && (from, to) !in w'.taken && At(w'.back, (from, to)) == msgs[n..]
    && Queue(w', to) == Queue(w, to) + Tagged(from, msgs[..n])
  }

  /** Nothing became of it. */
  ghost predicate Same<M>(w: World<M>, w': World<M>, p: Pair) {
    (p in w'.taken <==> p in w.taken) && At(w'.taken, p) == At(w.taken, p) && At(w'.back, p) == At(w.back, p)
  }

  lemma TookHere<M>(w: World<M>, from: Shard, to: Shard)
    ensures Took(w, FlushTarget(w, from, to), from, to)
  {
    var msgs, n := At(w.taken, (from, to)), Fitting(w, from, to);
    if n == 0 {
      assert Queue(w, to) + Tagged(from, msgs[..n]) == Queue(w, to);
    }
  }

  lemma TookElsewhere<M>(w: World<M>, from: Shard, to: Shard, p: Pair)
    requires p != (from, to)
    ensures Same(w, FlushTarget(w, from, to), p) && (p.1 != to ==> Queue(FlushTarget(w, from, to), p.1) == Queue(w, p.1))
  {
    var msgs, n := At(w.taken, (from, to)), Fitting(w, from, to);
    AtElsewhere(w.taken, (from, to), [], p);
    AtElsewhere(w.back, (from, to), msgs[n..], p);
    if p.1 != to {
      PushedElsewhere(w.queues, to, Tagged(from, msgs[..n]), p.1);
    }
  }

  lemma AtElsewhere<K, M>(log: map<K, seq<M>>, k: K, ms: seq<M>, j: K)
    requires j != k
    ensures At(log[k := ms], j) == At(log, j) == At(log - {k}, j) && (j in log <==> j in log - {k})
  {
  }

  lemma PushedElsewhere<T>(queues: map<Shard, seq<T>>, to: Shard, ts: seq<T>, t: Shard)
    requires t != to
    ensures At(Pushed(queues, to, ts), t) == At(queues, t)
  {
  }

  lemma SameThenTook<M>(w: World<M>, w1: World<M>, w2: World<M>, from: Shard, t: Shard)
    requires Same(w, w1, (from, t)) && Queue(w1, t) == Queue(w, t) && w1.capacity == w.capacity && Took(w1, w2, from, t)
    ensures Took(w, w2, from, t)
  {
  }

  lemma {:induction false} TookAll<M>(w: World<M>, from: Shard, order: seq<Shard>, t: Shard)
    requires Due(w, from, order)
    ensures var w' := FlushTargets(w, from, order);
            if t in order then Took(w, w', from, t) else Same(w, w', (from, t)) && Queue(w', t) == Queue(w, t)
    decreases |order|
  {
    if order != [] {
      assert order == [order[0]] + order[1..];
      StillDue(w, from, order);
      var w1 := FlushTarget(w, from, order[0]);
      TookAll(w1, from, order[1..], t);
      if t == order[0] {
        TookHere(w, from, t);
      } else {
        TookElsewhere(w, from, order[0], (from, t));
        if t in order {
          SameThenTook(w, w1, FlushTargets(w1, from, order[1..]), from, t);
        }
      }
    }
  }

  lemma {:induction false} OthersSame<M>(w: World<M>, from: Shard, order: seq<Shard>, p: Pair)
    requires p.0 != from
    ensures var w' := FlushTargets(w, from, order);
            Same(w, w', p) && w' == w.(back := w'.back, taken := w'.taken, queues := w'.queues)
    decreases |order|
  {
    if order != [] {
      TookElsewhere(w, from, order[0], p);
      OthersSame(FlushTarget(w, from, order[0]), from, order[1..], p);
    }
  }

  /** One whole flush of a shard: `StartFlush`, every target of its back log, `EndFlush`. */
  function FlushActs<M>(w: World<M>, from: Shard, order: seq<Shard>): seq<Action<M>> {
    [StartFlush(from)] + (AllActs(Act(w, StartFlush(from)), from, order) + [EndFlush(from)])
  }

  /** What a flush is for: as `SendToShards` has it, in the world of all shards. */
  ghost predicate FlushedTo<M>(w: World<M>, w': World<M>, from: Shard, to: Shard) {
    var msgs := At(w.back, (from, to));
    var n := Fits(|msgs|, |Queue(w, to)|, w.capacity);
    n <= |msgs| && At(w'.back, (from, to)) == msgs[n..] && Queue(w', to) == Queue(w, to) + Tagged(from, msgs[..n])
  }

  lemma Started<M>(w: World<M>, from: Shard, p: Pair)
    requires PhaseOf(w, from).Routing? && InvAt(w, p)
    ensures var w1 := Act(w, StartFlush(from));
            && Queue(w1, p.1) == Queue(w, p.1) && PhaseOf(w1, from).Flushing?
            && w1 == w.(back := w1.back, taken := w1.taken, phase := w.phase[from := Flushing])
            && (if p.0 == from then (p in w1.taken <==> p in w.back) && At(w1.taken, p) == At(w.back, p) && p !in w.taken && At(w1.back, p) == []
                else Same(w, w1, p))
  {
  }

  /** A shard that is not flushing, and the targets of its back log in some order. */
  ghost predicate Flushable<M>(w: World<M>, from: Shard, order: seq<Shard>) {
    PhaseOf(w, from).Routing? && Distinct(order) && forall t :: t in order <==> (from, t) in w.back
  }

  lemma AllDue<M>(w: World<M>, from: Shard, order: seq<Shard>)
    requires Inv(w) && Flushable(w, from, order)
    ensures Due(Act(w, StartFlush(from)), from, order)
  {
    forall t | t in order ensures (from, t) in Act(w, StartFlush(from)).taken && |Queue(Act(w, StartFlush(from)), t)| <= w.capacity {
      assert InvAt(w, (from, t));
      Started(w, from, (from, t));
    }
  }

  lemma FlushRuns<M>(w: World<M>, from: Shard, order: seq<Shard>)
    requires Inv(w) && Flushable(w, from, order)
    ensures var w1 := Act(w, StartFlush(from));
            var w2 := FlushTargets(w1, from, order);
            Due(w1, from, order) && Run(w, FlushActs(w, from, order)) == w2.(phase := w2.phase[from := Routing])
  {
    var w1 := Act(w, StartFlush(from));
    var w2 := FlushTargets(w1, from, order);
    var acts := AllActs(w1, from, order);
    AllDue(w, from, order);
    TargetsDone(w1, from, order);
    RunAppend(w, [StartFlush(from)], acts + [EndFlush(from)]);
    RunAppend(w1, acts, [EndFlush(from)]);
    RunOne(w, StartFlush(from));
    RunOne(w2, EndFlush(from));
    OthersSame(w1, from, order, (from + 1, 0));
    NoneTaken(w, from, order);
    EndsIs(w2, from);
  }

  lemma NoneTaken<M>(w: World<M>, from: Shard, order: seq<Shard>)
    requires Inv(w) && Flushable(w, from, order)
    ensures forall p :: p in FlushTargets(Act(w, StartFlush(from)), from, order).taken ==> p.0 != from
  {
    var w1 := Act(w, StartFlush(from));
    AllDue(w, from, order);
    forall t: Shard ensures (from, t) !in FlushTargets(w1, from, order).taken {
      assert InvAt(w, (from, t));
      Started(w, from, (from, t));
      TookAll(w1, from, order, t);
    }
  }

  lemma EndsIs<M>(w: World<M>, from: Shard)
    requires PhaseOf(w, from).Flushing? && forall p :: p in w.taken ==> p.0 != from
    ensures Act(w, EndFlush(from)) == w.(phase := w.phase[from := Routing])
  {
  }

  lemma FlushedHere<M>(w: World<M>, w1: World<M>, w2: World<M>, from: Shard, order: seq<Shard>, t: Shard)
    requires PhaseOf(w, from).Routing? && InvAt(w, (from, t)) && w1 == Act(w, StartFlush(from)) && (t in order <==> (from, t) in w.back)
    requires if t in order then Took(w1, w2, from, t) else Same(w1, w2, (from, t)) && Queue(w2, t) == Queue(w1, t)
    ensures FlushedTo(w, w2, from, t) && (from, t) !in w2.taken
  {
    Started(w, from, (from, t));
    if t !in order {
      assert At(w.back, (from, t)) == [] && Queue(w, t) + Tagged(from, []) == Queue(w, t);
    }
  }

  /** A run of the steps of one flush has that effect on every target, whatever the order of the targets. */
  lemma FlushIsRun<M>(w: World<M>, from: Shard, order: seq<Shard>, t: Shard)
    requires Inv(w) && Flushable(w, from, order)
    ensures var w' := Run(w, FlushActs(w, from, order));
            PhaseOf(w', from).Routing? && FlushedTo(w, w', from, t) && (from, t) !in w'.taken
  {
    var w1 := Act(w, StartFlush(from));
    var w2 := FlushTargets(w1, from, order);
    FlushRuns(w, from, order);
    assert InvAt(w, (from, t));
    TookAll(w1, from, order, t);
    FlushedHere(w, w1, w2, from, order, t);
    PhaseAside(w, w2, from, t, w2.phase[from := Routing]);
  }

  lemma PhaseAside<M>(w: World<M>, w2: World<M>, from: Shard, t: Shard, phase: map<Shard, Phase<M>>)
    requires FlushedTo(w, w2, from, t)
    ensures FlushedTo(w, w2.(phase := phase), from, t)
  {
  }

  /** It leaves the phases, back logs and takings of other shards alone. */
  lemma FlushLeavesOthers<M>(w: World<M>, from: Shard, order: seq<Shard>, p: Pair)
    requires Inv(w) && Flushable(w, from, order)
    requires p.0 != from
    ensures var w' := Run(w, FlushActs(w, from, order));
            PhaseOf(w', p.0) == PhaseOf(w, p.0) && Same(w, w', p) && w'.routed == w.routed && w'.received == w.received
  {
    var w1 := Act(w, StartFlush(from));
    FlushRuns(w, from, order);
    assert InvAt(w, p);
    Started(w, from, p);
    OthersSame(w1, from, order, p);
  }

  // ----- The loops of one shard -----

  /** One channel for each target, all different. */
  ghost predicate Separate<M>(queues: map<Shard, Channel<M>>) {
    forall s, t :: s in queues && t in queues && s != t ==> queues[s] != queues[t]
  }

  /** How many messages a target takes now. */
  ghost function Takes<M>(msgs: seq<M>, tx: Channel<M>): nat
    reads tx
  {
    if tx.connected then Fits(|msgs|, |tx.contents|, tx.capacity) else 0
  }

  /**
   * `send_to_shards`: each target's messages go into its queue as far as they fit, the rest stays in the back
   * log in order. Every target of the back log must have a queue.
   */
  method SendToShards<M>(log: map<Shard, seq<M>>, queues: map<Shard, Channel<M>>) returns (log': map<Shard, seq<M>>)
    requires log.Keys <= queues.Keys && Separate(queues)
    requires forall s :: s in queues ==> queues[s].Valid()
    modifies set s | s in queues :: queues[s]
    ensures forall s :: s in queues ==> queues[s].Valid()
    ensures log'.Keys == log.Keys
    ensures forall s :: s in log ==> Moved(old(queues[s].contents), log[s], old(Takes(log[s], queues[s])), queues[s].contents, log'[s])
    ensures forall s :: s in queues && s !in log ==> queues[s].contents == old(queues[s].contents)
  {
    log' := map[];
    var todo := log.Keys;
    while todo != {}
      invariant todo <= log.Keys
      invariant forall s :: s in log' <==> s in log && s !in todo
      invariant forall s :: s in queues ==> queues[s].Valid()
      invariant forall s :: s in log' ==> Moved(old(queues[s].contents), log[s], old(Takes(log[s], queues[s])), queues[s].contents, log'[s])
      invariant forall s :: s in queues && s !in log' ==> queues[s].contents == old(queues[s].contents) && queues[s].connected == old(queues[s].connected)
      decreases |todo|
    {
      var s :| s in todo;
      todo := todo - {s};
      var left := SendMessages(queues[s], log[s]);
      log' := log'[s := left];
    }
  }

  /** The first `n` messages went to the end of the queue, in order, and the others are left. */
  ghost predicate Moved<M>(contents: seq<M>, msgs: seq<M>, n: nat, contents': seq<M>, left: seq<M>) {
    n <= |msgs| && contents' == contents + msgs[..n] && left == msgs[n..]
  }

  method SendMessages<M>(tx: Channel<M>, msgs: seq<M>) returns (left: seq<M>)
    requires tx.Valid()
    modifies tx
    ensures tx.Valid() && Moved(old(tx.contents), msgs, old(Takes(msgs, tx)), tx.contents, left)
  {
    var status;
    status, left := tx.TrySends(msgs);
    MovedBy(old(tx.contents), msgs, |msgs| - |left|, tx.contents, left);
  }

  lemma MovedBy<M>(contents: seq<M>, msgs: seq<M>, n: nat, contents': seq<M>, left: seq<M>)
    requires contents' + left == contents + msgs && n == |msgs| - |left|
    ensures Moved(contents, msgs, n, contents', left)
  {
    assert (contents' + left)[|contents'|..] == left && (contents' + left)[..|contents'|] == contents';
    assert (contents + msgs)[..|contents| + n] == contents + msgs[..n] && (contents + msgs)[|contents| + n..] == msgs[n..];
  }
}
