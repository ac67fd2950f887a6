/**
 * The outgoing side of a session. Every message is stamped with a sequence number. Those above QoS 0 wait in the
 * back log, get packet ids, and go out in batches that then await acknowledgement.
 */
module Sessions {
  import opened Base
  import opened Channels
  import opened BackLog

  // ----- Packets awaiting acknowledgement -----

  /** New ids, all different. */
  ghost predicate Fresh<P>(unacks: map<nat, Packet<P>>, ps: seq<Packet<P>>) {
    && (forall i :: 0 <= i < |ps| ==> ps[i].id !in unacks)
    && (forall i, j :: 0 <= i < j < |ps| ==> ps[i].id != ps[j].id)
  }

  ghost predicate HasId<P>(ps: seq<Packet<P>>, id: nat) {
    exists i :: 0 <= i < |ps| && ps[i].id == id
  }

  /** `unacks'` is `unacks` and these packets. */
  ghost predicate Grown<P>(unacks: map<nat, Packet<P>>, ps: seq<Packet<P>>, unacks': map<nat, Packet<P>>) {
    && (forall id :: id in unacks' <==> id in unacks || HasId(ps, id))
    && (forall id :: id in unacks ==> unacks'[id] == unacks[id])
    && (forall i :: 0 <= i < |ps| ==> ps[i].id in unacks' && unacks'[ps[i].id] == ps[i])
  }

  ghost function Register<P>(unacks: map<nat, Packet<P>>, ps: seq<Packet<P>>): map<nat, Packet<P>> {
    if ps == [] then unacks else Register(unacks, ps[..|ps| - 1])[ps[|ps| - 1].id := ps[|ps| - 1]]
  }

  ghost function Unregister<P>(unacks: map<nat, Packet<P>>, ps: seq<Packet<P>>): map<nat, Packet<P>> {
    if ps == [] then unacks else Unregister(unacks, ps[..|ps| - 1]) - {ps[|ps| - 1].id}
  }

  lemma {:induction false} RegisterGrows<P>(unacks: map<nat, Packet<P>>, ps: seq<Packet<P>>)
    requires Fresh(unacks, ps)
    ensures Grown(unacks, ps, Register(unacks, ps))
    decreases |ps|
  {
    if ps != [] {
      var init, last := ps[..|ps| - 1], ps[|ps| - 1];
      RegisterGrows(unacks, init);
      assert ps == init + [last];
      GrownByOne(unacks, init, last, Register(unacks, init));
    }
  }

  lemma GrownByOne<P>(unacks: map<nat, Packet<P>>, ps: seq<Packet<P>>, p: Packet<P>, unacks': map<nat, Packet<P>>)
    requires Fresh(unacks, ps + [p]) && Grown(unacks, ps, unacks')
    ensures Grown(unacks, ps + [p], unacks'[p.id := p])
  {
    var all := ps + [p];
    assert all[|ps|] == p;
    forall id ensures HasId(all, id) <==> HasId(ps, id) || id == p.id {
      HasIdSplit(ps, [p], id);
      assert [p][0] == p;
    }
    forall i | 0 <= i < |all| ensures all[i].id in unacks'[p.id := p] && unacks'[p.id := p][all[i].id] == all[i] {
      if i < |ps| {
        assert all[i] == ps[i] && all[i].id != all[|ps|].id;
      }
    }
  }

  lemma {:induction false} RegisterAdds<P>(unacks: map<nat, Packet<P>>, ps: seq<Packet<P>>)
    ensures forall id :: id in Register(unacks, ps) ==> id in unacks || HasId(ps, id)
    decreases |ps|
  {
    if ps != [] {
      var init, last := ps[..|ps| - 1], ps[|ps| - 1];
      RegisterAdds(unacks, init);
      forall id | id in Register(unacks, ps) && id !in unacks ensures HasId(ps, id) {
        if id == last.id {
          assert ps[|ps| - 1].id == id;
        } else {
          assert HasId(init, id);
          var i :| 0 <= i < |init| && init[i].id == id;
          assert ps[i].id == id;
        }
      }
    }
  }

  lemma {:induction false} UnregisterTakes<P>(unacks: map<nat, Packet<P>>, ps: seq<Packet<P>>)
    ensures forall id :: id in Unregister(unacks, ps) <==> id in unacks && !HasId(ps, id)
    ensures forall id :: id in Unregister(unacks, ps) ==> Unregister(unacks, ps)[id] == unacks[id]
    decreases |ps|
  {
    if ps != [] {
      var init, last := ps[..|ps| - 1], ps[|ps| - 1];
      UnregisterTakes(unacks, init);
      forall id ensures HasId(ps, id) <==> id == last.id || HasId(init, id) {
        assert ps[|ps| - 1].id == last.id;
        if HasId(init, id) {
          var i :| 0 <= i < |init| && init[i].id == id;
          assert ps[i].id == id;
        }
        if HasId(ps, id) && id != last.id {
          var i :| 0 <= i < |ps| && ps[i].id == id;
          assert init[i].id == id;
        }
      }
    }
  }

  /** Registering a batch and taking the rest of it back leaves exactly the sent ones registered. */
  lemma SentAreRegistered<P>(unacks: map<nat, Packet<P>>, sent: seq<Packet<P>>, left: seq<Packet<P>>)
    requires Fresh(unacks, sent + left)
    ensures Grown(unacks, sent, Unregister(Register(unacks, sent + left), left))
  {
    var batch := sent + left;
    var after := Unregister(Register(unacks, batch), left);
    RegisterGrows(unacks, batch);
    UnregisterTakes(Register(unacks, batch), left);
    forall id ensures HasId(batch, id) <==> HasId(sent, id) || HasId(left, id) {
      HasIdSplit(sent, left, id);
    }
    forall id | HasId(left, id) ensures id !in unacks && !HasId(sent, id) {
      var j :| 0 <= j < |left| && left[j].id == id;
      assert batch[|sent| + j].id == id;
      forall i | 0 <= i < |sent| ensures sent[i].id != id {
        assert batch[i] == sent[i];
      }
    }
    forall i | 0 <= i < |sent| ensures sent[i].id in after && after[sent[i].id] == sent[i] {
      assert batch[i] == sent[i];
      assert HasId(sent, sent[i].id);
    }
  }

  lemma HasIdSplit<P>(a: seq<Packet<P>>, b: seq<Packet<P>>, id: nat)
    ensures HasId(a + b, id) <==> HasId(a, id) || HasId(b, id)
  {
    var c := a + b;
    if HasId(c, id) {
      var i :| 0 <= i < |c| && c[i].id == id;
      assert if i < |a| then a[i].id == id else b[i - |a|].id == id;
    }
    if HasId(a, id) {
      var i :| 0 <= i < |a| && a[i].id == id;
      assert c[i].id == id;
    }
    if HasId(b, id) {
      var i :| 0 <= i < |b| && b[i].id == id;
      assert c[|a| + i].id == id;
    }
  }

  /** The packets of a batch that was sent are accounted for, and the rest can still be. */
  lemma StillFresh<P>(unacks: map<nat, Packet<P>>, sent: seq<Packet<P>>, left: seq<Packet<P>>, unacks': map<nat, Packet<P>>)
    requires Fresh(unacks, sent + left) && Grown(unacks, sent, unacks')
    ensures Fresh(unacks', left)
  {
    var all := sent + left;
    forall i | 0 <= i < |left| ensures left[i].id !in unacks' {
      assert all[|sent| + i] == left[i];
      forall j | 0 <= j < |sent| ensures sent[j].id != left[i].id {
        assert all[j] == sent[j];
      }
      assert !HasId(sent, left[i].id);
    }
    forall i, j | 0 <= i < j < |left| ensures left[i].id != left[j].id {
      assert all[|sent| + i] == left[i] && all[|sent| + j] == left[j];
    }
  }

  lemma FreshPrefix<P>(unacks: map<nat, Packet<P>>, a: seq<Packet<P>>, b: seq<Packet<P>>)
    requires Fresh(unacks, a + b)
    ensures Fresh(unacks, a)
  {
    var c := a + b;
    assert forall i :: 0 <= i < |a| ==> c[i] == a[i];
  }

  // ----- Out to the connection -----

  /** The PUBLISH packet of a message; it has a packet id if its QoS is above 0. */
  datatype Out<P> = Out(id: Option<nat>, publish: P)

  function WithoutId<P>(msgs: seq<Routed<P>>): seq<Out<P>> {
    seq(|msgs|, i requires 0 <= i < |msgs| => Out(None, msgs[i].publish))
  }

  function ToV5<P>(ps: seq<Packet<P>>): (os: seq<Out<P>>)
    ensures |os| == |ps|
  {
    seq(|ps|, i requires 0 <= i < |ps| => Out(Some(ps[i].id), ps[i].publish))
  }

  /** `flush_to_miot`: what the queue takes, and the messages it did not take. */
  method FlushToMiot<P>(tx: Channel<Out<P>>, msgs: seq<Packet<P>>) returns (status: Status, left: seq<Packet<P>>, ghost sent: seq<Packet<P>>)
    requires tx.Valid()
    modifies tx
    ensures tx.Valid() && tx.connected == old(tx.connected)
    ensures Parted(msgs, sent, left) && tx.contents == old(tx.contents) + ToV5(sent)
    ensures |sent| == if tx.connected then Fitting(ToV5(msgs), old(tx.contents), tx.capacity) else 0
    ensures status == Done <==> left == []
  {
    var pkts := ToV5(msgs);
    var rest;
    status, rest := tx.TrySends(pkts);
    var n := |msgs| - |rest|;
    left := msgs[n..];
    sent := msgs[..n];
    Flushed(old(tx.contents), msgs, tx.contents, rest);
  }

  lemma Flushed<P>(contents: seq<Out<P>>, msgs: seq<Packet<P>>, contents': seq<Out<P>>, rest: seq<Out<P>>)
    requires contents' + rest == contents + ToV5(msgs) && |rest| <= |msgs|
    ensures contents' == contents + ToV5(msgs[..|msgs| - |rest|])
  {
    var n := |msgs| - |rest|;
    assert |contents'| == |contents| + n;
    assert (contents' + rest)[..|contents'|] == contents';
    assert (contents + ToV5(msgs))[..|contents| + n] == contents + ToV5(msgs)[..n];
    assert ToV5(msgs)[..n] == ToV5(msgs[..n]);
  }

  method RegisterLoop<P>(unacks: map<nat, Packet<P>>, ps: seq<Packet<P>>) returns (unacks': map<nat, Packet<P>>)
    ensures unacks' == Register(unacks, ps)
  {
    unacks' := unacks;
    for i := 0 to |ps|
      invariant unacks' == Register(unacks, ps[..i])
    {
      assert ps[..i + 1][..i] == ps[..i];
      unacks' := unacks'[ps[i].id := ps[i]];
    }
    assert ps[..|ps|] == ps;
  }

  method UnregisterLoop<P>(unacks: map<nat, Packet<P>>, ps: seq<Packet<P>>) returns (unacks': map<nat, Packet<P>>)
    ensures unacks' == Unregister(unacks, ps)
  {
    unacks' := unacks;
    for i := 0 to |ps|
      invariant unacks' == Unregister(unacks, ps[..i])
    {
      assert ps[..i + 1][..i] == ps[..i];
      unacks' := unacks' - {ps[i].id};
    }
    assert ps[..|ps|] == ps;
  }

  // ----- One batch -----

  /** How many packets the connection takes at once. */
  ghost function Room<T>(tx: Channel<T>): nat
    requires tx.Valid()
    reads tx
  {
    if tx.connected then tx.capacity - |tx.contents| else 0
  }

  ghost function Front<P>(held: seq<Packet<P>>, max: nat): seq<Packet<P>> {
    held[..Min(max, |held|)]
  }

  /** What of a batch goes out. */
  ghost function Leaving<P>(held: seq<Packet<P>>, max: nat, room: nat): seq<Packet<P>> {
    held[..Min(room, Min(max, |held|))]
  }

  ghost function Staying<P>(held: seq<Packet<P>>, max: nat, room: nat): seq<Packet<P>> {
    held[Min(room, Min(max, |held|))..]
  }

  /** The whole batch is registered; what did not go out is taken back. */
  ghost function Awaiting<P>(unacks: map<nat, Packet<P>>, held: seq<Packet<P>>, max: nat, room: nat): map<nat, Packet<P>> {
    Unregister(Register(unacks, Front(held, max)), held[Min(room, Min(max, |held|))..Min(max, |held|)])
  }

  lemma BatchParts<P>(held: seq<Packet<P>>, batch: seq<Packet<P>>, behind: seq<Packet<P>>, sent: seq<Packet<P>>, left: seq<Packet<P>>,
      max: nat, room: nat)
    requires Increasing(held) && Parted(held, batch, behind) && Parted(batch, sent, left)
    requires |batch| == Min(max, |held|) && |sent| == Min(room, |batch|)
    ensures batch == Front(held, max) && sent == Leaving(held, max, room)
    ensures left == held[Min(room, Min(max, |held|))..Min(max, |held|)]
    ensures left + behind == Staying(held, max, room) && Increasing(left + behind)
  {
    assert held == sent + (left + behind);
    Sliced(held, |sent|);
    assert held[|sent|..] == left + behind;
  }

  /** One batch out: pop, register, send, and take back what was not sent. */
  method OutBatch<P>(log: Log<P>, ghost held: seq<Packet<P>>, unacks: map<nat, Packet<P>>, max: nat, tx: Channel<Out<P>>)
    returns (status: Status, log': Log<P>, unacks': map<nat, Packet<P>>)
    requires IsLog(log, held) && Increasing(held) && tx.Valid()
    modifies tx
    ensures tx.Valid() && tx.connected == old(tx.connected)
    ensures tx.contents == old(tx.contents) + ToV5(Leaving(held, max, old(Room(tx))))
    ensures log' == AsLog(Staying(held, max, old(Room(tx))))
    ensures unacks' == Awaiting(unacks, held, max, old(Room(tx)))
    ensures status == Done <==> Leaving(held, max, old(Room(tx))) == Front(held, max)
  {
    var batch: seq<Packet<P>>;
    ghost var behind: seq<Packet<P>>;
    batch, log', behind := PopBatch(log, held, max);
    unacks' := RegisterLoop(unacks, batch);
    var left: seq<Packet<P>>;
    ghost var sent: seq<Packet<P>>;
    status, left, sent := FlushToMiot(tx, batch);
    BatchParts(held, batch, behind, sent, left, max, old(Room(tx)));
    log' := PutBack(log', behind, left);
    unacks' := UnregisterLoop(unacks', left);
  }

  // ----- The steps of a session -----

  datatype Config = Config(batch: nat, receiveMaximum: nat)

  datatype State<P> = State(outSeqno: nat, nextId: nat, log: Log<P>, unacks: map<nat, Packet<P>>)

  /** A message that other shards routed to this session. */
  datatype Arrival<P> = Arrival(qos0: bool, publish: P)

  /** `saturating_add`: the number that the i-th message from here on is stamped with. */
  function Stamp(outSeqno: nat, i: nat): nat {
    Min(outSeqno + i, U64_MAX)
  }

  /** Where the messages at QoS 0, or above it, are. */
  function Positions<P>(ms: seq<Arrival<P>>, qos0: bool): (at: seq<nat>)
    ensures forall k :: 0 <= k < |at| ==> at[k] < |ms|
  {
    if ms == [] then []
    else Positions(ms[..|ms| - 1], qos0) + if ms[|ms| - 1].qos0 == qos0 then [|ms| - 1] else []
  }

  /** Those messages, stamped: the others use up numbers as well. */
  function Stamped<P>(ms: seq<Arrival<P>>, qos0: bool, outSeqno: nat): seq<Routed<P>> {
    var at := Positions(ms, qos0);
    seq(|at|, k requires 0 <= k < |at| => Routed(Stamp(outSeqno, at[k]), ms[at[k]].publish))
  }

  /** Whether a batch is turned away: too much waits already, or too much is unacknowledged. */
  predicate Refuses<P>(c: Config, s: State<P>) {
    |s.log| > 4 * c.batch || |s.unacks| >= c.receiveMaximum
  }

  /** The back log with a new batch in it, in order. */
  ghost function Held<P>(s: State<P>, msgs: seq<Routed<P>>): seq<Packet<P>> {
    Listing(Insert(s.log, Number(msgs, s.nextId)))
  }

  /** `out_qos_active`, on a connection that takes `room` packets. */
  ghost function OutQos<P>(c: Config, s: State<P>, msgs: seq<Routed<P>>, room: nat): State<P> {
    if Refuses(c, s) then s
    else
      var held := Held(s, msgs);
      State(s.outSeqno, Later(s.nextId, |msgs|), AsLog(Staying(held, c.batch, room)), Awaiting(s.unacks, held, c.batch, room))
  }

  ghost function OutSent<P>(c: Config, s: State<P>, msgs: seq<Routed<P>>, room: nat): seq<Packet<P>> {
    if Refuses(c, s) then [] else Leaving(Held(s, msgs), c.batch, room)
  }

  /** One round of the shard for this session: all messages are stamped, then those above QoS 0 are committed. */
  datatype Op<P> = Op(ms: seq<Arrival<P>>, room: nat)

  /** What a session has come to: all messages stamped, all packets accepted and all packets sent so far. */
  datatype Past<P> = Past(state: State<P>, stamped: nat, issued: seq<Packet<P>>, sent: seq<Packet<P>>)

  ghost function Step<P>(c: Config, p: Past<P>, op: Op<P>): Past<P> {
    var msgs := Stamped(op.ms, false, p.state.outSeqno);
    var s := p.state.(outSeqno := Stamp(p.state.outSeqno, |op.ms|));
    if msgs == [] then Past(s, p.stamped + |op.ms|, p.issued, p.sent)
    else
      Past(OutQos(c, s, msgs, op.room), p.stamped + |op.ms|,
           p.issued + (if Refuses(c, s) then [] else Number(msgs, s.nextId)), p.sent + OutSent(c, s, msgs, op.room))
  }

  ghost function Start<P>(): Past<P> {
    Past(State(1, 1, map[], map[]), 0, [], [])
  }

  ghost function Run<P>(c: Config, ops: seq<Op<P>>): Past<P> {
    if ops == [] then Start() else Step(c, Run(c, ops[..|ops| - 1]), ops[|ops| - 1])
  }

  lemma StampedNext<P>(ms: seq<Arrival<P>>, m: Arrival<P>, qos0: bool, outSeqno: nat)
    ensures Stamped(ms + [m], qos0, outSeqno) ==
            Stamped(ms, qos0, outSeqno) + if m.qos0 == qos0 then [Routed(Stamp(outSeqno, |ms|), m.publish)] else []
  {
    assert (ms + [m])[..|ms|] == ms;
  }

  lemma WentOut<T>(contents: seq<T>, items: seq<T>, contents': seq<T>, left: seq<T>)
    requires contents' + left == contents + items && |left| <= |items|
    ensures |contents| <= |contents'| && contents' == contents + contents'[|contents|..]
    ensures contents'[|contents|..] + left == items
  {
    assert (contents' + left)[..|contents|] == contents;
    assert (contents' + left)[|contents|..] == items;
  }

  lemma HeldIs<P>(s: State<P>, msgs: seq<Routed<P>>)
    requires Keyed(s.log)
    ensures Increasing(Held(s, msgs)) && IsLog(Insert(s.log, Number(msgs, s.nextId)), Held(s, msgs))
  {
    InsertKeeps(s.log, Number(msgs, s.nextId));
    ListingIs(Insert(s.log, Number(msgs, s.nextId)));
  }

  lemma StaysKeyed<P>(held: seq<Packet<P>>, max: nat, room: nat)
    requires Increasing(held)
    ensures Keyed(AsLog(Staying(held, max, room)))
  {
    InsertKeeps(map[], Staying(held, max, room));
  }

  /** The state and the packets that one round leads to. */
  ghost function Rounded<P>(c: Config, s: State<P>, op: Op<P>): State<P> {
    var msgs, s' := Stamped(op.ms, false, s.outSeqno), s.(outSeqno := Stamp(s.outSeqno, |op.ms|));
    if msgs == [] then s' else OutQos(c, s', msgs, op.room)
  }

  ghost function RoundSent<P>(c: Config, s: State<P>, op: Op<P>): seq<Packet<P>> {
    var msgs, s' := Stamped(op.ms, false, s.outSeqno), s.(outSeqno := Stamp(s.outSeqno, |op.ms|));
    if msgs == [] then [] else OutSent(c, s', msgs, op.room)
  }

  lemma RoundIs<P>(c: Config, ops: seq<Op<P>>, op: Op<P>)
    ensures Run(c, ops + [op]).state == Rounded(c, Run(c, ops).state, op)
    ensures Run(c, ops + [op]).sent == Run(c, ops).sent + RoundSent(c, Run(c, ops).state, op)
  {
    assert (ops + [op])[..|ops|] == ops;
  }

  /** The messages at QoS 0, as they go out. */
  function Zeros<P>(ms: seq<Arrival<P>>): seq<Out<P>> {
    if ms == [] then [] else Zeros(ms[..|ms| - 1]) + if ms[|ms| - 1].qos0 then [Out(None, ms[|ms| - 1].publish)] else []
  }

  lemma {:induction false} ZerosStamped<P>(ms: seq<Arrival<P>>, outSeqno: nat)
    ensures WithoutId(Stamped(ms, true, outSeqno)) == Zeros(ms)
    decreases |ms|
  {
    if ms != [] {
      var init, last := ms[..|ms| - 1], ms[|ms| - 1];
      ZerosStamped(init, outSeqno);
      StampedNext(init, last, true, outSeqno);
      assert ms == init + [last];
    }
  }

  ghost predicate Ready<P>(s: State<P>) {
    s.outSeqno <= U64_MAX && s.nextId < U16 && Keyed(s.log)
  }

  /** What is reported: the two refusals, or whether the whole batch went out. */
  ghost predicate Reports<P>(c: Config, s: State<P>, msgs: seq<Routed<P>>, room: nat, status: Status) {
    if |s.log| > 4 * c.batch then status == Gone
    else if |s.unacks| >= c.receiveMaximum then status == Block
    else status == Done <==> OutSent(c, s, msgs, room) == Front(Held(s, msgs), c.batch)
  }

  /**
   * `out_qos_active`. A refused batch is discarded. An accepted one joins the back log; then packets go out from
   * its front, in order, as many as a batch and the connection allow.
   */
  method OutActive<P>(c: Config, s: State<P>, tx: Channel<Out<P>>, msgs: seq<Routed<P>>) returns (status: Status, s': State<P>)
    requires Ready(s) && tx.Valid()
    modifies tx
    ensures tx.Valid() && s' == OutQos(c, s, msgs, old(Room(tx)))
    ensures tx.contents == old(tx.contents) + ToV5(OutSent(c, s, msgs, old(Room(tx))))
    ensures Reports(c, s, msgs, old(Room(tx)), status)
  {
    if |s.log| > 4 * c.batch {
      return Gone, s;
    }
    if |s.unacks| >= c.receiveMaximum {
      return Block, s;
    }
    var log, id := Book(s.log, msgs, s.nextId);
    HeldIs(s, msgs);
    var unacks;
    status, log, unacks := OutBatch(log, Held(s, msgs), s.unacks, c.batch, tx);
    s' := State(s.outSeqno, id, log, unacks);
  }

  lemma StaysReady<P>(c: Config, s: State<P>, msgs: seq<Routed<P>>, room: nat)
    requires Ready(s)
    ensures Ready(OutQos(c, s, msgs, room))
  {
    if !Refuses(c, s) {
      HeldIs(s, msgs);
      StaysKeyed(Held(s, msgs), c.batch, room);
    }
  }

  lemma {:induction false} RunReady<P>(c: Config, ops: seq<Op<P>>)
    ensures Ready(Run(c, ops).state)
    decreases |ops|
  {
    if ops != [] {
      var init, op := ops[..|ops| - 1], ops[|ops| - 1];
      RunReady(c, init);
      var s := Run(c, init).state;
      StaysReady(c, s.(outSeqno := Stamp(s.outSeqno, |op.ms|)), Stamped(op.ms, false, s.outSeqno), op.room);
    }
  }

  /** The queue holds these items and then each packet's id and publication. */
  ghost predicate Carried<P>(contents: seq<Out<P>>, front: seq<Out<P>>, ps: seq<Packet<P>>) {
    && |contents| == |front| + |ps| && contents[..|front|] == front
    && forall i :: 0 <= i < |ps| ==> contents[|front| + i] == Out(Some(ps[i].id), ps[i].publish)
  }

  lemma CarriedAre<P>(front: seq<Out<P>>, ps: seq<Packet<P>>)
    ensures Carried(front + ToV5(ps), front, ps)
  {
  }

  // ----- The object -----

  class Session<P> {
    const batch: nat
    const receiveMaximum: nat
    var outSeqno: nat
    var nextId: nat
    var backLog: Log<P>
    var unacks: map<nat, Packet<P>>
    var qos0: seq<Out<P>>
    /** The rounds so far. */
    ghost var ops: seq<Op<P>>

    ghost function Conf(): Config {
      Config(batch, receiveMaximum)
    }

    ghost function Now(): State<P>
      reads this
    {
      State(outSeqno, nextId, backLog, unacks)
    }

    /** The object is where the run of its rounds leads. */
    ghost predicate Valid()
      reads this
    {
      Now() == Run(Conf(), ops).state
    }

    constructor (batch: nat, receiveMaximum: nat)
      ensures Valid() && ops == [] && qos0 == []
      ensures this.batch == batch && this.receiveMaximum == receiveMaximum
    {
      this.batch, this.receiveMaximum := batch, receiveMaximum;
      outSeqno, nextId := 1, 1;
      backLog, unacks, qos0 := map[], map[], [];
      ops := [];
    }

    /** `incr_out_seqno` */
    method IncrOutSeqno() returns (seqno: nat)
      requires outSeqno <= U64_MAX
      modifies this`outSeqno
      ensures seqno == old(outSeqno) && outSeqno == Stamp(seqno, 1)
    {
      seqno := outSeqno;
      outSeqno := if outSeqno < U64_MAX then outSeqno + 1 else outSeqno;
    }

    /** The loop of `out_messages`. */
    method StampAll(ms: seq<Arrival<P>>) returns (low: seq<Routed<P>>, high: seq<Routed<P>>)
      requires outSeqno <= U64_MAX
      modifies this`outSeqno
      ensures outSeqno == Stamp(old(outSeqno), |ms|)
      ensures low == Stamped(ms, true, old(outSeqno)) && high == Stamped(ms, false, old(outSeqno))
    {
      low, high := [], [];
      for i := 0 to |ms|
        invariant outSeqno == Stamp(old(outSeqno), i)
        invariant low == Stamped(ms[..i], true, old(outSeqno)) && high == Stamped(ms[..i], false, old(outSeqno))
      {
        var seqno := IncrOutSeqno();
        assert ms[..i + 1] == ms[..i] + [ms[i]];
        StampedNext(ms[..i], ms[i], true, old(outSeqno));
        StampedNext(ms[..i], ms[i], false, old(outSeqno));
        var msg := Routed(seqno, ms[i].publish);
        if ms[i].qos0 {
          low := low + [msg];
        } else {
          high := high + [msg];
        }
      }
      assert ms[..|ms|] == ms;
    }

    /** `out_qos0`: first in, first out; a batch that finds too much waiting is discarded. */
    method OutQos0(tx: Channel<Out<P>>, msgs: seq<Routed<P>>) returns (status: Status, ghost out: seq<Out<P>>)
      requires tx.Valid()
      modifies this`qos0, tx
      ensures tx.Valid() && tx.connected == old(tx.connected) && tx.contents == old(tx.contents) + out
      ensures if |old(qos0)| > 4 * batch then status == Gone && qos0 == old(qos0) && out == []
              else out + qos0 == old(qos0) + WithoutId(msgs) && (status == Done <==> qos0 == [])
    {
      if |qos0| > 4 * batch {
        return Gone, [];
      }
      var left;
      status, left := tx.TrySends(qos0 + WithoutId(msgs));
      out := tx.contents[|old(tx.contents)|..];
      WentOut(old(tx.contents), qos0 + WithoutId(msgs), tx.contents, left);
      qos0 := left;
    }

    /** `out_qos_active` */
    method OutQosActive(tx: Channel<Out<P>>, msgs: seq<Routed<P>>) returns (status: Status)
      requires Ready(Now()) && tx.Valid()
      modifies this`nextId, this`backLog, this`unacks, tx
      ensures tx.Valid() && Now() == OutQos(Conf(), old(Now()), msgs, old(Room(tx)))
      ensures tx.contents == old(tx.contents) + ToV5(OutSent(Conf(), old(Now()), msgs, old(Room(tx))))
      ensures Reports(Conf(), old(Now()), msgs, old(Room(tx)), status)
    {
      var s;
      status, s := OutActive(Config(batch, receiveMaximum), State(outSeqno, nextId, backLog, unacks), tx, msgs);
      backLog, nextId, unacks := s.log, s.nextId, s.unacks;
    }

    /** The messages above QoS 0 of one round, if there are any. */
    method Commit(tx: Channel<Out<P>>, msgs: seq<Routed<P>>) returns (ghost out: seq<Packet<P>>)
      requires Ready(Now()) && tx.Valid()
      modifies this`nextId, this`backLog, this`unacks, tx
      ensures tx.Valid() && tx.contents == old(tx.contents) + ToV5(out)
      ensures Now() == if msgs == [] then old(Now()) else OutQos(Conf(), old(Now()), msgs, old(Room(tx)))
      ensures out == if msgs == [] then [] else OutSent(Conf(), old(Now()), msgs, old(Room(tx)))
    {
      out := [];
      if msgs != [] {
        out := OutSent(Conf(), Now(), msgs, Room(tx));
        var _ := OutQosActive(tx, msgs);
      }
    }

    /** `out_messages`: what arrived is stamped, and QoS 0 goes out. */
    method OutMessages(tx: Channel<Out<P>>, ms: seq<Arrival<P>>) returns (others: seq<Routed<P>>, ghost low: seq<Out<P>>)
      requires Ready(Now()) && tx.Valid()
      modifies this`outSeqno, this`qos0, tx
      ensures tx.Valid() && tx.contents == old(tx.contents) + low && others == Stamped(ms, false, old(outSeqno))
      ensures Ready(Now()) && Now() == old(Now()).(outSeqno := Stamp(old(outSeqno), |ms|))
      ensures if |old(qos0)| > 4 * batch then low == [] && qos0 == old(qos0) else low + qos0 == old(qos0) + Zeros(ms)
    {
      var zeros;
      zeros, others := StampAll(ms);
      ZerosStamped(ms, old(outSeqno));
      low := [];
      if zeros != [] {
        var _, out := OutQos0(tx, zeros);
        low := out;
      }
    }

    /** One round: what arrived is stamped; then QoS 0 goes out, then the rest is committed. */
    method Round(tx: Channel<Out<P>>, ms: seq<Arrival<P>>) returns (ghost low: seq<Out<P>>, ghost out: seq<Packet<P>>, ghost room: nat)
      requires Ready(Now()) && tx.Valid()
      modifies this`outSeqno, this`nextId, this`backLog, this`unacks, this`qos0, tx
      ensures tx.Valid() && tx.contents == old(tx.contents) + low + ToV5(out)
      ensures Now() == Rounded(Conf(), old(Now()), Op(ms, room)) && out == RoundSent(Conf(), old(Now()), Op(ms, room))
      ensures if |old(qos0)| > 4 * batch then low == [] && qos0 == old(qos0) else low + qos0 == old(qos0) + Zeros(ms)
    {
      var others;
      others, low := OutMessages(tx, ms);
      room := Room(tx);
      out := Commit(tx, others);
    }

    /** A round, entered into the record of all rounds. */
    method Deliver(tx: Channel<Out<P>>, ms: seq<Arrival<P>>) returns (ghost low: seq<Out<P>>, ghost out: seq<Packet<P>>, ghost room: nat)
      requires Valid() && tx.Valid()
      modifies this, tx
      ensures Valid() && tx.Valid() && ops == old(ops) + [Op(ms, room)]
      ensures Run(Conf(), ops).sent == Run(Conf(), old(ops)).sent + out
      ensures Carried(tx.contents, old(tx.contents) + low, out)
      ensures if |old(qos0)| > 4 * batch then low == [] && qos0 == old(qos0) else low + qos0 == old(qos0) + Zeros(ms)
    {
      RunReady(Conf(), ops);
      low, out, room := Round(tx, ms);
      CarriedAre(old(tx.contents) + low, out);
      RoundIs(Conf(), ops, Op(ms, room));
      ops := ops + [Op(ms, room)];
    }
  }
}
