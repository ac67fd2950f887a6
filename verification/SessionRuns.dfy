/**
 * What holds of a session over all of its rounds: in which order packets go out, that none is lost, which await
 * acknowledgement, and exactly when a sequence number that was used up costs a message.
 */
module SessionRuns {
  import opened Base
  import opened BackLog
  import opened Sessions

  // ----- Numbers run out -----

  /** The packet id of the i-th accepted message; the first is 1. */
  function IdAt(i: nat): nat {
    (1 + i) % U16
  }

  /** Ids of the first `n` messages differ exactly as long as there are no more than 65536, and none is zero exactly below that. */
  lemma IdsDiffer(n: nat)
    ensures (forall i, j :: 0 <= i < j < n ==> IdAt(i) != IdAt(j)) <==> n <= U16
    ensures (forall i :: 0 <= i < n ==> IdAt(i) != 0) <==> n < U16
  {
    if n > U16 {
      assert IdAt(0) == IdAt(U16);
    }
    if n >= U16 {
      assert IdAt(U16 - 1) == 0;
    }
  }

  /** The first `n` sequence numbers increase exactly as long as there are no more than 2^64 - 1. */
  lemma StampsDiffer(n: nat)
    ensures (forall i, j :: 0 <= i < j < n ==> Stamp(1, i) < Stamp(1, j)) <==> n <= U64_MAX
  {
    if n > U64_MAX {
      assert Stamp(1, U64_MAX - 1) == Stamp(1, U64_MAX);
    }
  }

  // ----- Every round -----

  ghost predicate Ascending(at: seq<nat>) {
    forall k, l :: 0 <= k < l < |at| ==> at[k] < at[l]
  }

  lemma {:induction false} PositionsMean<P>(ms: seq<Arrival<P>>, qos0: bool)
    ensures Ascending(Positions(ms, qos0))
    ensures forall i :: 0 <= i < |ms| ==> (i in Positions(ms, qos0) <==> ms[i].qos0 == qos0)
    decreases |ms|
  {
    if ms != [] {
      var init := ms[..|ms| - 1];
      PositionsMean(init, qos0);
      forall i | 0 <= i < |ms| ensures i in Positions(ms, qos0) <==> ms[i].qos0 == qos0 {
        if i < |init| {
          assert init[i] == ms[i];
        }
      }
    }
  }

  /** Numbers increase, except that the last one repeats once all are used up. */
  ghost predicate Rising<P>(issued: seq<Packet<P>>, stamped: nat) {
    && (forall i :: 0 <= i < |issued| ==> issued[i].seqno <= Min(stamped, U64_MAX))
    && (forall i, j :: 0 <= i < j < |issued| ==>
          issued[i].seqno < issued[j].seqno || (issued[i].seqno == issued[j].seqno == U64_MAX && stamped > U64_MAX))
  }

  /** Ids follow one another. */
  ghost predicate IdsRun<P>(issued: seq<Packet<P>>) {
    forall i :: 0 <= i < |issued| ==> issued[i].id == IdAt(i)
  }

  ghost predicate Bounded<P>(log: Log<P>, stamped: nat) {
    Keyed(log) && forall k :: k in log ==> k <= Min(stamped, U64_MAX)
  }

  ghost predicate Inv<P>(p: Past<P>) {
    && p.state.outSeqno == Stamp(1, p.stamped) && p.state.nextId == IdAt(|p.issued|)
    && Rising(p.issued, p.stamped) && IdsRun(p.issued) && Bounded(p.state.log, p.stamped)
  }

  /** The packets that a round makes of what arrived above QoS 0. */
  ghost function News<P>(s: State<P>, ms: seq<Arrival<P>>): seq<Packet<P>> {
    Number(Stamped(ms, false, s.outSeqno), s.nextId)
  }

  /** They are stamped with numbers behind the first `n`, at these places. */
  ghost predicate StampedAt<P>(ps: seq<Packet<P>>, n: nat, at: seq<nat>) {
    |ps| == |at| && Ascending(at) && forall k :: 0 <= k < |ps| ==> ps[k].seqno == Stamp(1, n + at[k])
  }

  lemma StampSum(n: nat, i: nat)
    ensures Stamp(Stamp(1, n), i) == Stamp(1, n + i)
  {
  }

  lemma IdSum(m: nat, k: nat)
    ensures (IdAt(m) + k) % U16 == IdAt(m + k)
  {
  }

  lemma NewsStamped<P>(s: State<P>, ms: seq<Arrival<P>>, n: nat)
    requires s.outSeqno == Stamp(1, n) && s.nextId < U16
    ensures StampedAt(News(s, ms), n, Positions(ms, false))
  {
    NumberAt(Stamped(ms, false, s.outSeqno), s.nextId);
    PositionsMean(ms, false);
    forall k | 0 <= k < |News(s, ms)| ensures News(s, ms)[k].seqno == Stamp(1, n + Positions(ms, false)[k]) {
      StampSum(n, Positions(ms, false)[k]);
    }
  }

  lemma NewsIds<P>(issued: seq<Packet<P>>, msgs: seq<Routed<P>>)
    requires IdsRun(issued)
    ensures IdsRun(issued + Number(msgs, IdAt(|issued|)))
    ensures Later(IdAt(|issued|), |msgs|) == IdAt(|issued + Number(msgs, IdAt(|issued|))|)
  {
    var ps := Number(msgs, IdAt(|issued|));
    NumberAt(msgs, IdAt(|issued|));
    IdSum(|issued|, |msgs|);
    forall i | 0 <= i < |issued + ps| ensures (issued + ps)[i].id == IdAt(i) {
      if i >= |issued| {
        IdSum(|issued|, i - |issued|);
      }
    }
  }

  lemma StillRising<P>(issued: seq<Packet<P>>, n: nat, ps: seq<Packet<P>>, at: seq<nat>, m: nat)
    requires Rising(issued, n) && StampedAt(ps, n, at) && forall k :: 0 <= k < |at| ==> at[k] < m
    ensures Rising(issued + ps, n + m)
  {
  }

  lemma StillBounded<P>(log: Log<P>, n: nat, ps: seq<Packet<P>>, at: seq<nat>, m: nat)
    requires Bounded(log, n) && StampedAt(ps, n, at) && forall k :: 0 <= k < |at| ==> at[k] < m
    ensures Bounded(Insert(log, ps), n + m)
  {
    InsertKeeps(log, ps);
  }

  /**
   * A number is used up: a message above QoS 0 is stamped with the last one while another above QoS 0 is in the
   * same round, or already in the back log.
   */
  predicate Crowded<P>(s: State<P>, ms: seq<Arrival<P>>) {
    var at := Positions(ms, false);
    exists k :: 0 <= k < |at| && s.outSeqno + at[k] >= U64_MAX && (U64_MAX in s.log || k + 1 < |at|)
  }

  /** Exactly then the new numbers do not fit. */
  lemma FitsUnlessCrowded<P>(s: State<P>, ms: seq<Arrival<P>>, n: nat)
    requires s.outSeqno == Stamp(1, n) && s.nextId < U16 && Bounded(s.log, n)
    ensures Fits(s.log, News(s, ms)) <==> !Crowded(s, ms)
  {
    NewsStamped(s, ms, n);
    FitsAt(s.log, News(s, ms), n, Positions(ms, false), s.outSeqno);
  }

  lemma FitsAt<P>(log: Log<P>, ps: seq<Packet<P>>, n: nat, at: seq<nat>, outSeqno: nat)
    requires outSeqno == Stamp(1, n) && Bounded(log, n) && StampedAt(ps, n, at)
    ensures Fits(log, ps) <==> !exists k :: 0 <= k < |at| && outSeqno + at[k] >= U64_MAX && (U64_MAX in log || k + 1 < |at|)
  {
    if k :| 0 <= k < |at| && outSeqno + at[k] >= U64_MAX && (U64_MAX in log || k + 1 < |at|) {
      assert ps[k].seqno == U64_MAX;
      assert k + 1 < |at| ==> at[k] < at[k + 1] && ps[k + 1].seqno == U64_MAX;
    } else {
      forall i, j | 0 <= i < j < |ps| ensures ps[i].seqno != ps[j].seqno {
        assert at[i] < at[j];
      }
    }
  }

  /** When they do, they come behind everything in the back log. */
  lemma FittingComeLast<P>(log: Log<P>, ps: seq<Packet<P>>, n: nat, at: seq<nat>)
    requires Bounded(log, n) && StampedAt(ps, n, at) && Fits(log, ps)
    ensures Listing(Insert(log, ps)) == Listing(log) + ps
  {
    forall i, j | 0 <= i < j < |ps| ensures ps[i].seqno < ps[j].seqno {
      assert at[i] < at[j];
    }
    InsertQueues(log, ps);
  }

  // ----- Every run -----

  /** The state a round commits to: everything is stamped. */
  ghost function Stamps<P>(s: State<P>, ms: seq<Arrival<P>>): State<P> {
    s.(outSeqno := Stamp(s.outSeqno, |ms|))
  }

  /** Whether a round commits anything. */
  ghost predicate Commits<P>(c: Config, p: Past<P>, op: Op<P>) {
    Positions(op.ms, false) != [] && !Refuses(c, p.state)
  }

  /** A round puts its packets behind `issued` and moves packets from the front of the back log to `sent`, or just stamps. */
  lemma StepIs<P>(c: Config, p: Past<P>, op: Op<P>)
    ensures var q := Step(c, p, op);
            && q.state.outSeqno == Stamp(p.state.outSeqno, |op.ms|) && q.stamped == p.stamped + |op.ms|
            && if Commits(c, p, op) then Committed(c, p, op, q)
               else q.issued == p.issued && q.sent == p.sent && q.state == Stamps(p.state, op.ms)
  {
    var s, msgs := Stamps(p.state, op.ms), Stamped(op.ms, false, p.state.outSeqno);
    assert Held(s, msgs) == Waiting(p.state, op.ms);
  }

  /** The back log with the packets of a round in it, in order. */
  ghost function Waiting<P>(s: State<P>, ms: seq<Arrival<P>>): seq<Packet<P>> {
    Listing(Insert(s.log, News(s, ms)))
  }

  ghost predicate Committed<P>(c: Config, p: Past<P>, op: Op<P>, q: Past<P>) {
    var held := Waiting(p.state, op.ms);
    && q.issued == p.issued + News(p.state, op.ms) && q.sent == p.sent + Leaving(held, c.batch, op.room)
    && q.state.log == AsLog(Staying(held, c.batch, op.room))
    && q.state.unacks == Awaiting(p.state.unacks, held, c.batch, op.room)
    && q.state.nextId == Later(p.state.nextId, |Stamped(op.ms, false, p.state.outSeqno)|)
  }

  lemma StepKeeps<P>(c: Config, p: Past<P>, op: Op<P>)
    requires Inv(p)
    ensures Inv(Step(c, p, op))
  {
    StepIs(c, p, op);
    StampSum(p.stamped, |op.ms|);
    if Commits(c, p, op) {
      CommitKeeps(c, p, op);
    }
  }

  lemma CommitKeeps<P>(c: Config, p: Past<P>, op: Op<P>)
    requires Inv(p)
    ensures Rising(p.issued + News(p.state, op.ms), p.stamped + |op.ms|)
    ensures IdsRun(p.issued + News(p.state, op.ms))
    ensures Later(p.state.nextId, |Stamped(op.ms, false, p.state.outSeqno)|) == IdAt(|p.issued + News(p.state, op.ms)|)
    ensures Bounded(AsLog(Staying(Waiting(p.state, op.ms), c.batch, op.room)), p.stamped + |op.ms|)
  {
    var ps, at, m := News(p.state, op.ms), Positions(op.ms, false), |op.ms|;
    NewsStamped(p.state, op.ms, p.stamped);
    NewsIds(p.issued, Stamped(op.ms, false, p.state.outSeqno));
    StillRising(p.issued, p.stamped, ps, at, m);
    StillBounded(p.state.log, p.stamped, ps, at, m);
    StaysBounded(Insert(p.state.log, ps), c.batch, op.room, p.stamped + m);
  }

  lemma StaysBounded<P>(log: Log<P>, batch: nat, room: nat, n: nat)
    requires Bounded(log, n)
    ensures Bounded(AsLog(Staying(Listing(log), batch, room)), n)
  {
    var held := Listing(log);
    ListingLists(log);
    PartBounded(log, held, Min(room, Min(batch, |held|)), n);
  }

  lemma PartBounded<P>(log: Log<P>, held: seq<Packet<P>>, i: nat, n: nat)
    requires Bounded(log, n) && i <= |held| && forall j :: 0 <= j < |held| ==> held[j].seqno in log
    ensures Bounded(AsLog(held[i..]), n)
  {
    InsertKeeps(map[], held[i..]);
    forall k | k in AsLog(held[i..]) ensures k in log {
      assert Listed(held[i..], k);
    }
  }

  lemma {:induction false} RunKeeps<P>(c: Config, ops: seq<Op<P>>)
    ensures Inv(Run(c, ops))
    decreases |ops|
  {
    if ops != [] {
      RunKeeps(c, ops[..|ops| - 1]);
      StepKeeps(c, Run(c, ops[..|ops| - 1]), ops[|ops| - 1]);
    }
  }

  /** A round overwrites a packet. */
  ghost predicate Overwrites<P>(c: Config, p: Past<P>, op: Op<P>) {
    Commits(c, p, op) && Crowded(p.state, op.ms)
  }

  ghost predicate MeetsOverwrite<P>(c: Config, ops: seq<Op<P>>) {
    ops != [] && (MeetsOverwrite(c, ops[..|ops| - 1]) || Overwrites(c, Run(c, ops[..|ops| - 1]), ops[|ops| - 1]))
  }

  /** Nothing was lost: what was sent and what waits are everything that was accepted, in order. */
  ghost predicate Queues<P>(p: Past<P>) {
    p.sent + Listing(p.state.log) == p.issued
  }

  lemma StepCounts<P>(c: Config, p: Past<P>, op: Op<P>)
    requires Inv(p)
    ensures var q := Step(c, p, op);
            var lost := |q.issued| - |q.sent| - |q.state.log| - (|p.issued| - |p.sent| - |p.state.log|);
            lost >= 0 && (lost == 0 <==> !Overwrites(c, p, op))
  {
    StepIs(c, p, op);
    if Commits(c, p, op) {
      var ps := News(p.state, op.ms);
      var log := Insert(p.state.log, ps);
      FitsUnlessCrowded(p.state, op.ms, p.stamped);
      InsertCounts(p.state.log, ps);
      InsertKeeps(p.state.log, ps);
      StaysCount(log, c.batch, op.room);
    }
  }

  lemma StaysCount<P>(log: Log<P>, batch: nat, room: nat)
    requires Keyed(log)
    ensures var rest := Staying(Listing(log), batch, room);
            && Listing(AsLog(rest)) == rest && |AsLog(rest)| == |rest|
            && Leaving(Listing(log), batch, room) + rest == Listing(log) && |Listing(log)| == |log|
  {
    var held := Listing(log);
    ListingIs(log);
    PartIsLog(held, Min(room, Min(batch, |held|)));
  }

  lemma PartIsLog<P>(held: seq<Packet<P>>, n: nat)
    requires Increasing(held) && n <= |held|
    ensures Listing(AsLog(held[n..])) == held[n..] && |AsLog(held[n..])| == |held[n..]| && held[..n] + held[n..] == held
  {
    var rest := held[n..];
    Sliced(held, n);
    ListingUnique(AsLog(rest), rest);
    assert |Listing(AsLog(rest))| == |AsLog(rest)| by {
      InsertKeeps(map[], rest);
      ListingIs(AsLog(rest));
    }
  }

  lemma StepQueues<P>(c: Config, p: Past<P>, op: Op<P>)
    requires Inv(p) && Queues(p) && !Overwrites(c, p, op)
    ensures Queues(Step(c, p, op))
  {
    StepIs(c, p, op);
    if Commits(c, p, op) {
      var ps := News(p.state, op.ms);
      FitsUnlessCrowded(p.state, op.ms, p.stamped);
      NewsStamped(p.state, op.ms, p.stamped);
      FittingComeLast(p.state.log, ps, p.stamped, Positions(op.ms, false));
      InsertKeeps(p.state.log, ps);
      StaysCount(Insert(p.state.log, ps), c.batch, op.room);
      var held := Waiting(p.state, op.ms);
      Regrouped(p.sent, Listing(p.state.log), ps);
      Regrouped(p.sent, Leaving(held, c.batch, op.room), Staying(held, c.batch, op.room));
    }
  }

  lemma {:induction false} RunCounts<P>(c: Config, ops: seq<Op<P>>)
    ensures var p := Run(c, ops); |p.sent| + |p.state.log| <= |p.issued|
    ensures var p := Run(c, ops); |p.sent| + |p.state.log| == |p.issued| <==> !MeetsOverwrite(c, ops)
    ensures !MeetsOverwrite(c, ops) ==> Queues(Run(c, ops))
    decreases |ops|
  {
    if ops != [] {
      var init, op := ops[..|ops| - 1], ops[|ops| - 1];
      RunCounts(c, init);
      RunKeeps(c, init);
      StepCounts(c, Run(c, init), op);
      if !MeetsOverwrite(c, ops) {
        StepQueues(c, Run(c, init), op);
      }
    }
  }

  /**
   * Over any run a session is a first-in first-out queue, which loses nothing, if and only if no round meets a
   * used-up number.
   */
  lemma RunQueues<P>(c: Config, ops: seq<Op<P>>)
    ensures Queues(Run(c, ops)) <==> !MeetsOverwrite(c, ops)
  {
    RunCounts(c, ops);
    RunKeeps(c, ops);
    ListingIs(Run(c, ops).state.log);
    if Queues(Run(c, ops)) {
      assert |Run(c, ops).sent + Listing(Run(c, ops).state.log)| == |Run(c, ops).issued|;
    }
  }

  lemma {:induction false} EnoughNumbers<P>(c: Config, ops: seq<Op<P>>)
    requires Run(c, ops).stamped <= U64_MAX
    ensures !MeetsOverwrite(c, ops)
    decreases |ops|
  {
    if ops != [] {
      var init, op := ops[..|ops| - 1], ops[|ops| - 1];
      var p := Run(c, init);
      StepIs(c, p, op);
      EnoughNumbers(c, init);
      RunKeeps(c, init);
      NotCrowded(p.state, op.ms, p.stamped);
    }
  }

  lemma NotCrowded<P>(s: State<P>, ms: seq<Arrival<P>>, n: nat)
    requires s.outSeqno == Stamp(1, n) && Bounded(s.log, n) && n + |ms| <= U64_MAX
    ensures !Crowded(s, ms)
  {
    PositionsMean(ms, false);
  }

  /**
   * As long as no more than 2^64 - 1 messages arrived, of any QoS and accepted or not, packets go out in strictly
   * increasing sequence numbers, nothing is lost, and all that waits comes behind all that was sent.
   */
  lemma SentInOrder<P>(c: Config, ops: seq<Op<P>>)
    requires Run(c, ops).stamped <= U64_MAX
    ensures Queues(Run(c, ops)) && Increasing(Run(c, ops).sent)
    ensures forall k, i :: k in Run(c, ops).state.log && 0 <= i < |Run(c, ops).sent| ==> Run(c, ops).sent[i].seqno < k
  {
    var p := Run(c, ops);
    EnoughNumbers(c, ops);
    RunQueues(c, ops);
    RunKeeps(c, ops);
    StrictlyIncreasing(c, ops);
    InTwo(p.sent, Listing(p.state.log));
    ListingLists(p.state.log);
    forall k, i | k in p.state.log && 0 <= i < |p.sent| ensures p.sent[i].seqno < k {
      assert Listed(Listing(p.state.log), k);
    }
  }

  /**
   * Numbers of accepted messages strictly increase over a run if and only if the last one was given to at most one of
   * them. On what arrives, the condition is that of `StampsDiffer`: no more than 2^64 - 1 messages.
   */
  lemma StrictlyIncreasing<P>(c: Config, ops: seq<Op<P>>)
    ensures var issued := Run(c, ops).issued;
            Increasing(issued) <==> |issued| < 2 || issued[|issued| - 2].seqno < U64_MAX
    ensures Run(c, ops).stamped <= U64_MAX ==> Increasing(Run(c, ops).issued)
  {
    RunKeeps(c, ops);
    RisingIsStrict(Run(c, ops).issued, Run(c, ops).stamped);
  }

  lemma RisingIsStrict<P>(issued: seq<Packet<P>>, n: nat)
    requires Rising(issued, n)
    ensures Increasing(issued) <==> |issued| < 2 || issued[|issued| - 2].seqno < U64_MAX
    ensures n <= U64_MAX ==> Increasing(issued)
  {
    if |issued| >= 2 && issued[|issued| - 2].seqno < U64_MAX {
      forall i, j | 0 <= i < j < |issued| ensures issued[i].seqno < issued[j].seqno {
        assert i <= |issued| - 2 && issued[i].seqno <= issued[|issued| - 2].seqno;
      }
    }
    if |issued| >= 2 && issued[|issued| - 2].seqno >= U64_MAX {
      assert issued[|issued| - 1].seqno <= U64_MAX;
    }
  }

  lemma InTwo<P>(a: seq<Packet<P>>, b: seq<Packet<P>>)
    requires Increasing(a + b)
    ensures Increasing(a) && forall i, j :: 0 <= i < |a| && 0 <= j < |b| ==> a[i].seqno < b[j].seqno
  {
    forall i, j | 0 <= i < |a| && 0 <= j < |b| ensures a[i].seqno < b[j].seqno {
      assert (a + b)[i] == a[i] && (a + b)[|a| + j] == b[j];
    }
    Sliced(a + b, |a|);
    assert (a + b)[..|a|] == a;
  }

  // ----- What was accepted -----

  /** How many messages arrived. */
  function Total<P>(ops: seq<Op<P>>): nat {
    if ops == [] then 0 else Total(ops[..|ops| - 1]) + |ops[|ops| - 1].ms|
  }

  /** The messages above QoS 0 of a round, each with its place among all messages, counted from one up to 2^64 - 1. */
  function High<P>(ms: seq<Arrival<P>>, before: nat): seq<(nat, P)> {
    if ms == [] then []
    else
      High(ms[..|ms| - 1], before) + if ms[|ms| - 1].qos0 then [] else [(Min(before + |ms|, U64_MAX), ms[|ms| - 1].publish)]
  }

  /** Those of all rounds that found no more than four batches waiting and fewer than the receive maximum unacknowledged. */
  ghost function Accepted<P>(c: Config, ops: seq<Op<P>>): seq<(nat, P)> {
    if ops == [] then []
    else
      var init, op := ops[..|ops| - 1], ops[|ops| - 1];
      var s := Run(c, init).state;
      Accepted(c, init) + if |s.log| <= 4 * c.batch && |s.unacks| < c.receiveMaximum then High(op.ms, Total(init)) else []
  }

  function Numbered<P>(ps: seq<Packet<P>>): seq<(nat, P)> {
    seq(|ps|, i requires 0 <= i < |ps| => (ps[i].seqno, ps[i].publish))
  }

  lemma {:induction false} HighIsStamped<P>(ms: seq<Arrival<P>>, n: nat, id: nat)
    requires id < U16
    ensures Numbered(Number(Stamped(ms, false, Stamp(1, n)), id)) == High(ms, n)
    decreases |ms|
  {
    NumberAt(Stamped(ms, false, Stamp(1, n)), id);
    if ms != [] {
      var init, last := ms[..|ms| - 1], ms[|ms| - 1];
      HighIsStamped(init, n, id);
      NumberAt(Stamped(init, false, Stamp(1, n)), id);
      StampedNext(init, last, false, Stamp(1, n));
      assert ms == init + [last];
      StampSum(n, |init|);
    }
  }

  lemma NumberedAppend<P>(a: seq<Packet<P>>, b: seq<Packet<P>>)
    ensures Numbered(a + b) == Numbered(a) + Numbered(b)
  {
  }

  lemma NoneHigh<P>(ms: seq<Arrival<P>>, n: nat)
    requires Positions(ms, false) == []
    ensures High(ms, n) == []
  {
    HighIsStamped(ms, n, 0);
  }

  /** What counts as accepted is what arrived above QoS 0 and was not refused, stamped by its place among everything that arrived. */
  lemma {:induction false} IssuedIsAccepted<P>(c: Config, ops: seq<Op<P>>)
    ensures Numbered(Run(c, ops).issued) == Accepted(c, ops) && Run(c, ops).stamped == Total(ops)
    decreases |ops|
  {
    if ops != [] {
      var init, op := ops[..|ops| - 1], ops[|ops| - 1];
      var p := Run(c, init);
      IssuedIsAccepted(c, init);
      RunKeeps(c, init);
      StepIs(c, p, op);
      if Commits(c, p, op) {
        HighIsStamped(op.ms, p.stamped, p.state.nextId);
        NumberedAppend(p.issued, News(p.state, op.ms));
      } else if !Refuses(c, p.state) {
        NoneHigh(op.ms, p.stamped);
      }
    }
  }

  /** Up to 2^64 - 1 messages, what was sent and what still waits is everything that was accepted, in the order of arrival. */
  lemma SentAsAccepted<P>(c: Config, ops: seq<Op<P>>)
    requires Total(ops) <= U64_MAX
    ensures Numbered(Run(c, ops).sent) + Numbered(Listing(Run(c, ops).state.log)) == Accepted(c, ops)
  {
    IssuedIsAccepted(c, ops);
    SentInOrder(c, ops);
    NumberedAppend(Run(c, ops).sent, Listing(Run(c, ops).state.log));
  }

  // ----- What awaits acknowledgement -----

  lemma {:induction false} RegisterAppends<P>(unacks: map<nat, Packet<P>>, a: seq<Packet<P>>, b: seq<Packet<P>>)
    ensures Register(Register(unacks, a), b) == Register(unacks, a + b)
    decreases |b|
  {
    if b == [] {
      assert a + b == a;
    } else {
      assert (a + b)[..|a + b| - 1] == a + b[..|b| - 1];
      RegisterAppends(unacks, a, b[..|b| - 1]);
    }
  }

  lemma {:induction false} RegisterCounts<P>(unacks: map<nat, Packet<P>>, ps: seq<Packet<P>>)
    requires Fresh(unacks, ps)
    ensures |Register(unacks, ps)| == |unacks| + |ps|
    decreases |ps|
  {
    if ps != [] {
      var init, last := ps[..|ps| - 1], ps[|ps| - 1];
      assert ps == init + [last];
      FreshPrefix(unacks, init, [last]);
      RegisterCounts(unacks, init);
      RegisterAdds(unacks, init);
      assert last.id !in Register(unacks, init);
      OneInserted(Register(unacks, init), last.id, last);
    }
  }

  /** Registering a batch and taking its end back registers its beginning. */
  lemma TakenBack<P>(unacks: map<nat, Packet<P>>, a: seq<Packet<P>>, b: seq<Packet<P>>)
    requires Fresh(unacks, a + b)
    ensures Unregister(Register(unacks, a + b), b) == Register(unacks, a)
  {
    SentAreRegistered(unacks, a, b);
    FreshPrefix(unacks, a, b);
    RegisterGrows(unacks, a);
    GrownUnique(unacks, a, Unregister(Register(unacks, a + b), b), Register(unacks, a));
  }

  lemma GrownUnique<P>(unacks: map<nat, Packet<P>>, ps: seq<Packet<P>>, x: map<nat, Packet<P>>, y: map<nat, Packet<P>>)
    requires Grown(unacks, ps, x) && Grown(unacks, ps, y)
    ensures x == y
  {
    forall id | id in x ensures id in y && x[id] == y[id] {
      if id !in unacks {
        assert HasId(ps, id);
      }
    }
    forall id | id in y ensures id in x {
    }
  }

  lemma DistinctIds<P>(issued: seq<Packet<P>>)
    requires IdsRun(issued) && |issued| <= U16
    ensures Fresh(map[], issued)
  {
    IdsDiffer(|issued|);
  }

  lemma FreshBehind<P>(sent: seq<Packet<P>>, held: seq<Packet<P>>)
    requires Fresh(map[], sent + held)
    ensures Fresh(map[], sent) && Fresh(Register(map[], sent), held)
  {
    FreshPrefix(map[], sent, held);
    RegisterGrows(map[], sent);
    StillFresh(map[], sent, held, Register(map[], sent));
  }

  lemma AwaitingIs<P>(sent: seq<Packet<P>>, held: seq<Packet<P>>, batch: nat, room: nat)
    requires Fresh(map[], sent + held)
    ensures Awaiting(Register(map[], sent), held, batch, room) == Register(map[], sent + Leaving(held, batch, room))
  {
    var unacks, m := Register(map[], sent), Min(batch, |held|);
    var n := Min(room, m);
    FreshBehind(sent, held);
    assert held == held[..m] + held[m..] && held[..m] == held[..n] + held[n..m];
    FreshPrefix(unacks, held[..m], held[m..]);
    TakenBack(unacks, held[..n], held[n..m]);
    RegisterAppends(map[], sent, held[..n]);
  }

  lemma WaitingIsRest<P>(c: Config, p: Past<P>, op: Op<P>)
    requires Inv(p) && Queues(p) && Commits(c, p, op) && !Overwrites(c, p, op)
    ensures p.sent + Waiting(p.state, op.ms) == p.issued + News(p.state, op.ms)
  {
    FitsUnlessCrowded(p.state, op.ms, p.stamped);
    NewsStamped(p.state, op.ms, p.stamped);
    FittingComeLast(p.state.log, News(p.state, op.ms), p.stamped, Positions(op.ms, false));
    Regrouped(p.sent, Listing(p.state.log), News(p.state, op.ms));
  }

  lemma StepAwaits<P>(c: Config, p: Past<P>, op: Op<P>)
    requires Inv(p) && Queues(p) && !Overwrites(c, p, op) && |Step(c, p, op).issued| <= U16
    requires p.state.unacks == Register(map[], p.sent)
    ensures Step(c, p, op).state.unacks == Register(map[], Step(c, p, op).sent)
  {
    StepIs(c, p, op);
    StepKeeps(c, p, op);
    if Commits(c, p, op) {
      DistinctIds(Step(c, p, op).issued);
      WaitingIsRest(c, p, op);
      AwaitingIs(p.sent, Waiting(p.state, op.ms), c.batch, op.room);
    }
  }

  lemma {:induction false} RunAwaits<P>(c: Config, ops: seq<Op<P>>)
    requires |Run(c, ops).issued| <= U16 && !MeetsOverwrite(c, ops)
    ensures var p := Run(c, ops);
            && p.state.unacks == Register(map[], p.sent)
            && (p.sent != [] ==> |p.sent| < c.receiveMaximum + c.batch)
    decreases |ops|
  {
    if ops != [] {
      var init, op := ops[..|ops| - 1], ops[|ops| - 1];
      var p := Run(c, init);
      StepIs(c, p, op);
      RunAwaits(c, init);
      RunKeeps(c, init);
      RunQueues(c, init);
      StepAwaits(c, p, op);
      DistinctIds(p.issued);
      FreshBehind(p.sent, Listing(p.state.log));
      RegisterCounts(map[], p.sent);
    }
  }

  /**
   * Up to 65536 accepted messages, exactly the packets sent await acknowledgement, no waiting packet has the id of
   * one, and there are fewer than the receive maximum and one batch together.
   */
  lemma SentAwait<P>(c: Config, ops: seq<Op<P>>)
    requires |Run(c, ops).issued| <= U16 && !MeetsOverwrite(c, ops)
    ensures var p := Run(c, ops);
            && Grown(map[], p.sent, p.state.unacks) && |p.state.unacks| == |p.sent|
            && Fresh(p.state.unacks, Listing(p.state.log))
            && (p.sent != [] ==> |p.sent| < c.receiveMaximum + c.batch)
  {
    var p := Run(c, ops);
    RunAwaits(c, ops);
    RunKeeps(c, ops);
    RunQueues(c, ops);
    DistinctIds(p.issued);
    FreshBehind(p.sent, Listing(p.state.log));
    RegisterGrows(map[], p.sent);
    RegisterCounts(map[], p.sent);
  }

  lemma WaitingCounts<P>(s: State<P>, ms: seq<Arrival<P>>, n: nat)
    requires s.outSeqno == Stamp(1, n) && s.nextId < U16 && Bounded(s.log, n) && !Crowded(s, ms)
    ensures |Waiting(s, ms)| == |s.log| + |Positions(ms, false)|
  {
    FitsUnlessCrowded(s, ms, n);
    NewsStamped(s, ms, n);
    InsertCounts(s.log, News(s, ms));
    InsertKeeps(s.log, News(s, ms));
    ListingIs(Insert(s.log, News(s, ms)));
  }

  /** How many packets a round sends. */
  lemma StepSends<P>(c: Config, p: Past<P>, op: Op<P>)
    requires Commits(c, p, op)
    ensures |Step(c, p, op).sent| == |p.sent| + Min(op.room, Min(c.batch, |Waiting(p.state, op.ms)|))
  {
    StepIs(c, p, op);
  }

  /** The room left in the receive maximum is less than what the round can send. */
  predicate Exceeds<P>(c: Config, p: Past<P>, op: Op<P>) {
    && Positions(op.ms, false) != [] && !Refuses(c, p.state)
    && |p.state.unacks| + Min(op.room, Min(c.batch, |p.state.log| + |Positions(op.ms, false)|)) > c.receiveMaximum
  }

  /** A round of a session within its receive maximum stays within it exactly unless that is so. */
  lemma RoundKeepsMaximum<P>(c: Config, p: Past<P>, op: Op<P>)
    requires Inv(p) && Queues(p) && !Overwrites(c, p, op) && |Step(c, p, op).issued| <= U16
    requires p.state.unacks == Register(map[], p.sent) && |p.state.unacks| <= c.receiveMaximum
    ensures |Step(c, p, op).state.unacks| <= c.receiveMaximum <==> !Exceeds(c, p, op)
  {
    if Commits(c, p, op) {
      UnacksGrow(c, p, op);
      WaitingCounts(p.state, op.ms, p.stamped);
    } else {
      UnacksStay(c, p, op);
    }
  }

  lemma UnacksGrow<P>(c: Config, p: Past<P>, op: Op<P>)
    requires Inv(p) && Queues(p) && Commits(c, p, op) && !Overwrites(c, p, op) && |Step(c, p, op).issued| <= U16
    requires p.state.unacks == Register(map[], p.sent)
    ensures |Step(c, p, op).state.unacks| == |p.state.unacks| + Min(op.room, Min(c.batch, |Waiting(p.state, op.ms)|))
  {
    CountsInRound(c, p, op);
    StepSends(c, p, op);
  }

  lemma UnacksStay<P>(c: Config, p: Past<P>, op: Op<P>)
    requires !Commits(c, p, op)
    ensures Step(c, p, op).state.unacks == p.state.unacks
  {
    StepIs(c, p, op);
  }

  lemma CountsInRound<P>(c: Config, p: Past<P>, op: Op<P>)
    requires Inv(p) && Queues(p) && !Overwrites(c, p, op) && |Step(c, p, op).issued| <= U16
    requires p.state.unacks == Register(map[], p.sent)
    ensures |p.state.unacks| == |p.sent| && |Step(c, p, op).state.unacks| == |Step(c, p, op).sent|
  {
    assert |p.issued| <= |Step(c, p, op).issued| by {
      StepIs(c, p, op);
    }
    UnacksCount(p);
    StepKeeps(c, p, op);
    StepQueues(c, p, op);
    StepAwaits(c, p, op);
    UnacksCount(Step(c, p, op));
  }

  lemma UnacksCount<P>(p: Past<P>)
    requires Inv(p) && Queues(p) && |p.issued| <= U16 && p.state.unacks == Register(map[], p.sent)
    ensures |p.state.unacks| == |p.sent|
  {
    DistinctIds(p.issued);
    FreshBehind(p.sent, Listing(p.state.log));
    RegisterCounts(map[], p.sent);
  }

  ghost predicate MeetsExcess<P>(c: Config, ops: seq<Op<P>>) {
    ops != [] && (MeetsExcess(c, ops[..|ops| - 1]) || Exceeds(c, Run(c, ops[..|ops| - 1]), ops[|ops| - 1]))
  }

  /** Over any run of up to 65536 accepted messages the receive maximum is kept exactly unless some round exceeds it. */
  lemma {:induction false} RunKeepsMaximum<P>(c: Config, ops: seq<Op<P>>)
    requires |Run(c, ops).issued| <= U16 && !MeetsOverwrite(c, ops)
    ensures |Run(c, ops).state.unacks| <= c.receiveMaximum <==> !MeetsExcess(c, ops)
    ensures c.batch <= 1 ==> !MeetsExcess(c, ops)
    decreases |ops|
  {
    if ops != [] {
      var init, op := ops[..|ops| - 1], ops[|ops| - 1];
      var p := Run(c, init);
      StepIs(c, p, op);
      RunKeepsMaximum(c, init);
      RunAwaits(c, init);
      RunKeeps(c, init);
      RunQueues(c, init);
      if |p.state.unacks| <= c.receiveMaximum {
        RoundKeepsMaximum(c, p, op);
      } else {
        assert Refuses(c, p.state);
      }
    }
  }

  /** With a receive maximum of one, a batch of two goes out at once. */
  lemma ExceedsReceiveMaximum<P>(a: P, b: P)
    ensures var p := Run(Config(2, 1), [Op([Arrival(false, a), Arrival(false, b)], 2)]);
            p.sent == [Packet(1, 1, a), Packet(2, 2, b)] && |p.state.unacks| == 2
  {
    var c, op := Config(2, 1), Op([Arrival(false, a), Arrival(false, b)], 2);
    assert [op][..0] == [] && Run(c, [op]) == Step(c, Start(), op);
    TwoAtOnce(c, op, a, b);
    EnoughNumbers(c, [op]);
    SentAwait(c, [op]);
  }

  lemma TwoAtOnce<P>(c: Config, op: Op<P>, a: P, b: P)
    requires c == Config(2, 1) && op == Op([Arrival(false, a), Arrival(false, b)], 2)
    ensures var p, sent := Step(c, Start(), op), [Packet(1, 1, a), Packet(2, 2, b)];
            p.sent == sent && p.issued == sent && p.stamped == 2
  {
    var start, sent := Start<P>(), [Packet(1, 1, a), Packet(2, 2, b)];
    TwoNews(start.state, a, b);
    InsertQueues(start.state.log, sent);
    assert Waiting(start.state, op.ms) == [] + sent == sent;
    StepIs(c, start, op);
    assert Leaving(sent, 2, 2) == sent;
  }

  lemma TwoNews<P>(s: State<P>, a: P, b: P)
    requires s.outSeqno == 1 && s.nextId == 1
    ensures var ms := [Arrival(false, a), Arrival(false, b)];
            News(s, ms) == [Packet(1, 1, a), Packet(2, 2, b)] && Positions(ms, false) == [0, 1]
  {
    var ms := [Arrival(false, a), Arrival(false, b)];
    OnePosition(a);
    assert ms[..1] == [Arrival(false, a)];
    var msgs := Stamped(ms, false, 1);
    assert msgs == [Routed(1, a), Routed(2, b)];
    NumberAt(msgs, 1);
  }

  /** Nothing takes a packet out of the unacknowledged ones, so a session that refuses a batch never sends again. */
  lemma {:induction false} RefusedForGood<P>(c: Config, ops: seq<Op<P>>, more: seq<Op<P>>)
    requires Refuses(c, Run(c, ops).state)
    ensures Refuses(c, Run(c, ops + more).state)
    ensures Run(c, ops + more).sent == Run(c, ops).sent && Run(c, ops + more).issued == Run(c, ops).issued
    decreases |more|
  {
    if more == [] {
      assert ops + more == ops;
    } else {
      var init, op := more[..|more| - 1], more[|more| - 1];
      assert (ops + more)[..|ops + more| - 1] == ops + init && (ops + more)[|ops + more| - 1] == op;
      RefusedForGood(c, ops, init);
      StepIs(c, Run(c, ops + init), op);
    }
  }

  // ----- A message that is lost -----

  lemma {:induction false} AllLow<P>(ms: seq<Arrival<P>>)
    requires forall i :: 0 <= i < |ms| ==> ms[i].qos0
    ensures Positions(ms, false) == []
    decreases |ms|
  {
    if ms != [] {
      AllLow(ms[..|ms| - 1]);
    }
  }

  ghost function Many<P>(z: P): seq<Arrival<P>> {
    seq(U64_MAX - 1, _ => Arrival(true, z))
  }

  /** A session that has used up its numbers and sent nothing yet; at most one packet waits. */
  ghost predicate UsedUp<P>(c: Config, s: State<P>) {
    s.outSeqno == U64_MAX && s.log.Keys <= {U64_MAX} && s.unacks == map[] && c.batch > 0 && c.receiveMaximum > 0
  }

  lemma OneWaits<P>(s: State<P>, m: P)
    requires s.outSeqno == U64_MAX && s.log.Keys <= {U64_MAX}
    ensures News(s, [Arrival(false, m)]) == [Packet(U64_MAX, s.nextId, m)] == Waiting(s, [Arrival(false, m)])
  {
    var q := Packet(U64_MAX, s.nextId, m);
    OnePosition(m);
    assert Stamped([Arrival(false, m)], false, U64_MAX) == [Routed(U64_MAX, m)];
    assert Number([Routed(U64_MAX, m)], s.nextId) == [q] + [];
    OneOnly(s.log, q);
  }

  lemma OnePosition<P>(m: P)
    ensures Positions([Arrival(false, m)], false) == [0]
  {
    assert [Arrival(false, m)][..0] == [];
  }

  lemma OneOnly<P>(log: Log<P>, q: Packet<P>)
    requires log.Keys <= {q.seqno}
    ensures Listing(Insert(log, [q])) == [q] && AsLog([q]) == map[q.seqno := q]
  {
    assert [q][..0] == [];
    assert Insert(log, []) == log && AsLog<P>([]) == map[];
    assert log[q.seqno := q] == map[q.seqno := q];
    ListingUnique(map[q.seqno := q], [q]);
  }

  /** A message that arrives then replaces the packet that waits. */
  lemma OneReplaces<P>(c: Config, p: Past<P>, m: P, room: nat)
    requires UsedUp(c, p.state) && room <= 1
    ensures var r, q := Step(c, p, Op([Arrival(false, m)], room)), Packet(U64_MAX, p.state.nextId, m);
            && r.issued == p.issued + [q] && r.sent == p.sent + [q][..room]
            && r.state.nextId == Later(p.state.nextId, 1)
            && (room == 0 ==> UsedUp(c, r.state)) && (room == 1 ==> r.state.log == map[])
  {
    var op, q := Op([Arrival(false, m)], room), Packet(U64_MAX, p.state.nextId, m);
    OneWaits(p.state, m);
    OnePosition(m);
    FewWait(p.state.log);
    StepIs(c, p, op);
    OneOnly<P>(map[], q);
    assert Leaving([q], c.batch, room) == [q][..room] && Staying([q], c.batch, room) == [q][room..];
    if room == 0 {
      assert [q][0..] == [q] && Front([q], c.batch) == [q] && [q][..0] == [];
      assert Register(map[], [q]) == map[q.id := q];
      assert Unregister(map[q.id := q], [q]) == map[];
    }
  }

  lemma FewWait<P>(log: Log<P>)
    requires log.Keys <= {U64_MAX}
    ensures |log| <= 1
  {
    assert |log.Keys| <= |{U64_MAX}| by {
      Fewer(log.Keys, {U64_MAX});
    }
  }

  lemma {:induction false} Fewer(a: set<nat>, b: set<nat>)
    requires a <= b
    ensures |a| <= |b|
    decreases |a|
  {
    if a != {} {
      var x :| x in a;
      Fewer(a - {x}, b - {x});
    }
  }

  lemma AfterMany<P>(c: Config, z: P)
    requires c.batch > 0 && c.receiveMaximum > 0
    ensures var p := Step(c, Start(), Op(Many(z), 0));
            UsedUp(c, p.state) && p.state.nextId == 1 && p.issued == [] && p.sent == []
  {
    AllLow(Many(z));
    StepIs(c, Start(), Op(Many(z), 0));
  }

  lemma SecondReplacesFirst<P>(c: Config, p: Past<P>, a: P, b: P)
    requires UsedUp(c, p.state) && p.state.nextId == 1 && p.issued == [] && p.sent == []
    ensures var r := Step(c, Step(c, p, Op([Arrival(false, a)], 0)), Op([Arrival(false, b)], 1));
            && r.issued == [Packet(U64_MAX, 1, a), Packet(U64_MAX, 2, b)]
            && r.sent == [Packet(U64_MAX, 2, b)] && r.state.log == map[]
  {
    OneReplaces(c, p, a, 0);
    OneReplaces(c, Step(c, p, Op([Arrival(false, a)], 0)), b, 1);
  }

  /** After 2^64 - 2 messages at QoS 0, of two messages above QoS 0 the first is accepted, waits and is replaced by the second. */
  lemma UsedUpNumberLoses<P>(c: Config, z: P, a: P, b: P)
    requires c.batch > 0 && c.receiveMaximum > 0
    ensures var p := Run(c, [Op(Many(z), 0), Op([Arrival(false, a)], 0), Op([Arrival(false, b)], 1)]);
            && p.issued == [Packet(U64_MAX, 1, a), Packet(U64_MAX, 2, b)]
            && p.sent == [Packet(U64_MAX, 2, b)] && p.state.log == map[]
  {
    AfterMany(c, z);
    SecondReplacesFirst(c, Step(c, Start(), Op(Many(z), 0)), a, b);
    ThreeRounds(c, Op(Many(z), 0), Op([Arrival(false, a)], 0), Op([Arrival(false, b)], 1));
  }

  lemma ThreeRounds<P>(c: Config, first: Op<P>, second: Op<P>, third: Op<P>)
    ensures Run(c, [first, second, third]) == Step(c, Step(c, Step(c, Start(), first), second), third)
  {
    assert [first, second, third][..2] == [first, second] && [first, second][..1] == [first] && [first][..0] == [];
    assert Run(c, [first]) == Step(c, Start(), first);
    assert Run(c, [first, second]) == Step(c, Run(c, [first]), second);
  }
}
