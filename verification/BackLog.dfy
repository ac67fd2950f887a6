/**
 * The back log of a session: a map from sequence numbers to packets, from which the least number is taken first.
 * Inserting a number that is in use replaces its packet.
 */
module BackLog {
  import opened Base

  const U16 := 0x1_0000
  const U64_MAX := 0xFFFF_FFFF_FFFF_FFFF

  /** `Message::Routed`, of which the session looks at the sequence number it was given. */
  datatype Routed<P> = Routed(seqno: nat, publish: P)

  /** `Message::Packet` */
  datatype Packet<P> = Packet(seqno: nat, id: nat, publish: P)

  type Log<P> = map<nat, Packet<P>>

  ghost predicate Increasing<P>(ps: seq<Packet<P>>) {
    forall i, j :: 0 <= i < j < |ps| ==> ps[i].seqno < ps[j].seqno
  }

  ghost predicate Listed<P>(ps: seq<Packet<P>>, k: nat) {
    exists i :: 0 <= i < |ps| && ps[i].seqno == k
  }

  /** Inserting packets one after the other under their sequence numbers. */
  ghost function Insert<P>(log: Log<P>, ps: seq<Packet<P>>): Log<P> {
    if ps == [] then log else Insert(log, ps[..|ps| - 1])[ps[|ps| - 1].seqno := ps[|ps| - 1]]
  }

  /** The map of these packets. */
  ghost function AsLog<P>(ps: seq<Packet<P>>): Log<P> {
    Insert(map[], ps)
  }

  ghost predicate IsLog<P>(log: Log<P>, ps: seq<Packet<P>>) {
    log == AsLog(ps)
  }

  /** The map holds exactly these packets. */
  ghost predicate Holds<P>(log: Log<P>, ps: seq<Packet<P>>) {
    && (forall k :: k in log ==> Listed(ps, k))
    && (forall i :: 0 <= i < |ps| ==> ps[i].seqno in log && log[ps[i].seqno] == ps[i])
  }

  lemma {:induction false} LogHolds<P>(ps: seq<Packet<P>>)
    requires Increasing(ps)
    ensures Holds(AsLog(ps), ps)
    decreases |ps|
  {
    if ps != [] {
      var init, last := ps[..|ps| - 1], ps[|ps| - 1];
      LogHolds(init);
      assert ps[|ps| - 1].seqno == last.seqno;
      forall k | k in AsLog(ps) ensures Listed(ps, k) {
        if k != last.seqno {
          assert Listed(init, k);
          var i :| 0 <= i < |init| && init[i].seqno == k;
          assert ps[i].seqno == k;
        }
      }
      forall i | 0 <= i < |ps| - 1 ensures ps[i].seqno in AsLog(ps) && AsLog(ps)[ps[i].seqno] == ps[i] {
        assert ps[i] == init[i] && ps[i].seqno < last.seqno;
      }
    }
  }

  lemma HoldsIsLog<P>(log: Log<P>, ps: seq<Packet<P>>)
    requires Increasing(ps) && Holds(log, ps)
    ensures IsLog(log, ps)
  {
    LogHolds(ps);
    var other := AsLog(ps);
    forall k ensures (k in log <==> k in other) && (k in log ==> log[k] == other[k]) {
      if k in log {
        assert Listed(ps, k);
      }
      if k in other {
        assert Listed(ps, k);
      }
    }
  }

  lemma InsertAnywhere<P>(log: Log<P>, a: seq<Packet<P>>, b: seq<Packet<P>>, p: Packet<P>)
    requires IsLog(log, a + b) && Increasing(a + [p] + b)
    ensures IsLog(log[p.seqno := p], a + [p] + b)
  {
    var all, ab, log' := a + [p] + b, a + b, log[p.seqno := p];
    assert forall i :: 0 <= i < |ab| ==> ab[i] == all[if i < |a| then i else i + 1];
    assert Increasing(ab);
    LogHolds(ab);
    forall k | k in log' ensures Listed(all, k) {
      if k == p.seqno {
        assert all[|a|].seqno == k;
      } else {
        assert Listed(ab, k);
        var i :| 0 <= i < |ab| && ab[i].seqno == k;
        assert all[if i < |a| then i else i + 1].seqno == k;
      }
    }
    forall i | 0 <= i < |all| ensures all[i].seqno in log' && log'[all[i].seqno] == all[i] {
      if i != |a| {
        var j := if i < |a| then i else i - 1;
        assert all[i] == ab[j];
        assert all[i].seqno != all[|a|].seqno;
      }
    }
    HoldsIsLog(log', all);
  }

  /** The smallest key is the first packet's. */
  lemma FirstIsLeast<P>(log: Log<P>, ps: seq<Packet<P>>, k: nat)
    requires IsLog(log, ps) && Increasing(ps) && IsLeast(log, k)
    ensures ps != [] && ps[0].seqno == k && log[k] == ps[0]
    ensures IsLog(log - {k}, ps[1..])
  {
    LogHolds(ps);
    assert Listed(ps, k);
    var i :| 0 <= i < |ps| && ps[i].seqno == k;
    assert ps[0].seqno in log;
    forall j | j in log - {k} ensures Listed(ps[1..], j) {
      assert Listed(ps, j);
      var m :| 0 <= m < |ps| && ps[m].seqno == j;
      assert ps[1..][m - 1].seqno == j;
    }
    forall m | 0 <= m < |ps[1..]| ensures ps[1..][m].seqno in log - {k} && (log - {k})[ps[1..][m].seqno] == ps[1..][m] {
      assert ps[1..][m] == ps[m + 1] && ps[0].seqno < ps[m + 1].seqno;
    }
    Sliced(ps, 1);
    HoldsIsLog(log - {k}, ps[1..]);
  }

  predicate IsLeast<P>(log: Log<P>, k: nat) {
    k in log && forall j :: j in log ==> k <= j
  }

  lemma FirstIsThere<P>(log: Log<P>, ps: seq<Packet<P>>)
    requires IsLog(log, ps) && Increasing(ps)
    ensures if ps == [] then log == map[] else IsLeast(log, ps[0].seqno)
  {
    LogHolds(ps);
    forall j | j in log ensures ps != [] && ps[0].seqno <= j {
      assert Listed(ps, j);
    }
  }

  /** `pop_first` */
  method PopFirst<P>(log: Log<P>, ghost ps: seq<Packet<P>>) returns (p: Packet<P>, log': Log<P>)
    requires IsLog(log, ps) && Increasing(ps) && log != map[]
    ensures ps != [] && p == ps[0] && IsLog(log', ps[1..])
  {
    FirstIsThere(log, ps);
    var k :| IsLeast(log, k);
    FirstIsLeast(log, ps, k);
    return log[k], log - {k};
  }

  // ----- The packets of a map, in order -----

  ghost predicate Keyed<P>(log: Log<P>) {
    forall k :: k in log ==> log[k].seqno == k
  }

  lemma {:induction false} HasLeast<P>(log: Log<P>)
    requires log != map[]
    ensures exists k :: IsLeast(log, k)
    decreases |log|
  {
    var k :| k in log;
    var rest := log - {k};
    if rest == map[] {
      assert forall j :: j in log ==> j == k || j in rest;
      assert IsLeast(log, k);
    } else {
      HasLeast(rest);
      var m :| IsLeast(rest, m);
      assert forall j :: j in log ==> j == k || j in rest;
      assert IsLeast(log, if m < k then m else k);
    }
  }

  ghost function Listing<P>(log: Log<P>): (ps: seq<Packet<P>>)
    decreases |log|
  {
    if log == map[] then []
    else
      HasLeast(log);
      var k :| IsLeast(log, k);
      [log[k]] + Listing(log - {k})
  }

  /** Every map lists its packets in order, each once. */
  lemma {:induction false} ListingLists<P>(log: Log<P>)
    requires Keyed(log)
    ensures Increasing(Listing(log)) && Holds(log, Listing(log)) && |Listing(log)| == |log|
    decreases |log|
  {
    if log != map[] {
      HasLeast(log);
      var k :| IsLeast(log, k) && Listing(log) == [log[k]] + Listing(log - {k});
      ListingLists(log - {k});
      ListedNext(log, k, Listing(log - {k}));
    }
  }

  lemma ListedNext<P>(log: Log<P>, k: nat, ps: seq<Packet<P>>)
    requires Keyed(log) && IsLeast(log, k) && Increasing(ps) && Holds(log - {k}, ps)
    ensures Increasing([log[k]] + ps) && Holds(log, [log[k]] + ps)
  {
    forall j | j in log ensures Listed([log[k]] + ps, j) {
      assert j != k ==> j in log - {k};
      ListedFirst(log[k], ps, j);
    }
  }

  lemma ListedFirst<P>(p: Packet<P>, ps: seq<Packet<P>>, k: nat)
    requires k == p.seqno || Listed(ps, k)
    ensures Listed([p] + ps, k)
  {
    if k == p.seqno {
      assert ([p] + ps)[0].seqno == k;
    } else {
      var i :| 0 <= i < |ps| && ps[i].seqno == k;
      assert ([p] + ps)[i + 1].seqno == k;
    }
  }

  /** There is no other such list. */
  lemma {:induction false} ListingUnique<P>(log: Log<P>, ps: seq<Packet<P>>)
    requires Increasing(ps) && IsLog(log, ps)
    ensures Listing(log) == ps
    decreases |ps|
  {
    FirstIsThere(log, ps);
    if ps != [] {
      HasLeast(log);
      var k :| IsLeast(log, k) && Listing(log) == [log[k]] + Listing(log - {k});
      FirstIsLeast(log, ps, k);
      Sliced(ps, 1);
      ListingUnique(log - {k}, ps[1..]);
    }
  }

  lemma ListingIs<P>(log: Log<P>)
    requires Keyed(log)
    ensures Increasing(Listing(log)) && IsLog(log, Listing(log)) && |Listing(log)| == |log|
  {
    ListingLists(log);
    HoldsIsLog(log, Listing(log));
  }

  lemma {:induction false} InsertKeeps<P>(log: Log<P>, ps: seq<Packet<P>>)
    ensures forall k :: k in Insert(log, ps) <==> k in log || Listed(ps, k)
    ensures Keyed(log) ==> Keyed(Insert(log, ps))
    decreases |ps|
  {
    if ps != [] {
      var init, last := ps[..|ps| - 1], ps[|ps| - 1];
      InsertKeeps(log, init);
      assert ps == init + [last];
      forall k ensures Listed(ps, k) <==> Listed(init, k) || k == last.seqno {
        ListedLast(init, last, k);
      }
    }
  }

  lemma ListedLast<P>(ps: seq<Packet<P>>, p: Packet<P>, k: nat)
    ensures Listed(ps + [p], k) <==> Listed(ps, k) || k == p.seqno
  {
    var all := ps + [p];
    assert all[|ps|] == p;
    if Listed(ps, k) {
      var i :| 0 <= i < |ps| && ps[i].seqno == k;
      assert all[i].seqno == k;
    }
  }

  lemma {:induction false} InsertAppends<P>(log: Log<P>, a: seq<Packet<P>>, b: seq<Packet<P>>)
    ensures Insert(log, a + b) == Insert(Insert(log, a), b)
    decreases |b|
  {
    if b == [] {
      assert a + b == a;
    } else {
      assert (a + b)[..|a + b| - 1] == a + b[..|b| - 1];
      InsertAppends(log, a, b[..|b| - 1]);
    }
  }

  // ----- Numbers in use -----

  /** No new number repeats or is in use. */
  ghost predicate Fits<P>(log: Log<P>, ps: seq<Packet<P>>) {
    && (forall i :: 0 <= i < |ps| ==> ps[i].seqno !in log)
    && (forall i, j :: 0 <= i < j < |ps| ==> ps[i].seqno != ps[j].seqno)
  }

  /** A packet is replaced exactly when the numbers do not fit. */
  lemma {:induction false} InsertCounts<P>(log: Log<P>, ps: seq<Packet<P>>)
    ensures |Insert(log, ps)| <= |log| + |ps|
    ensures |Insert(log, ps)| == |log| + |ps| <==> Fits(log, ps)
    decreases |ps|
  {
    if ps != [] {
      var init, last := ps[..|ps| - 1], ps[|ps| - 1];
      assert ps == init + [last];
      InsertCounts(log, init);
      FitsLast(log, init, last);
      OneInserted(Insert(log, init), last.seqno, last);
      assert last.seqno in Insert(log, init) <==> last.seqno in log || Listed(init, last.seqno) by {
        InsertKeeps(log, init);
      }
    }
  }

  lemma OneInserted<P>(log: Log<P>, k: nat, p: Packet<P>)
    ensures |log[k := p]| == |log| + if k in log then 0 else 1
  {
    assert log[k := p].Keys == log.Keys + {k};
  }

  lemma FitsLast<P>(log: Log<P>, ps: seq<Packet<P>>, p: Packet<P>)
    ensures Fits(log, ps + [p]) <==> Fits(log, ps) && p.seqno !in log && !Listed(ps, p.seqno)
  {
    var all := ps + [p];
    assert all[|ps|] == p;
    if Fits(log, all) {
      assert forall i :: 0 <= i < |ps| ==> all[i] == ps[i];
    }
  }

  lemma GoesOn<P>(log: Log<P>, a: seq<Packet<P>>, ps: seq<Packet<P>>)
    requires Increasing(a) && Holds(log, a) && Increasing(ps) && forall k, i :: k in log && 0 <= i < |ps| ==> k < ps[i].seqno
    ensures Increasing(a + ps)
  {
  }

  /** Packets with later numbers that fit come last. */
  lemma InsertQueues<P>(log: Log<P>, ps: seq<Packet<P>>)
    requires Keyed(log) && Increasing(ps) && forall k, i :: k in log && 0 <= i < |ps| ==> k < ps[i].seqno
    ensures Listing(Insert(log, ps)) == Listing(log) + ps
  {
    var a := Listing(log);
    ListingIs(log);
    assert Increasing(a + ps) by {
      ListingLists(log);
      GoesOn(log, a, ps);
    }
    InsertAppends(map[], a, ps);
    ListingUnique(Insert(log, ps), a + ps);
  }

  // ----- The loops -----

  function Number<P>(msgs: seq<Routed<P>>, id: nat): seq<Packet<P>> {
    if msgs == [] then [] else [Packet(msgs[0].seqno, id, msgs[0].publish)] + Number(msgs[1..], (id + 1) % U16)
  }

  lemma {:induction false} NumberAt<P>(msgs: seq<Routed<P>>, id: nat)
    requires id < U16
    ensures |Number(msgs, id)| == |msgs|
    ensures forall i :: 0 <= i < |msgs| ==> Number(msgs, id)[i] == Packet(msgs[i].seqno, (id + i) % U16, msgs[i].publish)
  {
    if msgs != [] {
      NumberAt(msgs[1..], (id + 1) % U16);
      forall i | 0 <= i < |msgs| ensures Number(msgs, id)[i] == Packet(msgs[i].seqno, (id + i) % U16, msgs[i].publish) {
        if i > 0 {
          assert msgs[i] == msgs[1..][i - 1];
          Wraps(id, i);
        }
      }
    }
  }

  lemma Wraps(id: nat, i: nat)
    requires i > 0
    ensures ((id + 1) % U16 + (i - 1)) % U16 == (id + i) % U16
  {
  }

  /** `wrapping_add` of one, `n` times. */
  function Later(id: nat, n: nat): nat {
    (id + n) % U16
  }

  /** `wrapping_add` of one. */
  function NextId(start: nat, i: nat, id: nat): (id': nat)
    requires id == (start + i) % U16
    ensures id' == (start + i + 1) % U16
  {
    (id + 1) % U16
  }

  /** New messages are numbered and put into the back log. */
  method Book<P>(log: Log<P>, msgs: seq<Routed<P>>, nextId: nat) returns (log': Log<P>, nextId': nat)
    requires nextId < U16
    ensures log' == Insert(log, Number(msgs, nextId)) && nextId' == Later(nextId, |msgs|)
  {
    log', nextId' := log, nextId;
    ghost var ps := Number(msgs, nextId);
    NumberAt(msgs, nextId);
    for i := 0 to |msgs|
      invariant log' == Insert(log, ps[..i])
      invariant nextId' == (nextId + i) % U16
    {
      var p := Packet(msgs[i].seqno, nextId', msgs[i].publish);
      assert p == ps[i] && ps[..i + 1][..i] == ps[..i];
      log' := log'[p.seqno := p];
      nextId' := NextId(nextId, i, nextId');
    }
    assert ps[..|msgs|] == ps;
  }

  lemma Sliced<P>(ps: seq<Packet<P>>, n: nat)
    requires n <= |ps| && Increasing(ps)
    ensures Increasing(ps[..n]) && Increasing(ps[n..])
  {
  }

  /** Taking from the front until the batch is full. */
  method PopBatch<P>(log: Log<P>, ghost held: seq<Packet<P>>, max: nat) returns (batch: seq<Packet<P>>, log': Log<P>, ghost rest: seq<Packet<P>>)
    requires IsLog(log, held) && Increasing(held)
    ensures Parted(held, batch, rest) && |batch| == Min(max, |held|) && IsLog(log', rest)
  {
    batch, log', rest := [], log, held;
    while |batch| < max && log' != map[]
      invariant |batch| <= max && Parted(held, batch, rest)
      invariant IsLog(log', rest) && Increasing(rest)
      decreases max - |batch|
    {
      var p;
      p, log' := PopFirst(log', rest);
      Sliced(rest, 1);
      OneMore(held, batch, rest);
      rest := rest[1..];
      batch := batch + [p];
    }
    NotEmpty(log', rest);
  }

  ghost predicate Parted<P>(held: seq<Packet<P>>, batch: seq<Packet<P>>, rest: seq<Packet<P>>) {
    held == batch + rest
  }

  lemma OneMore<P>(held: seq<Packet<P>>, batch: seq<Packet<P>>, rest: seq<Packet<P>>)
    requires Parted(held, batch, rest) && rest != []
    ensures Parted(held, batch + [rest[0]], rest[1..])
  {
  }

  lemma NotEmpty<P>(log: Log<P>, ps: seq<Packet<P>>)
    requires IsLog(log, ps)
    ensures ps != [] ==> log != map[]
  {
    if ps != [] {
      assert ps[|ps| - 1].seqno in log;
    }
  }

  /** Messages that were not taken go back. */
  method PutBack<P>(log: Log<P>, ghost rest: seq<Packet<P>>, left: seq<Packet<P>>) returns (log': Log<P>)
    requires IsLog(log, rest) && Increasing(left + rest)
    ensures IsLog(log', left + rest)
  {
    log' := log;
    assert left[..0] + rest == rest;
    for i := 0 to |left|
      invariant IsLog(log', left[..i] + rest)
    {
      PutBackOne(log', left, rest, i);
      log' := log'[left[i].seqno := left[i]];
    }
    assert left[..|left|] == left;
  }

  lemma PutBackOne<P>(log: Log<P>, left: seq<Packet<P>>, rest: seq<Packet<P>>, i: nat)
    requires i < |left| && IsLog(log, left[..i] + rest) && Increasing(left + rest)
    ensures IsLog(log[left[i].seqno := left[i]], left[..i + 1] + rest)
  {
    var all := left[..i] + [left[i]] + rest;
    assert all == left[..i + 1] + rest;
    forall x, y | 0 <= x < y < |all| ensures all[x].seqno < all[y].seqno {
      assert all[x] == (left + rest)[if x <= i then x else x - i - 1 + |left|];
      assert all[y] == (left + rest)[if y <= i then y else y - i - 1 + |left|];
    }
    InsertAnywhere(log, left[..i], rest, left[i]);
  }
}
