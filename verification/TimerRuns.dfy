/** The timer over whole runs: never late, everything accounted for, and exactly when it is early. */
module TimerRuns {
  import opened Base
  import opened Timers

  /** A value with the moment it is due; the timer never looks at either. */
  datatype Dated<V> = Dated(v: V, due: nat)

  datatype Op<V> = Add(secs: nat, v: V) | Expire | Sweep | Delete(x: Dated<V>)

  datatype State<V(==)> = State(
    now: nat,
    instant: nat,
    items: Entries<Dated<V>>,
    deleted: set<Dated<V>>,
    added: multiset<Dated<V>>,
    returned: multiset<Dated<V>>,
    dropped: multiset<Dated<V>>)

  function Start<V(==)>(now: nat): State<V> {
    State(now, now, [], {}, multiset{}, multiset{}, multiset{})
  }

  function DueAt(now: nat, secs: nat): nat {
    now + secs * 1_000_000_000
  }

  function Step<V(==)>(st: State<V>, now: nat, op: Op<V>): State<V>
    requires st.instant <= st.now <= now
  {
    match op
    case Add(secs, v) =>
      var x := Dated(v, DueAt(now, secs));
      st.(now := now, items := Insert(st.items, Delay(secs, Micros(now, st.instant)), x), added := st.added + multiset{x})
    case Expire =>
      var micros := Micros(now, st.instant);
      var gone := Expired(st.items, micros, st.deleted);
      st.(now := now, instant := st.instant + 1000 * micros, items := Left(st.items, micros),
          returned := st.returned + multiset(gone),
          dropped := st.dropped + (multiset(Values(st.items[..Popped(st.items, micros)])) - multiset(gone)))
    case Sweep =>
      var items := Swept(st.items, st.deleted);
      st.(now := now, items := items, dropped := st.dropped + (multiset(Values(st.items)) - multiset(Values(items))))
    case Delete(x) =>
      st.(now := now, deleted := st.deleted + {x})
  }

  /** No entry lies beyond its due time. */
  ghost predicate NotLate<V>(instant: nat, items: Entries<Dated<V>>) {
    forall i :: 0 <= i < |items| ==> instant + 1000 * Offset(items, i) <= items[i].value.due
  }

  // ----- Never late -----

  lemma {:induction false} OffsetOfRest<T>(items: Entries<T>, k: nat, i: nat)
    requires k + i < |items|
    ensures Offset(items[k..], i) <= Offset(items, k + i)
    decreases k
  {
    if k == 0 {
      assert items[0..] == items;
    } else {
      assert items[k..] == items[1..][k - 1..];
      OffsetOfRest(items[1..], k - 1, i);
    }
  }

  lemma ShortenedOffset<T>(rest: Entries<T>, micros: nat, i: nat)
    requires i < |rest| && rest[0].delta > micros
    ensures var left := [Entry(rest[0].delta - micros, rest[0].value)] + rest[1..];
            left[i].value == rest[i].value && 1 <= Offset(left, i) == Offset(rest, i) - micros
  {
    var left := [Entry(rest[0].delta - micros, rest[0].value)] + rest[1..];
    assert left[1..] == rest[1..];
  }

  lemma LeftShape<T>(items: Entries<T>, micros: nat, k: nat, i: nat)
    requires k == Popped(items, micros) && k + i < |items|
    ensures |Left(items, micros)| == |items| - k
    ensures Left(items, micros)[i].value == items[k + i].value
    ensures 1 <= Offset(Left(items, micros), i) <= Offset(items, k + i) - micros
  {
    LeftOfRest(items[k..], micros, Left(items, micros), i);
    OffsetOfRest(items, k, i);
  }

  lemma LeftOfRest<T>(rest: Entries<T>, micros: nat, left: Entries<T>, i: nat)
    requires i < |rest| && rest[0].delta > micros && left == [Entry(rest[0].delta - micros, rest[0].value)] + rest[1..]
    ensures |left| == |rest| && left[i].value == rest[i].value && 1 <= Offset(left, i) == Offset(rest, i) - micros
  {
    ShortenedOffset(rest, micros, i);
  }

  lemma LeftNotLate<V>(instant: nat, items: Entries<Dated<V>>, now: nat)
    requires instant <= now && NotLate(instant, items)
    ensures var micros := Micros(now, instant);
            && NotLate(instant + 1000 * micros, Left(items, micros))
            && forall i :: 0 <= i < |Left(items, micros)| ==> Left(items, micros)[i].value.due > now
  {
    var micros := Micros(now, instant);
    forall i | 0 <= i < |Left(items, micros)|
      ensures instant + 1000 * micros + 1000 * Offset(Left(items, micros), i) <= Left(items, micros)[i].value.due
      ensures Left(items, micros)[i].value.due > now
    {
      var k := Popped(items, micros);
      LeftShape(items, micros, k, i);
      assert instant + 1000 * Offset(items, k + i) <= items[k + i].value.due;
    }
  }

  lemma InsertNotLate<V>(instant: nat, items: Entries<Dated<V>>, now: nat, secs: nat, x: Dated<V>)
    requires instant <= now && NotLate(instant, items) && x.due == DueAt(now, secs)
    ensures NotLate(instant, Insert(items, Delay(secs, Micros(now, instant)), x))
  {
    var d := Delay(secs, Micros(now, instant));
    var k := InsertOffsets(items, d, x);
    var items' := Insert(items, d, x);
    assert instant + 1000 * d <= x.due;
    forall i | 0 <= i < |items'| ensures instant + 1000 * Offset(items', i) <= items'[i].value.due {
      if i < k {
        assert items'[i] == items[i];
      } else if i > k {
        assert items'[i - 1 + 1].value == items[i - 1].value;
      }
    }
  }

  /** Each entry that stays lies no further out than before. */
  ghost predicate Nearer<T>(items': Entries<T>, items: Entries<T>) {
    forall i :: 0 <= i < |items'| ==> HasLater(items, items'[i].value, Offset(items', i))
  }

  ghost predicate HasLater<T>(items: Entries<T>, v: T, offset: nat) {
    exists j :: 0 <= j < |items| && items[j].value == v && offset <= Offset(items, j)
  }

  lemma HasLaterBehind<T>(items: Entries<T>, v: T, offset: nat, gap: nat)
    requires items != [] && HasLater(items[1..], v, offset) && gap <= items[0].delta
    ensures HasLater(items, v, gap + offset)
  {
    var j :| 0 <= j < |items[1..]| && items[1..][j].value == v && offset <= Offset(items[1..], j);
    assert items[j + 1].value == v && gap + offset <= Offset(items, j + 1);
  }

  lemma {:induction false} SweptIsNearer<T>(items: Entries<T>, deleted: set<T>)
    ensures Nearer(Swept(items, deleted), items)
  {
    if items != [] {
      SweptIsNearer(items[1..], deleted);
      var tail, items' := Swept(items[1..], deleted), Swept(items, deleted);
      if items[0].value in deleted {
        assert items' == tail;
        forall i | 0 <= i < |items'| ensures HasLater(items, items'[i].value, Offset(items', i)) {
          HasLaterBehind(items, items'[i].value, Offset(items', i), 0);
        }
      } else {
        assert items'[1..] == tail;
        forall i | 0 <= i < |items'| ensures HasLater(items, items'[i].value, Offset(items', i)) {
          if i == 0 {
            assert items[0].value == items'[0].value && Offset(items', 0) <= Offset(items, 0);
          } else {
            assert items'[i] == tail[i - 1];
            HasLaterBehind(items, items'[i].value, Offset(tail, i - 1), items[0].delta);
          }
        }
      }
    }
  }

  lemma SweptNotLate<V>(instant: nat, items: Entries<Dated<V>>, deleted: set<Dated<V>>)
    requires NotLate(instant, items)
    ensures NotLate(instant, Swept(items, deleted))
  {
    SweptIsNearer(items, deleted);
    var items' := Swept(items, deleted);
    forall i | 0 <= i < |items'| ensures instant + 1000 * Offset(items', i) <= items'[i].value.due {
      assert HasLater(items, items'[i].value, Offset(items', i));
    }
  }

  // ----- Everything accounted for -----

  lemma {:induction false} UndeletedParts<T>(vs: seq<T>, deleted: set<T>)
    ensures multiset(Undeleted(vs, deleted)) <= multiset(vs)
    ensures forall v :: v in Undeleted(vs, deleted) ==> v !in deleted
    ensures forall v :: v in multiset(vs) - multiset(Undeleted(vs, deleted)) ==> v in deleted
  {
    if vs != [] {
      UndeletedParts(vs[1..], deleted);
      assert vs == [vs[0]] + vs[1..];
    }
  }

  lemma {:induction false} SweptValues<T>(items: Entries<T>, deleted: set<T>)
    ensures Values(Swept(items, deleted)) == Undeleted(Values(items), deleted)
  {
    if items != [] {
      SweptValues(items[1..], deleted);
      assert Values(items)[1..] == Values(items[1..]);
      if items[0].value in deleted {
        assert Swept(items, deleted) == Swept(items[1..], deleted);
      } else {
        assert Swept(items, deleted)[1..] == Swept(items[1..], deleted);
      }
    }
  }

  lemma {:induction false} InsertValues<T>(items: Entries<T>, d: nat, v: T)
    ensures multiset(Values(Insert(items, d, v))) == multiset(Values(items)) + multiset{v}
    decreases |items|
  {
    var items' := Insert(items, d, v);
    if items == [] {
    } else if d < items[0].delta {
      assert items'[1..][1..] == items[1..];
    } else {
      InsertValues(items[1..], d - items[0].delta, v);
      assert items'[1..] == Insert(items[1..], d - items[0].delta, v);
    }
  }

  lemma LeftValues<T>(items: Entries<T>, micros: nat)
    ensures Values(items) == Values(items[..Popped(items, micros)]) + Values(Left(items, micros))
  {
    var k := Popped(items, micros);
    assert items == items[..k] + items[k..];
    ValuesAppend(items[..k], items[k..]);
    assert items[k..] != [] ==> Left(items, micros)[1..] == items[k..][1..];
  }

  /** What was added is held, was returned, or was dropped; only what was marked as deleted is dropped. */
  ghost predicate Accounted<V>(st: State<V>) {
    && st.added == multiset(Values(st.items)) + st.returned + st.dropped
    && forall x :: x in st.dropped ==> x in st.deleted
  }

  ghost predicate Inv<V>(st: State<V>) {
    st.instant <= st.now && NotLate(st.instant, st.items) && Accounted(st)
  }

  lemma AddKeeps<V>(st: State<V>, now: nat, secs: nat, v: V)
    requires Inv(st) && st.now <= now
    ensures Inv(Step(st, now, Add(secs, v)))
  {
    InsertNotLate(st.instant, st.items, now, secs, Dated(v, DueAt(now, secs)));
    InsertValues(st.items, Delay(secs, Micros(now, st.instant)), Dated(v, DueAt(now, secs)));
  }

  lemma ExpireKeeps<V>(st: State<V>, now: nat)
    requires Inv(st) && st.now <= now
    ensures Inv(Step(st, now, Expire))
  {
    var micros := Micros(now, st.instant);
    LeftNotLate(st.instant, st.items, now);
    LeftValues(st.items, micros);
    UndeletedParts(Values(st.items[..Popped(st.items, micros)]), st.deleted);
  }

  lemma SweepKeeps<V>(st: State<V>, now: nat)
    requires Inv(st) && st.now <= now
    ensures Inv(Step(st, now, Sweep))
  {
    SweptNotLate(st.instant, st.items, st.deleted);
    SweptValues(st.items, st.deleted);
    UndeletedParts(Values(st.items), st.deleted);
  }

  lemma StepKeeps<V>(st: State<V>, now: nat, op: Op<V>)
    requires Inv(st) && st.now <= now
    ensures Inv(Step(st, now, op))
  {
    match op
    case Add(secs, v) => AddKeeps(st, now, secs, v);
    case Expire => ExpireKeeps(st, now);
    case Sweep => SweepKeeps(st, now);
    case Delete(x) =>
  }

  /** The clock of a run does not go back. */
  predicate Timely<V>(now: nat, ops: seq<(nat, Op<V>)>)
    decreases |ops|
  {
    ops == [] || (now <= ops[0].0 && Timely(ops[0].0, ops[1..]))
  }

  function Run<V(==)>(st: State<V>, ops: seq<(nat, Op<V>)>): State<V>
    requires st.instant <= st.now && Timely(st.now, ops)
    decreases |ops|
  {
    if ops == [] then st
    else
      Run(Step(st, ops[0].0, ops[0].1), ops[1..])
  }

  /** Whatever was added, swept, expired or deleted before: no entry is late, and every added value is somewhere exactly once. */
  lemma {:induction false} RunKeeps<V>(st: State<V>, ops: seq<(nat, Op<V>)>)
    requires Inv(st) && Timely(st.now, ops)
    ensures Inv(Run(st, ops))
    decreases |ops|
  {
    if ops != [] {
      StepKeeps(st, ops[0].0, ops[0].1);
      RunKeeps(Step(st, ops[0].0, ops[0].1), ops[1..]);
    }
  }

  /** `expired` leaves nothing that is due, and returns nothing that is marked as deleted. */
  lemma ExpireIsPunctual<V>(st: State<V>, now: nat)
    requires Inv(st) && st.now <= now
    ensures forall x :: x in Values(Step(st, now, Expire).items) ==> x.due > now
    ensures forall x :: x in Expired(st.items, Micros(now, st.instant), st.deleted) ==> x !in st.deleted
  {
    LeftNotLate(st.instant, st.items, now);
    ValuesAreItems(Step(st, now, Expire).items);
    UndeletedParts(Values(st.items[..Popped(st.items, Micros(now, st.instant))]), st.deleted);
  }

  /** So it is after any run of a fresh timer. */
  lemma NeverLate<V>(start: nat, ops: seq<(nat, Op<V>)>, now: nat)
    requires Timely(start, ops) && Run(Start(start), ops).now <= now
    ensures var st := Run(Start(start), ops);
            st.instant <= st.now && forall x :: x in Values(Step(st, now, Expire).items) ==> x.due > now
  {
    StartInv<V>(start);
    RunKeeps(Start(start), ops);
    ExpireIsPunctual(Run(Start(start), ops), now);
  }

  // ----- Told from the requests alone -----

  /** The timeout a request sets, due its seconds after the request, if it sets one. */
  function AddNow<V(==)>(now: nat, op: Op<V>): multiset<Dated<V>> {
    if op.Add? then multiset{Dated(op.v, now + op.secs * 1_000_000_000)} else multiset{}
  }

  function Adds<V(==)>(ops: seq<(nat, Op<V>)>): multiset<Dated<V>> {
    if ops == [] then multiset{} else AddNow(ops[0].0, ops[0].1) + Adds(ops[1..])
  }

  /** The values a run marks as deleted. */
  function Deletes<V(==)>(ops: seq<(nat, Op<V>)>): set<Dated<V>> {
    if ops == [] then {} else (if ops[0].1.Delete? then {ops[0].1.x} else {}) + Deletes(ops[1..])
  }

  lemma StepRecords<V>(st: State<V>, now: nat, op: Op<V>)
    requires st.instant <= st.now <= now
    ensures var st' := Step(st, now, op);
            st'.added == st.added + AddNow(now, op) && st'.deleted == st.deleted + (if op.Delete? then {op.x} else {})
  {
  }

  lemma Sums<T>(a: multiset<T>, b: multiset<T>, c: multiset<T>)
    ensures a + b + c == a + (b + c)
  {
  }

  lemma {:induction false} RunAdds<V>(st: State<V>, ops: seq<(nat, Op<V>)>)
    requires st.instant <= st.now && Timely(st.now, ops)
    ensures Run(st, ops).added == st.added + Adds(ops)
    decreases |ops|
  {
    if ops != [] {
      var next := Step(st, ops[0].0, ops[0].1);
      assert next.added == st.added + AddNow(ops[0].0, ops[0].1) by { StepRecords(st, ops[0].0, ops[0].1); }
      RunAdds(next, ops[1..]);
      Sums(st.added, AddNow(ops[0].0, ops[0].1), Adds(ops[1..]));
    }
  }

  lemma {:induction false} RunDeletes<V>(st: State<V>, ops: seq<(nat, Op<V>)>)
    requires st.instant <= st.now && Timely(st.now, ops)
    ensures Run(st, ops).deleted == st.deleted + Deletes(ops)
    decreases |ops|
  {
    if ops != [] {
      var next := Step(st, ops[0].0, ops[0].1);
      assert next.deleted == st.deleted + (if ops[0].1.Delete? then {ops[0].1.x} else {}) by { StepRecords(st, ops[0].0, ops[0].1); }
      RunDeletes(next, ops[1..]);
    }
  }

  /** Every timeout that was set is held, was returned, or was dropped, once for each time; only marked ones are dropped. */
  lemma AllAccounted<V>(start: nat, ops: seq<(nat, Op<V>)>)
    requires Timely(start, ops)
    ensures var st := Run(Start(start), ops);
            && multiset(Values(st.items)) + st.returned + st.dropped == Adds(ops)
            && forall x :: x in st.dropped ==> x in Deletes(ops)
  {
    StartInv<V>(start);
    RunKeeps(Start(start), ops);
    RunAdds(Start<V>(start), ops);
    RunDeletes(Start<V>(start), ops);
  }

  /** A timeout that is due and not marked has been returned by the next `expired`, as often as it was set. */
  lemma DueIsReturned<V>(start: nat, ops: seq<(nat, Op<V>)>, now: nat, x: Dated<V>)
    requires Timely(start, ops) && Run(Start(start), ops).now <= now && x !in Deletes(ops) && x.due <= now
    ensures var st := Run(Start(start), ops);
            && st.instant <= st.now
            && x !in Values(Step(st, now, Expire).items)
            && st.returned[x] + multiset(Expired(st.items, Micros(now, st.instant), st.deleted))[x] == Adds(ops)[x]
  {
    var st := Run(Start(start), ops);
    StartInv<V>(start);
    RunKeeps(Start(start), ops);
    RunAdds(Start<V>(start), ops);
    RunDeletes(Start<V>(start), ops);
    NeverLate(start, ops, now);
    ExpireKeeps(st, now);
    var st' := Step(st, now, Expire);
    assert x !in Values(st'.items) && x !in multiset(Values(st'.items));
    assert x !in st'.dropped;
    assert st'.added[x] == st'.returned[x];
  }

  lemma {:induction false} ValuesAreItems<T>(items: Entries<T>)
    ensures forall x :: x in Values(items) ==> exists i :: 0 <= i < |items| && items[i].value == x
  {
    if items != [] {
      ValuesAreItems(items[1..]);
      forall x | x in Values(items) ensures exists i :: 0 <= i < |items| && items[i].value == x {
        if x == items[0].value {
          assert items[0].value == x;
        } else {
          assert x in Values(items[1..]);
          var i :| 0 <= i < |items[1..]| && items[1..][i].value == x;
          assert items[i + 1].value == x;
        }
      }
    }
  }

  lemma StartInv<V>(now: nat)
    ensures Inv(Start<V>(now))
  {
  }

  // ----- Early -----

  /** The entries that are due by the timer's own count. */
  function DueCount<T>(items: Entries<T>, micros: nat): (k: nat)
    ensures k <= |items|
  {
    if items == [] || items[0].delta > micros then 0 else 1 + DueCount(items[1..], micros - items[0].delta)
  }

  lemma {:induction false} DueByOffset<T>(items: Entries<T>, micros: nat, i: nat)
    requires i < |items|
    ensures i < DueCount(items, micros) <==> Offset(items, i) <= micros
    decreases |items|
  {
    if items[0].delta <= micros && i > 0 {
      DueByOffset(items[1..], micros - items[0].delta, i - 1);
    }
  }

  /** A new entry is placed at its due time exactly when no time has passed since the timer's instant; otherwise earlier. */
  lemma PlacedOnTime(instant: nat, now: nat, secs: nat)
    requires instant <= now
    ensures instant + 1000 * Delay(secs, Micros(now, instant)) <= DueAt(now, secs)
    ensures instant + 1000 * Delay(secs, Micros(now, instant)) == DueAt(now, secs) <==> now == instant && secs * 1_000_000 < U64
  {
  }

  /** Exactly how much earlier: by the time since the instant, counted twice, unless that is all of the timeout. */
  lemma PlacedEarlyBy(instant: nat, now: nat, secs: nat)
    requires instant <= now && secs * 1_000_000 < U64
    ensures var placed := instant + 1000 * Delay(secs, Micros(now, instant));
            if Micros(now, instant) <= secs * 1_000_000 then DueAt(now, secs) - placed == (now - instant) + 1000 * Micros(now, instant)
            else placed == instant
  {
  }

  lemma {:induction false} OffsetSplit<T>(items: Entries<T>, k: nat, i: nat)
    requires 0 < k && k + i < |items|
    ensures Offset(items, k + i) == Offset(items, k - 1) + Offset(items[k..], i)
    decreases k
  {
    if k > 1 {
      assert items[k..] == items[1..][k - 1..];
      OffsetSplit(items[1..], k - 1, i);
    }
  }

  /**
   * What `expired` leaves comes forward by the elapsed time, and by the deltas of what it took: an entry that stays is
   * as far from its due time as before exactly if nothing with a delta went before it.
   */
  lemma LeftOffset<T>(items: Entries<T>, micros: nat, i: nat)
    requires Popped(items, micros) + i < |items|
    ensures var k, left := Popped(items, micros), Left(items, micros);
            && |left| == |items| - k && left[i].value == items[k + i].value
            && Offset(left, i) + micros + (if k == 0 then 0 else Offset(items, k - 1)) == Offset(items, k + i)
  {
    var k := Popped(items, micros);
    LeftOfRest(items[k..], micros, Left(items, micros), i);
    if k == 0 {
      assert items[0..] == items;
    } else {
      OffsetSplit(items, k, i);
    }
  }

  /**
   * `expired` compares each delta with the whole elapsed time. It takes every entry that is due, and it takes
   * no other exactly when the first entry not due lies further behind its predecessor than the elapsed time.
   */
  lemma {:induction false} ExpiresExactly<T>(items: Entries<T>, micros: nat, elapsed: nat)
    requires micros <= elapsed
    ensures DueCount(items, micros) <= Popped(items, elapsed)
    ensures var k := DueCount(items, micros);
            Popped(items, elapsed) == k <==> k == |items| || items[k].delta > elapsed
    decreases |items|
  {
    if items != [] && items[0].delta <= micros {
      ExpiresExactly(items[1..], micros - items[0].delta, elapsed);
    }
  }

  /** Timeouts of three and of six seconds, set together: after four seconds both go. */
  lemma ExpiresEarly()
    ensures var ops: seq<(nat, Op<char>)> := [(0, Add(3, 'a')), (0, Add(6, 'b')), (4_000_000_000, Expire)];
            && Timely(0, ops) && Run(Start(0), ops).now == 4_000_000_000
            && Run(Start(0), ops).returned == multiset{Dated('a', 3_000_000_000), Dated('b', 6_000_000_000)}
  {
    var a, b := Dated('a', 3_000_000_000), Dated('b', 6_000_000_000);
    var st0 := Start<char>(0);
    var st1, st2 := Step(st0, 0, Add(3, 'a')), Step(Step(st0, 0, Add(3, 'a')), 0, Add(6, 'b'));
    assert Delay(3, 0) == 3_000_000 && Delay(6, 0) == 6_000_000;
    assert st1.items == [Entry(3_000_000, a)] && st1.items[1..] == [];
    assert Insert([], 3_000_000, b) == [Entry(3_000_000, b)];
    assert st2.items == [Entry(3_000_000, a), Entry(3_000_000, b)];
    BothGo(st2.items, a, b);
    ThreeSteps(st0, 0, Add(3, 'a'), 0, Add(6, 'b'), 4_000_000_000, Expire);
    assert multiset([a, b]) == multiset{a, b};
  }

  lemma ThreeSteps<V>(st: State<V>, t: nat, x: Op<V>, u: nat, y: Op<V>, v: nat, z: Op<V>)
    requires st.instant <= st.now <= t <= u <= v && x.Add? && y.Add?
    ensures Timely(st.now, [(t, x), (u, y), (v, z)])
    ensures Run(st, [(t, x), (u, y), (v, z)]) == Step(Step(Step(st, t, x), u, y), v, z)
  {
    assert [(t, x), (u, y), (v, z)][1..] == [(u, y), (v, z)] && [(u, y), (v, z)][1..] == [(v, z)] && [(v, z)][1..] == [];
    assert Timely(u, [(v, z)]) && Timely(t, [(u, y), (v, z)]);
    var st1 := Step(st, t, x);
    var st2 := Step(st1, u, y);
    assert Run(st2, [(v, z)]) == Step(st2, v, z);
    assert Run(st1, [(u, y), (v, z)]) == Run(st2, [(v, z)]);
  }

  lemma BothGo<T>(items: Entries<T>, a: T, b: T)
    requires items == [Entry(3_000_000, a), Entry(3_000_000, b)]
    ensures Expired(items, 4_000_000, {}) == [a, b] && DueCount(items, 4_000_000) == 1
  {
    var tail := [Entry(3_000_000, b)];
    assert items[1..] == tail && tail[1..] == [];
    assert Popped(tail, 4_000_000) == 1 && Popped(items, 4_000_000) == 2 && items[..2] == items;
    assert Values(tail) == [b] && Values(items) == [a, b];
    assert [a, b][1..] == [b] && [b][1..] == [];
    assert Undeleted([b], {}) == [b];
  }

  // ----- Sweeping brings entries forward -----

  /** How many unmarked entries come before one. */
  function KeptBefore<T(==)>(items: Entries<T>, deleted: set<T>, i: nat): nat
    requires i <= |items|
  {
    if i == 0 then 0 else (if items[0].value in deleted then 0 else 1) + KeptBefore(items[1..], deleted, i - 1)
  }

  /** The deltas that go with the marked entries before one. */
  function LostBefore<T(==)>(items: Entries<T>, deleted: set<T>, i: nat): nat
    requires i <= |items|
  {
    if i == 0 then 0 else (if items[0].value in deleted then items[0].delta else 0) + LostBefore(items[1..], deleted, i - 1)
  }

  lemma {:induction false} LostIsNothing<T>(items: Entries<T>, deleted: set<T>, i: nat)
    requires i <= |items|
    ensures LostBefore(items, deleted, i) == 0 <==> forall j :: 0 <= j < i && items[j].value in deleted ==> items[j].delta == 0
    decreases i
  {
    if i > 0 {
      LostIsNothing(items[1..], deleted, i - 1);
      assert forall j :: 0 < j < i ==> items[j] == items[1..][j - 1];
      if forall j :: 0 <= j < i && items[j].value in deleted ==> items[j].delta == 0 {
        forall j | 0 <= j < i - 1 && items[1..][j].value in deleted ensures items[1..][j].delta == 0 {
          assert items[1..][j] == items[j + 1];
        }
      }
    }
  }

  /** Entry `i` is entry `k` now, and nearer by `lost`. */
  ghost predicate Forward<T>(items: Entries<T>, i: nat, items': Entries<T>, k: nat, lost: nat) {
    i < |items| && k < |items'| && items'[k].value == items[i].value && Offset(items', k) == Offset(items, i) - lost
  }

  lemma ForwardKept<T>(x: Entry<T>, tail: Entries<T>, i: nat, tail': Entries<T>, k: nat, lost: nat)
    requires Forward(tail, i, tail', k, lost)
    ensures Forward([x] + tail, i + 1, [x] + tail', k + 1, lost)
  {
    assert ([x] + tail)[1..] == tail && ([x] + tail')[1..] == tail';
  }

  lemma ForwardLost<T>(x: Entry<T>, tail: Entries<T>, i: nat, tail': Entries<T>, k: nat, lost: nat)
    requires Forward(tail, i, tail', k, lost)
    ensures Forward([x] + tail, i + 1, tail', k, x.delta + lost)
  {
    assert ([x] + tail)[1..] == tail;
  }

  lemma {:induction false} SweptAt<T>(items: Entries<T>, deleted: set<T>, i: nat)
    requires i < |items| && items[i].value !in deleted
    ensures Forward(items, i, Swept(items, deleted), KeptBefore(items, deleted, i), LostBefore(items, deleted, i))
    decreases |items|
  {
    if i > 0 {
      var x, tail := items[0], items[1..];
      var tail', k, lost := Swept(tail, deleted), KeptBefore(tail, deleted, i - 1), LostBefore(tail, deleted, i - 1);
      assert items == [x] + tail;
      SweptAt(tail, deleted, i - 1);
      if x.value in deleted {
        ForwardLost(x, tail, i - 1, tail', k, lost);
        assert Swept(items, deleted) == tail';
      } else {
        ForwardKept(x, tail, i - 1, tail', k, lost);
        assert Swept(items, deleted) == [x] + tail';
      }
    } else {
      assert Swept(items, deleted)[0] == items[0];
    }
  }

  /** `gc` brings an entry forward by the deltas of the marked entries before it, so it stays put exactly when those are all zero. */
  lemma SweptOffset<T>(items: Entries<T>, deleted: set<T>, i: nat)
    requires i < |items| && items[i].value !in deleted
    ensures var items', k := Swept(items, deleted), KeptBefore(items, deleted, i);
            && k < |items'| && items'[k].value == items[i].value
            && Offset(items', k) == Offset(items, i) - LostBefore(items, deleted, i)
            && (Offset(items', k) == Offset(items, i) <==> forall j :: 0 <= j < i && items[j].value in deleted ==> items[j].delta == 0)
  {
    SweptAt(items, deleted, i);
    LostIsNothing(items, deleted, i);
  }
}
