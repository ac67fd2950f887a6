/**
 * The differential timer: a list of entries, each with the time that separates it from the one before.
 * Time is in nanoseconds and passed in; the list counts whole microseconds since the timer's instant.
 */
module Timers {
  import opened Base

  datatype Entry<T> = Entry(delta: nat, value: T)

  type Entries<T> = seq<Entry<T>>

  const U64 := 0x1_0000_0000_0000_0000

  /** How far behind the timer's instant an entry lies: the deltas up to and including its own. */
  function Offset<T>(items: Entries<T>, i: nat): nat
    requires i < |items|
  {
    items[0].delta + if i == 0 then 0 else Offset(items[1..], i - 1)
  }

  function Values<T>(items: Entries<T>): seq<T> {
    if items == [] then [] else [items[0].value] + Values(items[1..])
  }

  // ----- add_timeout -----

  /** The walk of `add_timeout`: past every entry that is not later, splitting the delta of the next one. */
  function Insert<T>(items: Entries<T>, d: nat, v: T): Entries<T> {
    if items == [] then [Entry(d, v)]
    else if d < items[0].delta then [Entry(d, v), Entry(items[0].delta - d, items[0].value)] + items[1..]
    else [items[0]] + Insert(items[1..], d - items[0].delta, v)
  }

  /** The new entry's delay: the timeout, with 64-bit wrap-around, less the time since the timer's instant, not below zero. */
  function Delay(secs: nat, elapsed: nat): nat {
    var micros := secs * 1_000_000 % U64;
    if micros < elapsed then 0 else micros - elapsed
  }

  /** What an insertion at `k` leaves alone and what it adds. */
  ghost predicate InsertedAt<T>(items: Entries<T>, d: nat, v: T, items': Entries<T>, k: nat) {
    && k <= |items| && |items'| == |items| + 1
    && items'[k].value == v && Offset(items', k) == d
    && (forall i :: 0 <= i < k ==> items'[i] == items[i] && Offset(items', i) == Offset(items, i) <= d)
    && (forall i :: k <= i < |items| ==> items'[i + 1].value == items[i].value && Offset(items', i + 1) == Offset(items, i) && d < Offset(items, i))
  }

  /** A new entry comes behind all that are due no later; every other offset stays. */
  lemma {:induction false} InsertOffsets<T>(items: Entries<T>, d: nat, v: T) returns (k: nat)
    ensures InsertedAt(items, d, v, Insert(items, d, v), k)
    decreases |items|
  {
    var items' := Insert(items, d, v);
    if items == [] {
      k := 0;
    } else if d < items[0].delta {
      k := 0;
      forall i | 0 <= i < |items|
        ensures items'[i + 1].value == items[i].value && Offset(items', i + 1) == Offset(items, i) && d < Offset(items, i)
      {
        assert items'[1..][1..] == items[1..];
      }
    } else {
      var j := InsertOffsets(items[1..], d - items[0].delta, v);
      k := j + 1;
      InsertedBehind(items, d, v, j);
    }
  }

  lemma InsertedBehind<T>(items: Entries<T>, d: nat, v: T, j: nat)
    requires items != [] && items[0].delta <= d
    requires InsertedAt(items[1..], d - items[0].delta, v, Insert(items[1..], d - items[0].delta, v), j)
    ensures InsertedAt(items, d, v, Insert(items, d, v), j + 1)
  {
    var items', tail', tail := Insert(items, d, v), Insert(items[1..], d - items[0].delta, v), items[1..];
    assert items'[1..] == tail';
    forall i | 0 <= i < j + 1 ensures items'[i] == items[i] && Offset(items', i) == Offset(items, i) <= d {
      if i > 0 {
        assert items'[i] == tail'[i - 1] == tail[i - 1];
      }
    }
    forall i | j + 1 <= i < |items|
      ensures items'[i + 1].value == items[i].value && Offset(items', i + 1) == Offset(items, i) && d < Offset(items, i)
    {
      assert items'[i + 1] == tail'[i - 1 + 1] && items[i] == tail[i - 1];
    }
  }

  // ----- expired -----

  /** How many entries the loop of `expired` takes: those before the first whose own delta exceeds the elapsed time. */
  function Popped<T>(items: Entries<T>, micros: nat): (k: nat)
    ensures k <= |items|
    ensures forall i :: 0 <= i < k ==> items[i].delta <= micros
    ensures k < |items| ==> items[k].delta > micros
  {
    if items == [] || items[0].delta > micros then 0 else 1 + Popped(items[1..], micros)
  }

  /** What stays: the rest, its first delta shortened. */
  function Left<T>(items: Entries<T>, micros: nat): Entries<T> {
    var rest := items[Popped(items, micros)..];
    if rest == [] then [] else [Entry(rest[0].delta - micros, rest[0].value)] + rest[1..]
  }

  function Undeleted<T(==)>(vs: seq<T>, deleted: set<T>): seq<T> {
    if vs == [] then []
    else (if vs[0] in deleted then [] else [vs[0]]) + Undeleted(vs[1..], deleted)
  }

  /** What is returned: the taken values not marked as deleted. */
  function Expired<T(==)>(items: Entries<T>, micros: nat, deleted: set<T>): seq<T> {
    Undeleted(Values(items[..Popped(items, micros)]), deleted)
  }

  function Micros(now: nat, instant: nat): nat
    requires instant <= now
  {
    (now - instant) / 1000
  }

  // ----- gc -----

  /** Entries marked as deleted go; their delta goes with them. */
  function Swept<T(==)>(items: Entries<T>, deleted: set<T>): Entries<T> {
    if items == [] then []
    else (if items[0].value in deleted then [] else [items[0]]) + Swept(items[1..], deleted)
  }

  // ----- The object -----

  class Timer<T(==)> {
    var instant: nat
    var items: Entries<T>

    constructor (now: nat)
      ensures instant == now && items == []
    {
      instant := now;
      items := [];
    }

    method AddTimeout(now: nat, secs: nat, value: T)
      requires instant <= now
      modifies this`items
      ensures items == Insert(old(items), Delay(secs, Micros(now, instant)), value)
    {
      items := InsertLoop(items, Delay(secs, Micros(now, instant)), value);
    }

    method TakeExpired(now: nat, deleted: set<T>) returns (expired: seq<T>)
      requires instant <= now
      modifies this
      ensures var micros := Micros(now, old(instant));
              && instant == old(instant) + 1000 * micros
              && items == Left(old(items), micros)
              && expired == Expired(old(items), micros, deleted)
    {
      var micros := Micros(now, instant);
      instant := instant + 1000 * micros;
      expired := [];
      ghost var k := 0;
      while items != [] && items[0].delta <= micros
        invariant instant == old(instant) + 1000 * micros
        invariant k <= |old(items)| && items == old(items)[k..]
        invariant Popped(old(items), micros) == k + Popped(items, micros)
        invariant expired == Undeleted(Values(old(items)[..k]), deleted)
        decreases |items|
      {
        UndeletedNext(old(items), k, deleted);
        if items[0].value !in deleted {
          expired := expired + [items[0].value];
        }
        items := items[1..];
        k := k + 1;
      }
      if items != [] {
        items := [Entry(items[0].delta - micros, items[0].value)] + items[1..];
      }
    }

    method Gc(deleted: set<T>) returns (gced: seq<T>)
      modifies this`items
      ensures items == Swept(old(items), deleted)
      ensures forall v :: v in gced ==> v in deleted
      ensures multiset(Values(items)) + multiset(gced) == multiset(Values(old(items)))
    {
      items, gced := SweepLoop(items, deleted);
    }

    method Close() returns (values: seq<T>)
      modifies this`items
      ensures items == [] && values == Values(old(items))
    {
      values := [];
      while items != []
        invariant values + Values(items) == Values(old(items))
        decreases |items|
      {
        values := values + [items[0].value];
        items := items[1..];
      }
    }
  }

  /** The loop of `add_timeout`. */
  method InsertLoop<T>(items: Entries<T>, d: nat, v: T) returns (r: Entries<T>)
    ensures r == Insert(items, d, v)
  {
    var ndelta: nat := d;
    var prev := 0;
    assert items[prev..] == items;
    while prev < |items| && ndelta >= items[prev].delta
      invariant prev <= |items|
      invariant InsertSoFar(items, d, v, prev, ndelta)
    {
      InsertNext(items, d, v, prev, ndelta);
      ndelta := ndelta - items[prev].delta;
      prev := prev + 1;
    }
    InsertDone(items, d, v, prev, ndelta);
    if prev == |items| {
      return items + [Entry(ndelta, v)];
    }
    return items[..prev] + [Entry(ndelta, v), Entry(items[prev].delta - ndelta, items[prev].value)] + items[prev + 1..];
  }

  ghost predicate InsertSoFar<T>(items: Entries<T>, d: nat, v: T, prev: nat, ndelta: nat)
    requires prev <= |items|
  {
    Insert(items, d, v) == items[..prev] + Insert(items[prev..], ndelta, v)
  }

  lemma InsertNext<T>(items: Entries<T>, d: nat, v: T, prev: nat, ndelta: nat)
    requires prev < |items| && InsertSoFar(items, d, v, prev, ndelta) && items[prev].delta <= ndelta
    ensures InsertSoFar(items, d, v, prev + 1, ndelta - items[prev].delta)
  {
    assert items[prev..][1..] == items[prev + 1..];
    assert items[..prev] + [items[prev]] == items[..prev + 1];
  }

  lemma InsertDone<T>(items: Entries<T>, d: nat, v: T, prev: nat, ndelta: nat)
    requires prev <= |items| && InsertSoFar(items, d, v, prev, ndelta) && (prev < |items| ==> ndelta < items[prev].delta)
    ensures Insert(items, d, v) ==
            if prev == |items| then items + [Entry(ndelta, v)]
            else items[..prev] + [Entry(ndelta, v), Entry(items[prev].delta - ndelta, items[prev].value)] + items[prev + 1..]
  {
    if prev == |items| {
      assert items[..prev] == items;
    } else {
      assert items[prev..][1..] == items[prev + 1..];
    }
  }

  /** The loop of `gc`. */
  method SweepLoop<T(==)>(all: Entries<T>, deleted: set<T>) returns (items: Entries<T>, gced: seq<T>)
    ensures items == Swept(all, deleted)
    ensures forall v :: v in gced ==> v in deleted
    ensures multiset(Values(items)) + multiset(gced) == multiset(Values(all))
  {
    items, gced := all, [];
    var prev := 0;
    assert all[prev..] == all;
    while prev < |items|
      invariant prev <= |items|
      invariant SweptSoFar(all, items, prev, deleted)
      invariant forall v :: v in gced ==> v in deleted
      invariant multiset(Values(items)) + multiset(gced) == multiset(Values(all))
      decreases |items| - prev
    {
      SweptNext(all, items, prev, deleted);
      if items[prev].value in deleted {
        ValuesWithout(items, prev);
        gced := gced + [items[prev].value];
        items := items[..prev] + items[prev + 1..];
      } else {
        prev := prev + 1;
      }
    }
    assert items[..prev] == items;
  }

  ghost predicate SweptSoFar<T>(all: Entries<T>, items: Entries<T>, prev: nat, deleted: set<T>)
    requires prev <= |items|
  {
    Swept(all, deleted) == items[..prev] + Swept(items[prev..], deleted)
  }

  lemma SweptNext<T>(all: Entries<T>, items: Entries<T>, prev: nat, deleted: set<T>)
    requires prev < |items| && SweptSoFar(all, items, prev, deleted)
    ensures if items[prev].value in deleted then SweptSoFar(all, items[..prev] + items[prev + 1..], prev, deleted)
            else SweptSoFar(all, items, prev + 1, deleted)
  {
    assert items[prev..][1..] == items[prev + 1..];
    if items[prev].value in deleted {
      var items' := items[..prev] + items[prev + 1..];
      assert items'[..prev] == items[..prev] && items'[prev..] == items[prev + 1..];
    } else {
      assert items[..prev] + [items[prev]] == items[..prev + 1];
    }
  }

  lemma {:induction false} ValuesAppend<T>(a: Entries<T>, b: Entries<T>)
    ensures Values(a + b) == Values(a) + Values(b)
  {
    if a == [] {
      assert a + b == b;
    } else {
      assert (a + b)[1..] == a[1..] + b && (a + b)[0] == a[0];
      ValuesAppend(a[1..], b);
    }
  }

  lemma {:induction false} UndeletedAppend<T>(a: seq<T>, b: seq<T>, deleted: set<T>)
    ensures Undeleted(a + b, deleted) == Undeleted(a, deleted) + Undeleted(b, deleted)
  {
    if a == [] {
      assert a + b == b;
    } else {
      assert (a + b)[1..] == a[1..] + b && (a + b)[0] == a[0];
      UndeletedAppend(a[1..], b, deleted);
      var head := if a[0] in deleted then [] else [a[0]];
      assert head + (Undeleted(a[1..], deleted) + Undeleted(b, deleted)) == head + Undeleted(a[1..], deleted) + Undeleted(b, deleted);
    }
  }

  lemma UndeletedNext<T>(items: Entries<T>, k: nat, deleted: set<T>)
    requires k < |items|
    ensures Undeleted(Values(items[..k + 1]), deleted) ==
            Undeleted(Values(items[..k]), deleted) + if items[k].value in deleted then [] else [items[k].value]
  {
    assert items[..k + 1] == items[..k] + [items[k]];
    ValuesAppend(items[..k], [items[k]]);
    assert Values([items[k]]) == [items[k].value];
    UndeletedAppend(Values(items[..k]), [items[k].value], deleted);
  }

  lemma ValuesWithout<T>(items: Entries<T>, i: nat)
    requires i < |items|
    ensures multiset(Values(items)) == multiset(Values(items[..i] + items[i + 1..])) + multiset{items[i].value}
  {
    SplitAt(items, i);
    ValuesMiddle(items[..i], items[i], items[i + 1..]);
  }

  lemma ValuesMiddle<T>(a: Entries<T>, x: Entry<T>, b: Entries<T>)
    ensures multiset(Values(a + ([x] + b))) == multiset(Values(a + b)) + multiset{x.value}
  {
    ValuesAppend(a, [x] + b);
    ValuesAppend([x], b);
    ValuesAppend(a, b);
    assert Values([x]) == [x.value];
  }
}
