/** The values of a node of the subscription trie: lists sorted by client and filter. */
module Subscribed {
  import opened Base
  import opened Mqtt
  import opened Topics
  import opened Trie

  type Values = seq<Subscription>
  type Flat = seq<(Path, Subscription)>

  // ----- Value lists -----

  function SearchValue(vs: Values, v: Subscription): (off: nat)
    ensures off <= |vs|
    ensures forall i :: 0 <= i < off ==> KeyLess(vs[i], v)
    ensures off < |vs| ==> !KeyLess(vs[off], v)
  {
    if vs == [] || !KeyLess(vs[0], v) then 0
    else
      var off := SearchValue(vs[1..], v);
      assert forall i :: 0 < i < 1 + off ==> vs[i] == vs[1..][i - 1];
      1 + off
  }

  /** `insert_value` */
  function InsertValue(vs: Values, v: Subscription): Edit<Subscription> {
    if |vs| == 0 then Edit([v], true, false)
    else
      var off := SearchValue(vs, v);
      if off < |vs| && SameKey(vs[off], v) then Edit(vs, false, true)
      else Edit(Inserted(vs, off, v), false, false)
  }

  /** `remove_value`: the only value is compared in full, several are searched by key. */
  function RemoveValue(vs: Values, v: Subscription): Cut<Subscription> {
    if |vs| == 0 then Unreachable
    else if |vs| == 1 then
      if Equal(vs[0], v) then Cut([], true, false) else Cut(vs, false, true)
    else
      var off := SearchValue(vs, v);
      if off < |vs| && SameKey(vs[off], v) then Cut(Without(vs, off), false, false)
      else Cut(vs, false, true)
  }

  function Inserting(v: Subscription): Values -> Edit<Subscription> {
    vs => InsertValue(vs, v)
  }

  function Removing(v: Subscription): Values -> Cut<Subscription> {
    vs => RemoveValue(vs, v)
  }

  ghost predicate ValuesSorted(vs: Values) {
    forall i, j :: 0 <= i < j < |vs| ==> KeyLess(vs[i], vs[j])
  }

  predicate HasKey(vs: Values, v: Subscription) {
    exists i :: 0 <= i < |vs| && SameKey(vs[i], v)
  }

  lemma SearchValueFinds(vs: Values, v: Subscription, i: nat)
    requires ValuesSorted(vs) && i < |vs| && SameKey(vs[i], v)
    ensures SearchValue(vs, v) == i
  {
    KeyIrreflexive(vs[i], v);
    assert forall k :: 0 <= k < i ==> KeyLess(vs[k], vs[i]);
    assert forall k :: 0 <= k < i ==> KeyLess(vs[k], v);
  }

  lemma InsertValueKeepsOrder(vs: Values, v: Subscription)
    requires ValuesSorted(vs)
    ensures var e := InsertValue(vs, v);
            && ValuesSorted(e.values) && e.values != []
            && e.first == (vs == []) && e.repeat == HasKey(vs, v)
            && if HasKey(vs, v) then e.values == vs else multiset(e.values) == multiset(vs) + multiset{v}
  {
    var off := SearchValue(vs, v);
    if HasKey(vs, v) {
      var i :| 0 <= i < |vs| && SameKey(vs[i], v);
      SearchValueFinds(vs, v, i);
    } else {
      forall i | off <= i < |vs| ensures KeyLess(v, vs[i]) {
        KeyTotal(v, vs[off]);
        if off < i {
          KeyTransitive(v, vs[off], vs[i]);
        }
      }
      InsertedInOrder(vs, v, off);
    }
  }

  lemma InsertedInOrder(vs: Values, v: Subscription, off: nat)
    requires ValuesSorted(vs) && off <= |vs|
    requires forall i :: 0 <= i < off ==> KeyLess(vs[i], v)
    requires forall i :: off <= i < |vs| ==> KeyLess(v, vs[i])
    ensures ValuesSorted(Inserted(vs, off, v)) && multiset(Inserted(vs, off, v)) == multiset(vs) + multiset{v}
  {
    MultisetInserted(vs, off, v);
    var ws := Inserted(vs, off, v);
    forall i, j | 0 <= i < j < |ws| ensures KeyLess(ws[i], ws[j]) {
      InsertedIndex(vs, off, v, i);
      InsertedIndex(vs, off, v, j);
    }
  }

  lemma WithoutInOrder(vs: Values, off: nat)
    requires ValuesSorted(vs) && off < |vs|
    ensures ValuesSorted(Without(vs, off))
    ensures forall j :: 0 <= j < |vs| - 1 ==> !SameKey(Without(vs, off)[j], vs[off])
  {
    var ws := Without(vs, off);
    forall i, j | 0 <= i < j < |ws| ensures KeyLess(ws[i], ws[j]) {
      WithoutIndex(vs, off, i);
      WithoutIndex(vs, off, j);
    }
    forall j | 0 <= j < |ws| ensures !SameKey(ws[j], vs[off]) {
      WithoutIndex(vs, off, j);
      DifferentKeys(ws[j], vs[off]);
    }
  }

  lemma DifferentKeys(a: Subscription, b: Subscription)
    ensures KeyLess(a, b) || KeyLess(b, a) ==> !SameKey(a, b)
  {
    if SameKey(a, b) {
      KeyIrreflexive(a, b);
      KeyIrreflexive(b, a);
    }
  }

  /** Removing keeps the order and takes out the value with the given key, unless the only value differs in an option. */
  lemma RemoveValueTakesKey(vs: Values, v: Subscription)
    requires ValuesSorted(vs) && vs != []
    ensures var c := RemoveValue(vs, v);
            && c.Cut? && ValuesSorted(c.values)
            && c.last == (c.values == []) && c.missing == (c.values == vs)
            && if HasKey(vs, v) && !(|vs| == 1 && !Equal(vs[0], v)) then
                 !HasKey(c.values, v) && exists u :: u in vs && SameKey(u, v) && multiset(c.values) == multiset(vs) - multiset{u}
               else c.values == vs
  {
    if HasKey(vs, v) {
      var i :| 0 <= i < |vs| && SameKey(vs[i], v);
      SearchValueFinds(vs, v, i);
      TakenOut(vs, v, i);
    }
  }

  lemma TakenOut(vs: Values, v: Subscription, i: nat)
    requires ValuesSorted(vs) && i < |vs| && SameKey(vs[i], v)
    ensures ValuesSorted(Without(vs, i)) && !HasKey(Without(vs, i), v) && Without(vs, i) != vs
    ensures vs[i] in vs && multiset(Without(vs, i)) == multiset(vs) - multiset{vs[i]}
  {
    MultisetWithout(vs, i);
    WithoutInOrder(vs, i);
  }

  lemma RemoveInsertedValue(vs: Values, v: Subscription)
    requires ValuesSorted(vs) && !HasKey(vs, v)
    ensures RemoveValue(InsertValue(vs, v).values, v) == Cut(vs, vs == [], false)
  {
    InsertValueKeepsOrder(vs, v);
    var ws := InsertValue(vs, v).values;
    var off := SearchValue(vs, v);
    if vs != [] {
      WithoutInserted(vs, off, v);
      SearchValueFinds(ws, v, off);
    }
  }

  lemma SortedValuesSameHead(vs: Values, ws: Values)
    requires ValuesSorted(vs) && ValuesSorted(ws) && multiset(vs) == multiset(ws) && vs != [] && ws != []
    ensures vs[0] == ws[0]
  {
    assert vs[0] in multiset(vs) && ws[0] in multiset(ws);
    assert vs[0] in ws && ws[0] in vs;
    var j :| 0 <= j < |ws| && ws[j] == vs[0];
    var i :| 0 <= i < |vs| && vs[i] == ws[0];
    if i != 0 && j != 0 {
      KeyTransitive(vs[0], ws[0], vs[0]);
      KeyIrreflexive(vs[0], vs[0]);
    }
  }

  lemma TailsPermute<T>(a: seq<T>, b: seq<T>)
    requires multiset(a) == multiset(b) && a != [] && b != [] && a[0] == b[0]
    ensures multiset(a[1..]) == multiset(b[1..])
  {
    assert multiset(a[1..]) == multiset(a) - multiset{a[0]} by {
      assert a == [a[0]] + a[1..];
    }
    assert multiset(b[1..]) == multiset(b) - multiset{b[0]} by {
      assert b == [b[0]] + b[1..];
    }
  }

  /** A sorted value list is determined by its contents. */
  lemma {:induction false} SortedValuesUnique(vs: Values, ws: Values)
    requires ValuesSorted(vs) && ValuesSorted(ws) && multiset(vs) == multiset(ws)
    ensures vs == ws
  {
    assert |multiset(vs)| == |vs| && |multiset(ws)| == |ws|;
    if vs != [] {
      SortedValuesSameHead(vs, ws);
      TailsPermute(vs, ws);
      SortedValuesUnique(vs[1..], ws[1..]);
      assert vs == [vs[0]] + vs[1..] && ws == [ws[0]] + ws[1..];
    }
  }
}
