/** `SubscribedTrie`, the shared object: one root swapped on every update, matched by a loop. */
module SubscribedTries {
  import opened Base
  import opened Mqtt
  import opened Topics
  import opened Trie
  import opened TrieContents
  import opened Subscribed
  import opened SubscribedRuns

  /** `match_topic` below a list of children: an accumulator extended child by child. */
  method MatchLoop<V>(cs: seq<Node<V>>, levels: Path) returns (acc: seq<V>)
    requires levels != []
    ensures acc == MatchForest(cs, levels)
    decreases cs
  {
    acc := [];
    var i := 0;
    assert cs[i..] == cs;
    while i < |cs|
      invariant i <= |cs|
      invariant MatchedSoFar(acc, cs, i, levels)
    {
      var child := cs[i];
      var (single, multi) := MatchLevel(levels[0], child.name);
      var found := [];
      if multi {
        found := child.values;
      } else if single {
        if |levels| == 1 {
          found := child.values;
        } else {
          found := MatchLoop(child.children, levels[1..]);
        }
      }
      assert found == MatchChild(child, levels);
      MatchedNext(acc, cs, i, levels);
      acc := acc + found;
      i := i + 1;
    }
  }

  ghost predicate MatchedSoFar<V>(acc: seq<V>, cs: seq<Node<V>>, i: nat, levels: Path)
    requires i <= |cs| && levels != []
  {
    acc + MatchForest(cs[i..], levels) == MatchForest(cs, levels)
  }

  lemma MatchedNext<V>(acc: seq<V>, cs: seq<Node<V>>, i: nat, levels: Path)
    requires i < |cs| && levels != [] && MatchedSoFar(acc, cs, i, levels)
    ensures MatchedSoFar(acc + MatchChild(cs[i], levels), cs, i + 1, levels)
  {
    assert cs[i..][0] == cs[i] && cs[i..][1..] == cs[i + 1..];
    Regrouped(acc, MatchChild(cs[i], levels), MatchForest(cs[i + 1..], levels));
  }

  class SubscribedTrie {
    var inner: State
    /** The subscriptions the trie indexes, as a flat list. */
    ghost var flat: Flat

    ghost predicate Valid()
      reads this
    {
      Agrees(inner.root, flat)
    }

    constructor ()
      ensures Valid() && inner == INITIAL && flat == []
    {
      inner := INITIAL;
      flat := [];
    }

    method Subscribe(filter: Str, v: Subscription)
      requires Valid()
      modifies this
      ensures Valid()
      ensures inner == DoSubscribe(old(inner), filter, v)
      ensures flat == FlatSubscribe(old(flat), Split(filter), v)
    {
      StepAgrees(inner, flat, Op.Subscribe(filter, v));
      inner := DoSubscribe(inner, filter, v);
      flat := FlatSubscribe(flat, Split(filter), v);
    }

    /** A crash leaves the shared root untouched. */
    method Unsubscribe(filter: Str, v: Subscription) returns (r: Result<()>)
      requires Valid()
      modifies this
      ensures Valid()
      ensures r.Err? <==> FlatCrashes(old(flat), Split(filter))
      ensures r.Ok? ==> Ok(inner) == DoUnsubscribe(old(inner), filter, v) && flat == FlatUnsubscribe(old(flat), Split(filter), v)
      ensures r.Err? ==> inner == old(inner) && flat == old(flat)
    {
      UnsubscribeCrash(inner.root, flat, Split(filter), v);
      var next := DoUnsubscribe(inner, filter, v);
      match next
      case Err(kind) => r := Err(kind);
      case Ok(st) =>
        StepAgrees(inner, flat, Op.Unsubscribe(filter, v));
        inner := st;
        flat := FlatUnsubscribe(flat, Split(filter), v);
        r := Ok(());
    }

    /** `match_topic_name`: every lookup of a split topic counts as a hit. */
    method MatchTopicName(topic: Str) returns (matches: seq<Subscription>)
      requires Valid() && ValidateName(topic).Ok?
      modifies this
      ensures Valid() && flat == old(flat) && inner.root == old(inner.root)
      ensures inner.stats == old(inner.stats).(lookups := Bump(old(inner.stats.lookups)), hits := Bump(old(inner.stats.hits)))
      ensures multiset(matches) == multiset(Pick(flat, KeepDelivered(Split(topic))))
    {
      var levels := Split(topic);
      matches := MatchLoop(RootChildren(inner.root, true), levels);
      ValidNameIsWildcardFree(topic);
      MatchDollarIsPick(inner.root, levels);
      AgreesIsPermutation(inner.root, flat);
      PickPermuted(Pairs(inner.root), flat, KeepDelivered(levels));
      inner := inner.(stats := inner.stats.(lookups := Bump(inner.stats.lookups), hits := Bump(inner.stats.hits)));
    }
  }
}
