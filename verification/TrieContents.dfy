/**
 * What a trie means: the flat list of (path, value) pairs it holds. Lookups pick from that list,
 * matching picks from that list, and two well-formed tries with the same lookups are the same trie.
 */
module TrieContents {
  import opened Base
  import opened Topics
  import opened Trie

  /** The values of the pairs whose path is kept, in list order. */
  function Pick<V>(ps: seq<(Path, V)>, keep: Path -> bool): seq<V> {
    if ps == [] then []
    else (if keep(ps[0].0) then [ps[0].1] else []) + Pick(ps[1..], keep)
  }

  function Tag<V>(path: Path, vs: seq<V>): seq<(Path, V)> {
    if vs == [] then [] else [(path, vs[0])] + Tag(path, vs[1..])
  }

  /** Every stored pair, node by node in trie order. */
  function PairsNode<V>(n: Node<V>, prefix: Path): seq<(Path, V)>
    decreases n, 1
  {
    Tag(prefix, n.values) + PairsForest(n.children, prefix)
  }

  function PairsForest<V>(cs: seq<Node<V>>, prefix: Path): seq<(Path, V)>
    decreases cs, 0
  {
    if cs == [] then [] else PairsNode(cs[0], prefix + [cs[0].name]) + PairsForest(cs[1..], prefix)
  }

  function Pairs<V>(cs: seq<Node<V>>): seq<(Path, V)> {
    PairsForest(cs, [])
  }

  function KeepAt(path: Path): Path -> bool {
    p => p == path
  }

  function KeepMatching(topic: Path): Path -> bool {
    p => Matches(p, topic)
  }

  function KeepDelivered(topic: Path): Path -> bool {
    p => Delivers(p, topic)
  }

  /** The values a flat list holds at one path. */
  function At<V>(ps: seq<(Path, V)>, path: Path): seq<V> {
    Pick(ps, KeepAt(path))
  }

  lemma {:induction false} PickAppend<V>(a: seq<(Path, V)>, b: seq<(Path, V)>, keep: Path -> bool)
    ensures Pick(a + b, keep) == Pick(a, keep) + Pick(b, keep)
  {
    if a == [] {
      assert a + b == b;
    } else {
      PickAppend(a[1..], b, keep);
      assert (a + b)[1..] == a[1..] + b && (a + b)[0] == a[0];
      Regrouped(if keep(a[0].0) then [a[0].1] else [], Pick(a[1..], keep), Pick(b, keep));
    }
  }

  lemma {:induction false} PickTag<V>(path: Path, vs: seq<V>, keep: Path -> bool)
    ensures Pick(Tag(path, vs), keep) == if keep(path) then vs else []
  {
    if vs != [] {
      PickTag(path, vs[1..], keep);
      assert Tag(path, vs)[1..] == Tag(path, vs[1..]);
    }
  }

  /** Nothing is picked from below a prefix when no strict extension of it is kept. */
  lemma {:induction false} PickNothingBelow<V>(cs: seq<Node<V>>, prefix: Path, keep: Path -> bool)
    requires forall q: Path :: q != [] ==> !keep(prefix + q)
    ensures Pick(PairsForest(cs, prefix), keep) == []
    decreases cs, 0
  {
    if cs != [] {
      var p := prefix + [cs[0].name];
      assert forall q: Path :: p + q == prefix + ([cs[0].name] + q);
      PickHere(cs[0], p, keep);
      PickNothingBelow(cs[1..], prefix, keep);
      PickAppend(PairsNode(cs[0], p), PairsForest(cs[1..], prefix), keep);
      assert prefix + [cs[0].name] == p && !keep(p);
    }
  }

  /** A node contributes its own values when its path is kept and no extension of it is. */
  lemma {:induction false} PickHere<V>(n: Node<V>, prefix: Path, keep: Path -> bool)
    requires forall q: Path :: q != [] ==> !keep(prefix + q)
    ensures Pick(PairsNode(n, prefix), keep) == if keep(prefix) then n.values else []
    decreases n, 1
  {
    PickNothingBelow(n.children, prefix, keep);
    PickTag(prefix, n.values, keep);
    PickAppend(Tag(prefix, n.values), PairsForest(n.children, prefix), keep);
  }

  // ----- Lookup and matching read the flat list -----

  /** What a predicate that keeps one path below a prefix keeps below the next level. */
  lemma KeepsOneBelow(prefix: Path, name: Str, path: Path, keep: Path -> bool)
    requires path != []
    requires forall q: Path :: keep(prefix + q) <==> q == path
    ensures forall q: Path :: keep(prefix + [name] + q) <==> name == path[0] && q == path[1..]
  {
    forall q: Path ensures keep(prefix + [name] + q) <==> name == path[0] && q == path[1..] {
      assert prefix + [name] + q == prefix + ([name] + q);
      assert [name] + q == path <==> name == path[0] && q == path[1..] by {
        assert ([name] + q)[1..] == q && path == [path[0]] + path[1..];
      }
    }
  }

  /** Looking a path up in the trie yields what the flat list holds there, in the same order. */
  lemma {:induction false} LookupForestIsPick<V>(cs: seq<Node<V>>, prefix: Path, path: Path, keep: Path -> bool)
    requires WfForest(cs) && path != []
    requires forall q: Path :: keep(prefix + q) <==> q == path
    ensures LookupForest(cs, path) == Pick(PairsForest(cs, prefix), keep)
    decreases cs, 0
  {
    if cs != [] {
      var c, p := cs[0], prefix + [cs[0].name];
      PickAppend(PairsNode(c, p), PairsForest(cs[1..], prefix), keep);
      KeepsOneBelow(prefix, c.name, path, keep);
      LookupSplit(cs, path);
      LookupForestIsPick(cs[1..], prefix, path, keep);
      if c.name == path[0] {
        LookupNodeIsPick(c, p, path[1..], keep);
      } else {
        assert !keep(p + []) && p + [] == p;
        PickHere(c, p, keep);
      }
    }
  }

  /** A lookup is the first child's share followed by the share of the others. */
  lemma LookupSplit<V>(cs: seq<Node<V>>, path: Path)
    requires WfForest(cs) && cs != [] && path != []
    ensures WfNode(cs[0]) && WfForest(cs[1..])
    ensures LookupForest(cs, path) ==
            (if cs[0].name == path[0] then LookupNode(cs[0], path[1..]) else []) + LookupForest(cs[1..], path)
  {
    WfRemove(cs, 0);
    assert cs[..0] + cs[0 + 1..] == cs[1..];
    if cs[0].name == path[0] {
      FoundAt(cs, 0);
      GoneFrom(cs, 0);
    } else {
      LookupTail(cs, path);
    }
  }

  lemma LookupTail<V>(cs: seq<Node<V>>, path: Path)
    requires Sorted(cs) && cs != [] && path != [] && cs[0].name != path[0]
    ensures LookupForest(cs, path) == LookupForest(cs[1..], path)
  {
    var rest := cs[1..];
    assert Sorted(rest) by {
      assert forall i :: 0 <= i < |rest| ==> rest[i] == cs[i + 1];
    }
    LookupEdited(cs, rest, cs[0].name, path);
  }

  lemma {:induction false} LookupNodeIsPick<V>(n: Node<V>, prefix: Path, path: Path, keep: Path -> bool)
    requires WfForest(n.children)
    requires forall q: Path :: keep(prefix + q) <==> q == path
    ensures LookupNode(n, path) == Pick(PairsNode(n, prefix), keep)
    decreases n, 1
  {
    assert prefix + [] == prefix;
    if path == [] {
      PickHere(n, prefix, keep);
    } else {
      LookupForestIsPick(n.children, prefix, path, keep);
      PickTag(prefix, n.values, keep);
      PickAppend(Tag(prefix, n.values), PairsForest(n.children, prefix), keep);
      assert !keep(prefix + []);
    }
  }

  lemma LookupIsAt<V>(cs: seq<Node<V>>, path: Path)
    requires WfForest(cs) && path != []
    ensures LookupForest(cs, path) == At(Pairs(cs), path)
  {
    assert forall q: Path :: [] + q == q;
    LookupForestIsPick(cs, [], path, KeepAt(path));
  }

  /** What a predicate that keeps the matching paths below a prefix keeps below the next level. */
  lemma KeepsBelow(prefix: Path, name: Str, topic: Path, keep: Path -> bool)
    requires topic != [] && WildcardFree(topic)
    requires forall q: Path :: keep(prefix + q) <==> Matches(q, topic)
    ensures var p := prefix + [name];
            && p + [] == p
            && (name == MULTI_LEVEL ==> keep(p))
            && (name == MULTI_LEVEL ==> forall q: Path :: q != [] ==> !keep(p + q))
            && (name != MULTI_LEVEL && (name == SINGLE_LEVEL || name == topic[0]) ==> forall q: Path :: keep(p + q) <==> Matches(q, topic[1..]))
            && (name != MULTI_LEVEL && name != SINGLE_LEVEL && name != topic[0] ==> forall q: Path :: !keep(p + q))
  {
    var p := prefix + [name];
    assert p + [] == p;
    assert !IsWildcard(topic[0]);
    forall q: Path ensures keep(p + q) <==> Matches([name] + q, topic) {
      assert p + q == prefix + ([name] + q);
    }
    assert forall q: Path :: ([name] + q)[1..] == q;
  }

  /** Walking the trie with a topic yields the flat list's matching values, in the same order. */
  lemma {:induction false} MatchForestIsPick<V>(cs: seq<Node<V>>, prefix: Path, topic: Path, keep: Path -> bool)
    requires topic != [] && WildcardFree(topic)
    requires forall q: Path :: keep(prefix + q) <==> Matches(q, topic)
    ensures MatchForest(cs, topic) == Pick(PairsForest(cs, prefix), keep)
    decreases cs, 0
  {
    if cs != [] {
      var c, p := cs[0], prefix + [cs[0].name];
      PickAppend(PairsNode(c, p), PairsForest(cs[1..], prefix), keep);
      MatchForestIsPick(cs[1..], prefix, topic, keep);
      assert !IsWildcard(topic[0]);
      KeepsBelow(prefix, c.name, topic, keep);
      if c.name == MULTI_LEVEL {
        PickHere(c, p, keep);
      } else if c.name == SINGLE_LEVEL || c.name == topic[0] {
        MatchNodeIsPick(c, p, topic[1..], keep);
      } else {
        PickHere(c, p, keep);
      }
    }
  }

  lemma {:induction false} MatchNodeIsPick<V>(n: Node<V>, prefix: Path, topic: Path, keep: Path -> bool)
    requires WildcardFree(topic)
    requires forall q: Path :: keep(prefix + q) <==> Matches(q, topic)
    ensures MatchNode(n, topic) == Pick(PairsNode(n, prefix), keep)
    decreases n, 1
  {
    assert prefix + [] == prefix;
    if topic == [] {
      PickHere(n, prefix, keep);
    } else {
      MatchForestIsPick(n.children, prefix, topic, keep);
      PickTag(prefix, n.values, keep);
      PickAppend(Tag(prefix, n.values), PairsForest(n.children, prefix), keep);
      assert !Matches([], topic) && !keep(prefix + []);
    }
  }

  /** With the dollar flag clear, every matching pair is returned, once, in trie order. */
  lemma MatchAllIsPick<V>(cs: seq<Node<V>>, topic: Path)
    requires topic != [] && WildcardFree(topic)
    ensures MatchTopic(cs, topic, false) == Pick(Pairs(cs), KeepMatching(topic))
  {
    RootChildrenAll(cs);
    assert forall q: Path :: [] + q == q;
    MatchForestIsPick(cs, [], topic, KeepMatching(topic));
  }

  lemma {:induction false} RootChildrenAll<V>(cs: seq<Node<V>>)
    ensures RootChildren(cs, false) == cs
  {
    if cs != [] {
      RootChildrenAll(cs[1..]);
    }
  }

  /** What is delivered below a first level. */
  lemma DeliversBelow(name: Str, topic: Path)
    requires topic != [] && WildcardFree(topic)
    ensures [name] + [] == [name]
    ensures IsWildcard(name) ==> forall q: Path :: !KeepDelivered(topic)([name] + q)
    ensures !IsWildcard(name) && name == topic[0] ==> forall q: Path :: KeepDelivered(topic)([name] + q) <==> Matches(q, topic[1..])
    ensures !IsWildcard(name) && name != topic[0] ==> forall q: Path :: !KeepDelivered(topic)([name] + q)
  {
    forall q: Path ensures ([name] + q)[0] == name && ([name] + q)[1..] == q {
    }
  }

  /** One child of the root. */
  lemma DollarChild<V>(c: Node<V>, topic: Path)
    requires topic != [] && WildcardFree(topic)
    ensures Pick(PairsNode(c, [c.name]), KeepDelivered(topic)) == if IsWildcard(c.name) then [] else MatchChild(c, topic)
  {
    var keep := KeepDelivered(topic);
    DeliversBelow(c.name, topic);
    assert !IsWildcard(topic[0]);
    if !IsWildcard(c.name) && c.name == topic[0] {
      MatchNodeIsPick(c, [c.name], topic[1..], keep);
    } else {
      assert !keep([c.name] + []);
      PickHere(c, [c.name], keep);
    }
  }

  /** With the dollar flag set, the same minus the filters that start with a wildcard. */
  lemma {:induction false} MatchDollarIsPick<V>(cs: seq<Node<V>>, topic: Path)
    requires topic != [] && WildcardFree(topic)
    ensures MatchTopic(cs, topic, true) == Pick(Pairs(cs), KeepDelivered(topic))
  {
    if cs != [] {
      var c := cs[0];
      MatchDollarIsPick(cs[1..], topic);
      assert [] + [c.name] == [c.name];
      PickAppend(PairsNode(c, [c.name]), PairsForest(cs[1..], []), KeepDelivered(topic));
      DollarChild(c, topic);
      if !IsWildcard(c.name) {
        assert RootChildren(cs, true)[1..] == RootChildren(cs[1..], true);
      }
    }
  }

  // ----- Picking ignores order -----

  lemma {:induction false} CountAt<V>(ps: seq<(Path, V)>, path: Path, v: V)
    ensures multiset(ps)[(path, v)] == multiset(At(ps, path))[v]
  {
    if ps != [] {
      CountAt(ps[1..], path, v);
      assert ps == [ps[0]] + ps[1..];
      assert At(ps, path) == (if ps[0].0 == path then [ps[0].1] else []) + At(ps[1..], path);
    }
  }

  /** Lists with equal values at every path are permutations of one another. */
  lemma SamePairs<V>(a: seq<(Path, V)>, b: seq<(Path, V)>)
    requires forall p: Path :: multiset(At(a, p)) == multiset(At(b, p))
    ensures multiset(a) == multiset(b)
  {
    forall x: (Path, V) ensures multiset(a)[x] == multiset(b)[x] {
      CountAt(a, x.0, x.1);
      CountAt(b, x.0, x.1);
      assert x == (x.0, x.1);
    }
  }

  lemma PickWithout<V>(ps: seq<(Path, V)>, i: nat, keep: Path -> bool)
    requires i < |ps|
    ensures multiset(Pick(ps, keep)) == multiset(Pick([ps[i]], keep)) + multiset(Pick(Without(ps, i), keep))
  {
    var a, b := ps[..i], ps[i + 1..];
    assert ps == a + ([ps[i]] + b);
    PickAppend(a, [ps[i]] + b, keep);
    PickAppend([ps[i]], b, keep);
    PickAppend(a, b, keep);
  }

  /** Permuting the flat list permutes what is picked from it. */
  lemma {:induction false} PickPermuted<V>(a: seq<(Path, V)>, b: seq<(Path, V)>, keep: Path -> bool)
    requires multiset(a) == multiset(b)
    ensures multiset(Pick(a, keep)) == multiset(Pick(b, keep))
    decreases |a|
  {
    if a == [] {
      assert |multiset(b)| == |b| == 0;
    } else {
      assert a[0] in multiset(a);
      assert a[0] in b;
      var i :| 0 <= i < |b| && b[i] == a[0];
      MultisetWithout(a, 0);
      MultisetWithout(b, i);
      PickWithout(a, 0, keep);
      PickWithout(b, i, keep);
      PickPermuted(Without(a, 0), Without(b, i), keep);
    }
  }

  // ----- The form is canonical -----

  /** A well-formed node holds a value somewhere. */
  lemma {:induction false} HoldsSomething<V>(n: Node<V>) returns (path: Path)
    requires WfNode(n)
    ensures LookupNode(n, path) != []
    decreases n
  {
    if n.values != [] {
      path := [];
    } else {
      var c := n.children[0];
      assert WfNode(c);
      var q := HoldsSomething(c);
      path := [c.name] + q;
      FoundAt(n.children, 0);
      assert path[1..] == q;
    }
  }

  /** Well-formed forests with equal lookups are equal. */
  lemma {:induction false} Canonical<V>(cs: seq<Node<V>>, ds: seq<Node<V>>)
    requires WfForest(cs) && WfForest(ds)
    requires forall q: Path :: q != [] ==> LookupForest(cs, q) == LookupForest(ds, q)
    ensures cs == ds
    decreases cs, 0
  {
    if cs == [] || ds == [] {
      if cs != [] {
        var q := FirstIsVisible(cs, ds);
        assert false;
      } else if ds != [] {
        var q := FirstIsVisible(ds, cs);
        assert false;
      }
    } else {
      LessTotal(cs[0].name, ds[0].name);
      if Less(cs[0].name, ds[0].name) {
        var q := FirstIsVisible(cs, ds);
        assert false;
      } else if Less(ds[0].name, cs[0].name) {
        var q := FirstIsVisible(ds, cs);
        assert false;
      } else {
        CanonicalHeads(cs, ds);
        CanonicalNode(cs[0], ds[0]);
        CanonicalTails(cs, ds);
        Canonical(cs[1..], ds[1..]);
      }
    }
  }

  /** If no child of `ds` can have the name of the first child of `cs`, some lookup tells them apart. */
  lemma FirstIsVisible<V>(cs: seq<Node<V>>, ds: seq<Node<V>>) returns (q: Path)
    requires WfForest(cs) && WfForest(ds) && cs != []
    requires ds == [] || Less(cs[0].name, ds[0].name)
    ensures q != [] && LookupForest(cs, q) != LookupForest(ds, q)
  {
    assert WfNode(cs[0]);
    var r := HoldsSomething(cs[0]);
    q := [cs[0].name] + r;
    assert q[1..] == r;
    FoundAt(cs, 0);
    if Found(ds, cs[0].name) {
      var j := Search(ds, cs[0].name);
      LessIrreflexive(cs[0].name);
      if j > 0 {
        LessTransitive(cs[0].name, ds[0].name, ds[j].name);
      }
      assert false;
    }
  }

  lemma CanonicalHeads<V>(cs: seq<Node<V>>, ds: seq<Node<V>>)
    requires WfForest(cs) && WfForest(ds) && cs != [] && ds != [] && cs[0].name == ds[0].name
    requires forall q: Path :: q != [] ==> LookupForest(cs, q) == LookupForest(ds, q)
    ensures forall r: Path :: LookupNode(cs[0], r) == LookupNode(ds[0], r)
  {
    FoundAt(cs, 0);
    FoundAt(ds, 0);
    forall r: Path ensures LookupNode(cs[0], r) == LookupNode(ds[0], r) {
      var q := [cs[0].name] + r;
      assert q[1..] == r && LookupForest(cs, q) == LookupForest(ds, q);
    }
  }

  lemma {:induction false} CanonicalNode<V>(n: Node<V>, m: Node<V>)
    requires WfNode(n) && WfNode(m) && n.name == m.name
    requires forall r: Path :: LookupNode(n, r) == LookupNode(m, r)
    ensures n == m
    decreases n, 1
  {
    assert LookupNode(n, []) == LookupNode(m, []);
    forall q: Path | q != [] ensures LookupForest(n.children, q) == LookupForest(m.children, q) {
      assert LookupNode(n, q) == LookupNode(m, q);
    }
    Canonical(n.children, m.children);
  }

  lemma CanonicalTails<V>(cs: seq<Node<V>>, ds: seq<Node<V>>)
    requires WfForest(cs) && WfForest(ds) && cs != [] && ds != [] && cs[0].name == ds[0].name
    requires forall q: Path :: q != [] ==> LookupForest(cs, q) == LookupForest(ds, q)
    ensures WfForest(cs[1..]) && WfForest(ds[1..])
    ensures forall q: Path :: q != [] ==> LookupForest(cs[1..], q) == LookupForest(ds[1..], q)
  {
    WfRemove(cs, 0);
    WfRemove(ds, 0);
    assert Without(cs, 0) == cs[1..] && Without(ds, 0) == ds[1..];
    forall q: Path | q != [] ensures LookupForest(cs[1..], q) == LookupForest(ds[1..], q) {
      if q[0] == cs[0].name {
        GoneFrom(cs, 0);
        GoneFrom(ds, 0);
      } else {
        LookupTail(cs, q);
        LookupTail(ds, q);
      }
    }
  }

  lemma {:induction false} HasNodeWhenValued<V>(cs: seq<Node<V>>, path: Path)
    requires path != [] && LookupForest(cs, path) != []
    ensures HasForest(cs, path)
    decreases |path|
  {
    if |path| > 1 {
      HasNodeWhenValued(cs[Search(cs, path[0])].children, path[1..]);
    }
  }

  /** A node is reachable by a path exactly when something is stored at or below that path. */
  lemma {:induction false} HasNodeIffBelow<V>(cs: seq<Node<V>>, path: Path)
    requires WfForest(cs) && path != []
    ensures HasForest(cs, path) <==> exists q: Path :: LookupForest(cs, path + q) != []
    decreases |path|
  {
    if Found(cs, path[0]) {
      var c := cs[Search(cs, path[0])];
      assert WfNode(c);
      assert forall q: Path :: (path + q)[0] == path[0] && (path + q)[1..] == path[1..] + q;
      if |path| == 1 {
        var q := HoldsSomething(c);
        assert path[1..] + q == q;
        assert LookupForest(cs, path + q) != [];
      } else {
        HasNodeIffBelow(c.children, path[1..]);
        assert forall q: Path :: LookupForest(cs, path + q) == LookupForest(c.children, path[1..] + q);
      }
    } else {
      assert forall q: Path :: (path + q)[0] == path[0];
    }
  }
}
