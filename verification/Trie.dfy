/**
 * The copy-on-write topic trie. The root is a forest of named nodes; every operation returns a
 * fresh forest. `sub` and `set` walk the trie alike and differ only in what they do to the value
 * list of the last node, so the walk takes that edit as an argument; `unsub` and `remove` likewise.
 */
module Trie {
  import opened Base
  import opened Topics

  /** `Node::Child`; the root node is the bare list of its children. */
  datatype Node<V> = Node(name: Str, children: seq<Node<V>>, values: seq<V>)

  /** What `insert_value` or `replace_value` does to a value list. */
  datatype Edit<V> = Edit(values: seq<V>, first: bool, repeat: bool)

  /** What `remove_value` or `remove_topic` does to a value list. */
  datatype Cut<V> = Unreachable | Cut(values: seq<V>, last: bool, missing: bool)

  const USIZE_MAX: nat := 0xFFFF_FFFF_FFFF_FFFF

  /** `saturating_add(1)`, for the statistics of a trie. */
  function Bump(n: nat): nat {
    if n < USIZE_MAX then n + 1 else n
  }

  /** `saturating_sub(1)` */
  function Drop(n: nat): nat {
    if n > 0 then n - 1 else 0
  }

  function NewNode<V>(name: Str): Node<V> {
    Node(name, [], [])
  }

  predicate IsEmpty<V>(n: Node<V>) {
    n.children == [] && n.values == []
  }

  /** Where a binary search by name ends: the first node whose name is not less. */
  function Search<V>(cs: seq<Node<V>>, name: Str): (off: nat)
    ensures off <= |cs|
    ensures forall i :: 0 <= i < off ==> Less(cs[i].name, name)
    ensures off < |cs| ==> !Less(cs[off].name, name)
  {
    if cs == [] || !Less(cs[0].name, name) then 0
    else
      var off := Search(cs[1..], name);
      assert forall i :: 0 < i < 1 + off ==> cs[i] == cs[1..][i - 1];
      1 + off
  }

  predicate Found<V>(cs: seq<Node<V>>, name: Str) {
    Search(cs, name) < |cs| && cs[Search(cs, name)].name == name
  }

  /** `sub` and `set` below a node. */
  function PutNode<V>(n: Node<V>, path: Path, edit: seq<V> -> Edit<V>): (Node<V>, bool, bool)
    decreases |path|, 1
  {
    if path == [] then
      var e := edit(n.values);
      (n.(values := e.values), e.first, e.repeat)
    else
      var (cs, first, repeat) := PutForest(n.children, path, edit);
      (n.(children := cs), first, repeat)
  }

  /** `sub` and `set` in a list of children; the path of a key is never empty. */
  function PutForest<V>(cs: seq<Node<V>>, path: Path, edit: seq<V> -> Edit<V>): (seq<Node<V>>, bool, bool)
    requires path != []
    decreases |path|, 0
  {
    var off := Search(cs, path[0]);
    if Found(cs, path[0]) then
      var (child, first, repeat) := PutNode(cs[off], path[1..], edit);
      (cs[off := child], first, repeat)
    else
      var (child, first, repeat) := PutNode(NewNode(path[0]), path[1..], edit);
      (Inserted(cs, off, child), first, repeat)
  }

  /** `unsub` and `remove` below a node: a node left without children and values disappears. */
  function TakeNode<V>(n: Node<V>, path: Path, cut: seq<V> -> Cut<V>): Result<(Option<Node<V>>, bool, bool)>
    decreases |path|, 1
  {
    if path == [] then
      match cut(n.values)
      case Unreachable => Err(Panic)
      case Cut(values, last, missing) =>
        var m := n.(values := values);
        Ok((if IsEmpty(m) then None else Some(m), last, missing))
    else if !Found(n.children, path[0]) then
      Ok((Some(n), false, true))
    else
      var (cs, last, missing) :- TakeForest(n.children, path, cut);
      var m := n.(children := cs);
      Ok((if IsEmpty(m) then None else Some(m), last, missing))
  }

  /** `unsub` and `remove` in a list of children; the root stays even when nothing is left. */
  function TakeForest<V>(cs: seq<Node<V>>, path: Path, cut: seq<V> -> Cut<V>): Result<(seq<Node<V>>, bool, bool)>
    requires path != []
    decreases |path|, 0
  {
    if !Found(cs, path[0]) then
      Ok((cs, false, true))
    else
      var off := Search(cs, path[0]);
      var (child, last, missing) :- TakeNode(cs[off], path[1..], cut);
      match child
      case Some(c) => Ok((cs[off := c], last, missing))
      case None => Ok((Without(cs, off), last, missing))
  }

  /** `match_level`: (level match, multi-level match). */
  function MatchLevel(inLevel: Str, trieLevel: Str): (bool, bool) {
    if inLevel == MULTI_LEVEL then (true, true)
    else if trieLevel == MULTI_LEVEL then (true, true)
    else if inLevel == SINGLE_LEVEL then (true, false)
    else if trieLevel == SINGLE_LEVEL then (true, false)
    else if inLevel == trieLevel then (true, false)
    else (false, false)
  }

  /** `match_topic` from a child node. */
  function MatchNode<V>(n: Node<V>, levels: Path): seq<V>
    decreases n, 1
  {
    if levels == [] then n.values else MatchForest(n.children, levels)
  }

  /** The accumulator loop of `match_topic` over a list of children. */
  function MatchForest<V>(cs: seq<Node<V>>, levels: Path): seq<V>
    requires levels != []
    decreases cs, 0
  {
    if cs == [] then [] else MatchChild(cs[0], levels) + MatchForest(cs[1..], levels)
  }

  function MatchChild<V>(c: Node<V>, levels: Path): seq<V>
    requires levels != []
    decreases c, 2
  {
    var (single, multi) := MatchLevel(levels[0], c.name);
    if multi then c.values
    else if single then MatchNode(c, levels[1..])
    else []
  }

  /** The root's children that `match_topic` looks at. */
  function RootChildren<V>(cs: seq<Node<V>>, dollar: bool): seq<Node<V>> {
    if cs == [] then []
    else if dollar && IsWildcard(cs[0].name) then RootChildren(cs[1..], dollar)
    else [cs[0]] + RootChildren(cs[1..], dollar)
  }

  /** `match_topic` at the root; a split topic always has a level. */
  function MatchTopic<V>(cs: seq<Node<V>>, levels: Path, dollar: bool): seq<V>
    requires levels != []
  {
    MatchForest(RootChildren(cs, dollar), levels)
  }

  // ----- What a trie holds -----

  /** The values stored under a path; nothing when there is no such node. */
  function LookupNode<V>(n: Node<V>, path: Path): seq<V>
    decreases |path|, 1
  {
    if path == [] then n.values else LookupForest(n.children, path)
  }

  function LookupForest<V>(cs: seq<Node<V>>, path: Path): seq<V>
    requires path != []
    decreases |path|, 0
  {
    if Found(cs, path[0]) then LookupNode(cs[Search(cs, path[0])], path[1..]) else []
  }

  /** Whether the path leads to a node, valued or not. */
  predicate HasNode<V>(n: Node<V>, path: Path)
    decreases |path|, 1
  {
    path == [] || HasForest(n.children, path)
  }

  predicate HasForest<V>(cs: seq<Node<V>>, path: Path)
    requires path != []
    decreases |path|, 0
  {
    Found(cs, path[0]) && HasNode(cs[Search(cs, path[0])], path[1..])
  }

  ghost predicate Sorted<V>(cs: seq<Node<V>>) {
    forall i, j :: 0 <= i < j < |cs| ==> Less(cs[i].name, cs[j].name)
  }

  /** Strictly sorted children and no empty node, all the way down. */
  ghost predicate WfForest<V>(cs: seq<Node<V>>)
    decreases cs, 0
  {
    Sorted(cs) && forall i :: 0 <= i < |cs| ==> WfNode(cs[i])
  }

  ghost predicate WfNode<V>(n: Node<V>)
    decreases n, 1
  {
    !IsEmpty(n) && WfForest(n.children)
  }

  // ----- Searching and editing sorted lists -----

  lemma FoundAt<V>(cs: seq<Node<V>>, i: nat)
    requires Sorted(cs) && i < |cs|
    ensures Search(cs, cs[i].name) == i && Found(cs, cs[i].name)
  {
    LessIrreflexive(cs[i].name);
    assert forall k :: 0 <= k < i ==> Less(cs[k].name, cs[i].name);
  }

  lemma NotFoundAnywhere<V>(cs: seq<Node<V>>, name: Str, i: nat)
    requires Sorted(cs) && !Found(cs, name) && i < |cs|
    ensures cs[i].name != name
  {
    if cs[i].name == name {
      FoundAt(cs, i);
    }
  }

  lemma WfReplace<V>(cs: seq<Node<V>>, off: nat, c: Node<V>)
    requires WfForest(cs) && off < |cs| && c.name == cs[off].name && WfNode(c)
    ensures WfForest(cs[off := c])
  {
  }

  lemma WfInsert<V>(cs: seq<Node<V>>, c: Node<V>)
    requires WfForest(cs) && !Found(cs, c.name) && WfNode(c)
    ensures WfForest(Inserted(cs, Search(cs, c.name), c))
  {
    var off := Search(cs, c.name);
    var ds := Inserted(cs, off, c);
    forall i | off <= i < |cs| ensures Less(c.name, cs[i].name) {
      LessTotal(c.name, cs[off].name);
      if off < i {
        LessTransitive(c.name, cs[off].name, cs[i].name);
      }
    }
    forall i, j | 0 <= i < j < |ds| ensures Less(ds[i].name, ds[j].name) {
      InsertedIndex(cs, off, c, i);
      InsertedIndex(cs, off, c, j);
    }
    forall i | 0 <= i < |ds| ensures WfNode(ds[i]) {
      InsertedIndex(cs, off, c, i);
    }
  }

  lemma WfRemove<V>(cs: seq<Node<V>>, off: nat)
    requires WfForest(cs) && off < |cs|
    ensures WfForest(Without(cs, off))
  {
    var ds := Without(cs, off);
    forall i, j | 0 <= i < j < |ds| ensures Less(ds[i].name, ds[j].name) {
      WithoutIndex(cs, off, i);
      WithoutIndex(cs, off, j);
    }
    forall i | 0 <= i < |ds| ensures WfNode(ds[i]) {
      WithoutIndex(cs, off, i);
    }
  }

  /** Two lists that hold the same nodes but for one name answer alike for every other. */
  lemma LookupEdited<V>(cs: seq<Node<V>>, ds: seq<Node<V>>, name: Str, q: Path)
    requires Sorted(cs) && Sorted(ds) && q != [] && q[0] != name
    requires forall i :: 0 <= i < |cs| && cs[i].name != name ==> cs[i] in ds
    requires forall i :: 0 <= i < |ds| && ds[i].name != name ==> ds[i] in cs
    ensures LookupForest(ds, q) == LookupForest(cs, q)
  {
    if Found(cs, q[0]) {
      var i := Search(cs, q[0]);
      var j :| 0 <= j < |ds| && ds[j] == cs[i];
      FoundAt(ds, j);
    } else {
      forall j | 0 <= j < |ds| ensures ds[j].name != q[0] {
        if ds[j].name != name {
          var i :| 0 <= i < |cs| && cs[i] == ds[j];
          NotFoundAnywhere(cs, q[0], i);
        }
      }
    }
  }

  lemma LookupReplaced<V>(cs: seq<Node<V>>, off: nat, c: Node<V>, q: Path)
    requires off < |cs| && WfForest(cs) && WfForest(cs[off := c]) && c.name == cs[off].name && q != []
    ensures LookupForest(cs[off := c], q) == if q[0] == c.name then LookupNode(c, q[1..]) else LookupForest(cs, q)
  {
    var ds := cs[off := c];
    FoundAt(ds, off);
    if q[0] != c.name {
      forall i | 0 <= i < |cs| && cs[i].name != c.name ensures cs[i] in ds {
        assert ds[i] == cs[i];
      }
      LookupEdited(cs, ds, c.name, q);
    }
  }

  lemma InsertedMembers<V>(cs: seq<Node<V>>, off: nat, c: Node<V>)
    requires off <= |cs|
    ensures var ds := Inserted(cs, off, c);
            && (forall i :: 0 <= i < |cs| ==> cs[i] in ds)
            && (forall i :: 0 <= i < |ds| && ds[i].name != c.name ==> ds[i] in cs)
  {
    var ds := Inserted(cs, off, c);
    forall i | 0 <= i < |cs| ensures cs[i] in ds {
      InsertedIndex(cs, off, c, if i < off then i else i + 1);
    }
    forall i | 0 <= i < |ds| && ds[i].name != c.name ensures ds[i] in cs {
      InsertedIndex(cs, off, c, i);
    }
  }

  lemma LookupInserted<V>(cs: seq<Node<V>>, off: nat, c: Node<V>, q: Path)
    requires WfForest(cs) && off <= |cs| && WfForest(Inserted(cs, off, c)) && q != []
    ensures LookupForest(Inserted(cs, off, c), q) == if q[0] == c.name then LookupNode(c, q[1..]) else LookupForest(cs, q)
  {
    var ds := Inserted(cs, off, c);
    InsertedIndex(cs, off, c, off);
    FoundAt(ds, off);
    if q[0] != c.name {
      InsertedMembers(cs, off, c);
      LookupEdited(cs, ds, c.name, q);
    }
  }

  lemma LookupWithout<V>(cs: seq<Node<V>>, off: nat, q: Path)
    requires WfForest(cs) && off < |cs| && WfForest(Without(cs, off)) && q != []
    ensures LookupForest(Without(cs, off), q) == if q[0] == cs[off].name then [] else LookupForest(cs, q)
  {
    var ds := Without(cs, off);
    GoneFrom(cs, off);
    if q[0] != cs[off].name {
      forall i | 0 <= i < |cs| && cs[i].name != cs[off].name ensures cs[i] in ds {
        WithoutIndex(cs, off, if i < off then i else i - 1);
      }
      forall i | 0 <= i < |ds| ensures ds[i] in cs {
        WithoutIndex(cs, off, i);
      }
      LookupEdited(cs, ds, cs[off].name, q);
    }
  }

  lemma GoneFrom<V>(cs: seq<Node<V>>, off: nat)
    requires Sorted(cs) && off < |cs|
    ensures !Found(Without(cs, off), cs[off].name)
  {
    var ds := Without(cs, off);
    forall j | 0 <= j < |ds| ensures ds[j].name != cs[off].name {
      WithoutIndex(cs, off, j);
      LessIrreflexive(cs[off].name);
    }
  }

  // ----- sub and set -----

  /** Inserting keeps the form and reports what the edit of the addressed value list reported. */
  lemma {:induction false} PutForestForm<V>(cs: seq<Node<V>>, path: Path, edit: seq<V> -> Edit<V>)
    requires WfForest(cs) && path != []
    requires edit(LookupForest(cs, path)).values != []
    ensures var (ds, first, repeat) := PutForest(cs, path, edit);
            var e := edit(LookupForest(cs, path));
            WfForest(ds) && ds != [] && first == e.first && repeat == e.repeat
    decreases |path|, 0
  {
    var off := Search(cs, path[0]);
    if Found(cs, path[0]) {
      assert WfNode(cs[off]);
      PutNodeForm(cs[off], path[1..], edit);
      WfReplace(cs, off, PutNode(cs[off], path[1..], edit).0);
    } else {
      var created := NewNode<V>(path[0]);
      LookupInEmpty(created, path[1..]);
      PutNodeForm(created, path[1..], edit);
      WfInsert(cs, PutNode(created, path[1..], edit).0);
    }
  }

  lemma LookupInEmpty<V>(n: Node<V>, path: Path)
    requires IsEmpty(n)
    ensures LookupNode(n, path) == []
  {
  }

  lemma {:induction false} PutNodeForm<V>(n: Node<V>, path: Path, edit: seq<V> -> Edit<V>)
    requires WfForest(n.children)
    requires edit(LookupNode(n, path)).values != []
    ensures var (m, first, repeat) := PutNode(n, path, edit);
            var e := edit(LookupNode(n, path));
            WfNode(m) && m.name == n.name && first == e.first && repeat == e.repeat
    decreases |path|, 1
  {
    if path != [] {
      PutForestForm(n.children, path, edit);
    }
  }

  /** Inserting changes the addressed path and no other. */
  lemma {:induction false} PutForestLookup<V>(cs: seq<Node<V>>, path: Path, edit: seq<V> -> Edit<V>, q: Path)
    requires WfForest(cs) && path != [] && q != []
    requires edit(LookupForest(cs, path)).values != []
    ensures LookupForest(PutForest(cs, path, edit).0, q) ==
            if q == path then edit(LookupForest(cs, path)).values else LookupForest(cs, q)
    decreases |path|, 0
  {
    var off := Search(cs, path[0]);
    PutForestForm(cs, path, edit);
    var before := if Found(cs, path[0]) then cs[off] else NewNode(path[0]);
    var after := PutNode(before, path[1..], edit).0;
    LookupInEmpty(NewNode<V>(path[0]), path[1..]);
    assert Found(cs, path[0]) ==> WfNode(cs[off]);
    PutNodeForm(before, path[1..], edit);
    if Found(cs, path[0]) {
      LookupReplaced(cs, off, after, q);
    } else {
      LookupInserted(cs, off, after, q);
    }
    if q[0] == path[0] {
      LookupInEmpty(NewNode<V>(path[0]), q[1..]);
      PutNodeLookup(before, path[1..], edit, q[1..]);
      assert q == [q[0]] + q[1..] && path == [path[0]] + path[1..];
    }
  }

  lemma {:induction false} PutNodeLookup<V>(n: Node<V>, path: Path, edit: seq<V> -> Edit<V>, q: Path)
    requires WfForest(n.children)
    requires edit(LookupNode(n, path)).values != []
    ensures LookupNode(PutNode(n, path, edit).0, q) ==
            if q == path then edit(LookupNode(n, path)).values else LookupNode(n, q)
    decreases |path|, 1
  {
    if path != [] && q != [] {
      PutForestLookup(n.children, path, edit, q);
    }
  }

  // ----- unsub and remove -----

  /** Removing crashes exactly when the node is there and the cut of its values is unreachable. */
  lemma {:induction false} TakeForestPanics<V>(cs: seq<Node<V>>, path: Path, cut: seq<V> -> Cut<V>)
    requires path != []
    ensures TakeForest(cs, path, cut).Err? <==> HasForest(cs, path) && cut(LookupForest(cs, path)).Unreachable?
    decreases |path|, 0
  {
    if Found(cs, path[0]) {
      TakeNodePanics(cs[Search(cs, path[0])], path[1..], cut);
    }
  }

  lemma {:induction false} TakeNodePanics<V>(n: Node<V>, path: Path, cut: seq<V> -> Cut<V>)
    ensures TakeNode(n, path, cut).Err? <==> HasNode(n, path) && cut(LookupNode(n, path)).Unreachable?
    decreases |path|, 1
  {
    if path != [] {
      TakeForestPanics(n.children, path, cut);
    }
  }

  /** The values a removal leaves at the addressed path, and what it reports. */
  function AfterCut<V>(cs: seq<Node<V>>, path: Path, cut: seq<V> -> Cut<V>): Cut<V>
    requires path != []
  {
    if HasForest(cs, path) then cut(LookupForest(cs, path)) else Cut([], false, true)
  }

  function AfterCutNode<V>(n: Node<V>, path: Path, cut: seq<V> -> Cut<V>): Cut<V> {
    if HasNode(n, path) then cut(LookupNode(n, path)) else Cut([], false, true)
  }

  /** The looked-up values of what `TakeNode` left, nothing being left when the node disappeared. */
  function LookupLeft<V>(left: Option<Node<V>>, q: Path): seq<V> {
    if left.Some? then LookupNode(left.value, q) else []
  }

  /** Removing keeps the form: emptied nodes go away, so none is left behind. */
  lemma {:induction false} TakeForestForm<V>(cs: seq<Node<V>>, path: Path, cut: seq<V> -> Cut<V>)
    requires WfForest(cs) && path != [] && TakeForest(cs, path, cut).Ok?
    ensures var (ds, last, missing) := TakeForest(cs, path, cut).value;
            var c := AfterCut(cs, path, cut);
            WfForest(ds) && c.Cut? && last == c.last && missing == c.missing
    decreases |path|, 0
  {
    if Found(cs, path[0]) {
      var off := Search(cs, path[0]);
      assert WfNode(cs[off]);
      TakeNodeForm(cs[off], path[1..], cut);
      match TakeNode(cs[off], path[1..], cut).value.0
      case Some(c) => WfReplace(cs, off, c);
      case None => WfRemove(cs, off);
    }
  }

  lemma {:induction false} TakeNodeForm<V>(n: Node<V>, path: Path, cut: seq<V> -> Cut<V>)
    requires WfNode(n) && TakeNode(n, path, cut).Ok?
    ensures var (m, last, missing) := TakeNode(n, path, cut).value;
            var c := AfterCutNode(n, path, cut);
            c.Cut? && (m.Some? ==> WfNode(m.value) && m.value.name == n.name) && last == c.last && missing == c.missing
    decreases |path|, 1
  {
    if path != [] {
      assert HasNode(n, path) == HasForest(n.children, path);
      assert LookupNode(n, path) == LookupForest(n.children, path);
      if Found(n.children, path[0]) {
        TakeForestForm(n.children, path, cut);
      }
    }
  }

  /** Removing changes the addressed path and no other. */
  lemma {:induction false} TakeForestLookup<V>(cs: seq<Node<V>>, path: Path, cut: seq<V> -> Cut<V>, q: Path)
    requires WfForest(cs) && path != [] && q != [] && TakeForest(cs, path, cut).Ok?
    ensures AfterCut(cs, path, cut).Cut?
    ensures LookupForest(TakeForest(cs, path, cut).value.0, q) ==
            if q == path then AfterCut(cs, path, cut).values else LookupForest(cs, q)
    decreases |path|, 0
  {
    TakeForestForm(cs, path, cut);
    if Found(cs, path[0]) {
      var off := Search(cs, path[0]);
      assert WfNode(cs[off]);
      TakeNodeForm(cs[off], path[1..], cut);
      match TakeNode(cs[off], path[1..], cut).value.0 {
        case Some(c) => LookupReplaced(cs, off, c, q);
        case None => LookupWithout(cs, off, q);
      }
      if q[0] == path[0] {
        TakeNodeLookup(cs[off], path[1..], cut, q[1..]);
        assert q == [q[0]] + q[1..] && path == [path[0]] + path[1..];
      }
    }
  }

  lemma {:induction false} TakeNodeLookup<V>(n: Node<V>, path: Path, cut: seq<V> -> Cut<V>, q: Path)
    requires WfNode(n) && TakeNode(n, path, cut).Ok?
    ensures AfterCutNode(n, path, cut).Cut?
    ensures LookupLeft(TakeNode(n, path, cut).value.0, q) ==
            if q == path then AfterCutNode(n, path, cut).values else LookupNode(n, q)
    decreases |path|, 1
  {
    TakeNodeForm(n, path, cut);
    if path == [] {
      var m := n.(values := cut(n.values).values);
      if IsEmpty(m) {
        LookupInEmpty(m, q);
      }
      assert q != [] ==> LookupNode(m, q) == LookupNode(n, q);
    } else if !Found(n.children, path[0]) {
      assert !HasForest(n.children, path) && LookupNode(n, path) == [];
    } else {
      var m := n.(children := TakeForest(n.children, path, cut).value.0);
      if IsEmpty(m) {
        LookupInEmpty(m, q);
      }
      if q != [] {
        TakeForestLookup(n.children, path, cut, q);
      }
      assert AfterCutNode(n, path, cut) == AfterCut(n.children, path, cut);
      assert LookupLeft(TakeNode(n, path, cut).value.0, q) == LookupNode(m, q);
    }
  }
}
