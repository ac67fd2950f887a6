/** The retained trie, as the map from topics to their latest message. */
module Retained {
  import opened Base
  import opened Topics
  import opened Trie
  import opened TrieContents

  // ----- The retained trie -----

  /** `replace_value`: a topic keeps its latest message only. */
  function Replacing<M>(m: M): seq<M> -> Edit<M> {
    (vs: seq<M>) => Edit([m], |vs| == 0, false)
  }

  /** `remove_topic`, which expects exactly one message. */
  function Removal<M>(): seq<M> -> Cut<M> {
    (vs: seq<M>) => if |vs| == 1 then Cut([], false, false) else Unreachable
  }

  /** What a trie holding these messages stores under a path. */
  function Wanted<M>(held: map<Str, M>, p: Path): seq<M>
    requires p != []
  {
    if Split(Join(p)) == p && Join(p) in held then [held[Join(p)]] else []
  }

  ghost predicate Holds<M>(root: seq<Node<M>>, held: map<Str, M>) {
    WfForest(root) && forall p: Path :: p != [] ==> LookupForest(root, p) == Wanted(held, p)
  }

  lemma WantedAt<M>(held: map<Str, M>, topic: Str)
    ensures Wanted(held, Split(topic)) == if topic in held then [held[topic]] else []
  {
    JoinSplit(topic);
  }

  // ----- set and remove -----

  /** The trie with its statistics; `missing` is lowered where it is meant to be raised. */
  datatype Kept<M> = Kept(root: seq<Node<M>>, count: nat, missing: nat)

  /** `do_set` */
  function DoSet<M>(k: Kept<M>, topic: Str, m: M): Kept<M> {
    var (root, first, _) := PutForest(k.root, Split(topic), Replacing(m));
    Kept(root, if first then Bump(k.count) else k.count, k.missing)
  }

  /** `do_remove` */
  function DoRemove<M>(k: Kept<M>, topic: Str): Result<Kept<M>> {
    var (root, _, missing) :- TakeForest(k.root, Split(topic), Removal());
    Ok(if missing then Kept(root, k.count, Drop(k.missing)) else Kept(root, Drop(k.count), k.missing))
  }

  /** `set` makes the message the topic's only one and changes nothing else. */
  lemma SetHolds<M>(k: Kept<M>, held: map<Str, M>, topic: Str, m: M)
    requires Holds(k.root, held)
    ensures var k' := DoSet(k, topic, m);
            && Holds(k'.root, held[topic := m])
            && k'.count == (if topic in held then k.count else Bump(k.count)) && k'.missing == k.missing
  {
    var root := k.root;
    var path, root' := Split(topic), DoSet(k, topic, m).root;
    WantedAt(held, topic);
    PutForestForm(root, path, Replacing(m));
    forall p: Path | p != [] ensures LookupForest(root', p) == Wanted(held[topic := m], p) {
      PutForestLookup(root, path, Replacing(m), p);
      WantedAt(held[topic := m], topic);
      if p != path && Split(Join(p)) == p {
        assert Join(p) != topic;
      }
    }
  }

  /** `remove` of a held topic never crashes, takes its message and changes nothing else. */
  lemma RemoveHolds<M>(k: Kept<M>, held: map<Str, M>, topic: Str)
    requires Holds(k.root, held) && topic in held
    ensures DoRemove(k, topic).Ok?
    ensures var k' := DoRemove(k, topic).value;
            Holds(k'.root, held - {topic}) && k'.count == Drop(k.count) && k'.missing == k.missing
  {
    var root, path := k.root, Split(topic);
    WantedAt(held, topic);
    HasNodeWhenValued(root, path);
    TakeForestPanics(root, path, Removal());
    TakeForestForm(root, path, Removal());
    var root' := TakeForest(root, path, Removal()).value.0;
    forall p: Path | p != [] ensures LookupForest(root', p) == Wanted(held - {topic}, p) {
      TakeForestLookup(root, path, Removal(), p);
      WantedAt(held - {topic}, topic);
      if p != path && Split(Join(p)) == p {
        assert Join(p) != topic;
      }
    }
  }

  /** Some held topic lies below this one. */
  ghost predicate Above<M>(topic: Str, held: map<Str, M>) {
    exists t :: t in held && Split(topic) <= Split(t)
  }

  lemma NodeIsAbove<M>(root: seq<Node<M>>, held: map<Str, M>, topic: Str)
    requires Holds(root, held)
    ensures HasForest(root, Split(topic)) <==> Above(topic, held)
  {
    var path := Split(topic);
    HasNodeIffBelow(root, path);
    if HasForest(root, path) {
      var q: Path :| LookupForest(root, path + q) != [];
      var t := Join(path + q);
      assert t in held && path <= Split(t);
    }
    if t :| t in held && path <= Split(t) {
      var q := Split(t)[|path|..];
      assert Split(t) == path + q;
      WantedAt(held, t);
      assert LookupForest(root, path + q) != [];
    }
  }

  /** `remove` of a topic not held crashes exactly when the topic is an inner level of a held one; otherwise it does nothing. */
  lemma RemoveMissing<M>(k: Kept<M>, held: map<Str, M>, topic: Str)
    requires Holds(k.root, held) && topic !in held
    ensures DoRemove(k, topic).Err? <==> Above(topic, held)
    ensures DoRemove(k, topic).Ok? ==>
              var k' := DoRemove(k, topic).value;
              Holds(k'.root, held) && k'.count == k.count && k'.missing == Drop(k.missing)
  {
    var root, path := k.root, Split(topic);
    WantedAt(held, topic);
    TakeForestPanics(root, path, Removal());
    NodeIsAbove(root, held, topic);
    if TakeForest(root, path, Removal()).Ok? {
      TakeForestForm(root, path, Removal());
      var root' := TakeForest(root, path, Removal()).value.0;
      forall p: Path | p != [] ensures LookupForest(root', p) == Wanted(held, p) {
        TakeForestLookup(root, path, Removal(), p);
      }
    }
  }
}
