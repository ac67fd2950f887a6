/**
 * Serial runs of subscribe and unsubscribe. The specification is a flat list of (path, subscription)
 * pairs; the trie is an index of it. Every run keeps the two in step, whatever the filters.
 */
module SubscribedRuns {
  import opened Base
  import opened Mqtt
  import opened Topics
  import opened Trie
  import opened TrieContents
  import opened Subscribed

  type Forest = seq<Node<Subscription>>

  datatype Stats = Stats(count: nat, repeat: nat, missing: nat, lookups: nat, hits: nat)

  datatype State = State(root: Forest, stats: Stats)

  /** `do_subscribe` */
  function DoSubscribe(st: State, filter: Str, v: Subscription): State {
    var (root, first, again) := PutForest(st.root, Split(filter), Inserting(v));
    var stats := if first then st.stats.(count := Bump(st.stats.count)) else st.stats;
    var stats' := if again then stats.(repeat := Bump(stats.repeat)) else stats;
    State(root, stats')
  }

  /** `do_unsubscribe`; it lowers `missing` where it means to raise it. */
  function DoUnsubscribe(st: State, filter: Str, v: Subscription): Result<State> {
    var (root, last, miss) :- TakeForest(st.root, Split(filter), Removing(v));
    var stats := if last then st.stats.(count := Drop(st.stats.count)) else st.stats;
    var stats' := if miss then stats.(missing := Drop(stats.missing)) else stats;
    Ok(State(root, stats'))
  }

  // ----- The flat specification -----

  function DropKey(flat: Flat, path: Path, v: Subscription): Flat {
    if flat == [] then []
    else (if flat[0].0 == path && SameKey(flat[0].1, v) then [] else [flat[0]]) + DropKey(flat[1..], path, v)
  }

  function FlatSubscribe(flat: Flat, path: Path, v: Subscription): Flat {
    if HasKey(At(flat, path), v) then flat else flat + [(path, v)]
  }

  function FlatUnsubscribe(flat: Flat, path: Path, v: Subscription): Flat {
    var here := At(flat, path);
    if |here| == 1 && !Equal(here[0], v) then flat else DropKey(flat, path, v)
  }

  /** Unsubscribing an inner path that holds nothing itself hits an `unreachable!`. */
  ghost predicate FlatCrashes(flat: Flat, path: Path) {
    At(flat, path) == [] && exists i :: 0 <= i < |flat| && path <= flat[i].0
  }

  ghost function PathsOf(flat: Flat): set<Path> {
    set i | 0 <= i < |flat| :: flat[i].0
  }

  datatype Op =
    | Subscribe(filter: Str, value: Subscription)
    | Unsubscribe(filter: Str, value: Subscription)

  const INITIAL := State([], Stats(0, 0, 0, 0, 0))

  function Step(st: State, op: Op): Result<State> {
    match op
    case Subscribe(filter, v) => Ok(DoSubscribe(st, filter, v))
    case Unsubscribe(filter, v) => DoUnsubscribe(st, filter, v)
  }

  function FlatStep(flat: Flat, op: Op): Flat {
    match op
    case Subscribe(filter, v) => FlatSubscribe(flat, Split(filter), v)
    case Unsubscribe(filter, v) => FlatUnsubscribe(flat, Split(filter), v)
  }

  function Run(ops: seq<Op>): Result<State> {
    if ops == [] then Ok(INITIAL)
    else
      var st :- Run(ops[..|ops| - 1]);
      Step(st, ops[|ops| - 1])
  }

  function FlatRun(ops: seq<Op>): Flat {
    if ops == [] then [] else FlatStep(FlatRun(ops[..|ops| - 1]), ops[|ops| - 1])
  }

  // ----- The flat list, path by path -----

  lemma {:induction false} DropKeyAt(flat: Flat, path: Path, v: Subscription, q: Path)
    ensures At(DropKey(flat, path, v), q) == if q == path then DropKeyValues(At(flat, path), v) else At(flat, q)
  {
    if flat != [] {
      DropKeyAt(flat[1..], path, v, q);
      var head := if flat[0].0 == path && SameKey(flat[0].1, v) then [] else [flat[0]];
      PickAppend(head, DropKey(flat[1..], path, v), KeepAt(q));
      var kept := if flat[0].0 == q then [flat[0].1] else [];
      assert At(flat, q) == kept + At(flat[1..], q);
      assert [] + At(flat[1..], q) == At(flat[1..], q);
      assert At(head, q) == if head == [] then [] else kept;
      if flat[0].0 == q {
        assert At(flat, q)[0] == flat[0].1 && At(flat, q)[1..] == At(flat[1..], q);
      }
    }
  }

  function DropKeyValues(vs: Values, v: Subscription): Values {
    if vs == [] then [] else (if SameKey(vs[0], v) then [] else [vs[0]]) + DropKeyValues(vs[1..], v)
  }

  lemma {:induction false} DropKeyCounts(vs: Values, v: Subscription, x: Subscription)
    ensures multiset(DropKeyValues(vs, v))[x] == if SameKey(x, v) then 0 else multiset(vs)[x]
  {
    if vs != [] {
      DropKeyCounts(vs[1..], v, x);
      assert vs == [vs[0]] + vs[1..];
    }
  }

  lemma {:induction false} AtIsMember(flat: Flat, path: Path)
    ensures At(flat, path) != [] <==> path in PathsOf(flat)
  {
    if flat != [] {
      AtIsMember(flat[1..], path);
      assert PathsOf(flat) == {flat[0].0} + PathsOf(flat[1..]) by {
        assert flat == [flat[0]] + flat[1..];
      }
    }
  }

  // ----- The invariant -----

  /** The trie is well formed, its value lists are sorted, and it holds at every path what the flat list holds there. */
  ghost predicate Agrees(root: Forest, flat: Flat) {
    && WfForest(root)
    && (forall p: Path :: p != [] ==> ValuesSorted(LookupForest(root, p)))
    && (forall p: Path :: p != [] ==> multiset(LookupForest(root, p)) == multiset(At(flat, p)))
    && At(flat, []) == []
  }

  lemma HasKeyPermuted(vs: Values, ws: Values, v: Subscription)
    requires multiset(vs) == multiset(ws)
    ensures HasKey(vs, v) ==> HasKey(ws, v)
  {
    if i :| 0 <= i < |vs| && SameKey(vs[i], v) {
      assert vs[i] in multiset(vs);
      assert vs[i] in ws;
    }
  }

  lemma SameLength<T>(a: seq<T>, b: seq<T>)
    requires multiset(a) == multiset(b)
    ensures |a| == |b|
  {
    assert |multiset(a)| == |a| && |multiset(b)| == |b|;
  }

  lemma SubscribeAt(root: Forest, flat: Flat, path: Path, v: Subscription, p: Path)
    requires Agrees(root, flat) && path != [] && p != []
    ensures var vs := LookupForest(PutForest(root, path, Inserting(v)).0, p);
            ValuesSorted(vs) && multiset(vs) == multiset(At(FlatSubscribe(flat, path, v), p))
  {
    var vs := LookupForest(root, path);
    assert multiset(vs) == multiset(At(flat, path));
    InsertValueKeepsOrder(vs, v);
    HasKeyPermuted(vs, At(flat, path), v);
    HasKeyPermuted(At(flat, path), vs, v);
    PutForestLookup(root, path, Inserting(v), p);
    FlatSubscribeAt(flat, path, v, p);
  }

  lemma FlatSubscribeAt(flat: Flat, path: Path, v: Subscription, p: Path)
    ensures At(FlatSubscribe(flat, path, v), p) ==
            if p == path && !HasKey(At(flat, path), v) then At(flat, p) + [v] else At(flat, p)
  {
    PickAppend(flat, [(path, v)], KeepAt(p));
    PickTag(path, [v], KeepAt(p));
    assert Tag(path, [v]) == [(path, v)];
  }

  lemma SubscribeAgrees(root: Forest, flat: Flat, path: Path, v: Subscription)
    requires Agrees(root, flat) && path != []
    ensures Agrees(PutForest(root, path, Inserting(v)).0, FlatSubscribe(flat, path, v))
  {
    InsertValueKeepsOrder(LookupForest(root, path), v);
    PutForestForm(root, path, Inserting(v));
    forall p: Path | p != []
      ensures var vs := LookupForest(PutForest(root, path, Inserting(v)).0, p);
              ValuesSorted(vs) && multiset(vs) == multiset(At(FlatSubscribe(flat, path, v), p))
    {
      SubscribeAt(root, flat, path, v, p);
    }
    PickAppend(flat, [(path, v)], KeepAt([]));
  }

  lemma UnsubscribeValues(vs: Values, ws: Values, v: Subscription)
    requires ValuesSorted(vs) && multiset(vs) == multiset(ws) && vs != []
    ensures RemoveValue(vs, v).Cut?
    ensures multiset(RemoveValue(vs, v).values) ==
            multiset(if |ws| == 1 && !Equal(ws[0], v) then ws else DropKeyValues(ws, v))
  {
    SameLength(vs, ws);
    RemoveValueTakesKey(vs, v);
    if |ws| == 1 {
      assert vs[0] in multiset(vs);
      assert vs[0] in ws;
      assert vs == ws;
    }
    var us := RemoveValue(vs, v).values;
    if !(|ws| == 1 && !Equal(ws[0], v)) {
      forall x ensures multiset(us)[x] == multiset(DropKeyValues(ws, v))[x] {
        DropKeyCounts(ws, v, x);
        RemovedCounts(vs, v, x);
      }
    }
  }

  lemma RemovedCounts(vs: Values, v: Subscription, x: Subscription)
    requires ValuesSorted(vs) && vs != [] && !(|vs| == 1 && !Equal(vs[0], v))
    ensures RemoveValue(vs, v).Cut?
    ensures multiset(RemoveValue(vs, v).values)[x] == if SameKey(x, v) then 0 else multiset(vs)[x]
  {
    RemoveValueTakesKey(vs, v);
    var us := RemoveValue(vs, v).values;
    if SameKey(x, v) {
      assert x !in us by {
        assert !HasKey(us, v) by {
          assert us == vs ==> !HasKey(vs, v);
        }
      }
    } else if HasKey(vs, v) {
      var u :| u in vs && SameKey(u, v) && multiset(us) == multiset(vs) - multiset{u};
    }
  }

  lemma UnsubscribeAt(root: Forest, flat: Flat, path: Path, v: Subscription, p: Path)
    requires Agrees(root, flat) && path != [] && p != [] && TakeForest(root, path, Removing(v)).Ok?
    ensures var vs := LookupForest(TakeForest(root, path, Removing(v)).value.0, p);
            ValuesSorted(vs) && multiset(vs) == multiset(At(FlatUnsubscribe(flat, path, v), p))
  {
    var vs := LookupForest(root, path);
    assert multiset(vs) == multiset(At(flat, path));
    SameLength(vs, At(flat, path));
    TakeForestLookup(root, path, Removing(v), p);
    DropKeyAt(flat, path, v, p);
    if vs == [] {
      TakeForestPanics(root, path, Removing(v));
    } else {
      HasNodeWhenValued(root, path);
      UnsubscribeValues(vs, At(flat, path), v);
      RemoveValueTakesKey(vs, v);
    }
  }

  lemma UnsubscribeAgrees(root: Forest, flat: Flat, path: Path, v: Subscription)
    requires Agrees(root, flat) && path != [] && TakeForest(root, path, Removing(v)).Ok?
    ensures Agrees(TakeForest(root, path, Removing(v)).value.0, FlatUnsubscribe(flat, path, v))
  {
    TakeForestForm(root, path, Removing(v));
    forall p: Path | p != []
      ensures var vs := LookupForest(TakeForest(root, path, Removing(v)).value.0, p);
              ValuesSorted(vs) && multiset(vs) == multiset(At(FlatUnsubscribe(flat, path, v), p))
    {
      UnsubscribeAt(root, flat, path, v, p);
    }
    DropKeyAt(flat, path, v, []);
  }

  lemma StoredIsListed(root: Forest, flat: Flat, p: Path)
    requires Agrees(root, flat) && p != []
    ensures LookupForest(root, p) != [] <==> p in PathsOf(flat)
  {
    assert multiset(LookupForest(root, p)) == multiset(At(flat, p));
    SameLength(LookupForest(root, p), At(flat, p));
    AtIsMember(flat, p);
  }

  lemma BelowIsListed(root: Forest, flat: Flat, path: Path)
    requires Agrees(root, flat) && path != []
    ensures HasForest(root, path) <==> exists i :: 0 <= i < |flat| && path <= flat[i].0
  {
    HasNodeIffBelow(root, path);
    if HasForest(root, path) {
      var q: Path :| LookupForest(root, path + q) != [];
      StoredIsListed(root, flat, path + q);
      var i :| 0 <= i < |flat| && flat[i].0 == path + q;
      assert path <= flat[i].0;
    }
    if i :| 0 <= i < |flat| && path <= flat[i].0 {
      ListedIsBelow(root, flat, path, i);
    }
  }

  lemma ListedIsBelow(root: Forest, flat: Flat, path: Path, i: nat)
    requires Agrees(root, flat) && path != [] && i < |flat| && path <= flat[i].0
    ensures exists q: Path :: LookupForest(root, path + q) != []
  {
    var q := flat[i].0[|path|..];
    assert flat[i].0 == path + q;
    StoredIsListed(root, flat, path + q);
  }

  /** Unsubscribing crashes exactly when the flat list holds something below the path and nothing at it. */
  lemma UnsubscribeCrash(root: Forest, flat: Flat, path: Path, v: Subscription)
    requires Agrees(root, flat) && path != []
    ensures TakeForest(root, path, Removing(v)).Err? <==> FlatCrashes(flat, path)
  {
    TakeForestPanics(root, path, Removing(v));
    BelowIsListed(root, flat, path);
    SameLength(LookupForest(root, path), At(flat, path));
  }

  // ----- Counting -----

  lemma SubscribePaths(flat: Flat, path: Path, v: Subscription)
    ensures |PathsOf(FlatSubscribe(flat, path, v))| == |PathsOf(flat)| + if At(flat, path) == [] then 1 else 0
    ensures PathsOf(FlatSubscribe(flat, path, v)) <= PathsOf(flat) + {path}
  {
    AtIsMember(flat, path);
    var flat' := flat + [(path, v)];
    assert PathsOf(flat') == PathsOf(flat) + {path} by {
      forall p | p in PathsOf(flat) ensures p in PathsOf(flat') {
        var i :| 0 <= i < |flat| && flat[i].0 == p;
        assert flat'[i].0 == p;
      }
      assert flat'[|flat|].0 == path;
    }
  }

  lemma UnsubscribePaths(flat: Flat, path: Path, v: Subscription)
    ensures |PathsOf(FlatUnsubscribe(flat, path, v))| ==
            |PathsOf(flat)| - if At(flat, path) != [] && At(FlatUnsubscribe(flat, path, v), path) == [] then 1 else 0
    ensures PathsOf(FlatUnsubscribe(flat, path, v)) <= PathsOf(flat)
  {
    var flat' := FlatUnsubscribe(flat, path, v);
    forall p: Path ensures p in PathsOf(flat') <==> p in PathsOf(flat) && (p == path ==> At(flat', path) != []) {
      AtIsMember(flat, p);
      AtIsMember(flat', p);
      DropKeyAt(flat, path, v, p);
    }
    AtIsMember(flat, path);
    if At(flat, path) != [] && At(flat', path) == [] {
      assert PathsOf(flat') == PathsOf(flat) - {path};
    } else {
      assert PathsOf(flat') == PathsOf(flat);
    }
  }

  /** The invariant of every serial run: agreement, and `count` is the number of filters that hold a subscription. */
  ghost predicate Inv(st: State, flat: Flat) {
    Agrees(st.root, flat) && st.stats.count == |PathsOf(flat)| && st.stats.missing == 0
  }

  lemma StepAgrees(st: State, flat: Flat, op: Op)
    requires Agrees(st.root, flat) && Step(st, op).Ok?
    ensures Agrees(Step(st, op).value.root, FlatStep(flat, op))
  {
    match op
    case Subscribe(filter, v) => SubscribeAgrees(st.root, flat, Split(filter), v);
    case Unsubscribe(filter, v) => UnsubscribeAgrees(st.root, flat, Split(filter), v);
  }

  lemma StepKeepsInv(st: State, flat: Flat, op: Op)
    requires Inv(st, flat) && |PathsOf(flat)| < USIZE_MAX && Step(st, op).Ok?
    ensures Inv(Step(st, op).value, FlatStep(flat, op))
  {
    var path, v := Split(op.filter), op.value;
    var vs := LookupForest(st.root, path);
    StepAgrees(st, flat, op);
    match op
    case Subscribe(_, _) =>
      SameLength(vs, At(flat, path));
      InsertValueKeepsOrder(vs, v);
      PutForestForm(st.root, path, Inserting(v));
      SubscribePaths(flat, path, v);
    case Unsubscribe(_, _) =>
      TakeForestForm(st.root, path, Removing(v));
      LastWhenEmptied(st.root, flat, path, v);
      UnsubscribePaths(flat, path, v);
  }

  /** `last` is reported exactly when the path held something and holds nothing any more. */
  lemma LastWhenEmptied(root: Forest, flat: Flat, path: Path, v: Subscription)
    requires Agrees(root, flat) && path != [] && TakeForest(root, path, Removing(v)).Ok?
    ensures AfterCut(root, path, Removing(v)).Cut?
    ensures AfterCut(root, path, Removing(v)).last <==>
            At(flat, path) != [] && At(FlatUnsubscribe(flat, path, v), path) == []
  {
    var vs := LookupForest(root, path);
    var ws := LookupForest(TakeForest(root, path, Removing(v)).value.0, path);
    TakeForestLookup(root, path, Removing(v), path);
    UnsubscribeAt(root, flat, path, v, path);
    SameLength(vs, At(flat, path));
    SameLength(ws, At(FlatUnsubscribe(flat, path, v), path));
    if vs != [] {
      HasNodeWhenValued(root, path);
      RemoveValueTakesKey(vs, v);
    } else {
      TakeForestPanics(root, path, Removing(v));
    }
  }

  // ----- Runs -----

  lemma {:induction false} FlatRunPaths(ops: seq<Op>)
    ensures |PathsOf(FlatRun(ops))| <= |ops|
  {
    if ops != [] {
      var op := ops[|ops| - 1];
      FlatRunPaths(ops[..|ops| - 1]);
      SubscribePaths(FlatRun(ops[..|ops| - 1]), Split(op.filter), op.value);
      UnsubscribePaths(FlatRun(ops[..|ops| - 1]), Split(op.filter), op.value);
    }
  }

  /** After any run that did not crash, the trie agrees with the flat list. */
  lemma {:induction false} RunAgrees(ops: seq<Op>)
    requires Run(ops).Ok?
    ensures Agrees(Run(ops).value.root, FlatRun(ops))
  {
    if ops != [] {
      RunAgrees(ops[..|ops| - 1]);
      StepAgrees(Run(ops[..|ops| - 1]).value, FlatRun(ops[..|ops| - 1]), ops[|ops| - 1]);
    }
  }

  /** As long as the counter cannot saturate, it is the number of filters that hold a subscription. */
  lemma {:induction false} RunCounts(ops: seq<Op>)
    requires |ops| <= USIZE_MAX && Run(ops).Ok?
    ensures Inv(Run(ops).value, FlatRun(ops))
  {
    if ops != [] {
      RunCounts(ops[..|ops| - 1]);
      FlatRunPaths(ops[..|ops| - 1]);
      StepKeepsInv(Run(ops[..|ops| - 1]).value, FlatRun(ops[..|ops| - 1]), ops[|ops| - 1]);
    }
  }

  /** How many subscriptions of a run repeated one that was there. */
  ghost function Repeats(ops: seq<Op>): nat {
    if ops == [] then 0
    else
      var init, op := ops[..|ops| - 1], ops[|ops| - 1];
      Repeats(init) + if op.Subscribe? && HasKey(At(FlatRun(init), Split(op.filter)), op.value) then 1 else 0
  }

  /** The statistics count those too, and nothing else changes them. */
  lemma {:induction false} RunRepeats(ops: seq<Op>)
    requires |ops| <= USIZE_MAX && Run(ops).Ok?
    ensures Repeats(ops) <= |ops| && Run(ops).value.stats.repeat == Repeats(ops)
    ensures Run(ops).value.stats.lookups == 0 && Run(ops).value.stats.hits == 0
  {
    if ops != [] {
      var init, op := ops[..|ops| - 1], ops[|ops| - 1];
      RunRepeats(init);
      RunAgrees(init);
      RepeatReported(Run(init).value.root, FlatRun(init), Split(op.filter), op.value);
      StepCounters(Run(init).value, op);
    }
  }

  lemma RepeatReported(root: Forest, flat: Flat, path: Path, v: Subscription)
    requires Agrees(root, flat) && path != []
    ensures PutForest(root, path, Inserting(v)).2 <==> HasKey(At(flat, path), v)
  {
    KeyListed(root, flat, path, v);
    RepeatIsKey(root, path, v);
  }

  lemma RepeatIsKey(root: Forest, path: Path, v: Subscription)
    requires WfForest(root) && path != [] && ValuesSorted(LookupForest(root, path))
    ensures PutForest(root, path, Inserting(v)).2 <==> HasKey(LookupForest(root, path), v)
  {
    InsertValueKeepsOrder(LookupForest(root, path), v);
    PutForestForm(root, path, Inserting(v));
  }

  lemma KeyListed(root: Forest, flat: Flat, path: Path, v: Subscription)
    requires Agrees(root, flat) && path != []
    ensures HasKey(LookupForest(root, path), v) <==> HasKey(At(flat, path), v)
    ensures WfForest(root) && ValuesSorted(LookupForest(root, path))
  {
    var vs := LookupForest(root, path);
    assert multiset(vs) == multiset(At(flat, path));
    HasKeyPermuted(vs, At(flat, path), v);
    HasKeyPermuted(At(flat, path), vs, v);
  }

  lemma StepCounters(st: State, op: Op)
    requires Step(st, op).Ok? && st.stats.repeat < USIZE_MAX
    ensures var stats := Step(st, op).value.stats;
            && stats.lookups == st.stats.lookups && stats.hits == st.stats.hits
            && stats.repeat == st.stats.repeat + if op.Subscribe? && PutForest(st.root, Split(op.filter), Inserting(op.value)).2 then 1 else 0
  {
  }

  ghost predicate CrashesAt(ops: seq<Op>, k: nat) {
    k < |ops| && ops[k].Unsubscribe? && FlatCrashes(FlatRun(ops[..k]), Split(ops[k].filter))
  }

  lemma LastStepCrash(ops: seq<Op>)
    requires 0 < |ops| && Run(ops[..|ops| - 1]).Ok?
    ensures Run(ops).Err? <==> CrashesAt(ops, |ops| - 1)
  {
    var init, op := ops[..|ops| - 1], ops[|ops| - 1];
    RunAgrees(init);
    UnsubscribeCrash(Run(init).value.root, FlatRun(init), Split(op.filter), op.value);
  }

  lemma CrashesEarlier(ops: seq<Op>, n: nat, k: nat)
    requires k < n <= |ops|
    ensures CrashesAt(ops, k) <==> CrashesAt(ops[..n], k)
  {
    assert ops[..n][..k] == ops[..k];
  }

  /** A run crashes exactly when some unsubscribe in it addresses an inner filter that holds nothing. */
  lemma {:induction false} RunCrash(ops: seq<Op>)
    ensures Run(ops).Err? <==> exists k :: CrashesAt(ops, k)
  {
    if ops != [] {
      var init := ops[..|ops| - 1];
      RunCrash(init);
      CrashesLast(ops, init);
      if Run(init).Ok? {
        LastStepCrash(ops);
      }
    }
  }

  lemma CrashesLast(ops: seq<Op>, init: seq<Op>)
    requires ops != [] && init == ops[..|ops| - 1]
    ensures (exists k :: CrashesAt(ops, k)) <==> (exists k :: CrashesAt(init, k)) || CrashesAt(ops, |init|)
  {
    forall k: nat | k < |init| ensures CrashesAt(ops, k) <==> CrashesAt(init, k) {
      CrashesEarlier(ops, |init|, k);
    }
    if k :| CrashesAt(init, k) {
      assert CrashesAt(ops, k);
    }
  }

  /**
   * The index answers like the list: after any run, matching a valid topic returns exactly the
   * subscriptions whose filter is delivered to, each as often as the flat list holds it.
   */
  lemma RunMatches(ops: seq<Op>, topic: Str)
    requires Run(ops).Ok? && ValidateName(topic).Ok?
    ensures multiset(MatchTopic(Run(ops).value.root, Split(topic), true)) ==
            multiset(Pick(FlatRun(ops), KeepDelivered(Split(topic))))
  {
    RunAgrees(ops);
    var root, flat := Run(ops).value.root, FlatRun(ops);
    ValidNameIsWildcardFree(topic);
    MatchDollarIsPick(root, Split(topic));
    AgreesIsPermutation(root, flat);
    PickPermuted(Pairs(root), flat, KeepDelivered(Split(topic)));
  }

  lemma {:induction false} PickHas(flat: Flat, keep: Path -> bool, i: nat)
    requires i < |flat| && keep(flat[i].0)
    ensures flat[i].1 in Pick(flat, keep)
    decreases |flat|
  {
    if i > 0 {
      PickHas(flat[1..], keep, i - 1);
    }
  }

  lemma {:induction false} AtHas(flat: Flat, path: Path, m: Subscription)
    requires m in At(flat, path)
    ensures exists i :: 0 <= i < |flat| && flat[i] == (path, m)
    decreases |flat|
  {
    if flat[0] == (path, m) {
    } else {
      AtHas(flat[1..], path, m);
      var i :| 0 <= i < |flat[1..]| && flat[1..][i] == (path, m);
      assert flat[i + 1] == (path, m);
    }
  }

  /** A client that has just subscribed is among the matches of every topic its filter is delivered, with this subscription if it had none there. */
  lemma SubscribedIsDelivered(ops: seq<Op>, filter: Str, v: Subscription, topic: Str)
    requires Run(ops).Ok? && ValidateName(topic).Ok? && Delivers(Split(filter), Split(topic))
    ensures Run(ops + [Subscribe(filter, v)]).Ok?
    ensures var ms := MatchTopic(Run(ops + [Subscribe(filter, v)]).value.root, Split(topic), true);
            && (exists m :: m in ms && SameKey(m, v))
            && (!HasKey(LookupForest(Run(ops).value.root, Split(filter)), v) ==> v in ms)
  {
    var all := ops + [Subscribe(filter, v)];
    assert all[..|ops|] == ops;
    RunMatches(all, topic);
    RunAgrees(ops);
    KeyListed(Run(ops).value.root, FlatRun(ops), Split(filter), v);
    var i := ListedKey(FlatRun(ops), Split(filter), v);
    var m := FlatRun(all)[i].1;
    PickHas(FlatRun(all), KeepDelivered(Split(topic)), i);
    InBoth(MatchTopic(Run(all).value.root, Split(topic), true), Pick(FlatRun(all), KeepDelivered(Split(topic))), m);
  }

  lemma InBoth<T>(a: seq<T>, b: seq<T>, t: T)
    requires multiset(a) == multiset(b) && t in b
    ensures t in a
  {
    assert t in multiset(b);
  }

  lemma ListedKey(flat: Flat, path: Path, v: Subscription) returns (i: nat)
    ensures var flat' := FlatSubscribe(flat, path, v);
            i < |flat'| && flat'[i].0 == path && SameKey(flat'[i].1, v) && (!HasKey(At(flat, path), v) ==> flat'[i].1 == v)
  {
    if HasKey(At(flat, path), v) {
      var k :| 0 <= k < |At(flat, path)| && SameKey(At(flat, path)[k], v);
      AtHas(flat, path, At(flat, path)[k]);
      i :| 0 <= i < |flat| && flat[i] == (path, At(flat, path)[k]);
    } else {
      i := |flat|;
    }
  }

  lemma AgreesIsPermutation(root: Forest, flat: Flat)
    requires Agrees(root, flat)
    ensures multiset(Pairs(root)) == multiset(flat)
  {
    forall p: Path ensures multiset(At(Pairs(root), p)) == multiset(At(flat, p)) {
      if p == [] {
        PickNoRoot(root);
      } else {
        LookupIsAt(root, p);
      }
    }
    SamePairs(Pairs(root), flat);
  }

  /** No pair is stored at the root itself. */
  lemma PickNoRoot(root: Forest)
    ensures At(Pairs(root), []) == []
  {
    assert forall q: Path :: [] + q == q;
    PickNothingBelow(root, [], KeepAt([]));
  }

  /** Runs whose flat lists hold the same pairs, in whatever order, end in the very same trie. */
  lemma RunsConverge(ops: seq<Op>, ops': seq<Op>)
    requires Run(ops).Ok? && Run(ops').Ok?
    requires multiset(FlatRun(ops)) == multiset(FlatRun(ops'))
    ensures Run(ops).value.root == Run(ops').value.root
  {
    RunAgrees(ops);
    RunAgrees(ops');
    var a, b := Run(ops).value.root, Run(ops').value.root;
    forall q: Path | q != [] ensures LookupForest(a, q) == LookupForest(b, q) {
      PickPermuted(FlatRun(ops), FlatRun(ops'), KeepAt(q));
      SortedValuesUnique(LookupForest(a, q), LookupForest(b, q));
    }
    Canonical(a, b);
  }

  /** Subscribing with a key already held at the filter changes nothing, options included. */
  lemma ResubscribeChangesNothing(root: Forest, path: Path, v: Subscription)
    requires WfForest(root) && path != [] && ValuesSorted(LookupForest(root, path)) && HasKey(LookupForest(root, path), v)
    ensures PutForest(root, path, Inserting(v)) == (root, false, true)
  {
    var vs := LookupForest(root, path);
    InsertValueKeepsOrder(vs, v);
    PutForestForm(root, path, Inserting(v));
    forall q: Path | q != [] ensures LookupForest(PutForest(root, path, Inserting(v)).0, q) == LookupForest(root, q) {
      PutForestLookup(root, path, Inserting(v), q);
    }
    Canonical(PutForest(root, path, Inserting(v)).0, root);
  }

  /** Subscribing a fresh key and unsubscribing it again restores the very same trie. */
  lemma UnsubscribeUndoesSubscribe(root: Forest, path: Path, v: Subscription)
    requires WfForest(root) && path != [] && ValuesSorted(LookupForest(root, path)) && !HasKey(LookupForest(root, path), v)
    ensures var vs := LookupForest(root, path);
            TakeForest(PutForest(root, path, Inserting(v)).0, path, Removing(v)) == Ok((root, vs == [], false))
  {
    var vs, added := LookupForest(root, path), PutForest(root, path, Inserting(v)).0;
    InsertValueKeepsOrder(vs, v);
    PutForestForm(root, path, Inserting(v));
    PutForestLookup(root, path, Inserting(v), path);
    RemoveInsertedValue(vs, v);
    HasNodeWhenValued(added, path);
    TakeForestPanics(added, path, Removing(v));
    TakeForestForm(added, path, Removing(v));
    var back := TakeForest(added, path, Removing(v)).value.0;
    forall q: Path | q != [] ensures LookupForest(back, q) == LookupForest(root, q) {
      TakeForestLookup(added, path, Removing(v), q);
      PutForestLookup(root, path, Inserting(v), q);
    }
    Canonical(back, root);
  }

  /**
   * Unsubscribing is meant to end the client's subscription. It does so exactly unless the filter's
   * only subscription has the client's key and differs in an option.
   */
  lemma UnsubscribeEndsSubscription(root: Forest, path: Path, v: Subscription)
    requires WfForest(root) && path != [] && ValuesSorted(LookupForest(root, path)) && TakeForest(root, path, Removing(v)).Ok?
    ensures var vs := LookupForest(root, path);
            !HasKey(LookupForest(TakeForest(root, path, Removing(v)).value.0, path), v) <==>
            !(|vs| == 1 && SameKey(vs[0], v) && !Equal(vs[0], v))
  {
    var vs := LookupForest(root, path);
    TakeForestLookup(root, path, Removing(v), path);
    if vs != [] {
      HasNodeWhenValued(root, path);
      RemoveValueTakesKey(vs, v);
      assert |vs| == 1 ==> (HasKey(vs, v) <==> SameKey(vs[0], v));
    } else {
      TakeForestPanics(root, path, Removing(v));
    }
  }

  // ----- At an input -----

  const PLAIN: Str := [0x61]

  function WithQoS(c: Str, qos: QoS): Subscription {
    Subscription(PLAIN, c, 0, None, qos, false, false, Never)
  }

  lemma OneListed(v: Subscription)
    ensures FlatRun([Subscribe(PLAIN, v)]) == [([PLAIN], v)] && At([([PLAIN], v)], [PLAIN]) == [v]
  {
    SplitPlain(0x61);
    assert [Subscribe(PLAIN, v)][..0] == [];
    assert [([PLAIN], v)][1..] == [];
  }

  lemma StaleIsListed(c: Str)
    ensures var a, b := Subscribe(PLAIN, WithQoS(c, AtMostOnce)), Subscribe(PLAIN, WithQoS(c, AtLeastOnce));
            FlatRun([a, b]) == [([PLAIN], a.value)]
  {
    var a, b := Subscribe(PLAIN, WithQoS(c, AtMostOnce)), Subscribe(PLAIN, WithQoS(c, AtLeastOnce));
    OneListed(a.value);
    SplitPlain(0x61);
    assert SameKey([a.value][0], b.value);
    assert [a, b][..1] == [a];
  }

  /** A client that re-subscribes with another QoS and then unsubscribes that stays subscribed. */
  lemma StaleSubscriptionSurvives(c: Str)
    ensures var first, second := WithQoS(c, AtMostOnce), WithQoS(c, AtLeastOnce);
            var ops := [Subscribe(PLAIN, first), Subscribe(PLAIN, second), Unsubscribe(PLAIN, second)];
            Run(ops).Ok? && LookupForest(Run(ops).value.root, [PLAIN]) == [first]
  {
    var first, second := WithQoS(c, AtMostOnce), WithQoS(c, AtLeastOnce);
    var ops := [Subscribe(PLAIN, first), Subscribe(PLAIN, second), Unsubscribe(PLAIN, second)];
    StaleIsListed(c);
    OneListed(first);
    SplitPlain(0x61);
    assert ops[..2] == [Subscribe(PLAIN, first), Subscribe(PLAIN, second)];
    assert FlatRun(ops) == [([PLAIN], first)];
    forall k: nat ensures !CrashesAt(ops, k) {
      assert k < 2 ==> ops[k].Subscribe?;
    }
    RunCrash(ops);
    RunAgrees(ops);
    OnlyOne(LookupForest(Run(ops).value.root, [PLAIN]), first);
  }

  lemma OnlyOne<T>(s: seq<T>, x: T)
    requires multiset(s) == multiset([x])
    ensures s == [x]
  {
    SameLength(s, [x]);
    assert s[0] in multiset(s);
  }

  /** Subscribing `a/b` and unsubscribing `a`. */
  lemma InnerLevelCrashes(v: Subscription, w: Subscription)
    ensures Run([Subscribe([0x61, SLASH, 0x62], v), Unsubscribe([0x61], w)]).Err?
  {
    var a, d := Subscribe([0x61, SLASH, 0x62], v), Unsubscribe([0x61], w);
    var p, q: Path := [[0x61], [0x62]], [[0x61]];
    SplitPlain(0x61);
    SplitTwo(0x61, 0x62);
    assert [a, d][..1] == [a] && [a][..0] == [];
    assert FlatRun([a]) == [(p, v)];
    assert |p| != |q| && [(p, v)][1..] == [];
    assert Pick([(p, v)], KeepAt(q)) == [] + Pick([], KeepAt(q));
    assert q <= [(p, v)][0].0;
    assert CrashesAt([a, d], 1);
    RunCrash([a, d]);
  }

  // ----- `#` is a leaf -----

  lemma {:induction false} ListedWereSubscribed(ops: seq<Op>, path: Path)
    requires path in PathsOf(FlatRun(ops))
    ensures exists k :: 0 <= k < |ops| && ops[k].Subscribe? && Split(ops[k].filter) == path
    decreases |ops|
  {
    if ops != [] {
      var init, op := ops[..|ops| - 1], ops[|ops| - 1];
      SubscribePaths(FlatRun(init), Split(op.filter), op.value);
      UnsubscribePaths(FlatRun(init), Split(op.filter), op.value);
      if path in PathsOf(FlatRun(init)) {
        ListedWereSubscribed(init, path);
        var k :| 0 <= k < |init| && init[k].Subscribe? && Split(init[k].filter) == path;
        assert ops[k] == init[k];
      } else {
        assert ops[|ops| - 1].Subscribe? && Split(ops[|ops| - 1].filter) == path;
      }
    }
  }

  /** After a run that subscribed accepted filters only, nothing lies below a `#`. */
  lemma HashIsLeaf(ops: seq<Op>, path: Path, i: nat)
    requires Run(ops).Ok? && forall k :: 0 <= k < |ops| && ops[k].Subscribe? ==> ValidateFilter(ops[k].filter).Ok?
    requires i < |path| && HasForest(Run(ops).value.root, path) && path[i] == MULTI_LEVEL
    ensures i == |path| - 1
  {
    var root, flat := Run(ops).value.root, FlatRun(ops);
    RunAgrees(ops);
    HasNodeIffBelow(root, path);
    var q: Path :| LookupForest(root, path + q) != [];
    StoredIsListed(root, flat, path + q);
    AtIsMember(flat, path + q);
    ListedWereSubscribed(ops, path + q);
    var k :| 0 <= k < |ops| && ops[k].Subscribe? && Split(ops[k].filter) == path + q;
    FilterValidation(ops[k].filter);
    assert (path + q)[i] == path[i];
  }
}
