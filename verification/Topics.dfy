/** Topic names and topic filters: splitting into levels, validation, and the flat matching rule. */
module Topics {
  import opened Base

  const SLASH: byte := 0x2f
  const HASH: byte := 0x23
  const PLUS: byte := 0x2b
  const DOLLAR: byte := 0x24
  const NUL: byte := 0

  const MULTI_LEVEL: Str := [HASH]
  const SINGLE_LEVEL: Str := [PLUS]

  /** The levels of a topic name or filter, in order. */
  type Path = seq<Str>

  /** `iter_topic_path`: split at every slash; never yields zero levels. */
  function Split(s: Str): (levels: Path)
    ensures |levels| >= 1
  {
    if s == [] then [[]]
    else
      var rest := Split(s[1..]);
      if s[0] == SLASH then [[]] + rest else [[s[0]] + rest[0]] + rest[1..]
  }

  lemma SplitPlain(b: byte)
    requires b != SLASH
    ensures Split([b]) == [[b]]
  {
    var s: Str, none: Str, rest: Path := [b], [], [[]];
    assert s[1..] == none && Split(none) == rest && rest[1..] == [] && s + rest[0] == s;
  }

  lemma SplitTwo(a: byte, b: byte)
    requires a != SLASH && b != SLASH
    ensures Split([a, SLASH, b]) == [[a], [b]]
  {
    var s: Str, t: Str, u: Str := [a, SLASH, b], [SLASH, b], [b];
    SplitPlain(b);
    assert s[1..] == t && t[1..] == u;
    var rest: Path := [[], [b]];
    assert Split(t) == rest;
    assert [a] + rest[0] == [a] && rest[1..] == [[b]];
  }

  function Join(levels: Path): Str
    requires |levels| >= 1
  {
    if |levels| == 1 then levels[0] else levels[0] + [SLASH] + Join(levels[1..])
  }

  /** Levels determine the text, so indexing by path is indexing by filter. */
  lemma {:induction false} JoinSplit(s: Str)
    ensures Join(Split(s)) == s
  {
    if s != [] {
      JoinSplit(s[1..]);
      var rest := Split(s[1..]);
      assert s == [s[0]] + s[1..];
      if s[0] == SLASH {
        assert Split(s)[1..] == rest;
      } else {
        assert Split(s) == [[s[0]] + rest[0]] + rest[1..];
        if |rest| > 1 {
          assert Split(s)[1..] == rest[1..];
          assert s[1..] == rest[0] + [SLASH] + Join(rest[1..]);
        }
      }
    }
  }

  /** Joining levels that hold no slash and splitting again gives the levels back. */
  lemma {:induction false} SplitJoin(levels: Path)
    requires levels != [] && forall i :: 0 <= i < |levels| ==> SLASH !in levels[i]
    ensures Split(Join(levels)) == levels
    decreases |levels|
  {
    if |levels| == 1 {
      SplitFirst(levels[0], []);
      assert levels[0] + [] == levels[0];
    } else {
      var rest := Join(levels[1..]);
      SplitJoin(levels[1..]);
      assert Join(levels) == levels[0] + ([SLASH] + rest);
      SplitFirst(levels[0], [SLASH] + rest);
      assert ([SLASH] + rest)[1..] == rest;
      assert levels == [levels[0]] + levels[1..];
    }
  }

  lemma {:induction false} SplitFirst(level: Str, rest: Str)
    requires SLASH !in level && (rest == [] || rest[0] == SLASH)
    ensures Split(level + rest) == if rest == [] then [level] else [level] + Split(rest[1..])
    decreases |level|
  {
    if level == [] {
      assert level + rest == rest;
    } else {
      assert (level + rest)[0] == level[0] && (level + rest)[1..] == level[1..] + rest;
      assert level == [level[0]] + level[1..];
      SplitFirst(level[1..], rest);
    }
  }

  lemma {:induction false} LevelsHoldNoSlash(s: Str)
    ensures forall i :: 0 <= i < |Split(s)| ==> SLASH !in Split(s)[i]
  {
    if s != [] {
      LevelsHoldNoSlash(s[1..]);
    }
  }

  lemma SplitInjective(s: Str, t: Str)
    requires Split(s) == Split(t)
    ensures s == t
  {
    JoinSplit(s);
    JoinSplit(t);
  }

  /** A level, and hence a path, never contains a slash; wildcard bytes in the text are in some level and back. */
  lemma {:induction false} SplitBytes(s: Str, b: byte)
    requires b != SLASH
    ensures b in s <==> exists i :: 0 <= i < |Split(s)| && b in Split(s)[i]
  {
    if s != [] {
      SplitBytes(s[1..], b);
      var rest := Split(s[1..]);
      var all := Split(s);
      assert s == [s[0]] + s[1..];
      if s[0] == SLASH {
        assert forall i :: 0 <= i < |rest| ==> all[i + 1] == rest[i];
      } else {
        assert all[0] == [s[0]] + rest[0];
        assert forall i :: 1 <= i < |rest| ==> all[i] == rest[i];
        if b in s[1..] {
          var i :| 0 <= i < |rest| && b in rest[i];
          assert b in all[i];
        }
        if s[0] == b {
          assert b in all[0];
        }
      }
    }
  }

  predicate IsWildcard(level: Str) {
    level == MULTI_LEVEL || level == SINGLE_LEVEL
  }

  predicate HasWildcardByte(s: Str) {
    HASH in s || PLUS in s
  }

  /** `TopicName::validate` */
  function ValidateName(s: Str): Result<()> {
    if |s| == 0 then Err(MalformedPacket)
    else if HASH in s || PLUS in s || NUL in s then Err(MalformedPacket)
    else Ok(())
  }

  /** A topic name is accepted exactly when it is not empty and no byte of it is a wildcard or NUL. */
  lemma NameValidation(s: Str)
    ensures ValidateName(s).Ok? <==> |s| > 0 && forall i :: 0 <= i < |s| ==> s[i] != 0x23 && s[i] != 0x2b && s[i] != 0
    ensures ValidateName(s).Err? ==> ValidateName(s).kind == MalformedPacket
  {
  }

  /** `skip_while(|l| l != "#")` */
  function SkipToHash(levels: Path): Path {
    if levels == [] || levels[0] == MULTI_LEVEL then levels else SkipToHash(levels[1..])
  }

  /** `TopicFilter::validate` */
  function ValidateFilter(s: Str): Result<()> {
    if |s| == 0 then Err(MalformedPacket)
    else if NUL in s then Err(MalformedPacket)
    else
      var levels := Split(s);
      if exists i :: 0 <= i < |levels| && |levels[i]| > 1 && HasWildcardByte(levels[i]) then Err(MalformedPacket)
      else if |SkipToHash(levels)| >= 2 then Err(MalformedPacket)
      else Ok(())
  }

  lemma {:induction false} SkipToHashIsTail(levels: Path)
    ensures |SkipToHash(levels)| >= 2 <==> exists i :: 0 <= i < |levels| - 1 && levels[i] == MULTI_LEVEL
  {
    if levels != [] && levels[0] != MULTI_LEVEL {
      SkipToHashIsTail(levels[1..]);
      if i :| 0 <= i < |levels| - 1 && levels[i] == MULTI_LEVEL {
        assert levels[1..][i - 1] == MULTI_LEVEL;
      }
    }
  }

  /** What section 4.7.1 of MQTT Version 5.0 asks of a filter, level by level. */
  ghost predicate WellFormedFilter(s: Str) {
    && s != []
    && NUL !in s
    && (forall i :: 0 <= i < |Split(s)| && HasWildcardByte(Split(s)[i]) ==> |Split(s)[i]| == 1)
    && (forall i :: 0 <= i < |Split(s)| - 1 ==> Split(s)[i] != MULTI_LEVEL)
  }

  /** `validate` accepts exactly the filters the standard calls well formed. */
  lemma FilterValidation(s: Str)
    ensures ValidateFilter(s).Ok? <==> WellFormedFilter(s)
  {
    SkipToHashIsTail(Split(s));
    if ValidateFilter(s).Ok? {
      forall i | 0 <= i < |Split(s)| && HasWildcardByte(Split(s)[i])
        ensures |Split(s)[i]| == 1
      {
        assert !(|Split(s)[i]| > 1);
      }
    }
  }

  /** Level-by-level matching with no index: `#` stands for at least one remaining level. */
  predicate Matches(filter: Path, topic: Path) {
    if topic == [] then filter == []
    else if filter == [] then false
    else if filter[0] == MULTI_LEVEL then |filter| == 1
    else (filter[0] == SINGLE_LEVEL || filter[0] == topic[0]) && Matches(filter[1..], topic[1..])
  }

  predicate StartsWithWildcard(filter: Path) {
    filter != [] && IsWildcard(filter[0])
  }

  /** The rule `match_topic_name` applies: its dollar flag is always set. */
  predicate Delivers(filter: Path, topic: Path) {
    !StartsWithWildcard(filter) && Matches(filter, topic)
  }

  predicate WildcardFree(topic: Path) {
    forall i :: 0 <= i < |topic| ==> !IsWildcard(topic[i])
  }

  predicate LevelAccepts(pattern: Str, level: Str) {
    pattern == SINGLE_LEVEL || pattern == level
  }

  /** The first `n` levels of the filter accept the first `n` levels of the topic. */
  ghost predicate Accepts(filter: Path, topic: Path, n: nat) {
    n <= |filter| && n <= |topic| && forall i :: 0 <= i < n ==> LevelAccepts(filter[i], topic[i])
  }

  /** Section 4.7 of MQTT Version 5.0: `#` also covers the parent level, and only `$` topics are closed to leading wildcards. */
  ghost predicate StandardMatches(filter: Path, topic: Path)
    requires filter != [] && topic != []
  {
    && !(StartsWithWildcard(filter) && topic[0] != [] && topic[0][0] == DOLLAR)
    && if filter[|filter| - 1] == MULTI_LEVEL then Accepts(filter, topic, |filter| - 1)
       else |filter| == |topic| && Accepts(filter, topic, |filter|)
  }

  lemma AcceptsStep(filter: Path, topic: Path, n: nat)
    requires filter != [] && topic != [] && n > 0
    ensures Accepts(filter, topic, n) <==>
            LevelAccepts(filter[0], topic[0]) && Accepts(filter[1..], topic[1..], n - 1)
  {
    if Accepts(filter[1..], topic[1..], n - 1) && LevelAccepts(filter[0], topic[0]) {
      forall i | 0 <= i < n ensures LevelAccepts(filter[i], topic[i]) {
        assert i == 0 || LevelAccepts(filter[1..][i - 1], topic[1..][i - 1]);
      }
    }
  }

  /** The recursion in closed form, for topics that carry no wildcard. */
  lemma {:induction false} MatchesClosedForm(filter: Path, topic: Path)
    requires WildcardFree(topic) && filter != []
    ensures Matches(filter, topic) <==>
            if filter[|filter| - 1] == MULTI_LEVEL then |filter| <= |topic| && Accepts(filter, topic, |filter| - 1)
            else |filter| == |topic| && Accepts(filter, topic, |filter|)
  {
    if topic != [] {
      if |filter| > 1 {
        AcceptsStep(filter, topic, |filter| - 1);
        AcceptsStep(filter, topic, |filter|);
        if filter[0] != MULTI_LEVEL {
          assert WildcardFree(topic[1..]) by {
            assert forall i :: 0 <= i < |topic| - 1 ==> topic[1..][i] == topic[i + 1];
          }
          MatchesClosedForm(filter[1..], topic[1..]);
        }
      }
    }
  }

  /**
   * Where the broker departs from the standard. A filter is delivered to exactly when the standard
   * says so, it does not start with a wildcard, and it is not longer than the topic: leading
   * wildcards never match any topic, and `a/#` misses the topic `a`.
   */
  lemma DeliveryVersusStandard(filter: Path, topic: Path)
    requires filter != [] && topic != [] && WildcardFree(topic)
    ensures Delivers(filter, topic) <==>
            StandardMatches(filter, topic) && !IsWildcard(filter[0]) && |filter| <= |topic|
  {
    MatchesClosedForm(filter, topic);
  }

  /** The filter `#` matches the topic `a` in the standard and receives nothing here. */
  lemma HashAloneIsNeverDelivered()
    ensures StandardMatches([MULTI_LEVEL], [[0x61]]) && !Delivers([MULTI_LEVEL], [[0x61]])
    ensures StandardMatches([[0x61], MULTI_LEVEL], [[0x61]]) && !Delivers([[0x61], MULTI_LEVEL], [[0x61]])
  {
    assert WildcardFree([[0x61]]);
    DeliveryVersusStandard([MULTI_LEVEL], [[0x61]]);
    DeliveryVersusStandard([[0x61], MULTI_LEVEL], [[0x61]]);
  }

  /** The levels of a valid topic name carry no wildcard. */
  lemma ValidNameIsWildcardFree(name: Str)
    requires ValidateName(name).Ok?
    ensures WildcardFree(Split(name))
  {
    SplitBytes(name, HASH);
    SplitBytes(name, PLUS);
    forall i | 0 <= i < |Split(name)|
      ensures !IsWildcard(Split(name)[i])
    {
      assert HASH !in Split(name)[i] && PLUS !in Split(name)[i];
      assert HASH in MULTI_LEVEL && PLUS in SINGLE_LEVEL;
    }
  }
}
