/**
 * Decoding loops. Property sections and the filter list of SUBSCRIBE are read by the same loop: decode
 * an item at the current offset, let it enter what has been gathered, go on until the limit.
 */
module ItemLoops {
  import opened Base
  import opened Wire

  /** A decoded item takes at least one byte. */
  ghost predicate Progresses<I(!new)>(read: Bytes -> Decoded<I>) {
    forall s: Bytes :: read(s).Ok? ==> read(s).value.1 > 0
  }

  /** The `while n < limit` loop, from offset `n` on. */
  function DecodeLoop<I(!new), T>(s: Bytes, n: nat, limit: nat, acc: T, read: Bytes -> Decoded<I>, enter: (T, I) -> Result<T>): Decoded<T>
    requires Progresses(read)
    decreases if n < limit then limit - n else 0
  {
    if n >= limit then Ok((acc, n))
    else
      var rest :- Advance(s, n);
      var (item, m) :- read(rest);
      var acc' :- enter(acc, item);
      DecodeLoop(s, n + m, limit, acc', read, enter)
  }

  method RunLoop<I(!new), T>(s: Bytes, start: nat, limit: nat, init: T, read: Bytes -> Decoded<I>, enter: (T, I) -> Result<T>)
    returns (r: Decoded<T>)
    requires Progresses(read)
    ensures r == DecodeLoop(s, start, limit, init, read, enter)
  {
    var n, acc := start, init;
    while n < limit
      invariant DecodeLoop(s, n, limit, acc, read, enter) == DecodeLoop(s, start, limit, init, read, enter)
    {
      var rest := Advance(s, n);
      if rest.Err? {
        return Err(rest.kind);
      }
      var next := read(rest.value);
      if next.Err? {
        return Err(next.kind);
      }
      var (item, m) := next.value;
      var entered := enter(acc, item);
      if entered.Err? {
        return Err(entered.kind);
      }
      n := n + m;
      acc := entered.value;
    }
    return Ok((acc, n));
  }

  function EncodeItems<I>(items: seq<I>, write: I -> Result<Bytes>): Result<Bytes> {
    if items == [] then Ok([])
    else
      var head :- write(items[0]);
      var rest :- EncodeItems(items[1..], write);
      Ok(head + rest)
  }

  /** Entering a list of items rather than bytes. */
  function Fold<I, T>(items: seq<I>, acc: T, enter: (T, I) -> Result<T>): Result<T> {
    if items == [] then Ok(acc)
    else
      var acc' :- enter(acc, items[0]);
      Fold(items[1..], acc', enter)
  }

  /** Reading what was written, whatever follows, gives the item back and its length. */
  ghost predicate RoundTrips<I>(item: I, write: I -> Result<Bytes>, read: Bytes -> Decoded<I>) {
    write(item).Ok? ==> forall tail: Bytes :: read(write(item).value + tail) == Ok((item, |write(item).value|))
  }

  /** The loop over an encoded list does what entering the list does, and stops right behind it. */
  lemma {:induction false} LoopReadsItems<I(!new), T>(pre: Bytes, items: seq<I>, tail: Bytes, acc: T,
      write: I -> Result<Bytes>, read: Bytes -> Decoded<I>, enter: (T, I) -> Result<T>)
    requires Progresses(read) && EncodeItems(items, write).Ok?
    requires forall i :: 0 <= i < |items| ==> RoundTrips(items[i], write, read)
    ensures var bs := EncodeItems(items, write).value;
            DecodeLoop(pre + bs + tail, |pre|, |pre| + |bs|, acc, read, enter) ==
            match Fold(items, acc, enter)
            case Ok(t) => Ok((t, |pre| + |bs|))
            case Err(kind) => Err(kind)
    decreases |items|
  {
    if items != [] {
      var head, rest := write(items[0]).value, EncodeItems(items[1..], write).value;
      var s := pre + EncodeItems(items, write).value + tail;
      assert RoundTrips(items[0], write, read);
      assert s == pre + (head + (rest + tail));
      AdvanceOver(pre, head + (rest + tail));
      assert read(head + (rest + tail)) == Ok((items[0], |head|));
      var acc' := enter(acc, items[0]);
      if acc'.Ok? {
        assert s == (pre + head) + rest + tail;
        LoopReadsItems(pre + head, items[1..], tail, acc'.value, write, read, enter);
      }
      assert |head| > 0;
    }
  }

  // ----- Lists behind their length -----

  /** A length, then items up to that length. */
  function DecodeCounted<I(!new), T>(s: Bytes, acc: T, read: Bytes -> Decoded<I>, enter: (T, I) -> Result<T>): Decoded<T>
    requires Progresses(read)
  {
    var (len, n) :- DecodeVar(s);
    DecodeLoop(s, n, len + n, acc, read, enter)
  }

  method RunCounted<I(!new), T>(s: Bytes, init: T, read: Bytes -> Decoded<I>, enter: (T, I) -> Result<T>) returns (r: Decoded<T>)
    requires Progresses(read)
    ensures r == DecodeCounted(s, init, read, enter)
  {
    var head := DecodeVarLoop(s);
    if head.Err? {
      return Err(head.kind);
    }
    var (len, n) := head.value;
    r := RunLoop(s, n, len + n, init, read, enter);
  }

  function EncodeCounted<I>(items: seq<I>, write: I -> Result<Bytes>): Result<Bytes> {
    var body :- EncodeItems(items, write);
    var len :- EncodeVar(|body|);
    Ok(len + body)
  }

  ghost predicate AllRoundTrip<I>(items: seq<I>, write: I -> Result<Bytes>, read: Bytes -> Decoded<I>) {
    forall i :: 0 <= i < |items| ==> RoundTrips(items[i], write, read)
  }

  /** A counted list reads back as what its items build, from exactly the bytes written. */
  lemma CountedRoundTrip<I(!new), T>(items: seq<I>, tail: Bytes, acc: T,
      write: I -> Result<Bytes>, read: Bytes -> Decoded<I>, enter: (T, I) -> Result<T>)
    requires Progresses(read) && EncodeCounted(items, write).Ok? && AllRoundTrip(items, write, read)
    ensures var bs := EncodeCounted(items, write).value;
            && DecodeVar(bs + tail).Ok?
            && (var (len, n) := DecodeVar(bs + tail).value; len + n == |bs| && (len == 0 <==> items == []))
            && DecodeCounted(bs + tail, acc, read, enter) ==
               match Fold(items, acc, enter)
               case Ok(t) => Ok((t, |bs|))
               case Err(kind) => Err(kind)
  {
    var body := EncodeItems(items, write).value;
    var len := EncodeVar(|body|).value;
    VarRoundTrip(|body|, body + tail);
    assert len + body + tail == len + (body + tail);
    LoopReadsItems(len, items, tail, acc, write, read, enter);
    if items != [] {
      NothingIsEmpty(items, write, read);
    }
  }

  lemma NothingIsEmpty<I(!new)>(items: seq<I>, write: I -> Result<Bytes>, read: Bytes -> Decoded<I>)
    requires Progresses(read) && EncodeItems(items, write).Ok? && AllRoundTrip(items, write, read) && items != []
    ensures EncodeItems(items, write).value != []
  {
    assert RoundTrips(items[0], write, read);
    assert read(write(items[0]).value + []) == Ok((items[0], |write(items[0]).value|));
  }

  /** Items that fill a slice. */
  lemma LoopReadsSlice<I(!new), T>(items: seq<I>, acc: T, write: I -> Result<Bytes>, read: Bytes -> Decoded<I>, enter: (T, I) -> Result<T>)
    requires Progresses(read) && EncodeItems(items, write).Ok? && AllRoundTrip(items, write, read)
    ensures var bs := EncodeItems(items, write).value;
            && DecodeLoop(bs, 0, |bs|, acc, read, enter) ==
               (match Fold(items, acc, enter)
                case Ok(t) => Ok((t, |bs|))
                case Err(kind) => Err(kind))
            && (items != [] ==> bs != [])
  {
    var bs := EncodeItems(items, write).value;
    LoopReadsItems([], items, [], acc, write, read, enter);
    assert [] + bs + [] == bs;
    if items != [] {
      NothingIsEmpty(items, write, read);
    }
  }

  /** A property that survives every entered item holds of whatever the loop returns. */
  lemma {:induction false} LoopKeeps<I(!new), T(!new)>(s: Bytes, n: nat, limit: nat, acc: T, read: Bytes -> Decoded<I>,
      enter: (T, I) -> Result<T>, good: T -> bool)
    requires Progresses(read) && good(acc)
    requires forall t: T, i: I :: good(t) && enter(t, i).Ok? ==> good(enter(t, i).value)
    ensures DecodeLoop(s, n, limit, acc, read, enter).Ok? ==> good(DecodeLoop(s, n, limit, acc, read, enter).value.0)
    decreases if n < limit then limit - n else 0
  {
    if DecodeLoop(s, n, limit, acc, read, enter).Ok? && n < limit {
      var (item, m) := read(Advance(s, n).value).value;
      LoopKeeps(s, n + m, limit, enter(acc, item).value, read, enter, good);
    }
  }

  lemma CountedKeeps<I(!new), T(!new)>(s: Bytes, acc: T, read: Bytes -> Decoded<I>, enter: (T, I) -> Result<T>, good: T -> bool)
    requires Progresses(read) && good(acc)
    requires forall t: T, i: I :: good(t) && enter(t, i).Ok? ==> good(enter(t, i).value)
    ensures DecodeCounted(s, acc, read, enter).Ok? ==> good(DecodeCounted(s, acc, read, enter).value.0)
  {
    if DecodeVar(s).Ok? {
      var (len, n) := DecodeVar(s).value;
      LoopKeeps(s, n, len + n, acc, read, enter, good);
    }
  }
}
