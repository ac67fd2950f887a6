/**
 * The wire forms of the basic MQTT fields. Every codec here satisfies the same law: decoding an
 * encoding followed by anything at all gives the value back and the number of bytes it took.
 */
module Wire {
  import opened Base
  import opened Topics

  type Bytes = seq<byte>
  type u16 = n: nat | n < 0x1_0000
  type u32 = n: nat | n < 0x1_0000_0000

  /** A decoded value and how many bytes it occupied. */
  type Decoded<T> = Result<(T, nat)>

  /** `VarU32::MAX` */
  const VAR_MAX: nat := 268_435_455

  function Int(b: byte): nat {
    b
  }

  // ----- Fixed-width integers, big endian -----

  function DecodeU8(s: Bytes): Decoded<byte> {
    if |s| >= 1 then Ok((s[0], 1)) else Err(InsufficientBytes)
  }

  function EncodeU16(n: u16): (bs: Bytes)
    ensures |bs| == 2
  {
    [n / 256, n % 256]
  }

  function DecodeU16(s: Bytes): Decoded<u16> {
    if |s| >= 2 then Ok((Int(s[0]) * 256 + s[1], 2)) else Err(InsufficientBytes)
  }

  function EncodeU32(n: u32): (bs: Bytes)
    ensures |bs| == 4
  {
    EncodeU16(n / 0x1_0000) + EncodeU16(n % 0x1_0000)
  }

  function DecodeU32(s: Bytes): Decoded<u32> {
    if |s| >= 4 then Ok(((Int(s[0]) * 256 + s[1]) * 0x1_0000 + Int(s[2]) * 256 + s[3], 4)) else Err(InsufficientBytes)
  }

  lemma U32RoundTrip(n: u32, tail: Bytes)
    ensures DecodeU32(EncodeU32(n) + tail) == Ok((n, 4))
  {
    var s := EncodeU32(n) + tail;
    assert Int(s[0]) * 256 + s[1] == n / 0x1_0000 && Int(s[2]) * 256 + s[3] == n % 0x1_0000;
  }

  // ----- Variable byte integer, section 1.5.5 of MQTT Version 5.0 -----

  /** The weight of the seven bits carried by byte `i`. */
  function Weight(i: nat): nat
    requires i < 4
  {
    if i == 0 then 1 else if i == 1 then 128 else if i == 2 then 16_384 else 2_097_152
  }

  /** `VarU32::decode` from byte `i` on, with `out` gathered so far; at most four bytes are looked at. */
  function DecodeVarFrom(s: Bytes, i: nat, out: nat): Decoded<nat>
    decreases 4 - i
  {
    if i >= 4 || i >= |s| then Err(MalformedPacket)
    else
      var out' := out + Int(s[i]) % 128 * Weight(i);
      if s[i] < 128 then Ok((out', i + 1)) else DecodeVarFrom(s, i + 1, out')
  }

  function DecodeVar(s: Bytes): Decoded<nat> {
    DecodeVarFrom(s, 0, 0)
  }

  /** The loop of `VarU32::decode`. */
  method DecodeVarLoop(s: Bytes) returns (r: Decoded<nat>)
    ensures r == DecodeVar(s)
  {
    var n := if |s| < 4 then |s| else 4;
    var out: nat := 0;
    for i := 0 to n
      invariant DecodeVarFrom(s, i, out) == DecodeVar(s)
    {
      out := out + Int(s[i]) % 128 * Weight(i);
      if s[i] < 128 {
        return Ok((out, i + 1));
      }
    }
    return Err(MalformedPacket);
  }

  /** `VarU32::encode` */
  function EncodeVar(n: nat): Result<Bytes> {
    if n < 128 then Ok([n])
    else if n < 16_384 then Ok([n % 128 + 128, n / 128])
    else if n < 2_097_152 then Ok([n % 128 + 128, n / 128 % 128 + 128, n / 16_384])
    else if n <= VAR_MAX then Ok([n % 128 + 128, n / 128 % 128 + 128, n / 16_384 % 128 + 128, n / 2_097_152])
    else Err(ProtocolError)
  }

  /** What the loop computes on one, two, three and four bytes. */
  lemma DecodeVarUnrolled(s: Bytes)
    ensures |s| >= 1 && s[0] < 128 ==> DecodeVar(s) == Ok((Int(s[0]), 1))
    ensures |s| >= 2 && s[0] >= 128 > s[1] ==> DecodeVar(s) == Ok((Int(s[0]) - 128 + Int(s[1]) * 128, 2))
    ensures |s| >= 3 && s[0] >= 128 && s[1] >= 128 > s[2] ==>
              DecodeVar(s) == Ok((Int(s[0]) - 128 + (Int(s[1]) - 128) * 128 + Int(s[2]) * 16_384, 3))
    ensures |s| >= 4 && s[0] >= 128 && s[1] >= 128 && s[2] >= 128 > s[3] ==>
              DecodeVar(s) ==
              Ok((Int(s[0]) - 128 + (Int(s[1]) - 128) * 128 + (Int(s[2]) - 128) * 16_384 + Int(s[3]) * 2_097_152, 4))
  {
    if |s| >= 2 && s[0] >= 128 {
      var a := Int(s[0]) - 128;
      assert DecodeVar(s) == DecodeVarFrom(s, 1, a);
      if |s| >= 3 && s[1] >= 128 {
        var b := a + (Int(s[1]) - 128) * 128;
        assert DecodeVarFrom(s, 1, a) == DecodeVarFrom(s, 2, b);
        if |s| >= 4 && s[2] >= 128 {
          assert DecodeVarFrom(s, 2, b) == DecodeVarFrom(s, 3, b + (Int(s[2]) - 128) * 16_384);
        }
      }
    }
  }

  lemma VarRoundTrip(n: nat, tail: Bytes)
    requires n <= VAR_MAX
    ensures EncodeVar(n).Ok? && 1 <= |EncodeVar(n).value| <= 4
    ensures DecodeVar(EncodeVar(n).value + tail) == Ok((n, |EncodeVar(n).value|))
  {
    DecodeVarUnrolled(EncodeVar(n).value + tail);
    assert n / 16_384 == n / 128 / 128 && n / 2_097_152 == n / 128 / 128 / 128;
  }

  /** A decoded value fits four seven-bit groups, came from at most four bytes, and ignores what follows them. */
  lemma {:induction false} DecodeVarFromShape(s: Bytes, i: nat, out: nat)
    requires i <= 4 && out < if i < 4 then Weight(i) else VAR_MAX + 1
    ensures DecodeVarFrom(s, i, out).Ok? ==>
              var (v, n) := DecodeVarFrom(s, i, out).value;
              && v <= VAR_MAX && i < n <= 4 && n <= |s| && s[n - 1] < 128
              && (forall k :: i <= k < n - 1 ==> s[k] >= 128)
    decreases 4 - i
  {
    if i < 4 && i < |s| && s[i] >= 128 {
      DecodeVarFromShape(s, i + 1, out + Int(s[i]) % 128 * Weight(i));
    }
  }

  lemma DecodeVarShape(s: Bytes)
    ensures DecodeVar(s).Ok? ==>
              var (v, n) := DecodeVar(s).value;
              && v <= VAR_MAX && 1 <= n <= 4 && n <= |s| && s[n - 1] < 128
              && (forall k :: 0 <= k < n - 1 ==> s[k] >= 128)
  {
    DecodeVarFromShape(s, 0, 0);
  }

  /** Decoding looks only at the bytes up to the first one below 0x80. */
  lemma {:induction false} DecodeVarFromLocal(s: Bytes, t: Bytes, i: nat, out: nat, n: nat)
    requires n <= |s| && n <= |t| && s[..n] == t[..n] && i < n && s[n - 1] < 128
    ensures DecodeVarFrom(s, i, out) == DecodeVarFrom(t, i, out)
    decreases 4 - i
  {
    assert s[i] == s[..n][i] == t[..n][i] == t[i];
    if i < 4 && s[i] >= 128 {
      DecodeVarFromLocal(s, t, i + 1, out + Int(s[i]) % 128 * Weight(i), n);
    }
  }

  /** The encoding of a value written in base 128, least digit first. */
  lemma EncodeVarDigits(a: nat, b: nat, c: nat, d: nat)
    requires a < 128 && b < 128 && c < 128 && d < 128
    ensures EncodeVar(a + b * 128 + c * 16_384 + d * 2_097_152) ==
            Ok(if d != 0 then [a + 128, b + 128, c + 128, d]
               else if c != 0 then [a + 128, b + 128, c]
               else if b != 0 then [a + 128, b]
               else [a])
  {
    var n := a + b * 128 + c * 16_384 + d * 2_097_152;
    assert n / 128 == b + c * 128 + d * 16_384;
    assert n / 16_384 == c + d * 128;
    assert n / 2_097_152 == d;
  }

  /**
   * The standard wants the shortest form. The decoder also takes longer ones: what it consumed is
   * the encoding of what it returned exactly when the last of several bytes is not zero.
   */
  lemma VarIsCanonicalIff(s: Bytes)
    requires DecodeVar(s).Ok?
    ensures var (v, n) := DecodeVar(s).value;
            n <= |s| && (EncodeVar(v) == Ok(s[..n]) <==> n == 1 || s[n - 1] != 0)
  {
    DecodeVarShape(s);
    DecodeVarUnrolled(s);
    match DecodeVar(s).value.1
    case 1 =>
      EncodeVarDigits(Int(s[0]), 0, 0, 0);
      assert s[..1] == [s[0]];
    case 2 =>
      EncodeVarDigits(Int(s[0]) - 128, Int(s[1]), 0, 0);
      assert s[..2] == [s[0], s[1]];
    case 3 =>
      EncodeVarDigits(Int(s[0]) - 128, Int(s[1]) - 128, Int(s[2]), 0);
      assert s[..3] == [s[0], s[1], s[2]];
    case _ =>
      EncodeVarDigits(Int(s[0]) - 128, Int(s[1]) - 128, Int(s[2]) - 128, Int(s[3]));
      assert s[..4] == [s[0], s[1], s[2], s[3]];
  }

  /** Zero in two bytes. */
  lemma LongZero()
    ensures DecodeVar([0x80, 0x00]) == Ok((0, 2)) && EncodeVar(0) == Ok([0x00])
  {
    DecodeVarUnrolled([0x80, 0x00]);
  }

  // ----- Text -----

  predicate Continuation(b: byte, lo: byte, hi: byte) {
    lo <= b <= hi
  }

  /** The first scalar value of a byte string and its length in bytes, if it is well-formed UTF-8 (RFC 3629). */
  function FirstChar(s: Bytes): (r: Option<(nat, nat)>)
    requires s != []
    ensures r.Some? ==> 1 <= r.value.1 <= |s|
  {
    var a := Int(s[0]);
    if a < 0x80 then Some((a, 1))
    else if 0xC2 <= a <= 0xDF then
      if |s| >= 2 && Continuation(s[1], 0x80, 0xBF) then Some(((a - 0xC0) * 64 + (Int(s[1]) - 0x80), 2)) else None
    else if 0xE0 <= a <= 0xEF then
      var lo := if a == 0xE0 then 0xA0 else 0x80;
      var hi := if a == 0xED then 0x9F else 0xBF;
      if |s| >= 3 && Continuation(s[1], lo, hi) && Continuation(s[2], 0x80, 0xBF) then
        Some(((a - 0xE0) * 4096 + (Int(s[1]) - 0x80) * 64 + (Int(s[2]) - 0x80), 3))
      else None
    else if 0xF0 <= a <= 0xF4 then
      var lo := if a == 0xF0 then 0x90 else 0x80;
      var hi := if a == 0xF4 then 0x8F else 0xBF;
      if |s| >= 4 && Continuation(s[1], lo, hi) && Continuation(s[2], 0x80, 0xBF) && Continuation(s[3], 0x80, 0xBF) then
        Some(((a - 0xF0) * 262144 + (Int(s[1]) - 0x80) * 4096 + (Int(s[2]) - 0x80) * 64 + (Int(s[3]) - 0x80), 4))
      else None
    else None
  }

  /** `std::str::from_utf8` succeeds */
  predicate IsUtf8(s: Bytes) {
    s == [] || (FirstChar(s).Some? && IsUtf8(s[FirstChar(s).value.1..]))
  }

  /** `util::is_valid_utf8_code_point` */
  predicate IsAllowedCodePoint(c: nat) {
    !(0xD800 <= c <= 0xDFFF || c <= 0x1F || 0x7F <= c <= 0x9F)
  }

  /** Text MQTT allows: UTF-8 without control characters. */
  predicate IsText(s: Bytes) {
    s == [] || (FirstChar(s).Some? && IsAllowedCodePoint(FirstChar(s).value.0) && IsText(s[FirstChar(s).value.1..]))
  }

  /** `Vec<u8>` */
  function EncodeBinary(bs: Bytes): Result<Bytes> {
    if |bs| > 0xFFFF then Err(ProtocolError) else Ok(EncodeU16(|bs|) + bs)
  }

  function DecodeBinary(s: Bytes): Decoded<Bytes> {
    var (len, _) :- DecodeU16(s);
    if len + 2 > |s| then Err(InsufficientBytes) else Ok((s[2..2 + len], 2 + len))
  }

  lemma BinaryRoundTrip(bs: Bytes, tail: Bytes)
    requires EncodeBinary(bs).Ok?
    ensures DecodeBinary(EncodeBinary(bs).value + tail) == Ok((bs, |EncodeBinary(bs).value|))
  {
    var s := EncodeBinary(bs).value + tail;
    assert Int(s[0]) * 256 + s[1] == |bs|;
    assert s[2..2 + |bs|] == bs;
  }

  function EncodeString(s: Str): Result<Bytes> {
    if !IsText(s) then Err(ProtocolError) else EncodeBinary(s)
  }

  function DecodeString(s: Bytes): Decoded<Str> {
    var (bs, n) :- DecodeBinary(s);
    if IsText(bs) then Ok((bs, n)) else Err(MalformedPacket)
  }

  lemma StringRoundTrip(str: Str, tail: Bytes)
    requires EncodeString(str).Ok?
    ensures DecodeString(EncodeString(str).value + tail) == Ok((str, |EncodeString(str).value|))
  {
    BinaryRoundTrip(str, tail);
  }

  function EncodeTopic(s: Str): Result<Bytes> {
    var _ :- ValidateName(s);
    EncodeString(s)
  }

  function DecodeTopic(s: Bytes): Decoded<Str> {
    var (name, n) :- DecodeString(s);
    var _ :- ValidateName(name);
    Ok((name, n))
  }

  lemma TopicRoundTrip(name: Str, tail: Bytes)
    requires EncodeTopic(name).Ok?
    ensures DecodeTopic(EncodeTopic(name).value + tail) == Ok((name, |EncodeTopic(name).value|))
  {
    StringRoundTrip(name, tail);
  }

  function EncodeFilter(s: Str): Result<Bytes> {
    var _ :- ValidateFilter(s);
    EncodeString(s)
  }

  function DecodeFilter(s: Bytes): Decoded<Str> {
    var (filter, n) :- DecodeString(s);
    var _ :- ValidateFilter(filter);
    Ok((filter, n))
  }

  lemma FilterRoundTrip(filter: Str, tail: Bytes)
    requires EncodeFilter(filter).Ok?
    ensures DecodeFilter(EncodeFilter(filter).value + tail) == Ok((filter, |EncodeFilter(filter).value|))
  {
    StringRoundTrip(filter, tail);
  }

  /** `UserProperty` */
  function EncodePair(key: Str, val: Str): Result<Bytes> {
    var k :- EncodeString(key);
    var v :- EncodeString(val);
    Ok(k + v)
  }

  function DecodePair(s: Bytes): Decoded<(Str, Str)> {
    var (key, m) :- DecodeString(s);
    var rest :- Advance(s, m);
    var (val, n) :- DecodeString(rest);
    Ok(((key, val), m + n))
  }

  /** `util::advance` */
  function Advance(s: Bytes, n: nat): Result<Bytes> {
    if n <= |s| then Ok(s[n..]) else Err(InsufficientBytes)
  }

  lemma AdvanceOver(a: Bytes, b: Bytes)
    ensures Advance(a + b, |a|) == Ok(b)
  {
    assert (a + b)[|a|..] == b;
  }

  lemma PairRoundTrip(key: Str, val: Str, tail: Bytes)
    requires EncodePair(key, val).Ok?
    ensures DecodePair(EncodePair(key, val).value + tail) == Ok(((key, val), |EncodePair(key, val).value|))
  {
    var k, v := EncodeString(key).value, EncodeString(val).value;
    assert k + v + tail == k + (v + tail);
    StringRoundTrip(key, v + tail);
    AdvanceOver(k, v + tail);
    StringRoundTrip(val, tail);
  }
}
