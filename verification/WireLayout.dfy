/** Which bytes stand for which values: numbers, text and fixed headers, in the plain arithmetic of MQTT Version 5.0 and RFC 3629. */
module WireLayout {
  import opened Base
  import opened Mqtt
  import opened Topics
  import opened Wire
  import opened Packets

  // ----- Numbers -----

  /** Two bytes, the high one first; fewer are not enough. */
  lemma U16Layout(hi: byte, lo: byte, tail: Bytes)
    ensures DecodeU16([hi, lo] + tail) == Ok((Int(hi) * 256 + Int(lo), 2))
    ensures EncodeU16(Int(hi) * 256 + Int(lo)) == [hi, lo]
    ensures DecodeU16([]) == Err(InsufficientBytes) && DecodeU16([hi]) == Err(InsufficientBytes)
  {
  }

  /** Four bytes, the highest first. */
  lemma U32Layout(a: byte, b: byte, c: byte, d: byte, tail: Bytes)
    ensures var n := Int(a) * 0x100_0000 + Int(b) * 0x1_0000 + Int(c) * 0x100 + Int(d);
            DecodeU32([a, b, c, d] + tail) == Ok((n, 4)) && EncodeU32(n) == [a, b, c, d]
    ensures DecodeU32([a, b, c]) == Err(InsufficientBytes)
  {
    var n := Int(a) * 0x100_0000 + Int(b) * 0x1_0000 + Int(c) * 0x100 + Int(d);
    assert n / 0x1_0000 == Int(a) * 256 + Int(b) && n % 0x1_0000 == Int(c) * 256 + Int(d);
  }

  /** Data behind its length in two bytes: up to 65535 bytes can be written, and what is announced must be there. */
  lemma BinaryLayout(data: Bytes, tail: Bytes)
    ensures EncodeBinary(data).Ok? <==> |data| <= 65535
    ensures |data| <= 65535 ==> EncodeBinary(data).value == [|data| / 256, |data| % 256] + data
    ensures |tail| >= 2 ==>
              var n := Int(tail[0]) * 256 + Int(tail[1]);
              DecodeBinary(tail) == if |tail| >= 2 + n then Ok((tail[2..2 + n], 2 + n)) else Err(InsufficientBytes)
    ensures |tail| < 2 ==> DecodeBinary(tail) == Err(InsufficientBytes)
  {
  }

  // ----- Text -----

  predicate Scalar(c: nat) {
    c < 0xD800 || 0xE000 <= c < 0x11_0000
  }

  /** The UTF-8 form of a scalar value (section 3 of RFC 3629). */
  function Utf8(c: nat): Bytes
    requires Scalar(c)
  {
    if c < 0x80 then [c]
    else if c < 0x800 then [0xC0 + c / 64, 0x80 + c % 64]
    else if c < 0x1_0000 then [0xE0 + c / 4096, 0x80 + c / 64 % 64, 0x80 + c % 64]
    else [0xF0 + c / 262144, 0x80 + c / 4096 % 64, 0x80 + c / 64 % 64, 0x80 + c % 64]
  }

  /** The form of every scalar value is recognized, whatever follows. */
  lemma CharEncodes(c: nat, tail: Bytes)
    requires Scalar(c)
    ensures FirstChar(Utf8(c) + tail) == Some((c, |Utf8(c)|))
  {
    var s := Utf8(c) + tail;
    if c < 0x80 {
    } else if c < 0x800 {
      assert c == c / 64 * 64 + c % 64;
    } else if c < 0x1_0000 {
      Digits3(c);
    } else {
      Digits4(c);
    }
  }

  lemma Digits3(c: nat)
    ensures c == c / 4096 * 4096 + c / 64 % 64 * 64 + c % 64
    ensures c < 0x1_0000 ==> c / 4096 < 16
    ensures c >= 0x800 && c < 0x1000 ==> c / 4096 == 0 && c / 64 % 64 >= 0x20
    ensures c / 4096 == 0xD && c < 0xD800 ==> c / 64 % 64 < 0x20
  {
    assert c / 64 == c / 4096 * 64 + c / 64 % 64;
  }

  lemma Digits4(c: nat)
    requires 0x1_0000 <= c < 0x11_0000
    ensures c == c / 262144 * 262144 + c / 4096 % 64 * 4096 + c / 64 % 64 * 64 + c % 64
    ensures c / 262144 <= 4
    ensures c / 262144 == 0 ==> c / 4096 % 64 >= 0x10
    ensures c / 262144 == 4 ==> c / 4096 % 64 < 0x10
  {
    assert c / 4096 == c / 262144 * 64 + c / 4096 % 64;
    assert c / 64 == c / 4096 * 64 + c / 64 % 64;
  }

  lemma Compose2(a: nat, b: nat)
    requires b < 64
    ensures var c := a * 64 + b; c / 64 == a && c % 64 == b
  {
  }

  lemma Compose3(a: nat, b: nat, d: nat)
    requires b < 64 && d < 64
    ensures var c := a * 4096 + b * 64 + d; c / 4096 == a && c / 64 % 64 == b && c % 64 == d
  {
    Compose2(a * 64 + b, d);
    Compose2(a, b);
  }

  lemma Compose4(a: nat, b: nat, d: nat, e: nat)
    requires b < 64 && d < 64 && e < 64
    ensures var c := a * 262144 + b * 4096 + d * 64 + e; c / 262144 == a && c / 4096 % 64 == b && c / 64 % 64 == d && c % 64 == e
  {
    Compose3(a * 64 + b, d, e);
    Compose2(a, b);
    assert (a * 262144 + b * 4096 + d * 64 + e) / 4096 == a * 64 + b;
  }

  /** Nothing else is: what is recognized is the form of a scalar value. */
  lemma CharDecodes(s: Bytes)
    requires s != [] && FirstChar(s).Some?
    ensures var (c, n) := FirstChar(s).value; Scalar(c) && n <= |s| && s[..n] == Utf8(c)
  {
    var n := FirstChar(s).value.1;
    if n == 1 {
      assert s[..1] == [s[0]];
    } else if n == 2 {
      Compose2(Int(s[0]) - 0xC0, Int(s[1]) - 0x80);
      assert s[..2] == [s[0], s[1]];
    } else if n == 3 {
      Decodes3(s);
    } else {
      Decodes4(s);
    }
  }

  lemma Decodes3(s: Bytes)
    requires s != [] && FirstChar(s).Some? && FirstChar(s).value.1 == 3
    ensures var (c, n) := FirstChar(s).value; Scalar(c) && s[..3] == Utf8(c)
  {
    Compose3(Int(s[0]) - 0xE0, Int(s[1]) - 0x80, Int(s[2]) - 0x80);
    assert s[..3] == [s[0], s[1], s[2]];
  }

  lemma Decodes4(s: Bytes)
    requires s != [] && FirstChar(s).Some? && FirstChar(s).value.1 == 4
    ensures var (c, n) := FirstChar(s).value; Scalar(c) && s[..4] == Utf8(c)
  {
    Compose4(Int(s[0]) - 0xF0, Int(s[1]) - 0x80, Int(s[2]) - 0x80, Int(s[3]) - 0x80);
    assert s[..4] == [s[0], s[1], s[2], s[3]];
  }

  ghost predicate AllScalar(cs: seq<nat>) {
    forall i :: 0 <= i < |cs| ==> Scalar(cs[i])
  }

  function Utf8All(cs: seq<nat>): Bytes
    requires forall i :: 0 <= i < |cs| ==> Scalar(cs[i])
  {
    if cs == [] then [] else Utf8(cs[0]) + Utf8All(cs[1..])
  }

  /** Neither a control character nor a surrogate. */
  predicate Plain(c: nat) {
    c >= 0x20 && !(0x7F <= c <= 0x9F)
  }

  /** Scalar values written one after the other are UTF-8, and text MQTT allows exactly if none is a control character. */
  lemma {:induction false} CharsAreText(cs: seq<nat>)
    requires AllScalar(cs)
    ensures IsUtf8(Utf8All(cs))
    ensures IsText(Utf8All(cs)) <==> forall i :: 0 <= i < |cs| ==> Plain(cs[i])
    decreases |cs|
  {
    if cs != [] {
      var s, rest := Utf8All(cs), Utf8All(cs[1..]);
      CharsAreText(cs[1..]);
      CharEncodes(cs[0], rest);
      assert s[|Utf8(cs[0])|..] == rest;
      assert forall i :: 0 < i < |cs| ==> cs[i] == cs[1..][i - 1];
      if forall i :: 0 <= i < |cs| ==> Plain(cs[i]) {
        assert Plain(cs[0]) && forall i :: 0 <= i < |cs[1..]| ==> Plain(cs[1..][i]);
      }
      if IsText(s) {
        assert Plain(cs[0]) && IsText(rest);
      }
    }
  }

  /** And all UTF-8 is of that form. */
  lemma {:induction false} TextIsChars(s: Bytes) returns (cs: seq<nat>)
    requires IsUtf8(s)
    ensures AllScalar(cs) && s == Utf8All(cs)
    decreases |s|
  {
    if s == [] {
      cs := [];
    } else {
      var (c, n) := FirstChar(s).value;
      CharDecodes(s);
      var rest := TextIsChars(s[n..]);
      cs := [c] + rest;
      assert cs[1..] == rest && s == s[..n] + s[n..];
    }
  }

  /** What can be written as a string, a topic name and a filter, each as data. */
  lemma StringLayout(s: Str)
    ensures EncodeString(s) == if IsText(s) then EncodeBinary(s) else Err(ProtocolError)
    ensures EncodeTopic(s).Ok? <==> ValidateName(s).Ok? && IsText(s) && |s| <= 65535
    ensures EncodeFilter(s).Ok? <==> ValidateFilter(s).Ok? && IsText(s) && |s| <= 65535
    ensures EncodeTopic(s).Ok? ==> EncodeTopic(s) == EncodeBinary(s)
    ensures EncodeFilter(s).Ok? ==> EncodeFilter(s) == EncodeBinary(s)
  {
  }

  // ----- The first byte -----

  /** The packet types with the numbers of section 2.1.2 of MQTT Version 5.0. */
  lemma TypeNumbers()
    ensures TypeCode(Connect) == 1 && TypeCode(ConnAck) == 2 && TypeCode(Publish) == 3 && TypeCode(PubAck) == 4
    ensures TypeCode(PubRec) == 5 && TypeCode(PubRel) == 6 && TypeCode(PubComp) == 7 && TypeCode(Subscribe) == 8
    ensures TypeCode(SubAck) == 9 && TypeCode(UnSubscribe) == 10 && TypeCode(UnsubAck) == 11 && TypeCode(PingReq) == 12
    ensures TypeCode(PingResp) == 13 && TypeCode(Disconnect) == 14 && TypeCode(Auth) == 15
  {
  }

  /** Type in the high four bits, then duplicate, two bits of QoS, and retain; type 0 and QoS 3 are refused. */
  lemma FirstByteLayout(t: nat, d: nat, q: nat, r: nat)
    requires t < 16 && d < 2 && q < 4 && r < 2
    ensures var b := 16 * t + 8 * d + 2 * q + r;
            && (Unwrap(b).Ok? <==> t > 0 && q < 3)
            && (Unwrap(b).Ok? ==>
                  var (ty, retain, qos, dup) := Unwrap(b).value;
                  && TypeCode(ty) == t && (retain <==> r == 1) && qos.Level() == q && (dup <==> d == 1)
                  && FixedByte(ty, retain, qos, dup) == b)
  {
    FieldsOfByte(t, r, q, d);
  }

  /** The first bytes that a header may start with: PUBLISH with any valid flags, every other type without flags, and PUBREL, SUBSCRIBE and UNSUBSCRIBE also with QoS 1. */
  lemma HeaderBytes(t: nat, d: nat, q: nat, r: nat)
    requires t < 16 && d < 2 && q < 4 && r < 2
    ensures ValidateHeader(16 * t + 8 * d + 2 * q + r).Ok? <==>
              || (t == 3 && q != 3)
              || (t > 0 && d == 0 && q == 0 && r == 0)
              || (t in {6, 8, 10} && d == 0 && q == 1 && r == 0)
  {
    FirstByteLayout(t, d, q, r);
    TypeNumbers();
  }
}
