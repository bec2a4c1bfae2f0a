/** Well-formed UTF-8 is exactly what encoding Unicode scalar values gives (section 3 of
    RFC 3629). */
module Utf8Scalars {
  import opened Wire
  import opened Utf8

  predicate IsScalar(c: nat) {
    c <= 0x10_FFFF && !(0xD800 <= c < 0xE000)
  }

  /** Six bits to a byte behind the first, which tells how many there are. */
  function Encode(c: nat): (s: seq<byte>)
    requires IsScalar(c)
    ensures 1 <= |s| <= 4
  {
    var high := c / 0x40;
    var higher := high / 0x40;
    if c < 0x80 then [c]
    else if c < 0x800 then [0xC0 + high, 0x80 + c % 0x40]
    else if c < 0x1_0000 then [0xE0 + higher, 0x80 + high % 0x40, 0x80 + c % 0x40]
    else [0xF0 + higher / 0x40, 0x80 + higher % 0x40, 0x80 + high % 0x40, 0x80 + c % 0x40]
  }

  function EncodeAll(cs: seq<nat>): (s: seq<byte>)
    requires forall k | 0 <= k < |cs| :: IsScalar(cs[k])
  {
    if cs == [] then [] else Encode(cs[0]) + EncodeAll(cs[1..])
  }

  ghost predicate IsEncoded(s: seq<byte>, cs: seq<nat>) {
    (forall k | 0 <= k < |cs| :: IsScalar(cs[k])) && EncodeAll(cs) == s
  }

  /** The value of the character at the front. */
  function Front(s: seq<byte>): (c: int)
    requires CharLen(s) > 0
  {
    var n := CharLen(s);
    var first: int := s[0];
    if n == 1 then first
    else
      var second: int := s[1];
      if n == 2 then 0x40 * (first - 0xC0) + second - 0x80
      else
        var third: int := s[2];
        if n == 3 then 0x40 * (0x40 * (first - 0xE0) + second - 0x80) + third - 0x80
        else
          var fourth: int := s[3];
          0x40 * (0x40 * (0x40 * (first - 0xF0) + second - 0x80) + third - 0x80) + fourth - 0x80
  }

  lemma SixBits(q: nat, r: nat)
    requires r < 0x40
    ensures (0x40 * q + r) / 0x40 == q && (0x40 * q + r) % 0x40 == r
  {
  }

  /** The bytes of a scalar value whose six-bit parts are known. */
  lemma PartsAreEncoded(c: nat, high: nat, low: nat, higher: nat, middle: nat, highest: nat, upper: nat)
    requires IsScalar(c) && c == 0x40 * high + low && high == 0x40 * higher + middle && higher == 0x40 * highest + upper
    requires low < 0x40 && middle < 0x40 && upper < 0x40
    ensures Encode(c) == (if c < 0x80 then [c]
                          else if c < 0x800 then [0xC0 + high, 0x80 + low]
                          else if c < 0x1_0000 then [0xE0 + higher, 0x80 + middle, 0x80 + low]
                          else [0xF0 + highest, 0x80 + upper, 0x80 + middle, 0x80 + low])
  {
    SixBits(high, low);
    SixBits(higher, middle);
    SixBits(highest, upper);
  }

  lemma FrontIsEncoded(s: seq<byte>)
    requires CharLen(s) > 0
    ensures Front(s) >= 0 && IsScalar(Front(s)) && Encode(Front(s)) == s[..CharLen(s)]
  {
    hide Encode;
    var n := CharLen(s);
    var c := Front(s);
    if n == 1 {
      OneByte(c);
    } else if n == 2 {
      PartsAreEncoded(c, s[0] as int - 0xC0, s[1] as int - 0x80, 0, s[0] as int - 0xC0, 0, 0);
    } else if n == 3 {
      var higher := s[0] as int - 0xE0;
      var high := 0x40 * higher + s[1] as int - 0x80;
      PartsAreEncoded(c, high, s[2] as int - 0x80, higher, s[1] as int - 0x80, 0, higher);
    } else {
      var higher := 0x40 * (s[0] as int - 0xF0) + s[1] as int - 0x80;
      var high := 0x40 * higher + s[2] as int - 0x80;
      PartsAreEncoded(c, high, s[3] as int - 0x80, higher, s[2] as int - 0x80, s[0] as int - 0xF0, s[1] as int - 0x80);
    }
  }

  lemma OneByte(c: nat)
    requires c < 0x80
    ensures Encode(c) == [c]
  {
  }

  lemma EncodedIsFront(c: nat, rest: seq<byte>)
    requires IsScalar(c)
    ensures CharLen(Encode(c) + rest) == |Encode(c)| && Front(Encode(c) + rest) == c
  {
    var s := Encode(c);
    assert forall k | 0 <= k < |s| :: (s + rest)[k] == s[k];
  }

  lemma {:induction false} ValidIsEncoded(s: seq<byte>) returns (cs: seq<nat>)
    requires ValidUtf8(s)
    ensures IsEncoded(s, cs)
    decreases |s|
  {
    cs := [];
    if s != [] {
      var n := CharLen(s);
      FrontIsEncoded(s);
      var rest := ValidIsEncoded(s[n..]);
      cs := [Front(s)] + rest;
      assert cs[1..] == rest;
      assert s[..n] + s[n..] == s;
    }
  }

  lemma {:induction false} EncodedIsValid(cs: seq<nat>)
    requires forall k | 0 <= k < |cs| :: IsScalar(cs[k])
    ensures ValidUtf8(EncodeAll(cs))
    decreases |cs|
  {
    if cs != [] {
      var rest := EncodeAll(cs[1..]);
      EncodedIsValid(cs[1..]);
      EncodedIsFront(cs[0], rest);
      assert (Encode(cs[0]) + rest)[|Encode(cs[0])|..] == rest;
    }
  }

  /** Bytes are accepted as text exactly when they encode some scalar values. */
  lemma ValidExactly(s: seq<byte>)
    ensures ValidUtf8(s) <==> exists cs :: IsEncoded(s, cs)
  {
    hide ValidUtf8, EncodeAll;
    if ValidUtf8(s) {
      var cs := ValidIsEncoded(s);
    }
    if cs :| IsEncoded(s, cs) {
      EncodedIsValid(cs);
    }
  }
}
