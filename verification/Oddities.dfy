/** Deviations from deterministic encoding (sections 4.1 and 4.2 of RFC 8949):
    how the decoder detects each. */
module Oddities {
  import opened Wire

  datatype Oddity =
    | IntNotShortest
    | FloatNotShortest
    | IndefiniteLength
    | MapKeysNotSorted
    | DuplicateMapKeys
    | BignumForSmallInt
    | BignumLeadingZeroes

  // ---------------------------------------------------------------------
  // Integers
  // ---------------------------------------------------------------------

  /** Bytes the shortest header spends on the argument `v`. */
  function ShortestArgWidth(v: nat): (w: nat) {
    if v < 24 then 0 else if v < 0x100 then 1 else if v < 0x1_0000 then 2 else if v < 0x1_0000_0000 then 4 else 8
  }

  function IntOddities(v: nat, headerLen: nat): (r: seq<Oddity>) {
    if headerLen <= 1 + ShortestArgWidth(v) then [] else [IntNotShortest]
  }

  // ---------------------------------------------------------------------
  // Floats, as the bits on the wire
  // ---------------------------------------------------------------------

  /** The IEEE 754 binary interchange formats, by width. */
  datatype Width = Half | Single | Double

  /** The format of a float whose header is `len` bytes long. */
  function WidthOf(len: nat): (w: Width) {
    if len == 3 then Half else if len == 5 then Single else Double
  }

  function Mantissa(w: Width, bits: nat): (m: nat) {
    match w
    case Half => bits % 0x400
    case Single => bits % 0x80_0000
    case Double => bits % 0x10_0000_0000_0000
  }

  function Exponent(w: Width, bits: nat): (e: nat) {
    match w
    case Half => bits / 0x400 % 0x20
    case Single => bits / 0x80_0000 % 0x100
    case Double => bits / 0x10_0000_0000_0000 % 0x800
  }

  function SignBit(w: Width, bits: nat): (s: nat) {
    match w
    case Half => bits / 0x8000
    case Single => bits / 0x8000_0000
    case Double => bits / 0x8000_0000_0000_0000
  }

  /** Neither infinite nor a NaN. */
  predicate IsFinite(w: Width, bits: nat) {
    match w
    case Half => Exponent(w, bits) != 0x1F
    case Single => Exponent(w, bits) != 0xFF
    case Double => Exponent(w, bits) != 0x7FF
  }

  function Pow2(n: nat): (p: nat)
    ensures p >= 1
  {
    if n == 0 then 1 else 2 * Pow2(n - 1)
  }

  /** The binary32 bits of a binary64 value that a round trip through binary32
      leaves unchanged; `None` for the others. `FloatWidths` defines the cast and
      shows that these are its bits. */
  function Narrowed(bits: nat): (r: Option<nat>) {
    var sign := SignBit(Double, bits) * 0x8000_0000;
    var e := Exponent(Double, bits);
    var m := Mantissa(Double, bits);
    if e == 0 then
      if m == 0 then Some(sign) else None
    else if 897 <= e <= 1150 then
      if m % 0x2000_0000 == 0 then Some(sign + (e - 896) * 0x80_0000 + m / 0x2000_0000) else None
    else if 874 <= e <= 896 then
      var p := Pow2(29 + (897 - e));
      if (0x10_0000_0000_0000 + m) % p == 0 then Some(sign + (0x10_0000_0000_0000 + m) / p) else None
    else None
  }

  /** The decoder's bit test on a binary32 value: can binary16 hold it? */
  predicate SingleFitsHalf(bits: nat) {
    var exp := Exponent(Single, bits);
    var mant := Mantissa(Single, bits);
    if exp == 0 && mant == 0 then true
    else if exp == 0xff then mant == 0
    else
      var e := exp - 127;
      if e > 15 then false
      else if e >= -14 then mant % 0x2000 == 0
      else if e < -24 then false
      else
        var p := Pow2(13 + (-14 - e));
        (0x80_0000 + mant) % p == 0
  }

  /** Header length of the narrowest float that holds the finite value spelled
      by `bits` under a header of `len` bytes. */
  function ShortestFloatLen(len: nat, bits: nat): (n: nat) {
    var single := if len == 9 then Narrowed(bits) else Some(bits);
    if len == 3 then 3
    else if single.None? then 9
    else if SingleFitsHalf(single.value) then 3
    else 5
  }

  function FloatOddities(len: nat, bits: nat): (r: seq<Oddity>) {
    if len <= ShortestFloatLen(len, bits) then [] else [FloatNotShortest]
  }

  // ---------------------------------------------------------------------
  // Map keys
  // ---------------------------------------------------------------------

  /** Bytewise lexicographic order; a proper prefix comes first. */
  predicate BytesLess(a: seq<byte>, b: seq<byte>) {
    if b == [] then false
    else if a == [] then true
    else a[0] < b[0] || (a[0] == b[0] && BytesLess(a[1..], b[1..]))
  }

  /** The encoded key a `(start, end)` span names. */
  function KeyBytes(bytes: seq<byte>, span: (nat, nat)): (s: seq<byte>) {
    if span.0 <= span.1 <= |bytes| then bytes[span.0..span.1] else []
  }

  function KeysOf(bytes: seq<byte>, spans: seq<(nat, nat)>): (keys: seq<seq<byte>>)
    ensures |keys| == |spans|
    ensures forall k | 0 <= k < |spans| :: keys[k] == KeyBytes(bytes, spans[k])
  {
    if spans == [] then [] else [KeyBytes(bytes, spans[0])] + KeysOf(bytes, spans[1..])
  }

  /** Some key sorts after the next one. */
  predicate OutOfOrder(keys: seq<seq<byte>>) {
    exists k | 0 <= k < |keys| - 1 :: BytesLess(keys[k + 1], keys[k])
  }

  predicate Repeating(keys: seq<seq<byte>>) {
    exists j, k | 0 <= j < k < |keys| :: keys[j] == keys[k]
  }

  function MapOddities(bytes: seq<byte>, spans: seq<(nat, nat)>, indefinite: bool): (r: seq<Oddity>) {
    var keys := KeysOf(bytes, spans);
    (if indefinite then [IndefiniteLength] else [])
    + (if OutOfOrder(keys) then [MapKeysNotSorted] else [])
    + (if Repeating(keys) then [DuplicateMapKeys] else [])
  }

  // ---------------------------------------------------------------------
  // Bignums
  // ---------------------------------------------------------------------

  function Trimmed(raw: seq<byte>): (s: seq<byte>)
    ensures |s| <= |raw|
  {
    if raw != [] && raw[0] == 0 then Trimmed(raw[1..]) else raw
  }

  /** Whether the bignum's value fits a native integer of its sign, as the
      decoder tells. */
  predicate FitsNativeInt(tag: nat, raw: seq<byte>) {
    && |Trimmed(raw)| <= 8
    && (tag == 2 || (tag == 3 && BigEndian(Trimmed(raw)) < U64_MAX))
  }

  /** The oddities of a tag around the byte string `raw`. */
  function BignumOddities(tag: nat, raw: seq<byte>): (r: seq<Oddity>) {
    if tag != 2 && tag != 3 then []
    else
      (if raw != [] && raw[0] == 0 then [BignumLeadingZeroes] else [])
      + (if FitsNativeInt(tag, raw) then [BignumForSmallInt] else [])
  }
}
