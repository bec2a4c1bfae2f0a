/** The decoder's integer, map-key and bignum checks, and what each flag means. */
module OddityChecks {
  import opened Wire
  import opened Oddities

  // ---------------------------------------------------------------------
  // Integers
  // ---------------------------------------------------------------------

  /** An integer header is flagged exactly when a shorter one spells the same
      argument. */
  lemma IntNotShortestExactly(h: Head)
    requires HeadFits(h) && h.argument.Some?
    ensures IntOddities(h.argument.value, h.len) == [IntNotShortest]
       <==> exists g :: HeadFits(g) && g.major == h.major && g.argument == h.argument && g.len < h.len
  {
    ArgumentFitsWord();
    var v := h.argument.value;
    var shortest := Head(h.major, h.argument, 1 + ShortestArgWidth(v));
    assert v <= U64_MAX;
    assert HeadFits(shortest);
  }

  // ---------------------------------------------------------------------
  // Map keys
  // ---------------------------------------------------------------------

  lemma {:induction false} NotLess(a: seq<byte>)
    ensures !BytesLess(a, a)
  {
    if a != [] {
      NotLess(a[1..]);
    }
  }

  lemma {:induction false} Trichotomy(a: seq<byte>, b: seq<byte>)
    ensures BytesLess(a, b) || a == b || BytesLess(b, a)
  {
    if a != [] && b != [] && a[0] == b[0] {
      Trichotomy(a[1..], b[1..]);
      assert a == [a[0]] + a[1..] && b == [b[0]] + b[1..];
    }
  }

  lemma {:induction false} LessIsTransitive(a: seq<byte>, b: seq<byte>, c: seq<byte>)
    requires BytesLess(a, b) && BytesLess(b, c)
    ensures BytesLess(a, c)
  {
    if a != [] && a[0] == b[0] == c[0] {
      LessIsTransitive(a[1..], b[1..], c[1..]);
    }
  }

  lemma {:induction false} StepsAscend(keys: seq<seq<byte>>, j: nat, k: nat)
    requires j < k < |keys| && !OutOfOrder(keys) && !Repeating(keys)
    ensures BytesLess(keys[j], keys[k])
    decreases k
  {
    Trichotomy(keys[k - 1], keys[k]);
    if j < k - 1 {
      StepsAscend(keys, j, k - 1);
      LessIsTransitive(keys[j], keys[k - 1], keys[k]);
    }
  }

  predicate Ascending(keys: seq<seq<byte>>) {
    forall j, k | 0 <= j < k < |keys| :: BytesLess(keys[j], keys[k])
  }

  /** A map gets neither key oddity exactly when its encoded keys are strictly
      increasing (section 4.2.1 of RFC 8949). */
  lemma NoKeyOddityExactly(keys: seq<seq<byte>>)
    ensures !OutOfOrder(keys) && !Repeating(keys) <==> Ascending(keys)
  {
    if !OutOfOrder(keys) && !Repeating(keys) {
      forall j, k | 0 <= j < k < |keys| ensures BytesLess(keys[j], keys[k]) {
        StepsAscend(keys, j, k);
      }
    }
    if Ascending(keys) {
      forall k | 0 <= k < |keys| - 1 ensures !BytesLess(keys[k + 1], keys[k]) {
        if BytesLess(keys[k + 1], keys[k]) {
          LessIsTransitive(keys[k], keys[k + 1], keys[k]);
          NotLess(keys[k]);
        }
      }
      forall j, k | 0 <= j < k < |keys| ensures keys[j] != keys[k] {
        NotLess(keys[j]);
      }
    }
  }

  lemma MapOddityKinds(bytes: seq<byte>, spans: seq<(nat, nat)>, indefinite: bool)
    ensures var r := MapOddities(bytes, spans, indefinite);
            && (IndefiniteLength in r <==> indefinite)
            && (MapKeysNotSorted in r <==> OutOfOrder(KeysOf(bytes, spans)))
            && (DuplicateMapKeys in r <==> Repeating(KeysOf(bytes, spans)))
            && (MapKeysNotSorted !in r && DuplicateMapKeys !in r <==> Ascending(KeysOf(bytes, spans)))
  {
    hide OutOfOrder, Repeating, Ascending, KeysOf;
    NoKeyOddityExactly(KeysOf(bytes, spans));
  }

  /** The first key that sorts after the next one. */
  method KeysNotSortedDetail(bytes: seq<byte>, spans: seq<(nat, nat)>) returns (r: Option<nat>)
    ensures var keys := KeysOf(bytes, spans);
            if r.None? then !OutOfOrder(keys)
            else
              && r.value < |keys| - 1 && BytesLess(keys[r.value + 1], keys[r.value])
              && forall i | 0 <= i < r.value :: !BytesLess(keys[i + 1], keys[i])
  {
    hide KeysOf, KeyBytes, BytesLess;
    ghost var keys := KeysOf(bytes, spans);
    var k: nat := 0;
    while k + 1 < |spans|
      invariant k <= |spans|
      invariant forall i | 0 <= i < k && i < |keys| - 1 :: !BytesLess(keys[i + 1], keys[i])
    {
      if BytesLess(KeyBytes(bytes, spans[k + 1]), KeyBytes(bytes, spans[k])) {
        return Some(k);
      }
      k := k + 1;
    }
    return None;
  }

  /** The first key that repeats, and its first repetition. */
  method DuplicateKeysDetail(bytes: seq<byte>, spans: seq<(nat, nat)>) returns (r: Option<(nat, nat)>)
    ensures var keys := KeysOf(bytes, spans);
            if r.None? then !Repeating(keys)
            else
              && r.value.0 < r.value.1 < |keys| && keys[r.value.0] == keys[r.value.1]
              && (forall i | r.value.0 < i < r.value.1 :: keys[r.value.0] != keys[i])
              && (forall i, k | 0 <= i < r.value.0 && i < k < |keys| :: keys[i] != keys[k])
  {
    hide KeysOf, KeyBytes;
    ghost var keys := KeysOf(bytes, spans);
    var j: nat := 0;
    while j < |spans|
      invariant j <= |spans|
      invariant forall i, k | 0 <= i < j && i < k < |keys| :: keys[i] != keys[k]
    {
      var k: nat := j + 1;
      while k < |spans|
        invariant j < k <= |spans|
        invariant forall i | j < i < k :: keys[j] != keys[i]
      {
        if KeyBytes(bytes, spans[j]) == KeyBytes(bytes, spans[k]) {
          return Some((j, k));
        }
        k := k + 1;
      }
      j := j + 1;
    }
    return None;
  }

  // ---------------------------------------------------------------------
  // Bignums
  // ---------------------------------------------------------------------

  lemma {:induction false} BigEndianFront(s: seq<byte>)
    requires s != []
    ensures BigEndian(s) == s[0] * Pow256(|s| - 1) + BigEndian(s[1..])
  {
    var n := |s| - 1;
    if n > 0 {
      BigEndianFront(s[..n]);
      assert s[..n][1..] == s[1..][..n - 1];
      OneByteUp(s[0], Pow256(n - 1));
      assert BigEndian(s[1..]) == 256 * BigEndian(s[1..][..n - 1]) + s[n];
    } else {
      assert s[1..] == [] && s[..0] == [];
    }
  }

  lemma OneByteUp(a: nat, p: nat)
    ensures 256 * (a * p) == a * (256 * p)
  {
  }

  lemma {:induction false} TrimmedKeepsValue(raw: seq<byte>)
    ensures BigEndian(Trimmed(raw)) == BigEndian(raw)
    ensures Trimmed(raw) != [] ==> Trimmed(raw)[0] != 0
  {
    if raw != [] && raw[0] == 0 {
      TrimmedKeepsValue(raw[1..]);
      BigEndianFront(raw);
    }
  }

  lemma {:induction false} Pow256Grows(a: nat, b: nat)
    requires a <= b
    ensures Pow256(a) <= Pow256(b)
  {
    if a < b {
      Pow256Grows(a, b - 1);
    }
  }

  /** Eight bytes after trimming are enough exactly for 64-bit values. */
  lemma TrimmedLength(raw: seq<byte>)
    ensures |Trimmed(raw)| <= 8 <==> BigEndian(raw) <= U64_MAX
  {
    hide Pow256, BigEndian, Trimmed;
    TrimmedKeepsValue(raw);
    ArgumentFitsWord();
    var t := Trimmed(raw);
    if |t| <= 8 {
      Pow256Grows(|t|, 8);
    } else {
      BigEndianFront(t);
      Pow256Grows(8, |t| - 1);
      AtLeastOnce(t[0], Pow256(|t| - 1));
    }
  }

  lemma AtLeastOnce(a: nat, p: nat)
    requires a >= 1
    ensures a * p >= p
  {
  }

  /** Around the payload of a definite byte string: a tag-2 bignum is flagged as small
      exactly when major type 0 holds its value, a tag-3 one exactly when major type
      1 holds its value -1 - n and n is not 2^64 - 1, which major type 1 does hold.
      `OddityFlags` says which nodes the test is put to at all. */
  lemma BignumForSmallIntExactly(tag: nat, raw: seq<byte>)
    requires tag == 2 || tag == 3
    ensures BignumForSmallInt in BignumOddities(tag, raw)
       <==> BigEndian(raw) <= U64_MAX && !(tag == 3 && BigEndian(raw) == U64_MAX)
    ensures BignumLeadingZeroes in BignumOddities(tag, raw) <==> raw != [] && raw[0] == 0
  {
    TrimmedLength(raw);
    TrimmedKeepsValue(raw);
  }

  /** A native integer the test itself misses: tag 3 around eight `0xff` bytes is
      -2^64, which major type 1 spells with the argument 2^64 - 1. */
  lemma MissedBignum()
    ensures var raw := seq(8, _ => 0xff);
            && BigEndian(raw) == U64_MAX
            && BignumForSmallInt !in BignumOddities(3, raw)
            && HeadFits(Head(1, Some(BigEndian(raw)), 9))
  {
    ArgumentFitsWord();
    BigEndianRoundTrip(U64_MAX, 8);
    AllOnes(8);
    assert seq(8, _ => 0xff) == ToBigEndian(U64_MAX, 8);
    BignumForSmallIntExactly(3, seq(8, _ => 0xff));
  }

  lemma {:induction false} AllOnes(w: nat)
    ensures ToBigEndian(Pow256(w) - 1, w) == seq(w, _ => 0xff)
  {
    if w > 0 {
      AllOnes(w - 1);
      assert (Pow256(w) - 1) / 256 == Pow256(w - 1) - 1 && (Pow256(w) - 1) % 256 == 255;
      assert seq(w, _ => 0xff) == seq(w - 1, _ => 0xff) + [0xff];
    }
  }

  /** The check as it runs: skip the zero bytes, then shift the rest in. */
  method FitsNativeCborInt(tag: nat, raw: seq<byte>) returns (fits: bool)
    ensures fits == FitsNativeInt(tag, raw)
  {
    var i: nat := 0;
    while i < |raw| && raw[i] == 0
      invariant i <= |raw| && Trimmed(raw) == Trimmed(raw[i..])
    {
      assert raw[i..][1..] == raw[i + 1..];
      i := i + 1;
    }
    var trimmed := raw[i..];
    if |trimmed| > 8 {
      return false;
    }
    var magnitude: nat := 0;
    var k: nat := 0;
    while k < |trimmed|
      invariant k <= |trimmed| && magnitude == BigEndian(trimmed[..k])
    {
      magnitude := 256 * magnitude + trimmed[k];
      assert trimmed[..k + 1][..k] == trimmed[..k];
      k := k + 1;
    }
    assert trimmed[..k] == trimmed;
    return tag == 2 || (tag == 3 && magnitude < U64_MAX);
  }
}
