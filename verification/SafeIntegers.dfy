/** Which integers the JSON writer leaves bare: how integers round to binary64, when a
    reader that rounds gets back the one that was written, and where binary64 ends. */
module SafeIntegers {
  import opened Oddities
  import opened FloatWidths
  import Json
  import Text

  // ---------------------------------------------------------------------
  // Integers as binary64
  // ---------------------------------------------------------------------

  /** How many binary digits `n` has. */
  function BitLength(n: nat): (l: nat) {
    if n == 0 then 0 else 1 + BitLength(n / 2)
  }

  lemma {:induction false} Length(n: nat)
    ensures n < Pow2(BitLength(n))
    ensures if n == 0 then BitLength(n) == 0 else BitLength(n) > 0 && Pow2(BitLength(n) - 1) <= n
  {
    if n > 1 {
      Length(n / 2);
    }
  }

  /** The distance between the 53-digit numbers around `n`. */
  function Spacing(n: nat): (u: nat)
    ensures u >= 1
  {
    if BitLength(n) <= 53 then 1 else Pow2(BitLength(n) - 53)
  }

  function Rounded(n: nat): (r: nat) {
    RoundHalfEven(n, Spacing(n)) * Spacing(n)
  }

  /** What a binary64 reader makes of an integer. */
  datatype Double = Finite(value: int) | Infinite(negative: bool)

  function Absolute(i: int): (n: nat) {
    if i < 0 then -i else i
  }

  function ToDouble(i: int): (d: Double) {
    var n := Rounded(Absolute(i));
    if n >= Pow2(1024) then Infinite(i < 0) else Finite(if i < 0 then 0 - n else n)
  }

  /** The integer is a binary64 value, and no other integer is rounded to it. */
  ghost predicate Unambiguous(i: int) {
    ToDouble(i) == Finite(i) && forall j: int | j != i :: ToDouble(j) != Finite(i)
  }

  // ---------------------------------------------------------------------
  // Rounding keeps exactly the binary64 values
  // ---------------------------------------------------------------------

  lemma LengthOf(n: nat, l: nat)
    requires l > 0 && Pow2(l - 1) <= n < Pow2(l)
    ensures BitLength(n) == l
  {
    hide Pow2, BitLength;
    var b := BitLength(n);
    Length(n);
    Pow2Grows(0, l - 1);
    assert Pow2(0) == 1 by { OneIsPow2(); }
    Pow2Orders(l - 1, b);
    Pow2Orders(b - 1, l);
  }

  lemma OneIsPow2()
    ensures Pow2(0) == 1 && Pow2(1) == 2 && Pow2(2) == 4
  {
  }

  lemma LengthAtMost(n: nat, l: nat)
    requires n < Pow2(l)
    ensures BitLength(n) <= l
  {
    hide Pow2, BitLength;
    Length(n);
    if n > 0 {
      Pow2Orders(BitLength(n) - 1, l);
    }
  }

  lemma MultipleStays(n: nat)
    requires n % Spacing(n) == 0
    ensures Rounded(n) == n
  {
    hide Pow2, BitLength, RoundHalfEven;
    RoundExact(n, Spacing(n));
    Exactly(n, Spacing(n));
  }

  /** A number of at most 53 significant digits is its own rounding. */
  lemma FewDigitsStay(s: nat, k: nat)
    requires s < Pow2(53)
    ensures Rounded(s * Pow2(k)) == s * Pow2(k)
  {
    hide Pow2, BitLength, Rounded;
    var n := s * Pow2(k);
    Pow2Sum(53, k);
    Product(s, Pow2(53), Pow2(k));
    OneBit(k);
    LengthAtMost(n, 53 + k);
    if BitLength(n) > 53 {
      Divides(s, BitLength(n) - 53, k);
    }
    MultipleStays(n);
  }

  /** Rounding has at most 53 significant digits, and they say where it lies. */
  lemma RoundedDigits(n: nat)
    ensures var q := RoundHalfEven(n, Spacing(n));
            Rounded(n) == q * Spacing(n) && q <= Pow2(53) && (BitLength(n) > 53 ==> q >= Pow2(52))
  {
    hide Pow2, BitLength, RoundHalfEven;
    var l, u := BitLength(n), Spacing(n);
    Length(n);
    if l > 53 {
      Pow2Sum(53, l - 53);
      Pow2Sum(52, l - 53);
      RoundBelow(n, u, Pow2(53));
      RoundAbove(n, u, Pow2(52));
    } else {
      RoundOne(n);
      Pow2Grows(l, 53);
    }
  }

  lemma RoundOne(n: nat)
    ensures RoundHalfEven(n, 1) == n
  {
  }

  lemma RoundAbove(n: nat, d: nat, bound: nat)
    requires d >= 1 && bound * d <= n
    ensures RoundHalfEven(n, d) >= bound
  {
    hide RoundHalfEven;
    var low, r := RoundParts(n, d);
    if low < bound {
      Multiples(bound, low, d);
    }
  }

  /** The significand: 53 digits exactly. */
  lemma FullDigits(n: nat) returns (s: nat)
    requires n > 0 && Rounded(n) == n
    ensures Pow2(52) <= s < Pow2(53) && BitLength(n) > 0
    ensures s * Pow2(BitLength(n) + 1021) == n * Pow2(1074)
  {
    hide Pow2, BitLength, RoundHalfEven, Rounded;
    Length(n);
    if BitLength(n) > 53 {
      s := DigitsOfMany(n, BitLength(n));
    } else {
      s := DigitsOfFew(n, BitLength(n));
    }
  }

  lemma DigitsOfMany(n: nat, l: nat) returns (s: nat)
    requires l == BitLength(n) > 53 && Rounded(n) == n && Pow2(l - 1) <= n < Pow2(l)
    ensures Pow2(52) <= s < Pow2(53) && s * Pow2(l + 1021) == n * Pow2(1074)
  {
    hide Pow2, BitLength, RoundHalfEven, Rounded;
    var u := Pow2(l - 53);
    RoundedDigits(n);
    s := RoundHalfEven(n, u);
    Pow2Sum(52, l - 53);
    Pow2Sum(53, l - 53);
    ByFactor(s, n, u, Pow2(52), Pow2(53));
    Pow2Sum(l - 53, 1074);
    Regroup(s, u, Pow2(1074));
  }

  lemma DigitsOfFew(n: nat, l: nat) returns (s: nat)
    requires 0 < l <= 53 && Pow2(l - 1) <= n < Pow2(l)
    ensures Pow2(52) <= s < Pow2(53) && s * Pow2(l + 1021) == n * Pow2(1074)
  {
    hide Pow2, BitLength;
    var p := Pow2(53 - l);
    s := n * p;
    Pow2Sum(l, 53 - l);
    Pow2Sum(l - 1, 53 - l);
    Product(Pow2(l - 1), n, p);
    Product(n, Pow2(l), p);
    Pow2Sum(53 - l, l + 1021);
    Regroup(n, p, Pow2(l + 1021));
  }

  lemma ByFactor(s: nat, n: nat, u: nat, low: nat, high: nat)
    requires u >= 1 && n == s * u && low * u <= n < high * u
    ensures low <= s < high
  {
    if s < low {
      Product(s, low, u);
    } else if s >= high {
      Product(high, s, u);
    }
  }

  lemma BitsOf(n: nat) returns (bits: nat)
    requires Rounded(n) == n < Pow2(1024)
    ensures IsFloat(Double, bits) && Magnitude(Double, bits) == n * Pow2(1074)
  {
    hide Pow2, BitLength, Rounded;
    Powers();
    if n > 0 {
      var s := FullDigits(n);
      var l := BitLength(n);
      LengthAtMost(n, 1024);
      Pow2Sum(1, 52);
      OneIsPow2();
      bits := (1021 + l) * 0x10_0000_0000_0000 + s;
      Unpacked(l, s - 0x10_0000_0000_0000, bits);
    } else {
      bits := 0;
      Unpacked(0, 0, 0);
    }
  }

  lemma Unpacked(l: nat, m: nat, bits: nat)
    requires l <= 1024 && m < 0x10_0000_0000_0000
    requires bits == (if l == 0 then 0 else 1022 + l) * 0x10_0000_0000_0000 + m
    ensures IsFloat(Double, bits) && Mantissa(Double, bits) == m
    ensures Exponent(Double, bits) == if l == 0 then 0 else 1022 + l
  {
  }

  /** The values rounding keeps are those some finite binary64 has. */
  lemma KeptExactly(n: nat)
    requires n < Pow2(1024)
    ensures Rounded(n) == n <==> exists bits :: IsFloat(Double, bits) && Magnitude(Double, bits) == n * Pow2(1074)
  {
    hide Pow2, BitLength, Rounded, Magnitude, IsFloat;
    if Rounded(n) == n {
      var bits := BitsOf(n);
    }
    if bits :| IsFloat(Double, bits) && Magnitude(Double, bits) == n * Pow2(1074) {
      HeldIsKept(n, bits);
    }
  }

  lemma HeldIsKept(n: nat, bits: nat)
    requires IsFloat(Double, bits) && Magnitude(Double, bits) == n * Pow2(1074)
    ensures Rounded(n) == n
  {
    hide Pow2, BitLength, Rounded;
    Powers();
    Pow2Sum(1, 52);
    OneIsPow2();
    var e := Exponent(Double, bits);
    var s, p := Significand(52, e, Mantissa(Double, bits)), Power(e);
    if p >= 1074 {
      Cancel(s, p, n, 1074);
      FewDigitsStay(s, p - 1074);
    } else {
      Cancel(n, 1074, s, p);
      AtLeast(1, 1074 - p);
      Product(1, Pow2(1074 - p), n);
      FewDigitsStay(n, 0);
    }
  }

  // ---------------------------------------------------------------------
  // Which integers are unambiguous
  // ---------------------------------------------------------------------

  lemma SmallPowers()
    ensures Pow2(53) == 0x20_0000_0000_0000 && Pow2(54) == 0x40_0000_0000_0000
    ensures Pow2(54) < Pow2(1024)
  {
    hide Pow2;
    Powers();
    OneIsPow2();
    Pow2Sum(1, 52);
    Pow2Sum(2, 52);
    Pow2Grows(54, 1024);
  }

  lemma SmallStays(n: nat)
    requires n <= 0x20_0000_0000_0000
    ensures Rounded(n) == n < Pow2(1024)
  {
    hide Pow2, Rounded;
    SmallPowers();
    OneIsPow2();
    if n < Pow2(53) {
      FewDigitsStay(n, 0);
    } else {
      FewDigitsStay(0x10_0000_0000_0000, 1);
    }
  }

  lemma Fours(n: nat) returns (q: nat, r: nat)
    ensures n == 4 * q + r && r < 4 && r == n % 4
  {
    q, r := n / 4, n % 4;
  }

  /** Between 2^53 and 2^54 odd numbers go to the neighbour that is a multiple of
      four. */
  lemma NextBinade(n: nat, q: nat, r: nat)
    requires n == 4 * q + r && r < 4 && 0x20_0000_0000_0000 <= n < 0x40_0000_0000_0000
    ensures Rounded(n) == (if r == 0 || r == 1 then 4 * q else if r == 2 then n else 4 * q + 4) < Pow2(1024)
  {
    hide Pow2, BitLength, RoundHalfEven;
    SmallPowers();
    OneIsPow2();
    LengthOf(n, 54);
    HalfOfFours(n, q, r);
  }

  lemma HalfOfFours(n: nat, q: nat, r: nat)
    requires n == 4 * q + r && r < 4
    ensures RoundHalfEven(n, 2) == if r <= 1 then 2 * q else if r == 2 then 2 * q + 1 else 2 * q + 2
  {
    var low := if r <= 1 then 2 * q else 2 * q + 1;
    assert n / 2 == low && n % 2 == r % 2;
    assert low % 2 == if r <= 1 then 0 else 1;
  }

  lemma LargeStaysLarge(n: nat)
    requires n >= 0x40_0000_0000_0000
    ensures Rounded(n) >= 0x40_0000_0000_0000
  {
    hide Pow2, BitLength, RoundHalfEven;
    Powers();
    SmallPowers();
    OneIsPow2();
    var l := BitLength(n);
    Length(n);
    Pow2Orders(53, l);
    if l == 54 {
      assert false;
    }
    RoundedDigits(n);
    Pow2Grows(2, l - 53);
    Product(Pow2(52), RoundHalfEven(n, Spacing(n)), Spacing(n));
    Product(4, Spacing(n), Pow2(52));
  }

  /** Past 2^54 the next integer is rounded back. */
  lemma NextIsLost(n: nat)
    requires n >= 0x40_0000_0000_0000 && Rounded(n) == n
    ensures Rounded(n + 1) == n
  {
    hide Pow2, BitLength, RoundHalfEven;
    Powers();
    SmallPowers();
    OneIsPow2();
    var l := BitLength(n);
    Length(n);
    Pow2Orders(53, l);
    if l == 54 {
      assert false;
    }
    var u := Spacing(n);
    Pow2Grows(2, l - 53);
    var q := RoundHalfEven(n, u);
    Pow2Sum(53, l - 53);
    BelowMultiple(q, Pow2(53), u, n);
    LengthOf(n + 1, l);
    RoundJustAbove(q, u, n);
  }

  lemma BelowMultiple(q: nat, bound: nat, u: nat, n: nat)
    requires n == q * u && n < bound * u && u >= 2
    ensures n + 1 < bound * u
  {
    if q >= bound {
      Product(bound, q, u);
    }
    Product(q + 1, bound, u);
    assert (q + 1) * u == q * u + u;
  }

  lemma RoundJustAbove(q: nat, u: nat, n: nat)
    requires n == q * u && u > 2
    ensures RoundHalfEven(n + 1, u) == q
  {
    hide RoundHalfEven;
    var low, r := RoundParts(n + 1, u);
    Multiples(low, q, u);
    Multiples(q, low, u);
  }

  /** The integers of the range the writer keeps bare. */
  predicate Safe(i: int) {
    Absolute(i) < 0x20_0000_0000_0000
  }

  /** The even integers just past the range that fall between two multiples of
      four. */
  predicate BetweenFours(i: int) {
    0x20_0000_0000_0000 < Absolute(i) < 0x40_0000_0000_0000 && Absolute(i) % 4 == 2
  }

  lemma RoundsElsewhere(i: int, j: int)
    requires (Safe(i) || BetweenFours(i)) && i != j
    ensures ToDouble(j) != Finite(i)
  {
    hide Rounded, Pow2;
    var n := Absolute(j);
    if n <= 0x20_0000_0000_0000 {
      SmallStays(n);
    } else if n < 0x40_0000_0000_0000 {
      var q, r := Fours(n);
      var p, s := Fours(Absolute(i));
      NextBinade(n, q, r);
    } else {
      LargeStaysLarge(n);
    }
  }

  /** An integer is unambiguous exactly within the range and at those. */
  lemma UnambiguousExactly(i: int)
    ensures Unambiguous(i) <==> Safe(i) || BetweenFours(i)
  {
    hide Rounded, Pow2, ToDouble, Safe, BetweenFours;
    if Safe(i) || BetweenFours(i) {
      KeepsItself(i);
      forall j: int | j != i ensures ToDouble(j) != Finite(i) {
        RoundsElsewhere(i, j);
      }
    } else {
      AmbiguousNeighbour(i);
    }
  }

  lemma KeepsItself(i: int)
    requires Safe(i) || BetweenFours(i)
    ensures ToDouble(i) == Finite(i)
  {
    hide Rounded, Pow2;
    var n := Absolute(i);
    if Safe(i) {
      SmallStays(n);
    } else {
      var q, r := Fours(n);
      NextBinade(n, q, r);
    }
  }

  lemma NextIsLostAtFours(n: nat)
    requires 0x20_0000_0000_0000 <= n < 0x40_0000_0000_0000 && n % 4 != 2
    ensures Rounded(n) != n || Rounded(n + 1) == n
  {
    hide Rounded, Pow2;
    var q, r := Fours(n);
    NextBinade(n, q, r);
    if r == 0 {
      NextBinade(n + 1, q, 1);
    }
  }

  lemma AmbiguousNeighbour(i: int)
    requires !Safe(i) && !BetweenFours(i)
    ensures ToDouble(i) != Finite(i) || exists j: int | j != i :: ToDouble(j) == Finite(i)
  {
    hide Rounded, Pow2;
    var n := Absolute(i);
    var j := if i < 0 then i - 1 else i + 1;
    if ToDouble(i) == Finite(i) {
      if n < 0x40_0000_0000_0000 {
        var q, r := Fours(n);
        NextIsLostAtFours(n);
      } else {
        NextIsLost(n);
      }
      assert ToDouble(j) == Finite(i);
    }
  }

  // ---------------------------------------------------------------------
  // What the writer does
  // ---------------------------------------------------------------------

  lemma BareIsNoBox(i: int)
    ensures Json.WriteNumber(Json.Int(i), true) == Json.NumberText(Json.Int(i)) <==> Safe(i)
  {
    var digits := Json.NumberText(Json.Int(i));
    assert digits[0] == '-' || Text.IsDigit(digits[0]);
  }

  /** An integer is written bare exactly when a reader that rounds to binary64 gets it
      back and would get it back from no other integer, but for the even integers
      just past the range that fall between two multiples of four. */
  lemma BareExactly(i: int)
    ensures Json.WriteNumber(Json.Int(i), true) == Json.NumberText(Json.Int(i))
       <==> Unambiguous(i) && !BetweenFours(i)
  {
    hide Json.WriteNumber, Json.NumberText, Unambiguous;
    BareIsNoBox(i);
    UnambiguousExactly(i);
  }

  /** It is written bare exactly when every integer up to its magnitude is
      unambiguous. */
  lemma BareUpToTheFirstAmbiguous(i: int)
    ensures Json.WriteNumber(Json.Int(i), true) == Json.NumberText(Json.Int(i))
       <==> forall j: int | Absolute(j) <= Absolute(i) :: Unambiguous(j)
  {
    hide Json.WriteNumber, Json.NumberText, Unambiguous;
    BareIsNoBox(i);
    forall j: int | Absolute(j) <= Absolute(i) && Safe(i) ensures Unambiguous(j) {
      UnambiguousExactly(j);
    }
    UnambiguousExactly(0x20_0000_0000_0000);
  }

  /** An integer that is boxed although no other is rounded to it: 2^53 + 2. */
  lemma BoxedThoughUnambiguous()
    ensures var i := 0x20_0000_0000_0002;
            Unambiguous(i) && Json.WriteNumber(Json.Int(i), true) != Json.NumberText(Json.Int(i))
  {
    hide Json.WriteNumber, Json.NumberText, Unambiguous;
    BareIsNoBox(0x20_0000_0000_0002);
    UnambiguousExactly(0x20_0000_0000_0002);
  }

  // ---------------------------------------------------------------------
  // Where binary64 ends
  // ---------------------------------------------------------------------

  lemma Doubled(n: nat)
    ensures Json.Squared(Pow2(n)) == Pow2(2 * n)
  {
    hide Pow2;
    Pow2Sum(n, n);
  }

  lemma Pow64()
    ensures Pow2(64) == 0x1_0000_0000_0000_0000
  {
    hide Pow2;
    Powers();
    OneIsPow2();
    Pow2Sum(10, 2);
    Pow2Sum(12, 52);
  }

  lemma LimitInPowers()
    ensures Json.RoundsToInfinity() == (Pow2(54) - 1) * Pow2(970) && Pow2(54) > 1
  {
    hide Pow2;
    Powers();
    SmallPowers();
    Pow64();
    Doubled(64);
    Doubled(128);
    Doubled(256);
    Pow2Sum(128, 64);
    Pow2Sum(256, 192);
    Pow2Sum(512, 448);
    Pow2Sum(10, 960);
    LimitIs(Pow2(128), Pow2(256), Pow2(960));
  }

  lemma LimitIs(to128: nat, to256: nat, to960: nat)
    requires to128 == Json.Squared(0x1_0000_0000_0000_0000) && to256 == Json.Squared(to128)
    requires to960 == Json.Squared(to256) * (to256 * (to128 * 0x1_0000_0000_0000_0000))
    ensures Json.RoundsToInfinity() == 0x3F_FFFF_FFFF_FFFF * (0x400 * to960)
  {
  }

  /** A number rounds past the largest finite binary64 exactly from the limit on. */
  lemma OverflowsExactly(n: nat)
    ensures Rounded(n) >= Pow2(1024) <==> n >= Json.RoundsToInfinity()
  {
    hide Pow2, BitLength, RoundHalfEven, Rounded, Json.RoundsToInfinity;
    LimitInPowers();
    Length(n);
    var l := BitLength(n);
    if l > 1024 {
      FarAbove(n);
    } else if l < 1024 {
      FarBelow(n);
    } else {
      InLastBinade(n);
    }
  }

  lemma FarAbove(n: nat)
    requires BitLength(n) > 1024
    ensures Rounded(n) >= Pow2(1024) && n >= (Pow2(54) - 1) * Pow2(970)
  {
    hide Pow2, BitLength, RoundHalfEven, Rounded;
    Length(n);
    RoundedDigits(n);
    Pow2Grows(972, BitLength(n) - 53);
    Pow2Sum(52, 972);
    Product(Pow2(52), RoundHalfEven(n, Spacing(n)), Spacing(n));
    Product(Pow2(972), Spacing(n), Pow2(52));
    Pow2Sum(54, 970);
    Pow2Grows(1024, BitLength(n) - 1);
    Product(Pow2(54) - 1, Pow2(54), Pow2(970));
  }

  lemma FarBelow(n: nat)
    requires BitLength(n) < 1024
    ensures Rounded(n) < Pow2(1024) && n < (Pow2(54) - 1) * Pow2(970)
  {
    hide Pow2, BitLength, RoundHalfEven, Rounded;
    Length(n);
    RoundedDigits(n);
    SmallPowers();
    var u := Spacing(n);
    Pow2Grows(0, 970);
    OneIsPow2();
    if BitLength(n) > 53 {
      Pow2Grows(BitLength(n) - 53, 970);
    }
    Pow2Sum(53, 970);
    Product(RoundHalfEven(n, u), Pow2(53), u);
    Product(u, Pow2(970), Pow2(53));
    Pow2Grows(1023, 1024);
    Pow2Grows(BitLength(n), 1023);
    Product(Pow2(53), Pow2(54) - 1, Pow2(970));
  }

  lemma InLastBinade(n: nat)
    requires BitLength(n) == 1024
    ensures Rounded(n) >= Pow2(1024) <==> n >= (Pow2(54) - 1) * Pow2(970)
  {
    hide Pow2, BitLength, RoundHalfEven, Rounded;
    Length(n);
    RoundedDigits(n);
    SmallPowers();
    var half, u := Pow2(970), Pow2(971);
    Pow2Sum(1, 970);
    OneIsPow2();
    Pow2Sum(53, 971);
    var low, r := RoundParts(n, u);
    var q := RoundHalfEven(n, u);
    LastStep(n, low, r, q, u, half);
  }

  lemma LastStep(n: nat, low: nat, r: nat, q: nat, u: nat, half: nat)
    requires u == 2 * half && half >= 1 && n == low * u + r && r < u && q <= 0x20_0000_0000_0000
    requires q == if 2 * r > u || (2 * r == u && low % 2 == 1) then low + 1 else low
    requires n < 0x20_0000_0000_0000 * u
    ensures q * u >= 0x20_0000_0000_0000 * u <==> n >= 0x3F_FFFF_FFFF_FFFF * half
  {
    var last := 0x1F_FFFF_FFFF_FFFF;
    assert 0x3F_FFFF_FFFF_FFFF * half == last * u + half;
    if low > last {
      Product(last + 1, low, u);
    } else if low < last {
      Product(low + 1, last, u);
      Product(q + 1, last + 1, u);
      assert (low + 1) * u == low * u + u;
    } else {
      assert q == if r >= half then last + 1 else last;
      Product(last, last + 1, u);
    }
  }
}
