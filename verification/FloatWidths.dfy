/** Which finite values the narrower IEEE 754 formats hold, and that the
    decoder's bit tests tell exactly. A value is a sign and a magnitude counted
    in units of 2^-1074, the smallest binary64 step. */
module FloatWidths {
  import opened Oddities

  // ---------------------------------------------------------------------
  // Powers of two
  // ---------------------------------------------------------------------

  lemma {:induction false} Pow2Sum(a: nat, b: nat)
    ensures Pow2(a + b) == Pow2(a) * Pow2(b)
  {
    if a > 0 {
      Pow2Sum(a - 1, b);
      assert Pow2(a + b) == 2 * Pow2(a - 1 + b);
      assert 2 * (Pow2(a - 1) * Pow2(b)) == (2 * Pow2(a - 1)) * Pow2(b);
    }
  }

  lemma {:induction false} Pow2Grows(a: nat, b: nat)
    requires a <= b
    ensures Pow2(a) <= Pow2(b)
    ensures a < b ==> Pow2(a) < Pow2(b)
  {
    if a < b {
      Pow2Grows(a, b - 1);
    }
  }

  /** Powers of two are ordered as their exponents. */
  lemma Pow2Orders(a: nat, b: nat)
    requires Pow2(a) < Pow2(b)
    ensures a < b
  {
    if a >= b {
      Pow2Grows(b, a);
    }
  }

  lemma Product(a: nat, b: nat, c: nat)
    requires a <= b
    ensures a * c <= b * c
    ensures a < b && c >= 1 ==> a * c < b * c
  {
  }

  /** `c` times a power of two is at least that power. */
  lemma AtLeast(c: nat, d: nat)
    requires c >= 1
    ensures Pow2(d) <= c * Pow2(d)
  {
    Product(1, c, Pow2(d));
  }

  lemma Cancel(c: nat, k: nat, b: nat, j: nat)
    requires k >= j
    ensures c * Pow2(k) == b * Pow2(j) <==> c * Pow2(k - j) == b
  {
    Pow2Sum(k - j, j);
    var p, q := Pow2(k - j), Pow2(j);
    assert c * (p * q) == (c * p) * q;
    if c * p < b {
      Product(c * p, b, q);
    } else {
      Product(b, c * p, q);
    }
  }

  lemma Regroup(a: nat, b: nat, c: nat)
    ensures a * (b * c) == (a * b) * c
  {
  }

  lemma PositiveFactor(x: int, p: nat)
    ensures p >= 1 && x * p >= 0 ==> x >= 0
    ensures x * p >= 1 ==> x >= 1
  {
  }

  lemma Divides(h: nat, a: nat, b: nat)
    requires a <= b
    ensures (h * Pow2(b)) % Pow2(a) == 0
  {
    hide Pow2;
    Pow2Sum(b - a, a);
    Regroup(h, Pow2(b - a), Pow2(a));
    MultipleOf(h * Pow2(b - a), Pow2(a));
  }

  lemma MultipleOf(q: nat, p: nat)
    requires p >= 1
    ensures (q * p) % p == 0 && (q * p) / p == q
  {
    var r := (q * p) % p;
    var k := (q * p) / p;
    assert q * p == k * p + r;
    if k < q {
      Product(k + 1, q, p);
    } else if k > q {
      Product(q + 1, k, p);
    }
  }

  // ---------------------------------------------------------------------
  // Narrowing a significand
  // ---------------------------------------------------------------------

  /** A format of `bits` mantissa bits whose exponents reach `top` and whose unit
      is 2^offset wide units. */
  datatype Narrow = Narrow(bits: nat, top: nat, offset: nat)

  predicate IsNarrow(f: Narrow, h: nat, e: nat) {
    h < Pow2(f.bits + 1) && e <= f.top && (e > 0 ==> h >= Pow2(f.bits))
  }

  /** The value of a wide number with biased exponent `x` and mantissa `m`. */
  function Significand(wide: nat, x: nat, m: nat): (s: nat) {
    if x == 0 then m else Pow2(wide) + m
  }

  function Power(x: nat): (e: nat) {
    if x == 0 then 0 else x - 1
  }

  /** The test both of the decoder's narrowing checks are instances of. */
  predicate Fits(wide: nat, f: Narrow, x: nat, m: nat)
    requires f.bits <= wide <= f.offset
  {
    var spare := wide - f.bits;
    if x == 0 then m == 0
    else if x > f.top + f.offset - spare + 1 then false
    else if x >= f.offset - spare + 1 then m % Pow2(spare) == 0
    else if x >= f.offset - wide + 1 then (Pow2(wide) + m) % Pow2(f.offset + 1 - x) == 0
    else false
  }

  ghost predicate SameValue(wide: nat, f: Narrow, x: nat, m: nat, h: nat, e: nat) {
    h * Pow2(e + f.offset) == Significand(wide, x, m) * Pow2(Power(x))
  }

  /** The narrow number that holds what fits. */
  function Fitted(wide: nat, f: Narrow, x: nat, m: nat): (r: (nat, nat))
    requires f.bits <= wide <= f.offset && Fits(wide, f, x, m)
  {
    var spare := wide - f.bits;
    if x == 0 then (0, 0)
    else if x >= f.offset - spare + 1 then (Pow2(f.bits) + m / Pow2(spare), x - (f.offset - spare + 1))
    else ((Pow2(wide) + m) / Pow2(f.offset + 1 - x), 0)
  }

  lemma FittedHolds(wide: nat, f: Narrow, x: nat, m: nat)
    requires f.bits <= wide <= f.offset && m < Pow2(wide) && Fits(wide, f, x, m)
    ensures var (h, e) := Fitted(wide, f, x, m);
            IsNarrow(f, h, e) && SameValue(wide, f, x, m, h, e)
  {
    hide Pow2;
    OneBit(f.bits);
    if x > 0 {
      if x >= f.offset - (wide - f.bits) + 1 {
        NormalHolds(wide, f, x, m);
      } else {
        SubnormalHolds(wide, f, x, m);
      }
    }
  }

  /** Dropping zero bits at the end of a mantissa. */
  lemma NormalHolds(wide: nat, f: Narrow, x: nat, m: nat)
    requires f.bits <= wide <= f.offset && m < Pow2(wide)
    requires f.offset - (wide - f.bits) + 1 <= x && m % Pow2(wide - f.bits) == 0
    ensures var h := Pow2(f.bits) + m / Pow2(wide - f.bits);
            var e := x - (f.offset - (wide - f.bits) + 1);
            h < Pow2(f.bits + 1) && SameValue(wide, f, x, m, h, e)
  {
    hide Pow2;
    var p := Pow2(wide - f.bits);
    var q := m / p;
    var h := Pow2(f.bits) + q;
    var e := x - (f.offset - (wide - f.bits) + 1);
    Pow2Sum(f.bits, wide - f.bits);
    Exactly(m, p);
    Distribute(Pow2(f.bits), q, p);
    Quotient(q, Pow2(f.bits), p);
    OneBit(f.bits);
    Cancel(h, e + f.offset, Pow2(wide) + m, Power(x));
  }

  /** Shifting the whole significand into a subnormal. */
  lemma SubnormalHolds(wide: nat, f: Narrow, x: nat, m: nat)
    requires f.bits <= wide <= f.offset && m < Pow2(wide)
    requires f.offset - wide + 1 <= x < f.offset - (wide - f.bits) + 1 && x > 0
    requires (Pow2(wide) + m) % Pow2(f.offset + 1 - x) == 0
    ensures var h := (Pow2(wide) + m) / Pow2(f.offset + 1 - x);
            h < Pow2(f.bits) && SameValue(wide, f, x, m, h, 0)
  {
    hide Pow2;
    var shift := f.offset + 1 - x;
    var s := Pow2(wide) + m;
    var h := s / Pow2(shift);
    Exactly(s, Pow2(shift));
    Cancel(h, f.offset, s, Power(x));
    OneBit(wide);
    Pow2Grows(wide + 1, f.bits + shift);
    Pow2Sum(f.bits, shift);
    Quotient(h, Pow2(f.bits), Pow2(shift));
  }

  lemma Exactly(a: nat, p: nat)
    requires p >= 1 && a % p == 0
    ensures a / p * p == a
  {
  }

  lemma Distribute(a: nat, b: nat, p: nat)
    ensures (a + b) * p == a * p + b * p
  {
  }

  lemma Quotient(q: nat, bound: nat, p: nat)
    requires q * p < bound * p
    ensures q < bound
  {
    if q >= bound {
      Product(bound, q, p);
    }
  }

  lemma OneBit(n: nat)
    ensures Pow2(n + 1) == 2 * Pow2(n) && Pow2(n) >= 1
  {
  }

  lemma HeldFits(wide: nat, f: Narrow, x: nat, m: nat, h: nat, e: nat)
    requires f.bits <= wide < f.offset && m < Pow2(wide)
    requires IsNarrow(f, h, e) && SameValue(wide, f, x, m, h, e)
    ensures Fits(wide, f, x, m)
  {
    hide Pow2;
    var s, j, k := Significand(wide, x, m), Power(x), e + f.offset;
    var spare := wide - f.bits;
    OneBit(wide);
    if k < j {
      Cancel(s, j, h, k);
      AtLeast(s, j - k);
      WideIsTooWide(wide, f, s, j - k);
    } else {
      var d := k - j;
      Cancel(h, k, s, j);
      if x == 0 {
        if h >= 1 {
          AtLeast(h, d);
          Pow2Grows(wide, d);
        }
      } else {
        PositiveFactor(h, Pow2(d));
        AtLeast(h, d);
        Pow2Orders(d, wide + 1);
        Pow2Sum(f.bits + 1, d);
        Product(h, Pow2(f.bits + 1), Pow2(d));
        Pow2Orders(wide, f.bits + 1 + d);
        assert spare <= d <= wide && x == e + f.offset + 1 - d;
        if x >= f.offset - spare + 1 {
          Divides(h, spare, d);
          Divides(1, spare, wide);
          Remainder(Pow2(wide), m, Pow2(spare));
        } else {
          Divides(h, f.offset + 1 - x, d);
        }
      }
    }
  }

  lemma WideIsTooWide(wide: nat, f: Narrow, s: nat, d: nat)
    requires f.bits <= wide && d >= 1 && s >= Pow2(wide)
    ensures s * Pow2(d) >= Pow2(f.bits + 1)
  {
    hide Pow2;
    Pow2Grows(f.bits + 1, wide + d);
    Product(Pow2(wide), s, Pow2(d));
    Pow2Sum(wide, d);
  }

  lemma Remainder(a: nat, b: nat, p: nat)
    requires p >= 1 && a % p == 0 && (a + b) % p == 0
    ensures b % p == 0
  {
    var i, j := a / p, (a + b) / p;
    assert b == (j - i) * p by { assert a == i * p && a + b == j * p; }
    PositiveFactor(j - i, p);
    MultipleOf(j - i, p);
  }

  // ---------------------------------------------------------------------
  // The three formats
  // ---------------------------------------------------------------------

  const HALF_IN_SINGLE := Narrow(10, 29, 125)
  const SINGLE_IN_DOUBLE := Narrow(23, 253, 925)
  const HALF_IN_DOUBLE := Narrow(10, 29, 1050)

  lemma Powers()
    ensures Pow2(10) == 0x400 && Pow2(11) == 0x800 && Pow2(13) == 0x2000
    ensures Pow2(23) == 0x80_0000 && Pow2(24) == 0x100_0000 && Pow2(29) == 0x2000_0000
    ensures Pow2(52) == 0x10_0000_0000_0000
  {
    assert Pow2(4) == 0x10 && Pow2(8) == 0x100;
    Pow2Sum(8, 8);
    Pow2Sum(16, 8);
    Pow2Sum(24, 24);
    assert Pow2(29) == 32 * Pow2(24) by { Pow2Sum(5, 24); }
    assert Pow2(52) == 16 * Pow2(48) by { Pow2Sum(4, 48); }
    assert Pow2(24) == 2 * Pow2(23);
  }

  /** A finite float of width `w`. */
  predicate IsFloat(w: Width, bits: nat) {
    IsFinite(w, bits)
    && match w
       case Half => bits < 0x1_0000
       case Single => bits < 0x1_0000_0000
       case Double => bits < 0x1_0000_0000_0000_0000
  }

  function MantissaBits(w: Width): (n: nat) {
    match w case Half => 10 case Single => 23 case Double => 52
  }

  /** How many 2^-1074 steps the smallest step of width `w` is, as a power. */
  function StepPower(w: Width): (n: nat) {
    match w case Half => 1050 case Single => 925 case Double => 0
  }

  /** The magnitude of a finite float, in units of 2^-1074 (section 3.4 of IEEE
      754-2008). */
  function Magnitude(w: Width, bits: nat): (n: nat) {
    Significand(MantissaBits(w), Exponent(w, bits), Mantissa(w, bits)) * Pow2(Power(Exponent(w, bits)) + StepPower(w))
  }

  ghost predicate SameFloat(w: Width, bits: nat, other: Width, wide: nat) {
    SignBit(w, bits) == SignBit(other, wide) && Magnitude(w, bits) == Magnitude(other, wide)
  }

  /** A float of width `w` holds the value `wide`. */
  ghost predicate HeldIn(w: Width, other: Width, wide: nat) {
    exists bits: nat | IsFloat(w, bits) :: SameFloat(w, bits, other, wide)
  }

  lemma Rescale(a: nat, i: nat, b: nat, j: nat, scale: nat)
    ensures a * Pow2(i + scale) == b * Pow2(j + scale) <==> a * Pow2(i) == b * Pow2(j)
  {
    hide Pow2;
    if i >= j {
      Cancel(a, i + scale, b, j + scale);
      Cancel(a, i, b, j);
    } else {
      Cancel(b, j + scale, a, i + scale);
      Cancel(b, j, a, i);
    }
  }

  /** The formats `narrow` and `wide` are related as `f` says. */
  ghost predicate Relates(f: Narrow, narrow: Width, wide: Width) {
    && f.bits == MantissaBits(narrow) && f.top == (if narrow == Half then 29 else 253) && !narrow.Double?
    && MantissaBits(narrow) < MantissaBits(wide) < f.offset
    && StepPower(narrow) == StepPower(wide) + f.offset
  }

  lemma HeldMeansFits(f: Narrow, narrow: Width, bits: nat, wide: Width, wideBits: nat)
    requires Relates(f, narrow, wide) && IsFloat(narrow, bits) && SameFloat(narrow, bits, wide, wideBits)
    ensures Fits(MantissaBits(wide), f, Exponent(wide, wideBits), Mantissa(wide, wideBits))
  {
    hide Pow2;
    Powers();
    var e, m := Exponent(narrow, bits), Mantissa(narrow, bits);
    var h := Significand(f.bits, e, m);
    var x, n := Exponent(wide, wideBits), Mantissa(wide, wideBits);
    Rescale(h, Power(e) + f.offset, Significand(MantissaBits(wide), x, n), Power(x), StepPower(wide));
    assert IsNarrow(f, h, Power(e));
    HeldFits(MantissaBits(wide), f, x, n, h, Power(e));
  }

  /** The bits of a narrow number. */
  function Pack(w: Width, sign: nat, h: nat, e: nat): (bits: nat)
    requires !w.Double?
  {
    if w.Half? then
      sign * 0x8000 + (if h < 0x400 then h else (e + 1) * 0x400 + (h - 0x400))
    else
      sign * 0x8000_0000 + (if h < 0x80_0000 then h else (e + 1) * 0x80_0000 + (h - 0x80_0000))
  }

  lemma PackedHalf(f: Narrow, sign: nat, h: nat, e: nat)
    requires f.bits == 10 && f.top == 29 && IsNarrow(f, h, e) && sign <= 1
    ensures var bits := Pack(Half, sign, h, e);
            && IsFloat(Half, bits) && SignBit(Half, bits) == sign
            && Significand(10, Exponent(Half, bits), Mantissa(Half, bits)) == h && Power(Exponent(Half, bits)) == e
  {
    hide Pow2;
    Powers();
  }

  lemma PackedSingle(f: Narrow, sign: nat, h: nat, e: nat)
    requires f.bits == 23 && f.top == 253 && IsNarrow(f, h, e) && sign <= 1
    ensures var bits := Pack(Single, sign, h, e);
            && IsFloat(Single, bits) && SignBit(Single, bits) == sign
            && Significand(23, Exponent(Single, bits), Mantissa(Single, bits)) == h
               && Power(Exponent(Single, bits)) == e
  {
    hide Pow2;
    Powers();
  }

  lemma FitsMeansHeld(f: Narrow, narrow: Width, wide: Width, wideBits: nat)
    requires Relates(f, narrow, wide) && IsFloat(wide, wideBits)
    requires Fits(MantissaBits(wide), f, Exponent(wide, wideBits), Mantissa(wide, wideBits))
    ensures var (h, e) := Fitted(MantissaBits(wide), f, Exponent(wide, wideBits), Mantissa(wide, wideBits));
            var bits := Pack(narrow, SignBit(wide, wideBits), h, e);
            IsFloat(narrow, bits) && SameFloat(narrow, bits, wide, wideBits)
  {
    hide Pow2, Fits, Fitted;
    Powers();
    var x, n := Exponent(wide, wideBits), Mantissa(wide, wideBits);
    var (h, e) := Fitted(MantissaBits(wide), f, x, n);
    FittedHolds(MantissaBits(wide), f, x, n);
    if narrow.Half? {
      PackedHalf(f, SignBit(wide, wideBits), h, e);
    } else {
      PackedSingle(f, SignBit(wide, wideBits), h, e);
    }
    Rescale(h, e + f.offset, Significand(MantissaBits(wide), x, n), Power(x), StepPower(wide));
  }

  // ---------------------------------------------------------------------
  // The decoder's tests
  // ---------------------------------------------------------------------

  lemma SingleTest(bits: nat)
    requires IsFloat(Single, bits)
    ensures SingleFitsHalf(bits) <==> Fits(23, HALF_IN_SINGLE, Exponent(Single, bits), Mantissa(Single, bits))
  {
    hide Pow2;
    Powers();
  }

  /** The bit test on a binary32 says exactly whether a binary16 holds it. */
  lemma SingleFitsHalfExactly(bits: nat)
    requires IsFloat(Single, bits)
    ensures SingleFitsHalf(bits) <==> HeldIn(Half, Single, bits)
  {
    hide Pow2, Fits, Magnitude, Fitted, Pack, IsFinite, SingleFitsHalf;
    SingleTest(bits);
    if SingleFitsHalf(bits) {
      FitsMeansHeld(HALF_IN_SINGLE, Half, Single, bits);
    }
    if HeldIn(Half, Single, bits) {
      var b: nat :| IsFloat(Half, b) && SameFloat(Half, b, Single, bits);
      HeldMeansFits(HALF_IN_SINGLE, Half, b, Single, bits);
    }
  }

  lemma NarrowedTest(bits: nat)
    requires IsFloat(Double, bits)
    ensures Narrowed(bits).Some? <==> Fits(52, SINGLE_IN_DOUBLE, Exponent(Double, bits), Mantissa(Double, bits))
  {
    hide Pow2;
    Powers();
  }

  lemma NarrowedPacks(bits: nat)
    requires IsFloat(Double, bits) && Narrowed(bits).Some?
    requires Fits(52, SINGLE_IN_DOUBLE, Exponent(Double, bits), Mantissa(Double, bits))
    ensures var (h, e) := Fitted(52, SINGLE_IN_DOUBLE, Exponent(Double, bits), Mantissa(Double, bits));
            Narrowed(bits).value == Pack(Single, SignBit(Double, bits), h, e)
  {
    hide Pow2;
    Powers();
    var x, m := Exponent(Double, bits), Mantissa(Double, bits);
    FittedHolds(52, SINGLE_IN_DOUBLE, x, m);
    if 0 < x < 897 {
      SubnormalHolds(52, SINGLE_IN_DOUBLE, x, m);
    }
  }

  /** A binary64 survives the round trip through binary32 exactly when a binary32
      holds it, and then the narrowed bits are such a one. */
  lemma NarrowedExactly(bits: nat)
    requires IsFloat(Double, bits)
    ensures Narrowed(bits).Some? <==> HeldIn(Single, Double, bits)
    ensures Narrowed(bits).Some? ==>
              IsFloat(Single, Narrowed(bits).value) && SameFloat(Single, Narrowed(bits).value, Double, bits)
  {
    hide Pow2, Fits, Magnitude, Fitted, Pack, IsFinite, Narrowed;
    NarrowedTest(bits);
    if Narrowed(bits).Some? {
      FitsMeansHeld(SINGLE_IN_DOUBLE, Single, Double, bits);
      NarrowedPacks(bits);
    }
    if HeldIn(Single, Double, bits) {
      var b: nat :| IsFloat(Single, b) && SameFloat(Single, b, Double, bits);
      HeldMeansFits(SINGLE_IN_DOUBLE, Single, b, Double, bits);
    }
  }

  // ---------------------------------------------------------------------
  // The cast to binary32 and back
  // ---------------------------------------------------------------------

  /** `n / d` rounded to the nearest integer, ties to the even one (section 4.3.1
      of IEEE 754-2008). */
  function RoundHalfEven(n: nat, d: nat): (q: nat)
    requires d >= 1
  {
    var q, r := n / d, n % d;
    if 2 * r > d || (2 * r == d && q % 2 == 1) then q + 1 else q
  }

  function Distance(a: int, b: int): (d: nat) {
    if a <= b then b - a else a - b
  }

  lemma Multiples(low: nat, k: nat, d: nat)
    ensures (low + 1) * d == low * d + d
    ensures k < low ==> k * d + d <= low * d
    ensures k > low + 1 ==> low * d + 2 * d <= k * d
  {
    assert (low + 1) * d == low * d + d && (low + 2) * d == low * d + 2 * d && (k + 1) * d == k * d + d;
    if k < low {
      Product(k + 1, low, d);
    } else if k > low + 1 {
      Product(low + 2, k, d);
    }
  }

  /** What rounding looks at: the multiple below and the rest. */
  lemma RoundParts(n: nat, d: nat) returns (low: nat, r: nat)
    requires d >= 1
    ensures n == low * d + r && r < d
    ensures RoundHalfEven(n, d) == if 2 * r > d || (2 * r == d && low % 2 == 1) then low + 1 else low
  {
    low, r := n / d, n % d;
  }

  /** The comparison between distances, the products named: `n` lies `r` past the
      multiple `below` of `d`, and `other` is any multiple of `d`. */
  lemma NearestOfTwo(n: nat, d: nat, below: nat, r: nat, other: nat, up: bool, low: nat, k: nat)
    requires n == below + r && r < d && (up <==> 2 * r > d || (2 * r == d && low % 2 == 1))
    requires k < low ==> other + d <= below
    requires k == low ==> other == below
    requires k == low + 1 ==> other == below + d
    requires k > low + 1 ==> below + 2 * d <= other
    ensures var near := if up then below + d else below;
            var q := if up then low + 1 else low;
            && Distance(near, n) <= Distance(other, n)
            && (Distance(near, n) == Distance(other, n) && k != q ==> q % 2 == 0)
  {
  }

  /** No other multiple is nearer, and one as near means that this one is even. */
  lemma RoundsToNearest(n: nat, d: nat, k: nat)
    requires d >= 1
    ensures var q := RoundHalfEven(n, d);
            && Distance(q * d, n) <= Distance(k * d, n)
            && (Distance(q * d, n) == Distance(k * d, n) && k != q ==> q % 2 == 0)
  {
    hide Distance, RoundHalfEven;
    var low, r := RoundParts(n, d);
    Multiples(low, k, d);
    var up := 2 * r > d || (2 * r == d && low % 2 == 1);
    NearestOfTwo(n, d, low * d, r, k * d, up, low, k);
  }

  /** The cast of a finite binary64 to binary32: its significand rounded to the
      steps binary32 has at its exponent, infinity past them. The bits of the
      exponent and of a rounded significand with its leading one add up. */
  function ToSingle(bits: nat): (single: nat) {
    var sign := SignBit(Double, bits) * 0x8000_0000;
    var e := Exponent(Double, bits);
    var s := Significand(52, e, Mantissa(Double, bits));
    if e > 1150 then sign + 0x7F80_0000
    else if e >= 897 then sign + (e - 897) * 0x80_0000 + RoundHalfEven(s, 0x2000_0000)
    else sign + RoundHalfEven(s, Pow2(925 - Power(e)))
  }

  /** The decoder's test `(v as f32) as f64 == v`: widening keeps the value, and
      the two zeros are equal. */
  predicate SurvivesCast(bits: nat) {
    var single := ToSingle(bits);
    && IsFinite(Single, single)
    && Magnitude(Single, single) == Magnitude(Double, bits)
    && (SignBit(Single, single) == SignBit(Double, bits) || Magnitude(Double, bits) == 0)
  }

  lemma RoundExact(n: nat, d: nat)
    requires d >= 1 && n % d == 0
    ensures RoundHalfEven(n, d) == n / d
  {
  }

  lemma RoundBelow(n: nat, d: nat, bound: nat)
    requires d >= 1 && n <= bound * d
    ensures RoundHalfEven(n, d) <= bound
  {
    var q, r := n / d, n % d;
    assert n == q * d + r;
    if q >= bound {
      Product(bound, q, d);
      Cap(q, bound, d);
    }
  }

  lemma Cap(q: nat, bound: nat, d: nat)
    requires d >= 1 && q * d <= bound * d
    ensures q <= bound
  {
    if q > bound {
      Product(bound, q, d);
    }
  }

  /** The sign stays, and the rest of the bits stay below it. */
  lemma CastKeepsSign(bits: nat)
    requires IsFloat(Double, bits)
    ensures ToSingle(bits) < 0x1_0000_0000 && SignBit(Single, ToSingle(bits)) == SignBit(Double, bits)
  {
    hide Pow2, RoundHalfEven;
    Powers();
    var e := Exponent(Double, bits);
    var s := Significand(52, e, Mantissa(Double, bits));
    if e < 897 {
      var shift := 925 - Power(e);
      Pow2Grows(30, shift);
      OneBit(29);
      Product(Pow2(30), Pow2(shift), 0x80_0000);
      RoundBelow(s, Pow2(shift), 0x80_0000);
    } else if e <= 1150 {
      RoundBelow(s, 0x2000_0000, 0x100_0000);
    }
  }

  /** A value the narrowing takes as exact is what the cast gives. */
  lemma CastIsNarrowed(bits: nat)
    requires IsFloat(Double, bits) && Narrowed(bits).Some?
    ensures ToSingle(bits) == Narrowed(bits).value
  {
    hide Pow2, RoundHalfEven;
    Powers();
    var e, m := Exponent(Double, bits), Mantissa(Double, bits);
    if e == 0 {
      RoundExact(0, Pow2(925));
    } else if e >= 897 {
      RoundExact(0x10_0000_0000_0000 + m, 0x2000_0000);
    } else {
      RoundExact(0x10_0000_0000_0000 + m, Pow2(926 - e));
    }
  }

  /** The round trip through binary32 gives the value back exactly when a binary32
      holds it, which is when `Narrowed` has bits for it: the cast's. */
  lemma CastRoundTripExactly(bits: nat)
    requires IsFloat(Double, bits)
    ensures SurvivesCast(bits) <==> HeldIn(Single, Double, bits)
    ensures SurvivesCast(bits) <==> Narrowed(bits).Some?
    ensures SurvivesCast(bits) ==> ToSingle(bits) == Narrowed(bits).value
  {
    hide Pow2, ToSingle, Narrowed, Magnitude, SignBit;
    CastKeepsSign(bits);
    NarrowedExactly(bits);
    if SurvivesCast(bits) {
      assert SameFloat(Single, ToSingle(bits), Double, bits);
    }
    if Narrowed(bits).Some? {
      CastIsNarrowed(bits);
    }
  }

  lemma DividesThrough(c: nat, a: nat, b: nat)
    requires b <= a && c % Pow2(a) == 0
    ensures c % Pow2(b) == 0
  {
    hide Pow2;
    Exactly(c, Pow2(a));
    Divides(c / Pow2(a), b, a);
  }

  /** What a binary16 holds, a binary32 holds. */
  lemma HalfFitsSingle(x: nat, m: nat)
    requires m < Pow2(52) && Fits(52, HALF_IN_DOUBLE, x, m)
    ensures Fits(52, SINGLE_IN_DOUBLE, x, m)
  {
    hide Pow2;
    Powers();
    if x >= 1009 {
      DividesThrough(m, 42, 29);
    } else if x >= 999 {
      DividesThrough(Pow2(52) + m, 1051 - x, 29);
      Divides(1, 29, 52);
      Remainder(Pow2(52), m, Pow2(29));
    }
  }

  lemma HalfOfDoubleFits(bits: nat)
    requires IsFloat(Double, bits) && HeldIn(Half, Double, bits)
    ensures HeldIn(Single, Double, bits)
  {
    hide Pow2, Fits, Magnitude, IsFinite, Narrowed;
    Powers();
    var b: nat :| IsFloat(Half, b) && SameFloat(Half, b, Double, bits);
    HeldMeansFits(HALF_IN_DOUBLE, Half, b, Double, bits);
    HalfFitsSingle(Exponent(Double, bits), Mantissa(Double, bits));
    NarrowedTest(bits);
    NarrowedExactly(bits);
  }

  lemma SameHolders(w: Width, a: Width, bits: nat, b: Width, other: nat)
    requires SameFloat(a, bits, b, other)
    ensures HeldIn(w, a, bits) <==> HeldIn(w, b, other)
  {
    hide Magnitude, IsFinite, SignBit;
    if HeldIn(w, a, bits) {
      var c: nat :| IsFloat(w, c) && SameFloat(w, c, a, bits);
      assert SameFloat(w, c, b, other);
    }
    if HeldIn(w, b, other) {
      var c: nat :| IsFloat(w, c) && SameFloat(w, c, b, other);
      assert SameFloat(w, c, a, bits);
    }
  }

  /** `ShortestFloatLen` is the least header length whose format holds the value. */
  lemma ShortestFloatLenExactly(len: nat, bits: nat)
    requires len in {3, 5, 9} && IsFloat(WidthOf(len), bits)
    ensures var n := ShortestFloatLen(len, bits);
            && n in {3, 5, 9} && HeldIn(WidthOf(n), WidthOf(len), bits)
            && (forall k: nat | k in {3, 5, 9} && k < n && k < len :: !HeldIn(WidthOf(k), WidthOf(len), bits))
  {
    hide Magnitude, IsFinite, SignBit, Narrowed, SingleFitsHalf, Pow2;
    assert SameFloat(WidthOf(len), bits, WidthOf(len), bits);
    if len == 5 {
      SingleFitsHalfExactly(bits);
    } else if len == 9 {
      NarrowedExactly(bits);
      if Narrowed(bits).Some? {
        var single := Narrowed(bits).value;
        SingleFitsHalfExactly(single);
        SameHolders(Half, Single, single, Double, bits);
      } else if HeldIn(Half, Double, bits) {
        HalfOfDoubleFits(bits);
      }
    }
  }

  /** A float is flagged exactly when a narrower format holds the same value. */
  lemma FloatNotShortestExactly(len: nat, bits: nat)
    requires len in {3, 5, 9} && IsFloat(WidthOf(len), bits)
    ensures FloatOddities(len, bits) == [FloatNotShortest]
       <==> exists k: nat | k in {3, 5} && k < len :: HeldIn(WidthOf(k), WidthOf(len), bits)
  {
    hide HeldIn, IsFinite, ShortestFloatLen;
    ShortestFloatLenExactly(len, bits);
    var n := ShortestFloatLen(len, bits);
    if n < len {
      assert n in {3, 5} && HeldIn(WidthOf(n), WidthOf(len), bits);
    }
  }
}
