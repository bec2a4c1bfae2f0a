/** Which number tokens with a fraction or an exponent the JSON writer leaves bare: those
    whose value stays below the limit binary64 ends at. */
module JsonFractions {
  import opened Wire
  import opened Text
  import opened Json

  /** The digits of `s` alone. */
  function Strip(s: string): (d: string)
    ensures AllDigits(d)
  {
    if s == "" then "" else Strip(s[..|s| - 1]) + (if IsDigit(s[|s| - 1]) then [s[|s| - 1]] else "")
  }

  lemma {:induction false} StripTellsValue(s: string)
    ensures DigitsIn(s) == NatOf(Strip(s))
    decreases |s|
  {
    if s != "" {
      var front := s[..|s| - 1];
      StripTellsValue(front);
      if IsDigit(s[|s| - 1]) {
        assert Strip(s)[..|Strip(s)| - 1] == Strip(front);
      } else {
        assert Strip(s) == Strip(front);
      }
    }
  }

  lemma {:induction false} StripJoins(a: string, b: string)
    ensures Strip(a + b) == Strip(a) + Strip(b)
    decreases |b|
  {
    if b == "" {
      assert a + b == a;
    } else {
      StripJoins(a, b[..|b| - 1]);
      assert (a + b)[..|a + b| - 1] == a + b[..|b| - 1];
    }
  }

  lemma {:induction false} StripKeepsDigits(d: string)
    requires AllDigits(d)
    ensures Strip(d) == d
    decreases |d|
  {
    if d != "" {
      StripKeepsDigits(d[..|d| - 1]);
    }
  }

  lemma {:induction false} DigitsDropped(d: string, rest: string)
    requires AllDigits(d) && (rest == "" || !IsDigit(rest[0]))
    ensures DropDigits(d + rest) == rest
    decreases |d|
  {
    if d == "" {
      assert d + rest == rest;
    } else {
      assert (d + rest)[1..] == d[1..] + rest;
      DigitsDropped(d[1..], rest);
    }
  }

  /** The parts of a number token, `places` and `exponent` being digits or nothing. */
  datatype Token = Token(negative: bool, whole: string, places: string, down: bool, exponent: string)

  predicate IsToken(k: Token) {
    && AllDigits(k.whole) && AllDigits(k.places) && AllDigits(k.exponent)
    && k.whole != "" && (k.whole[0] == '0' ==> k.whole == "0")
  }

  function Point(k: Token): (s: string) {
    if k.places == "" then "" else "." + k.places
  }

  function Mark(k: Token): (s: string) {
    if k.exponent == "" then "" else (if k.down then "e-" else "e") + k.exponent
  }

  function TokenText(k: Token): (s: string) {
    (if k.negative then "-" else "") + (k.whole + (Point(k) + Mark(k)))
  }

  /** `digits` shifted by `scale` decimal places is below the limit. */
  predicate IsBelow(digits: nat, scale: int) {
    if scale >= 0 then digits * Pow10(scale) < RoundsToInfinity()
    else digits < RoundsToInfinity() * Pow10(-scale)
  }

  lemma MarkIsRead(k: Token)
    requires IsToken(k)
    ensures AfterExponent(Mark(k)) == Some("") && AfterFraction(Mark(k)) == Some(Mark(k))
    ensures |Mark(k)| > 1 && Mark(k)[1] == '-' <==> k.exponent != "" && k.down
  {
    hide DropDigits;
    var m := Mark(k);
    if m != "" {
      var front := if k.down then "e-" else "e";
      assert m[|front|..] == k.exponent;
      DigitsDropped(k.exponent, "");
      assert k.exponent + "" == k.exponent;
    }
  }

  lemma MarkDigits(k: Token)
    requires IsToken(k)
    ensures DigitsIn(Mark(k)) == NatOf(k.exponent)
  {
    hide DigitsIn, NatOf, Strip;
    StripTellsValue(Mark(k));
    if k.exponent != "" {
      StripJoins(if k.down then "e-" else "e", k.exponent);
      StripKeepsDigits(k.exponent);
      MarksHaveNoDigits();
      assert "" + k.exponent == k.exponent;
    } else {
      MarksHaveNoDigits();
    }
  }

  lemma MarksHaveNoDigits()
    ensures Strip("") == "" && Strip("e") == "" && Strip("e-") == ""
  {
    assert "e-"[..1] == "e" && "e"[..0] == "";
  }

  lemma PointIsRead(k: Token)
    requires IsToken(k)
    ensures AfterFraction(Point(k) + Mark(k)) == Some(Mark(k))
    ensures Strip(Point(k)) == k.places
  {
    hide AfterExponent, DropDigits, Strip;
    MarkIsRead(k);
    PointDigits(k.places);
    var s := Point(k) + Mark(k);
    if k.places == "" {
      assert s == Mark(k);
    } else {
      assert s[1..] == k.places + Mark(k);
      DigitsDropped(k.places, Mark(k));
    }
  }

  lemma PointDigits(places: string)
    requires AllDigits(places)
    ensures Strip("") == "" && Strip("." + places) == places
  {
    StripJoins(".", places);
    StripKeepsDigits(places);
    assert "."[..0] == "" && Strip(".") == "";
  }

  lemma WholeIsRead(k: Token)
    requires IsToken(k)
    ensures AfterInteger(TokenText(k)) == Some(Point(k) + Mark(k))
  {
    var rest := Point(k) + Mark(k);
    var d := k.whole + rest;
    var token := TokenText(k);
    assert k.negative ==> token[1..] == d;
    assert !k.negative ==> token == d;
    if k.whole[0] == '0' {
      assert d[1..] == rest;
    } else {
      DigitsDropped(k.whole, rest);
    }
  }

  lemma DigitsOfToken(k: Token)
    requires IsToken(k)
    ensures var token := TokenText(k);
            && |Mark(k)| <= |token|
            && DigitsIn(token[..|token| - |Mark(k)|]) == NatOf(k.whole + k.places)
  {
    var sign := if k.negative then "-" else "";
    var token := TokenText(k);
    var front := sign + (k.whole + Point(k));
    assert token == front + Mark(k);
    assert token[..|token| - |Mark(k)|] == front;
    PointIsRead(k);
    StripTellsValue(front);
    StripJoins(sign, k.whole + Point(k));
    StripJoins(k.whole, Point(k));
    StripKeepsDigits(k.whole);
    assert "-"[..0] == "" && Strip(sign) == "";
    assert "" + (k.whole + k.places) == k.whole + k.places;
  }

  /** A number token fits exactly when its digits, shifted by its exponent less its
      decimal places, stay below the limit binary64 ends at. */
  lemma FitsExactly(k: Token)
    requires IsToken(k)
    ensures FitsBinary64(TokenText(k))
       <==> IsBelow(NatOf(k.whole + k.places),
                    (if k.down then 0 - NatOf(k.exponent) else NatOf(k.exponent)) - |k.places|)
  {
    hide Pow10, RoundsToInfinity, DigitsIn, AfterInteger, AfterFraction, AfterExponent, TokenText,
         Mark, NatOf;
    WholeIsRead(k);
    PointIsRead(k);
    MarkIsRead(k);
    MarkDigits(k);
    DigitsOfToken(k);
    PartLengths(k);
    NothingIsZero();
  }

  lemma PartLengths(k: Token)
    ensures |Point(k) + Mark(k)| - |Mark(k)| == if k.places == "" then 0 else 1 + |k.places|
  {
  }

  lemma NothingIsZero()
    ensures NatOf("") == 0
  {
  }
}
