/** The float literals of diagnostic notation: the ones the number reader takes are
    those of a grammar of signs, digits, points and exponents. */
module DiagnosticFloats {
  import opened Text
  import opened Diagnostic
  import opened DiagnosticRoundTrip

  /** The parts of a float literal: what stands before the point, behind it, and in the
      exponent, whose mark may have a sign. */
  datatype Literal = Literal(negative: bool, whole: string, places: string, mark: string, exponent: string)

  /** There are digits before the exponent and, behind a mark, in it; a literal without
      digits before its point is negative. */
  predicate IsLiteral(k: Literal) {
    && AllDigits(k.whole) && AllDigits(k.places) && AllDigits(k.exponent)
    && k.mark in {"", "e", "E", "e+", "E+", "e-", "E-"}
    && (k.whole != "" || (k.negative && k.places != ""))
    && (k.mark == "" <==> k.exponent == "")
    && (k.places != "" || k.mark != "")
  }

  function Minus(k: Literal): (s: string) {
    if k.negative then "-" else ""
  }

  function Point(k: Literal): (s: string) {
    if k.places == "" then "" else "." + k.places
  }

  function Tail(k: Literal): (s: string) {
    k.mark + k.exponent
  }

  function LiteralText(k: Literal): (s: string) {
    Minus(k) + (k.whole + (Point(k) + Tail(k)))
  }

  lemma {:induction false} DigitsAreTaken(d: string, rest: string)
    requires AllDigits(d) && (rest == "" || !IsDigit(rest[0]))
    ensures TakeDigits(d + rest) == d
    decreases |d|
  {
    if d == "" {
      assert d + rest == rest;
    } else {
      assert (d + rest)[1..] == d[1..] + rest;
      assert forall k | 0 <= k < |d[1..]| :: d[1..][k] == d[k + 1];
      DigitsAreTaken(d[1..], rest);
      assert [d[0]] + d[1..] == d;
    }
  }

  lemma TailIsRead(k: Literal)
    requires IsLiteral(k)
    ensures ExponentLength(Tail(k)) == |Tail(k)| && FractionLength(Tail(k)) == 0
    ensures Tail(k) == "" || Tail(k)[0] in {'e', 'E'}
    ensures Tail(k) != "" ==> IsDigit(Tail(k)[|Tail(k)| - 1])
  {
    if k.mark != "" {
      DigitsAreTaken(k.exponent, "");
      assert k.exponent + "" == k.exponent;
      assert Tail(k)[|k.mark|..] == k.exponent;
    }
  }

  lemma PointIsRead(k: Literal)
    requires IsLiteral(k)
    ensures FractionLength(Point(k) + Tail(k)) == |Point(k)|
    ensures Point(k) + Tail(k) == "" || !IsDigit((Point(k) + Tail(k))[0])
  {
    hide ExponentLength;
    TailIsRead(k);
    if k.places == "" {
      assert Point(k) + Tail(k) == Tail(k);
    } else {
      var s := Point(k) + Tail(k);
      assert s[1..] == k.places + Tail(k);
      DigitsAreTaken(k.places, Tail(k));
    }
  }

  lemma FourParts(a: string, b: string, c: string, d: string)
    ensures var s := a + (b + (c + d));
            && s[|a|..] == b + (c + d) && s[|a| + |b|..] == c + d && s[|a| + |b| + |c|..] == d
            && |s| == |a| + |b| + |c| + |d| && (d != "" ==> s[|s| - 1] == d[|d| - 1])
  {
  }

  lemma PartsOfText(a: string, b: string, c: string, d: string)
    requires (a == "" && b != "") || a == "-"
    requires AllDigits(b) && (c + d == "" || !IsDigit((c + d)[0]))
    requires FractionLength(c + d) == |c| && ExponentLength(d) == |d|
    ensures var s := a + (b + (c + d));
            && PartsOf(s) == Parts(|a| + |b|, |c|, |d|) && Sign(s) == |a|
            && s != "" && (s[0] == '-' || IsDigit(s[0]))
  {
    hide *;
    var rest := c + d;
    assert rest[|c|..] == d;
    FirstIs(a, b, rest);
    DigitsAreTaken(b, rest);
    TwoParts(a, b, rest);
    PartsAre(a + (b + rest), |a|, |b|);
    DropTwice(a + (b + rest), |a| + |b|, |c|);
  }

  lemma TwoParts(a: string, b: string, rest: string)
    ensures var s := a + (b + rest); s[|a|..] == b + rest && s[|a| + |b|..] == rest
  {
  }

  lemma DropTwice(s: string, i: nat, j: nat)
    requires i + j <= |s|
    ensures s[i..][j..] == s[i + j..]
  {
  }

  lemma FirstIs(a: string, b: string, rest: string)
    requires AllDigits(b) && ((a == "" && b != "") || a == "-")
    ensures var s := a + (b + rest); Sign(s) == |a| && s != "" && (s[0] == '-' || IsDigit(s[0]))
  {
    if a == "" {
      assert (a + (b + rest))[0] == b[0];
    }
  }

  lemma PartsAre(s: string, sign: nat, digits: nat)
    requires Sign(s) == sign && |TakeDigits(s[sign..])| == digits
    ensures var w := sign + digits;
            && w <= |s|
            && var f := FractionLength(s[w..]);
            w + f <= |s| && PartsOf(s) == Parts(w, f, ExponentLength(s[w + f..]))
  {
    hide FractionLength, ExponentLength, TakeDigits;
  }

  lemma TextIsFloat(a: string, b: string, c: string, d: string)
    requires (a == "" && b != "") || a == "-"
    requires AllDigits(b) && (c + d == "" || !IsDigit((c + d)[0]))
    requires FractionLength(c + d) == |c| && ExponentLength(d) == |d|
    requires |c| + |d| > 0 && (b == "" ==> c != "") && (d != "" ==> IsDigit(d[|d| - 1]))
    ensures FloatLiteral(a + (b + (c + d)))
  {
    hide PartsOf, Sign, FractionLength, ExponentLength, AllDigits;
    PartsOfText(a, b, c, d);
    FourParts(a, b, c, d);
  }

  lemma LiteralIsTaken(k: Literal)
    requires IsLiteral(k)
    ensures FloatLiteral(LiteralText(k))
  {
    hide *;
    MinusIs(k);
    TailIsRead(k);
    PointIsRead(k);
    TextIsFloat(Minus(k), k.whole, Point(k), Tail(k));
    TextIs(k);
  }

  lemma MinusIs(k: Literal)
    requires IsLiteral(k)
    ensures Minus(k) == if k.negative then "-" else ""
    ensures AllDigits(k.whole) && (k.whole == "" ==> k.negative)
    ensures |Point(k)| + |Tail(k)| > 0 && (k.whole == "" ==> Point(k) != "")
  {
  }

  lemma TextIs(k: Literal)
    ensures LiteralText(k) == Minus(k) + (k.whole + (Point(k) + Tail(k)))
  {
  }

  /** The parts the reader finds. */
  function LiteralOf(s: string): (k: Literal) {
    var p := PartsOf(s);
    var tail := s[p.whole + p.fraction..];
    var marked := if |tail| >= 2 && tail[1] in {'+', '-'} then 2 else 1;
    Literal(Sign(s) == 1, s[Sign(s)..p.whole], if p.fraction == 0 then "" else s[p.whole + 1..p.whole + p.fraction],
            if p.exponent == 0 then "" else tail[..marked], if p.exponent == 0 then "" else tail[marked..])
  }

  lemma TakenIsLiteral(s: string)
    requires FloatLiteral(s) && s !in {"NaN", "Infinity", "-Infinity"}
    ensures IsLiteral(LiteralOf(s))
  {
    hide LiteralOf, PartsOf, Sign, FractionLength, ExponentLength, AllDigits;
    SignText(s);
    WholeOf(s);
    PlacesOf(s);
    MarkOf(s);
  }

  lemma WholeOf(s: string)
    requires FloatLiteral(s) && s !in {"NaN", "Infinity", "-Infinity"}
    ensures var k := LiteralOf(s);
            && AllDigits(k.whole) && (k.whole == "" ==> k.negative && PartsOf(s).fraction > 0)
            && PartsOf(s).fraction + PartsOf(s).exponent > 0
  {
    hide PartsOf, FractionLength, ExponentLength;
    WholeParts(s);
  }

  lemma PlacesOf(s: string)
    ensures var k := LiteralOf(s); AllDigits(k.places) && (k.places == "" <==> PartsOf(s).fraction == 0)
  {
    hide PartsOf, FractionLength, ExponentLength;
    var p := PartsOf(s);
    WholeParts(s);
    FractionParts(s[p.whole..]);
    if p.fraction > 0 {
      assert s[p.whole..][1..p.fraction] == s[p.whole + 1..p.whole + p.fraction];
    }
  }

  lemma MarkOf(s: string)
    requires FloatLiteral(s) && s !in {"NaN", "Infinity", "-Infinity"}
    ensures var k := LiteralOf(s);
            && k.mark in {"", "e", "E", "e+", "E+", "e-", "E-"} && AllDigits(k.exponent)
            && (k.mark == "" <==> k.exponent == "") && (k.mark == "" <==> PartsOf(s).exponent == 0)
  {
    hide PartsOf, FractionLength, ExponentLength;
    var p := PartsOf(s);
    WholeParts(s);
    if p.exponent > 0 {
      ExponentParts(s[p.whole + p.fraction..]);
    }
  }

  lemma TakenText(s: string)
    requires FloatLiteral(s) && s !in {"NaN", "Infinity", "-Infinity"}
    ensures LiteralText(LiteralOf(s)) == s
  {
    hide *;
    var p := PartsOf(s);
    WholeIsTaken(s);
    TailText(s);
    PointText(s);
    SignText(s);
    Reassembled(s, Sign(s), p.whole, p.whole + p.fraction);
    TextIs(LiteralOf(s));
  }

  lemma SignText(s: string)
    ensures Sign(s) <= PartsOf(s).whole
    ensures Minus(LiteralOf(s)) == s[..Sign(s)] && LiteralOf(s).whole == s[Sign(s)..PartsOf(s).whole]
  {
    hide PartsOf;
    assert Sign(s) == 1 ==> s[..1] == "-";
  }

  lemma WholeIsTaken(s: string)
    requires FloatLiteral(s) && s !in {"NaN", "Infinity", "-Infinity"}
    ensures PartsOf(s).whole + PartsOf(s).fraction + PartsOf(s).exponent == |s|
  {
  }

  lemma TailText(s: string)
    requires PartsOf(s).whole + PartsOf(s).fraction + PartsOf(s).exponent == |s|
    ensures Tail(LiteralOf(s)) == s[PartsOf(s).whole + PartsOf(s).fraction..]
  {
    hide PartsOf;
    WholeParts(s);
    var p := PartsOf(s);
    var tail := s[p.whole + p.fraction..];
    if p.exponent > 0 {
      var marked := if |tail| >= 2 && tail[1] in {'+', '-'} then 2 else 1;
      assert tail == tail[..marked] + tail[marked..];
    }
  }

  lemma PointText(s: string)
    ensures Point(LiteralOf(s)) == s[PartsOf(s).whole..PartsOf(s).whole + PartsOf(s).fraction]
  {
    hide PartsOf, FractionLength, ExponentLength;
    WholeParts(s);
    var p := PartsOf(s);
    FractionParts(s[p.whole..]);
    if p.fraction > 0 {
      assert s[p.whole..][..p.fraction] == s[p.whole..p.whole + p.fraction];
      assert s[p.whole..][1..p.fraction] == s[p.whole + 1..p.whole + p.fraction];
    }
  }

  lemma WholeParts(s: string)
    ensures var p := PartsOf(s);
            && p.whole >= Sign(s) && AllDigits(s[Sign(s)..p.whole])
            && p.fraction == FractionLength(s[p.whole..])
            && p.exponent == ExponentLength(s[p.whole + p.fraction..])
            && (s != "" && IsDigit(s[0]) ==> p.whole > Sign(s))
  {
    hide FractionLength, ExponentLength;
    assert s[Sign(s)..PartsOf(s).whole] == TakeDigits(s[Sign(s)..]);
    assert s[0..] == s;
  }

  lemma FractionParts(s: string)
    ensures var n := FractionLength(s);
            n > 0 ==> n >= 2 && s[0] == '.' && AllDigits(s[1..n]) && s[..n] == "." + s[1..n]
  {
    if FractionLength(s) > 0 {
      assert s[1..FractionLength(s)] == TakeDigits(s[1..]);
    }
  }

  lemma Reassembled(s: string, a: nat, b: nat, c: nat)
    requires a <= b <= c <= |s|
    ensures s == s[..a] + (s[a..b] + (s[b..c] + s[c..]))
  {
  }

  lemma ExponentParts(tail: string)
    requires tail != "" && ExponentLength(tail) == |tail| && IsDigit(tail[|tail| - 1])
    ensures var marked := if |tail| >= 2 && tail[1] in {'+', '-'} then 2 else 1;
            && marked < |tail| && tail[..marked] in {"e", "E", "e+", "E+", "e-", "E-"} && AllDigits(tail[marked..])
  {
    var marked := if |tail| >= 2 && tail[1] in {'+', '-'} then 2 else 1;
    assert tail[..marked] == if marked == 1 then [tail[0]] else [tail[0], tail[1]];
    assert TakeDigits(tail[marked..]) == tail[marked..];
  }

  /** The float literals are exactly the texts of the grammar and the three names. */
  lemma FloatsExactly(s: string)
    ensures FloatLiteral(s)
       <==> s in {"NaN", "Infinity", "-Infinity"} || exists k :: IsLiteral(k) && LiteralText(k) == s
  {
    hide FloatLiteral, IsLiteral, LiteralText, LiteralOf;
    if FloatLiteral(s) && s !in {"NaN", "Infinity", "-Infinity"} {
      TakenIsLiteral(s);
      TakenText(s);
    }
    forall k | IsLiteral(k) ensures FloatLiteral(LiteralText(k)) {
      LiteralIsTaken(k);
    }
    if s in {"NaN", "Infinity", "-Infinity"} {
      NamesAreLiterals(s);
    }
  }

  lemma NamesAreLiterals(s: string)
    requires s in {"NaN", "Infinity", "-Infinity"}
    ensures FloatLiteral(s)
  {
  }
}
