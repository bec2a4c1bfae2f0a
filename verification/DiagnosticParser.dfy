/** The reader of diagnostic notation as it runs: a cursor that only moves forward
    through the text. */
module DiagnosticParser {
  import opened Wire
  import opened Text
  import opened Diagnostic
  import Json

  class Parser {
    const text: string
    var pos: nat

    constructor (text: string)
      ensures this.text == text && pos == 0
    {
      this.text, pos := text, 0;
    }

    /** What is left to read. */
    function Rest(): (s: string)
      reads this
      requires pos <= |text|
    {
      text[pos..]
    }

    /** The cursor stands where the reading `spec` left it, with its item. */
    ghost predicate Reached(r: Option<Item>, spec: Option<(Item, string)>)
      reads this
    {
      pos <= |text| && match spec
                       case None => r.None?
                       case Some((item, rest)) => r == Some(item) && Rest() == rest
    }

    method SkipWs()
      requires pos <= |text|
      modifies this
      ensures old(pos) <= pos <= |text| && Rest() == SkipSpace(old(Rest()))
    {
      while pos < |text| && Json.IsSpace(text[pos])
        invariant old(pos) <= pos <= |text|
        invariant Json.SkipSpace(Rest()) == Json.SkipSpace(old(Rest()))
      {
        assert text[pos..][1..] == text[pos + 1..];
        pos := pos + 1;
      }
    }

    method EatChar(c: char) returns (ok: bool)
      requires pos <= |text|
      modifies this
      ensures old(pos) <= pos <= |text|
      ensures ok == Eat(old(Rest()), c).Some?
      ensures ok ==> Rest() == Eat(old(Rest()), c).value && pos > old(pos)
    {
      SkipWs();
      ok := pos < |text| && text[pos] == c;
      if ok {
        assert text[pos..][1..] == text[pos + 1..];
        pos := pos + 1;
      }
    }

    method EatLiteral(literal: string) returns (ok: bool)
      requires pos <= |text|
      modifies this
      ensures pos <= |text|
      ensures ok == (literal <= old(Rest()))
      ensures if ok then pos == old(pos) + |literal| && Rest() == old(Rest())[|literal|..] else pos == old(pos)
    {
      ok := literal <= text[pos..];
      if ok {
        pos := pos + |literal|;
      }
    }

    method SkipDigits()
      requires pos <= |text|
      modifies this
      ensures pos == old(pos) + |TakeDigits(old(Rest()))| <= |text|
    {
      while pos < |text| && IsDigit(text[pos])
        invariant old(pos) <= pos <= |text|
        invariant old(pos) + |TakeDigits(old(Rest()))| == pos + |TakeDigits(Rest())|
      {
        assert text[pos..][1..] == text[pos + 1..];
        pos := pos + 1;
      }
    }

    /** Everything before the next `c`, which is consumed too. */
    method ReadBefore(c: char) returns (s: Option<string>)
      requires pos <= |text|
      modifies this
      ensures old(pos) <= pos <= |text| && s == Before(old(Rest()), c)
      ensures s.Some? ==> pos == old(pos) + |s.value| + 1
    {
      ghost var all := Rest();
      var start := pos;
      while pos < |text| && text[pos] != c
        invariant start <= pos <= |text|
        invariant Before(all, c).Some? == Before(Rest(), c).Some?
        invariant Before(all, c).Some? ==> |Before(all, c).value| == pos - start + |Before(Rest(), c).value|
      {
        assert text[pos..][1..] == text[pos + 1..];
        pos := pos + 1;
      }
      if pos == |text| {
        return None;
      }
      assert all[..pos - start] == text[start..pos];
      s := Some(text[start..pos]);
      pos := pos + 1;
    }

    /** A quoted text, from inside its quotes. */
    method ParseText() returns (r: Option<Item>)
      requires pos <= |text|
      modifies this
      ensures Reached(r, ReadText(old(Rest()), ""))
    {
      ghost var all := Rest();
      var out := "";
      while true
        invariant pos <= |text| && ReadText(all, "") == ReadText(Rest(), out)
        decreases |text| - pos
      {
        if pos == |text| {
          return None;
        }
        var c := text[pos];
        assert text[pos..][1..] == text[pos + 1..];
        pos := pos + 1;
        if c == '"' {
          return Some(Text(out));
        }
        if c == '\\' {
          var escaped := ParseEscape();
          if escaped.None? {
            return None;
          }
          out := out + escaped.value;
        } else {
          out := out + [c];
        }
      }
    }

    method ParseEscape() returns (r: Option<string>)
      requires pos <= |text|
      modifies this
      ensures old(pos) <= pos <= |text|
      ensures match ReadEscape(old(Rest()))
              case None => r.None?
              case Some((c, rest)) => r == Some(c) && Rest() == rest
    {
      if pos == |text| {
        return None;
      }
      ghost var all := Rest();
      var c := text[pos];
      assert text[pos..][1..] == text[pos + 1..];
      pos := pos + 1;
      match c
      case '"' => return Some("\"");
      case '\\' => return Some("\\");
      case '\'' => return Some("'");
      case 'n' => return Some("\n");
      case 't' => return Some("\t");
      case 'r' => return Some("\r");
      case '0' => return Some("\0");
      case 'u' =>
        var brace := EatChar('{');
        if !brace {
          return None;
        }
        ghost var inside := Rest();
        ghost var at := pos;
        var digits := ReadBefore('}');
        if digits.None? || CodePoint(digits.value).None? {
          return None;
        }
        assert text[at..][|digits.value| + 1..] == text[at + |digits.value| + 1..];
        return Some([CodePoint(digits.value).value]);
      case _ =>
        return Some(['\\', c]);
    }

    /** An item that starts with a letter. */
    method ParseWord() returns (r: Option<Item>)
      requires pos <= |text|
      modifies this
      ensures Reached(r, ReadWord(old(Rest())))
    {
      hide TakeDigits, Before, UnHex, SkipSpace, Eat;
      ghost var t := Rest();
      var ok := EatLiteral("h'");
      if ok {
        var hex := ReadBefore('\'');
        if hex.None? || UnHex(hex.value).None? {
          return None;
        }
        return Some(Bytes(UnHex(hex.value).value));
      }
      ok := EatLiteral("simple(");
      if ok {
        r := ParseSimple();
        return;
      }
      ok := EatLiteral("true");
      if ok {
        return Some(Bool(true));
      }
      ok := EatLiteral("false");
      if ok {
        return Some(Bool(false));
      }
      ok := EatLiteral("null");
      if ok {
        return Some(Null);
      }
      ok := EatLiteral("undefined");
      if ok {
        return Some(Null);
      }
      ok := EatLiteral("NaN");
      if ok {
        return Some(Float("NaN"));
      }
      ok := EatLiteral("Infinity");
      if ok {
        return Some(Float("Infinity"));
      }
      return None;
    }

    /** The number of a simple value and its closing parenthesis. */
    method ParseSimple() returns (r: Option<Item>)
      requires pos <= |text|
      modifies this
      ensures pos <= |text|
      ensures var u := SkipSpace(old(Rest()));
              var d := TakeDigits(u);
              var rest := Eat(u[|d|..], ')');
              if rest.Some? && Unsigned(d, 255).Some?
                then r == Some(Simple(Unsigned(d, 255).value)) && Rest() == rest.value
              else r.None?
    {
      hide TakeDigits, SkipSpace, Eat, Unsigned;
      SkipWs();
      var start := pos;
      ghost var u := Rest();
      SkipDigits();
      var digits := text[start..pos];
      assert digits == TakeDigits(u) && Rest() == u[|digits|..];
      var closed := EatChar(')');
      if !closed || Unsigned(digits, 255).None? {
        return None;
      }
      return Some(Simple(Unsigned(digits, 255).value));
    }

    method SkipFraction()
      requires pos <= |text|
      modifies this
      ensures pos == old(pos) + FractionLength(old(Rest())) <= |text|
    {
      hide TakeDigits;
      if pos + 1 < |text| && text[pos] == '.' && IsDigit(text[pos + 1]) {
        assert text[pos + 1..] == text[pos..][1..];
        pos := pos + 1;
        SkipDigits();
      }
    }

    method SkipExponent()
      requires pos <= |text|
      modifies this
      ensures pos == old(pos) + ExponentLength(old(Rest())) <= |text|
    {
      hide TakeDigits;
      ghost var s, start := Rest(), pos;
      if pos < |text| && (text[pos] == 'e' || text[pos] == 'E') {
        pos := pos + 1;
        if pos < |text| && (text[pos] == '+' || text[pos] == '-') {
          assert s[1] == text[pos];
          pos := pos + 1;
        }
        assert Rest() == s[pos - start..];
        SkipDigits();
      }
    }

    /** Past a sign and the digits after it. */
    method SkipWhole()
      requires pos <= |text|
      modifies this
      ensures pos == old(pos) + WholeLength(old(Rest())) <= |text|
    {
      hide TakeDigits;
      if pos < |text| && text[pos] == '-' {
        Onward(text, pos, 1);
        pos := pos + 1;
      } else {
        Onward(text, pos, 0);
      }
      SkipDigits();
    }

    /** Past a number's sign, digits, fraction and exponent. */
    method SkipNumber() returns (parts: Parts)
      requires pos <= |text|
      modifies this
      ensures parts == PartsOf(old(Rest()))
      ensures pos == old(pos) + parts.whole + parts.fraction + parts.exponent <= |text|
    {
      hide WholeLength, FractionLength, ExponentLength, PartsOf;
      var start := pos;
      ghost var s := Rest();
      SkipWhole();
      var whole := pos - start;
      Onward(text, start, whole);
      SkipFraction();
      var fraction := pos - start - whole;
      Onward(text, start, whole + fraction);
      SkipExponent();
      parts := Parts(whole, fraction, pos - start - whole - fraction);
      PartsInTurn(s);
    }

    /** The item a tag's number stands before, from just inside the parenthesis. */
    method ParseTag(n: int, depth: nat) returns (r: Option<Item>)
      requires pos <= |text|
      modifies this
      ensures Reached(r, ReadTag(n, old(Rest()), depth))
      decreases |text| - pos, 3
    {
      hide ReadItem, Eat;
      var elided := EatLiteral(ELISION);
      if elided {
        return None;
      }
      var inner := ParseItem(depth + 1);
      if inner.None? {
        return None;
      }
      var closed := EatChar(')');
      if !closed || !(0 <= n <= U64_MAX) {
        return None;
      }
      return Some(Tag(n, inner.value));
    }

    method ParseItem(depth: nat) returns (r: Option<Item>)
      requires pos <= |text|
      modifies this
      ensures Reached(r, ReadItem(old(Rest()), depth))
      decreases |text| - pos, 2
    {
      hide ReadItems, ReadEntries, ReadText, ReadNumber, ReadWord, SkipSpace;
      if depth > MAX_DEPTH {
        return None;
      }
      SkipWs();
      if pos == |text| {
        return None;
      }
      ghost var t := Rest();
      assert t[1..] == text[pos + 1..];
      match text[pos]
      case '[' =>
        pos := pos + 1;
        SkipWs();
        if pos == |text| {
          return None;
        }
        if text[pos] == ']' {
          assert text[pos..][1..] == text[pos + 1..];
          pos := pos + 1;
          return Some(Array([]));
        }
        r := ParseItems(depth);
      case '{' =>
        pos := pos + 1;
        SkipWs();
        if pos == |text| {
          return None;
        }
        if text[pos] == '}' {
          assert text[pos..][1..] == text[pos + 1..];
          pos := pos + 1;
          return Some(Map([]));
        }
        r := ParseEntries(depth);
      case '"' =>
        pos := pos + 1;
        r := ParseText();
      case c =>
        if c == '-' || IsDigit(c) {
          var infinite := EatLiteral("-Infinity");
          if infinite {
            return Some(Float("-Infinity"));
          }
          r := ParseNumber(depth);
        } else {
          r := ParseWord();
        }
    }

    method ParseItems(depth: nat) returns (r: Option<Item>)
      requires pos <= |text|
      modifies this
      ensures Reached(r, ReadItems(old(Rest()), depth, []))
      decreases |text| - pos, 3
    {
      hide ReadItem, SkipSpace;
      ghost var all := Rest();
      var items: seq<Item> := [];
      while true
        invariant old(pos) <= pos <= |text| && ReadItems(all, depth, []) == ReadItems(Rest(), depth, items)
        decreases |text| - pos
      {
        SkipWs();
        var elided := EatLiteral(ELISION);
        if elided {
          return None;
        }
        var item := ParseItem(depth + 1);
        if item.None? {
          return None;
        }
        SkipWs();
        if pos == |text| {
          return None;
        }
        items := items + [item.value];
        assert text[pos..][1..] == text[pos + 1..];
        match text[pos]
        case ',' =>
          pos := pos + 1;
        case ']' =>
          pos := pos + 1;
          return Some(Array(items));
        case _ =>
          return None;
      }
    }

    method ParseEntries(depth: nat) returns (r: Option<Item>)
      requires pos <= |text|
      modifies this
      ensures Reached(r, ReadEntries(old(Rest()), depth, []))
      decreases |text| - pos, 3
    {
      hide ReadItem, SkipSpace, Eat;
      ghost var all := Rest();
      var entries: seq<Pair> := [];
      while true
        invariant old(pos) <= pos <= |text| && ReadEntries(all, depth, []) == ReadEntries(Rest(), depth, entries)
        decreases |text| - pos
      {
        SkipWs();
        var elided := EatLiteral(ELISION);
        if elided {
          return None;
        }
        var key := ParseItem(depth + 1);
        if key.None? {
          return None;
        }
        var colon := EatChar(':');
        if !colon {
          return None;
        }
        var value := ParseItem(depth + 1);
        if value.None? {
          return None;
        }
        SkipWs();
        if pos == |text| {
          return None;
        }
        entries := entries + [Pair(key.value, value.value)];
        assert text[pos..][1..] == text[pos + 1..];
        match text[pos]
        case ',' =>
          pos := pos + 1;
        case '}' =>
          pos := pos + 1;
          return Some(Map(entries));
        case _ =>
          return None;
      }
    }

    /** A float, an integer, or the tag an integer before a parenthesis is. */
    method ParseNumber(depth: nat) returns (r: Option<Item>)
      requires pos < |text| && (text[pos] == '-' || IsDigit(text[pos]))
      modifies this
      ensures Reached(r, ReadNumber(old(Rest()), depth))
      decreases |text| - pos, 1
    {
      hide PartsOf, ReadTag, SkipSpace, ReadInt;
      ghost var t := Rest();
      var start := pos;
      var parts := SkipNumber();
      var literal := text[start..pos];
      assert literal == t[..|literal|] && Rest() == t[|literal|..];
      if parts.fraction + parts.exponent > 0 {
        return if IsFloatText(literal, parts) then Some(Float(literal)) else None;
      }
      var n := ReadInt(literal);
      if n.None? {
        return None;
      }
      if pos < |text| && text[pos] == '(' {
        assert text[pos..][1..] == text[pos + 1..];
        pos := pos + 1;
        SkipWs();
        r := ParseTag(n.value, depth);
        return;
      }
      return Some(Int(n.value));
    }
  }

  function WholeLength(s: string): (n: nat)
    ensures n <= |s|
  {
    Sign(s) + |TakeDigits(s[Sign(s)..])|
  }

  lemma PartsInTurn(s: string)
    ensures var p := PartsOf(s);
            && p.whole == WholeLength(s)
            && p.fraction == FractionLength(s[p.whole..])
            && p.exponent == ExponentLength(s[p.whole + p.fraction..])
  {
    hide TakeDigits, FractionLength, ExponentLength;
  }

  lemma Onward(s: string, at: nat, n: nat)
    requires at + n <= |s|
    ensures s[at..][n..] == s[at + n..]
  {
  }

  /** A float literal given with its parts. */
  predicate IsFloatText(s: string, p: Parts)
    requires p.whole + p.fraction + p.exponent == |s|
  {
    && (p.whole > Sign(s) || p.fraction > 0)
    && (p.exponent > 0 ==> IsDigit(s[|s| - 1]))
  }

  /** The entry point: the composite item the whole text denotes. */
  method Parse(text: string) returns (r: Option<Item>)
    ensures r == ParseComposite(text)
  {
    hide ReadItem, SkipSpace, StartsComposite;
    var parser := new Parser(text);
    assert text[0..] == text;
    parser.SkipWs();
    if !StartsComposite(parser.Rest()) {
      return None;
    }
    ghost var t := parser.Rest();
    TrimmedTwice(text);
    var item := parser.ParseItem(0);
    if item.None? {
      return None;
    }
    parser.SkipWs();
    if parser.pos != |text| {
      return None;
    }
    return item;
  }

  lemma TrimmedTwice(s: string)
    ensures SkipSpace(SkipSpace(s)) == SkipSpace(s)
  {
    Trimmed(s);
  }

  lemma {:induction false} Trimmed(s: string)
    ensures Json.SkipSpace(Json.SkipSpace(s)) == Json.SkipSpace(s)
  {
    if s != "" && Json.IsSpace(s[0]) {
      Trimmed(s[1..]);
    }
  }
}
