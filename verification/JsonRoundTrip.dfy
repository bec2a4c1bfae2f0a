/** What the recursive writer of JSON text writes, a JSON reader reads back. */
module JsonRoundTrip {
  import opened Wire
  import opened Text
  import opened Json

  /** Whatever may follow a value in JSON text ends a number. */
  predicate Ends(rest: string) {
    rest == "" || (!IsNumberChar(rest[0]) && !IsDigit(rest[0]))
  }

  // ---------------------------------------------------------------------
  // Strings
  // ---------------------------------------------------------------------

  lemma ReadSimpleEscape(c: char, x: string)
    requires c == '\"' || c == '\\' || c as int in {8, 12, 10, 13, 9}
    ensures EscapeChar(c)[0] == '\\' && ReadEscape((EscapeChar(c) + x)[1..]) == Some((c, x))
  {
    var e := EscapeChar(c);
    assert (e + x)[1..] == [e[1]] + x;
    assert ([e[1]] + x)[1..] == x;
  }

  lemma ReadHexEscape(c: char, x: string)
    requires c < ' ' && c as int !in {8, 12, 10, 13, 9}
    ensures EscapeChar(c)[0] == '\\' && ReadEscape((EscapeChar(c) + x)[1..]) == Some((c, x))
  {
    var e := EscapeChar(c);
    assert e == "\\u00" + [HexChar(c as int / 16), HexChar(c as int % 16)];
    var t := (e + x)[1..];
    assert t == e[1..] + x;
    assert t[0] == 'u' && t[1] == '0' && t[2] == '0' && t[3] == HexChar(c as int / 16)
      && t[4] == HexChar(c as int % 16);
    assert HexValue(t[1]) == Some(0) && HexValue(t[2]) == Some(0);
    assert HexValue(t[3]) == Some(c as int / 16) && HexValue(t[4]) == Some(c as int % 16);
    assert t[5..] == x;
  }

  lemma ReadOneChar(c: char, x: string)
    ensures ReadChars(EscapeChar(c) + x)
         == match ReadChars(x) case None => None case Some((t, rest)) => Some(([c] + t, rest))
  {
    if c == '\"' || c == '\\' || c as int in {8, 12, 10, 13, 9} {
      ReadSimpleEscape(c, x);
    } else if c < ' ' {
      ReadHexEscape(c, x);
    } else {
      assert ([c] + x)[1..] == x;
    }
  }

  lemma {:induction false} ReadEscaped(s: string, rest: string)
    ensures ReadChars(Escaped(s) + ("\"" + rest)) == Some((s, rest))
    decreases |s|
  {
    var tail := "\"" + rest;
    if s == "" {
      assert Escaped(s) + tail == tail && tail[1..] == rest;
    } else {
      var x := Escaped(s[1..]) + tail;
      assert Escaped(s) + tail == EscapeChar(s[0]) + x;
      ReadEscaped(s[1..], rest);
      ReadOneChar(s[0], x);
      assert [s[0]] + s[1..] == s;
    }
  }

  /** No spelling of a string is shorter than the one written. */
  lemma {:induction false} EscapedIsShortest(t: string)
    requires ReadChars(t).Some?
    ensures var (s, rest) := ReadChars(t).value; |t| - |rest| >= |Escaped(s)| + 1
    decreases |t|
  {
    hide ReadEscape, EscapeChar;
    if t[0] != '"' {
      var first := if t[0] == '\\' then ReadEscape(t[1..]) else Some((t[0], t[1..]));
      var (c, after) := first.value;
      EscapedIsShortest(after);
      var (s, rest) := ReadChars(after).value;
      assert ([c] + s)[1..] == s;
      EscapeIsShort(t);
    }
  }

  lemma EscapeIsShort(t: string)
    requires t != "" && t[0] >= ' ' && t[0] != '"'
    ensures var first := if t[0] == '\\' then ReadEscape(t[1..]) else Some((t[0], t[1..]));
            first.Some? ==> |EscapeChar(first.value.0)| <= |t| - |first.value.1|
  {
  }

  lemma QuoteIsRead(s: string, rest: string)
    ensures (Quote(s) + rest)[0] == '\"' && ReadChars((Quote(s) + rest)[1..]) == Some((s, rest))
  {
    assert (Quote(s) + rest)[1..] == Escaped(s) + ("\"" + rest);
    ReadEscaped(s, rest);
  }

  lemma {:induction false} PlainIsItsOwnEscape(s: string)
    requires forall i | 0 <= i < |s| :: !NeedsEscape(s[i])
    ensures Escaped(s) == s
    decreases |s|
  {
    if s != "" {
      assert forall i | 0 <= i < |s[1..]| :: s[1..][i] == s[i + 1];
      PlainIsItsOwnEscape(s[1..]);
      assert s == [s[0]] + s[1..];
    }
  }

  // ---------------------------------------------------------------------
  // Numbers
  // ---------------------------------------------------------------------

  lemma {:induction false} RunStopsAtTheEnd(s: string, rest: string)
    requires forall i | 0 <= i < |s| :: IsNumberChar(s[i])
    requires Ends(rest)
    ensures NumberRun(s + rest) == |s|
    decreases |s|
  {
    if s == "" {
      assert s + rest == rest;
    } else {
      assert (s + rest)[1..] == s[1..] + rest;
      RunStopsAtTheEnd(s[1..], rest);
    }
  }

  lemma {:induction false} AllDigitsDrop(s: string)
    requires AllDigits(s)
    ensures DropDigits(s) == ""
    decreases |s|
  {
    if s != "" {
      AllDigitsDrop(s[1..]);
    }
  }

  lemma SignedIsAToken(i: int)
    ensures IsNumberToken(Signed(i)) && NumberOf(Signed(i)) == Int(i)
    ensures forall k | 0 <= k < |Signed(i)| :: IsNumberChar(Signed(i)[k])
  {
    SignedRoundTrip(i);
    var d := Digits(if i < 0 then -i else i);
    assert i < 0 ==> Signed(i)[1..] == d;
    AllDigitsDrop(d);
    assert AfterInteger(Signed(i)) == Some("");
  }

  lemma NumberTextIsAToken(n: Number)
    requires Printable(Num(n))
    ensures IsNumberToken(NumberText(n)) && NumberOf(NumberText(n)) == n
    ensures forall k | 0 <= k < |NumberText(n)| :: IsNumberChar(NumberText(n)[k])
    ensures NumberText(n) != "" && (NumberText(n)[0] == '-' || IsDigit(NumberText(n)[0]))
  {
    if n.Int? {
      SignedIsAToken(n.value);
    }
    assert AfterInteger(NumberText(n)).Some?;
  }

  lemma PlainNumberIsRead(n: Number, rest: string)
    requires Printable(Num(n)) && Ends(rest)
    ensures ReadValue(NumberText(n) + rest) == Some((Num(n), rest))
  {
    hide IsNumberToken, NumberOf, NumberRun, ReadChars, ReadEntries, ReadItems, NumberText, Printable;
    var t := NumberText(n);
    NumberTextIsAToken(n);
    RunStopsAtTheEnd(t, rest);
    var s := t + rest;
    assert SkipSpace(s) == s;
    assert s[..|t|] == t && s[|t|..] == rest;
    NoKeyword(s);
  }

  lemma NoKeyword(s: string)
    requires s != "" && (s[0] == '-' || IsDigit(s[0]))
    ensures !StartsWith(s, "null") && !StartsWith(s, "true") && !StartsWith(s, "false")
  {
  }

  lemma NumberTextIsPlain(n: Number)
    requires Printable(Num(n))
    ensures Escaped(NumberText(n)) == NumberText(n)
  {
    NumberTextIsAToken(n);
    PlainIsItsOwnEscape(NumberText(n));
  }

  /** A boxed number is the text of a one-entry object around its digits. */
  lemma BoxText(key: string, n: Number, rest: string)
    requires Printable(Num(n)) && Escaped(key) == key
    ensures var value := Quote(NumberText(n)) + ("}" + rest);
      "{\"" + key + "\":\"" + NumberText(n) + "\"}" + rest == "{" + (Quote(key) + (":" + value))
  {
    NumberTextIsPlain(n);
    BoxRegrouped(key, NumberText(n), rest);
  }

  lemma BoxRegrouped(k: string, t: string, rest: string)
    ensures "{\"" + k + "\":\"" + t + "\"}" + rest
         == "{" + (("\"" + k + "\"") + (":" + (("\"" + t + "\"") + ("}" + rest))))
  {
    var inner := ("\"" + t + "\"") + ("}" + rest);
    assert inner == "\"" + (t + ("\"}" + rest));
    var value := ":" + inner;
    assert value == ":\"" + (t + ("\"}" + rest));
    var body := ("\"" + k + "\"") + value;
    assert body == "\"" + (k + ("\"" + value));
    assert "\"" + value == "\":\"" + (t + ("\"}" + rest));
    assert "{" + body == "{\"" + (k + ("\":\"" + (t + ("\"}" + rest))));
    var left := "{\"" + k + "\":\"" + t + "\"}" + rest;
    assert left == "{\"" + k + "\":\"" + (t + ("\"}" + rest));
    assert left == "{\"" + k + ("\":\"" + (t + ("\"}" + rest)));
  }

  // ---------------------------------------------------------------------
  // Values
  // ---------------------------------------------------------------------

  predicate OpensValue(c: char) {
    !IsSpace(c) && c != ']' && c != '}'
  }

  lemma WrittenOpens(v: Value, boxing: bool)
    requires Printable(v)
    ensures Write(v, boxing) != "" && OpensValue(Write(v, boxing)[0])
  {
    if v.Num? {
      NumberTextIsAToken(v.n);
    }
  }

  lemma NoSpace(s: string)
    requires s == "" || !IsSpace(s[0])
    ensures SkipSpace(s) == s
  {
  }

  lemma KeywordIsRead(word: string, rest: string)
    requires word in {"null", "true", "false"}
    ensures ReadValue(word + rest)
         == Some((if word == "null" then Null else Bool(word == "true"), rest))
  {
    var s := word + rest;
    NoSpace(s);
    assert s[|word|..] == rest;
    assert s[0] == word[0];
  }

  /** Reading what was written, up to whatever follows, gives the value with its
      box-shaped objects read as numbers. */
  lemma {:induction false} WrittenIsRead(v: Value, boxing: bool, rest: string)
    requires Printable(v) && Ends(rest)
    ensures ReadValue(Write(v, boxing) + rest) == Some((Collapse(v), rest))
    decreases v, 1
  {
    match v
    case Null => KeywordIsRead("null", rest);
    case Bool(b) => KeywordIsRead(if b then "true" else "false", rest);
    case Str(s) =>
      QuoteIsRead(s, rest);
      NoSpace(Quote(s) + rest);
    case Num(n) =>
      if !boxing || Exact(n) {
        PlainNumberIsRead(n, rest);
      } else {
        BoxIsRead(n, rest);
      }
    case Arr(items) => ArrayIsRead(items, boxing, rest);
    case Obj(entries) => ObjectIsRead(entries, boxing, rest);
  }

  lemma BoxEntryIsRead(key: string, n: Number, rest: string)
    requires Printable(Num(n)) && Escaped(key) == key
    ensures var text := "{\"" + key + "\":\"" + NumberText(n) + "\"}" + rest;
      && text[0] == '{' && ReadEntries(text[1..]) == Some(([Entry(key, Str(NumberText(n)))], rest))
      && SkipSpace(text[1..]) == text[1..] && text[1] == '\"'
  {
    var e := Entry(key, Str(NumberText(n)));
    var after := "}" + rest;
    var value := Quote(NumberText(n)) + after;
    BoxText(key, n, rest);
    QuoteIsRead(NumberText(n), after);
    NoSpace(value);
    NoSpace(after);
    assert ReadValue(value) == Some((Str(NumberText(n)), after));
    var body := Quote(key) + (":" + value);
    assert ("{" + body)[1..] == body;
    EntryIsRead(e, value, body);
    assert after[1..] == rest;
    NoSpace(body);
  }

  lemma BoxIsRead(n: Number, rest: string)
    requires Printable(Num(n))
    ensures ReadValue("{\"" + NUMBER_TOKEN + "\":\"" + NumberText(n) + "\"}" + rest) == Some((Num(n), rest))
  {
    hide ReadEntries, Escaped, IsNumberToken, NumberOf, Printable, NumberText;
    var key := NUMBER_TOKEN;
    PlainIsItsOwnEscape(key);
    BoxEntryIsRead(key, n, rest);
    NumberTextIsAToken(n);
    var text := "{\"" + key + "\":\"" + NumberText(n) + "\"}" + rest;
    NoSpace(text);
  }

  /** An entry is read once its value is. */
  lemma EntryIsRead(e: Entry, value: string, body: string)
    requires body == Quote(e.key) + (":" + value)
    requires ReadValue(value).Some?
    ensures ReadEntry(body) == Some((Entry(e.key, ReadValue(value).value.0), ReadValue(value).value.1))
    ensures body != "" && body[0] == '\"'
  {
    QuoteIsRead(e.key, ":" + value);
    NoSpace(body);
    NoSpace(":" + value);
    assert (":" + value)[1..] == value;
  }

  lemma Regroup(a: string, b: string, c: string)
    ensures ("" + (a + b)) + c == a + (b + c)
  {
  }

  lemma SplitItems(items: seq<Value>, boxing: bool, tail: string)
    requires items != []
    ensures WriteItems(items, true, boxing) + tail
         == Write(items[0], boxing) + (WriteItems(items[1..], false, boxing) + tail)
  {
    hide Write;
    Regroup(Write(items[0], boxing), WriteItems(items[1..], false, boxing), tail);
  }

  lemma SplitEntries(entries: seq<Entry>, boxing: bool, tail: string)
    requires entries != []
    ensures WriteEntries(entries, true, boxing) + tail
         == Quote(entries[0].key) + (":" + (Write(entries[0].value, boxing)
                                            + (WriteEntries(entries[1..], false, boxing) + tail)))
  {
    hide Quote, Write;
    var e, others := entries[0], WriteEntries(entries[1..], false, boxing);
    var key, value := Quote(e.key), Write(e.value, boxing);
    Regroup(key + (":" + value), others, tail);
    assert (key + (":" + value)) + (others + tail) == key + (":" + (value + (others + tail)));
  }

  lemma CommaThenItems(items: seq<Value>, boxing: bool, tail: string)
    requires items != []
    ensures WriteItems(items, false, boxing) + tail == "," + (WriteItems(items, true, boxing) + tail)
    ensures (WriteItems(items, false, boxing) + tail)[1..] == WriteItems(items, true, boxing) + tail
  {
  }

  lemma CommaThenEntries(entries: seq<Entry>, boxing: bool, tail: string)
    requires entries != []
    ensures WriteEntries(entries, false, boxing) + tail == "," + (WriteEntries(entries, true, boxing) + tail)
    ensures (WriteEntries(entries, false, boxing) + tail)[1..] == WriteEntries(entries, true, boxing) + tail
  {
    hide WriteEntry;
  }

  lemma {:induction false} ArrayIsRead(items: seq<Value>, boxing: bool, rest: string)
    requires PrintableItems(items)
    ensures ReadValue(Write(Arr(items), boxing) + rest) == Some((Collapse(Arr(items)), rest))
    decreases items, 2
  {
    hide ReadItems;
    var s := Write(Arr(items), boxing) + rest;
    NoSpace(s);
    var body := WriteItems(items, true, boxing) + ("]" + rest);
    assert s[1..] == body;
    if items == [] {
      assert body == "]" + rest && body[1..] == rest;
      NoSpace(body);
    } else {
      WrittenOpens(items[0], boxing);
      SplitItems(items, boxing, "]" + rest);
      NoSpace(body);
      ItemsAreRead(items, boxing, rest);
    }
  }

  lemma {:induction false} ItemsAreRead(items: seq<Value>, boxing: bool, rest: string)
    requires items != [] && PrintableItems(items)
    ensures ReadItems(WriteItems(items, true, boxing) + ("]" + rest)) == Some((CollapseItems(items), rest))
    decreases items, 1
  {
    hide Write, ReadValue, Collapse, Printable;
    var first, others := items[0], items[1..];
    var after := WriteItems(others, false, boxing) + ("]" + rest);
    SplitItems(items, boxing, "]" + rest);
    if others == [] {
      assert after == "]" + rest && after[1..] == rest;
      assert CollapseItems(items) == [Collapse(first)];
    } else {
      CommaThenItems(others, boxing, "]" + rest);
      ItemsAreRead(others, boxing, rest);
    }
    NoSpace(after);
    WrittenIsRead(first, boxing, after);
  }

  lemma {:induction false} ObjectIsRead(entries: seq<Entry>, boxing: bool, rest: string)
    requires PrintableEntries(entries)
    ensures ReadValue(Write(Obj(entries), boxing) + rest) == Some((Collapse(Obj(entries)), rest))
    decreases entries, 2
  {
    hide ReadEntries, Escaped;
    var s := Write(Obj(entries), boxing) + rest;
    NoSpace(s);
    var body := WriteEntries(entries, true, boxing) + ("}" + rest);
    assert s[1..] == body;
    if entries == [] {
      assert body == "}" + rest && body[1..] == rest;
      NoSpace(body);
    } else {
      SplitEntries(entries, boxing, "}" + rest);
      NoSpace(body);
      EntriesAreRead(entries, boxing, rest);
    }
  }

  lemma {:induction false} EntriesAreRead(entries: seq<Entry>, boxing: bool, rest: string)
    requires entries != [] && PrintableEntries(entries)
    ensures ReadEntries(WriteEntries(entries, true, boxing) + ("}" + rest)) == Some((CollapseEntries(entries), rest))
    decreases entries, 1
  {
    hide Write, ReadEntry, Collapse, Quote, Printable, WriteEntry;
    var first, others := entries[0], entries[1..];
    var after := WriteEntries(others, false, boxing) + ("}" + rest);
    var s := WriteEntries(entries, true, boxing) + ("}" + rest);
    var value := Write(first.value, boxing) + after;
    SplitEntries(entries, boxing, "}" + rest);
    if others == [] {
      assert after == "}" + rest && after[1..] == rest;
      assert CollapseEntries(entries) == [Entry(first.key, Collapse(first.value))];
    } else {
      CommaThenEntries(others, boxing, "}" + rest);
      EntriesAreRead(others, boxing, rest);
    }
    NoSpace(after);
    WrittenIsRead(first.value, boxing, after);
    EntryIsRead(first, value, s);
  }

  /** JSON text written and read again: every object shaped like a boxed number
      comes back as that number, and nothing else changes. */
  lemma ReadAfterWrite(v: Value, boxing: bool)
    requires Printable(v)
    ensures Read(Write(v, boxing)) == Some(Collapse(v))
  {
    WrittenIsRead(v, boxing, "");
    assert Write(v, boxing) + "" == Write(v, boxing);
  }

  /** The text gives the value back exactly when no object in it is itself
      shaped like a boxed number. */
  lemma RoundTripIffBoxFree(v: Value, boxing: bool)
    requires Printable(v)
    ensures Read(Write(v, boxing)) == Some(v) <==> BoxFree(v)
  {
    ReadAfterWrite(v, boxing);
    CollapseChangesOnlyBoxes(v);
  }

  // ---------------------------------------------------------------------
  // What comes back as something else, and what is boxed
  // ---------------------------------------------------------------------

  /** An object that is itself shaped like a box comes back as the number in it. */
  lemma BoxShapeIsLost()
    ensures var v := Obj([Entry("$serde_json::private::Number", Str("1"))]);
            Printable(v) && !BoxFree(v) && Read(Write(v, true)) == Some(Num(Int(1))) != Some(v)
  {
    hide Read, Write, NumberRun;
    var entry := Entry(NUMBER_TOKEN, Str("1"));
    var v := Obj([entry]);
    assert PrintableEntries([]) && [entry][1..] == [];
    assert CollapseEntries([entry]) == [entry];
    assert "1"[1..] == "" && AfterInteger("1") == Some("");
    assert NatOf("1") == 1 by { assert "1"[..0] == ""; }
    ReadAfterWrite(v, true);
  }

  lemma {:induction false} Pow10Adds(m: nat, n: nat)
    ensures Pow10(m + n) == Pow10(m) * Pow10(n)
    decreases n
  {
    if n > 0 {
      Pow10Adds(m, n - 1);
    }
  }

  lemma SquaresGrow(small: nat, large: nat)
    requires small <= large
    ensures Squared(small) <= Squared(large)
  {
  }

  lemma DoubledPower(n: nat, small: nat)
    requires small <= Pow10(n)
    ensures Squared(small) <= Pow10(2 * n)
  {
    Pow10Adds(n, n);
    SquaresGrow(small, Pow10(n));
  }

  lemma TwentyDigits()
    ensures Pow10(20) >= 0x1_0000_0000_0000_0000
  {
    Pow10Adds(10, 10);
  }

  /** Ten to the 320 or more is past every finite binary64. */
  lemma PastBinary64(n: nat)
    requires n >= 320
    ensures Pow10(n) >= RoundsToInfinity()
  {
    hide Pow10, Squared;
    var to64 := 0x1_0000_0000_0000_0000;
    var to128 := Squared(to64);
    var to256 := Squared(to128);
    var to512 := Squared(to256);
    TwentyDigits();
    DoubledPower(20, to64);
    DoubledPower(40, to128);
    DoubledPower(80, to256);
    DoubledPower(160, to512);
    LimitBelow(to128, to256);
    Pow10Adds(320, n - 320);
    Scaled(Pow10(320), Pow10(n - 320));
  }

  lemma Scaled(a: nat, b: nat)
    requires b > 0
    ensures a <= a * b
  {
  }

  lemma LimitBelow(to128: nat, to256: nat)
    requires to128 == Squared(0x1_0000_0000_0000_0000) && to256 == Squared(to128)
    ensures RoundsToInfinity() <= Squared(Squared(to256))
  {
  }

  /** A fraction past the range of binary64 is boxed, as an integer JavaScript
      cannot hold is. */
  lemma HugeFractionIsBoxed()
    ensures var n := Frac("1e400");
            Printable(Num(n)) && !Exact(n) && WriteNumber(n, true) == "{\"" + NUMBER_TOKEN + "\":\"1e400\"}"
  {
    hide Pow10, RoundsToInfinity;
    var token := "1e400";
    assert token[1..] == "e400" && DropDigits("e400") == "e400";
    assert AfterInteger(token) == Some("e400") && AfterFraction("e400") == Some("e400");
    ThreeDigits();
    assert "e400"[1..] == "400";
    assert AfterExponent("e400") == Some("");
    assert token[..1] == "1" && "1"[..0] == "" && DigitsIn("1") == 1;
    PastBinary64(DigitsIn("e400"));
  }

  lemma ThreeDigits()
    ensures DropDigits("400") == "" && DigitsIn("e400") == 400
  {
    assert "400"[1..] == "00" && "00"[1..] == "0" && "0"[1..] == "";
    assert "e400"[..3] == "e40" && "e40"[..2] == "e4" && "e4"[..1] == "e" && "e"[..0] == "";
    assert DigitsIn("e4") == 4 && DigitsIn("e40") == 40;
  }
}
