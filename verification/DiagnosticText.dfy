/** Quoted text in diagnostic notation: every way of spelling a text that the reader
    has, and the one the debug formatter writes. */
module DiagnosticText {
  import opened Wire
  import opened Text
  import opened Diagnostic
  import Json

  /** How one character of a text stands in the notation: as it is, by its own
      escape, or by its code point in hexadecimal, behind a plus sign if need be. */
  datatype Form = Plain | Short | Coded(plus: bool, hex: string)

  const SHORT_ESCAPES := map['"' := '"', '\\' := '\\', '\'' := '\'', '\n' := 'n', '\t' := 't', '\r' := 'r', '\0' := '0']

  predicate Spells(form: Form, c: char) {
    match form
    case Plain => c != '"' && c != '\\'
    case Short => c in SHORT_ESCAPES
    case Coded(_, hex) => hex != "" && HexNat(hex) == Some(c as nat)
  }

  function CodeDigits(plus: bool, hex: string): (s: string) {
    if plus then "+" + hex else hex
  }

  function FormText(form: Form, c: char): (s: string)
    requires Spells(form, c)
  {
    match form
    case Plain => [c]
    case Short => ['\\', SHORT_ESCAPES[c]]
    case Coded(plus, hex) => "\\u{" + (CodeDigits(plus, hex) + "}")
  }

  predicate AllSpell(forms: seq<Form>, text: string) {
    |forms| == |text| && forall k | 0 <= k < |text| :: Spells(forms[k], text[k])
  }

  function Spelled(forms: seq<Form>, text: string): (s: string)
    requires AllSpell(forms, text)
    decreases |text|
  {
    if text == "" then "" else FormText(forms[0], text[0]) + Spelled(forms[1..], text[1..])
  }

  // ---------------------------------------------------------------------
  // Hexadecimal
  // ---------------------------------------------------------------------

  predicate SpellsNibble(c: char, d: nat)
    requires d < 16
  {
    c == "0123456789abcdef"[d] || c == "0123456789ABCDEF"[d]
  }

  predicate SpellsBytes(hex: string, content: seq<byte>) {
    && |hex| == 2 * |content|
    && forall i | 0 <= i < |content| ::
         SpellsNibble(hex[2 * i], content[i] / 16) && SpellsNibble(hex[2 * i + 1], content[i] % 16)
  }

  lemma NibbleExactly(c: char, d: nat)
    requires d < 16
    ensures HexValue(c) == Some(d) <==> SpellsNibble(c, d)
  {
  }

  lemma ByteExactly(a: char, b: char, x: byte)
    ensures HexValue(a).Some? && HexValue(b).Some? && 16 * HexValue(a).value + HexValue(b).value == x
       <==> SpellsNibble(a, x / 16) && SpellsNibble(b, x % 16)
  {
    hide HexValue, SpellsNibble;
    NibbleExactly(a, x / 16);
    NibbleExactly(b, x % 16);
  }

  /** Text is taken for some bytes exactly when it spells them, two digits each. */
  lemma {:induction false} HexExactly(hex: string, content: seq<byte>)
    ensures UnHex(hex) == Some(content) <==> SpellsBytes(hex, content)
    decreases |hex|
  {
    hide HexValue, SpellsNibble;
    if |hex| >= 2 && content != [] {
      ByteExactly(hex[0], hex[1], content[0]);
      HexExactly(hex[2..], content[1..]);
      RestSpells(hex, content);
      assert content == [content[0]] + content[1..];
    }
  }

  lemma RestSpells(hex: string, content: seq<byte>)
    requires |hex| >= 2 && content != []
    ensures SpellsBytes(hex, content)
       <==> && SpellsNibble(hex[0], content[0] / 16) && SpellsNibble(hex[1], content[0] % 16)
            && SpellsBytes(hex[2..], content[1..])
  {
    hide SpellsNibble;
    if SpellsBytes(hex, content) {
      forall i | 0 <= i < |content| - 1
        ensures SpellsNibble(hex[2..][2 * i], content[1..][i] / 16)
             && SpellsNibble(hex[2..][2 * i + 1], content[1..][i] % 16)
      {
        var k := i + 1;
        assert SpellsNibble(hex[2 * k], content[k] / 16) && SpellsNibble(hex[2 * k + 1], content[k] % 16);
      }
    }
    if SpellsBytes(hex[2..], content[1..]) && SpellsNibble(hex[0], content[0] / 16)
       && SpellsNibble(hex[1], content[0] % 16) {
      forall i | 0 <= i < |content|
        ensures SpellsNibble(hex[2 * i], content[i] / 16) && SpellsNibble(hex[2 * i + 1], content[i] % 16)
      {
        if i > 0 {
          var k := i - 1;
          assert SpellsNibble(hex[2..][2 * k], content[1..][k] / 16);
          assert SpellsNibble(hex[2..][2 * k + 1], content[1..][k] % 16);
        }
      }
    }
  }

  // ---------------------------------------------------------------------
  // Reading a text however it is spelled
  // ---------------------------------------------------------------------

  lemma {:induction false} HexHasNoBrace(hex: string)
    requires HexNat(hex).Some?
    ensures forall k | 0 <= k < |hex| :: hex[k] != '}' && hex[k] != '+'
    decreases |hex|
  {
    if hex != "" {
      HexHasNoBrace(hex[..|hex| - 1]);
    }
  }

  lemma {:induction false} BeforeBrace(hex: string, post: string)
    requires forall k | 0 <= k < |hex| :: hex[k] != '}'
    ensures Before(hex + ("}" + post), '}') == Some(hex)
    decreases |hex|
  {
    var s := hex + ("}" + post);
    if hex == "" {
      assert s == "}" + post;
    } else {
      assert s[1..] == hex[1..] + ("}" + post);
      assert forall k | 0 <= k < |hex[1..]| :: hex[1..][k] == hex[k + 1];
      BeforeBrace(hex[1..], post);
      assert [hex[0]] + hex[1..] == hex;
    }
  }

  lemma CodeIsRead(plus: bool, hex: string, c: char, post: string)
    requires Spells(Coded(plus, hex), c)
    ensures ReadEscape("u{" + (CodeDigits(plus, hex) + ("}" + post))) == Some(([c], post))
  {
    hide HexNat, Before, Eat;
    var digits := CodeDigits(plus, hex);
    var t := digits + ("}" + post);
    var s := "u{" + t;
    HexHasNoBrace(hex);
    assert plus ==> digits[1..] == hex;
    BeforeBrace(digits, post);
    assert s[0] == 'u' && s[1..] == "{" + t;
    BraceIsEaten(t);
    assert t[|digits| + 1..] == post;
  }

  lemma BraceIsEaten(t: string)
    ensures Eat("{" + t, '{') == Some(t)
  {
    assert ("{" + t)[1..] == t;
    assert Json.SkipSpace("{" + t) == "{" + t;
  }

  /** One character, whatever its form, is read as itself. */
  lemma FormIsRead(form: Form, c: char, post: string, out: string)
    requires Spells(form, c)
    ensures ReadText(FormText(form, c) + post, out) == ReadText(post, out + [c])
  {
    hide ReadEscape, HexNat, CodeDigits;
    var s := FormText(form, c) + post;
    match form
    case Plain => assert s[1..] == post;
    case Short =>
      ShortIsRead(c, post);
      EscapeIsRead(s, [SHORT_ESCAPES[c]] + post, c, post, out);
    case Coded(plus, hex) =>
      CodeIsRead(plus, hex, c, post);
      EscapeIsRead(s, "u{" + (CodeDigits(plus, hex) + ("}" + post)), c, post, out);
  }

  lemma EscapeIsRead(s: string, escape: string, c: char, post: string, out: string)
    requires s == "\\" + escape && ReadEscape(escape) == Some(([c], post))
    ensures ReadText(s, out) == ReadText(post, out + [c])
  {
    hide ReadEscape;
    assert s[1..] == escape;
  }

  lemma ShortIsRead(c: char, post: string)
    requires c in SHORT_ESCAPES
    ensures ReadEscape([SHORT_ESCAPES[c]] + post) == Some(([c], post))
  {
    assert ([SHORT_ESCAPES[c]] + post)[1..] == post;
  }

  /** However a text is spelled, it is read back. */
  lemma {:induction false} AnySpellingIsRead(forms: seq<Form>, text: string, post: string, out: string)
    requires AllSpell(forms, text)
    ensures ReadText(Spelled(forms, text) + ("\"" + post), out) == Some((Text(out + text), post))
    decreases |text|
  {
    hide ReadText, FormText;
    var tail := "\"" + post;
    if text == "" {
      assert Spelled(forms, text) + tail == tail && out + text == out;
      QuoteEndsText(post, out);
    } else {
      var rest := Spelled(forms[1..], text[1..]) + tail;
      assert Spelled(forms, text) + tail == FormText(forms[0], text[0]) + rest;
      FormIsRead(forms[0], text[0], rest, out);
      AnySpellingIsRead(forms[1..], text[1..], post, out + [text[0]]);
      assert out + [text[0]] + text[1..] == out + text;
    }
  }

  lemma QuoteEndsText(post: string, out: string)
    ensures ReadText("\"" + post, out) == Some((Text(out), post))
  {
    assert ("\"" + post)[1..] == post;
  }

  // ---------------------------------------------------------------------
  // The debug formatter
  // ---------------------------------------------------------------------

  function HexDigits(n: nat): (s: string)
    ensures s != ""
  {
    if n < 16 then [HexChar(n)] else HexDigits(n / 16) + [HexChar(n % 16)]
  }

  lemma {:induction false} HexDigitsAreRead(n: nat)
    ensures HexNat(HexDigits(n)) == Some(n)
  {
    var s := HexDigits(n);
    if n < 16 {
      assert s[..|s| - 1] == "";
    } else {
      HexDigitsAreRead(n / 16);
      assert s[..|s| - 1] == HexDigits(n / 16);
    }
  }

  /** Quotes, backslashes and the usual controls have their escape, other controls
      their code point, and everything else stands as it is. */
  function DebugForm(c: char): (form: Form) {
    if c in SHORT_ESCAPES && c != '\'' then Short
    else if c < ' ' || c as int == 127 then Coded(false, HexDigits(c as nat))
    else Plain
  }

  lemma DebugFormSpells(c: char)
    ensures Spells(DebugForm(c), c)
  {
    HexDigitsAreRead(c as nat);
  }

  function DebugChar(c: char): (s: string) {
    DebugFormSpells(c);
    FormText(DebugForm(c), c)
  }

  function Debugged(text: string): (s: string) {
    if text == "" then "" else DebugChar(text[0]) + Debugged(text[1..])
  }

  function DebugForms(text: string): (forms: seq<Form>)
    ensures |forms| == |text|
  {
    if text == "" then [] else [DebugForm(text[0])] + DebugForms(text[1..])
  }

  lemma {:induction false} DebuggedIsASpelling(text: string)
    ensures AllSpell(DebugForms(text), text) && Spelled(DebugForms(text), text) == Debugged(text)
    decreases |text|
  {
    hide Spells, DebugForm, FormText;
    if text != "" {
      DebuggedIsASpelling(text[1..]);
      DebugFormSpells(text[0]);
      var forms := DebugForms(text);
      assert forms[1..] == DebugForms(text[1..]);
      forall k | 0 <= k < |text| ensures Spells(forms[k], text[k]) {
        if k > 0 {
          assert forms[k] == forms[1..][k - 1] && text[k] == text[1..][k - 1];
        }
      }
    }
  }

  /** Text as the debug formatter writes it is read back. */
  lemma DebuggedIsRead(text: string, post: string, out: string)
    ensures ReadText(Debugged(text) + ("\"" + post), out) == Some((Text(out + text), post))
  {
    hide ReadText, AllSpell, Spelled;
    DebuggedIsASpelling(text);
    AnySpellingIsRead(DebugForms(text), text, post, out);
  }

  /** So is text with escapes for quotes and backslashes only. */
  lemma {:induction false} BackslashedIsRead(text: string, post: string, out: string)
    ensures ReadText(Backslashed(text) + ("\"" + post), out) == Some((Text(out + text), post))
    decreases |text|
  {
    hide ReadText;
    var tail := "\"" + post;
    if text == "" {
      assert Backslashed(text) + tail == tail && out + text == out;
      QuoteEndsText(post, out);
    } else {
      var c, rest := text[0], Backslashed(text[1..]) + tail;
      var form := if c == '"' || c == '\\' then Short else Plain;
      assert Backslashed(text) + tail == FormText(form, c) + rest;
      FormIsRead(form, c, rest, out);
      BackslashedIsRead(text[1..], post, out + [c]);
      assert out + [c] + text[1..] == out + text;
    }
  }
}
