/** Printing an item and reading it back: exact for every item nested within the
    reader's bound, and nothing for one with elided nesting. */
module DiagnosticRoundTrip {
  import opened Wire
  import opened Text
  import opened Diagnostic
  import opened DiagnosticText
  import Json

  // ---------------------------------------------------------------------
  // The printer
  // ---------------------------------------------------------------------

  function Separator(first: bool): (s: string) {
    if first then "" else ", "
  }

  function Print(item: Item): (s: string)
    decreases item, 0
  {
    match item
    case Int(n) => Signed(n)
    case Bytes(content) => "h'" + (Hex(content) + "'")
    case Text(text) => "\"" + (Debugged(text) + "\"")
    case Float(literal) => literal
    case Bool(on) => if on then "true" else "false"
    case Null => "null"
    case Simple(n) => "simple(" + (Digits(n) + ")")
    case Tag(tag, inner) => Digits(tag) + ("(" + (Print(inner) + ")"))
    case Array(items) => "[" + (PrintItems(items, true) + "]")
    case Map(entries) => "{" + (PrintEntries(entries, true) + "}")
    case ElidedTag(tag) => Digits(tag) + "(...)"
    case ElidedArray => "[...]"
    case ElidedMap => "{...}"
  }

  function PrintItems(items: seq<Item>, first: bool): (s: string)
    decreases items
  {
    if items == [] then "" else Separator(first) + (Print(items[0]) + PrintItems(items[1..], false))
  }

  function PrintPair(e: Pair): (s: string)
    decreases e, 1
  {
    Print(e.key) + (": " + Print(e.value))
  }

  function PrintEntries(entries: seq<Pair>, first: bool): (s: string)
    decreases entries
  {
    if entries == [] then "" else Separator(first) + (PrintPair(entries[0]) + PrintEntries(entries[1..], false))
  }

  /** A literal the number reader takes as a float and as a whole. */
  predicate FloatLiteral(s: string) {
    || s == "NaN" || s == "Infinity" || s == "-Infinity"
    || (s != "" && (s[0] == '-' || IsDigit(s[0]))
        && var p := PartsOf(s);
        p.whole + p.fraction + p.exponent == |s| && p.fraction + p.exponent > 0 && IsFloat(s, p))
  }

  /** Items the notation has a spelling for. */
  predicate Printable(item: Item)
    decreases item
  {
    match item
    case Int(n) => -(I128_MAX as int) - 1 <= n <= I128_MAX
    case Float(literal) => FloatLiteral(literal)
    case Simple(n) => n <= 255
    case Tag(tag, inner) => tag <= U64_MAX && Printable(inner)
    case Array(items) => forall k | 0 <= k < |items| :: Printable(items[k])
    case Map(entries) => forall k | 0 <= k < |entries| :: PrintablePair(entries[k])
    case ElidedTag(tag) => tag <= U64_MAX
    case _ => true
  }

  predicate PrintablePair(e: Pair)
    decreases e
  {
    Printable(e.key) && Printable(e.value)
  }

  /** Nothing elided, and nested no deeper than the reader goes. */
  predicate Readable(item: Item, depth: nat)
    decreases item
  {
    && depth <= 32
    && match item
       case Tag(_, inner) => Readable(inner, depth + 1)
       case Array(items) => forall k | 0 <= k < |items| :: Readable(items[k], depth + 1)
       case Map(entries) => forall k | 0 <= k < |entries| :: ReadablePair(entries[k], depth + 1)
       case ElidedTag(_) => false
       case ElidedArray => false
       case ElidedMap => false
       case _ => true
  }

  predicate ReadablePair(e: Pair, depth: nat)
    decreases e
  {
    Readable(e.key, depth) && Readable(e.value, depth)
  }

  // ---------------------------------------------------------------------
  // Scanning printed text
  // ---------------------------------------------------------------------

  /** What may stand behind a printed item. */
  predicate Delimited(post: string) {
    post == "" || post[0] == ',' || post[0] == ']' || post[0] == '}' || post[0] == ')' || post[0] == ':'
  }

  predicate NoDigit(post: string) {
    post == "" || !IsDigit(post[0])
  }

  lemma {:induction false} DigitsTaken(d: string, post: string)
    requires AllDigits(d) && NoDigit(post)
    ensures TakeDigits(d + post) == d
  {
    if d == "" {
      assert d + post == post;
    } else {
      DigitsTaken(d[1..], post);
      assert (d + post)[1..] == d[1..] + post;
    }
  }

  lemma Cut(a: string, b: string)
    ensures (a + b)[|a|..] == b && (a + b)[..|a|] == a
  {
  }

  lemma NoSpace(s: string)
    requires s == "" || !Json.IsSpace(s[0])
    ensures SkipSpace(s) == s
  {
  }

  lemma OneSpace(s: string)
    requires s == "" || !Json.IsSpace(s[0])
    ensures SkipSpace(" " + s) == s
  {
    NoSpace(s);
    assert (" " + s)[1..] == s;
    assert Json.SkipSpace(" " + s) == Json.SkipSpace(s);
  }

  lemma {:induction false} BeforeQuote(s: string, c: char, post: string)
    requires c !in s
    ensures Before(s + ([c] + post), c) == Some(s)
  {
    if s == "" {
      assert s + ([c] + post) == [c] + post;
    } else {
      BeforeQuote(s[1..], c, post);
      assert (s + ([c] + post))[1..] == s[1..] + ([c] + post);
    }
  }

  /** Text a number does not run on into. */
  predicate EndsNumber(post: string) {
    NoDigit(post) && (post != "" ==> post[0] != '.' && post[0] != 'e' && post[0] != 'E')
  }

  lemma PartsOfInt(n: int, post: string)
    requires EndsNumber(post)
    ensures PartsOf(Signed(n) + post) == Parts(|Signed(n)|, 0, 0)
  {
    hide TakeDigits, Digits;
    var s := Signed(n) + post;
    var d := if n < 0 then Digits(-n) else Digits(n);
    assert s[Sign(s)..] == d + post;
    DigitsTaken(d, post);
    assert s[|Signed(n)|..] == post by { Cut(Signed(n), post); }
  }

  lemma {:induction false} DigitsLocal(s: string, post: string)
    requires NoDigit(post)
    ensures TakeDigits(s + post) == TakeDigits(s)
  {
    if s == "" {
      assert s + post == post;
    } else {
      DigitsLocal(s[1..], post);
      assert (s + post)[1..] == s[1..] + post;
    }
  }

  lemma FractionLocal(s: string, post: string)
    requires EndsNumber(post) && (s == "." ==> post == "" || !IsDigit(post[0]))
    ensures FractionLength(s + post) == FractionLength(s)
  {
    if s != "" {
      assert (s + post)[1..] == s[1..] + post;
      DigitsLocal(s[1..], post);
    } else {
      assert s + post == post;
    }
  }

  lemma ExponentLocal(s: string, post: string)
    requires EndsNumber(post) && Delimited(post)
    ensures ExponentLength(s + post) == ExponentLength(s)
  {
    hide TakeDigits, AllDigits;
    if s == "" {
      assert s + post == post;
    } else if s[0] == 'e' || s[0] == 'E' {
      var t := s + post;
      assert |s| >= 2 ==> t[1] == s[1];
      assert |s| == 1 && |t| >= 2 ==> t[1] == post[0];
      var sign := if |s| >= 2 && (s[1] == '+' || s[1] == '-') then 1 else 0;
      assert t[1 + sign..] == s[1 + sign..] + post;
      DigitsLocal(s[1 + sign..], post);
    }
  }

  /** A number's parts do not depend on a delimiter behind it. */
  lemma PartsLocal(s: string, post: string)
    requires s != "" && Delimited(post)
    ensures PartsOf(s + post) == PartsOf(s)
  {
    hide TakeDigits, FractionLength, ExponentLength, AllDigits;
    var t := s + post;
    var sign := Sign(s);
    assert Sign(t) == sign;
    assert t[sign..] == s[sign..] + post;
    DigitsLocal(s[sign..], post);
    var whole := sign + |TakeDigits(s[sign..])|;
    assert t[whole..] == s[whole..] + post;
    FractionLocal(s[whole..], post);
    var fraction := FractionLength(s[whole..]);
    assert t[whole + fraction..] == s[whole + fraction..] + post;
    ExponentLocal(s[whole + fraction..], post);
  }

  // ---------------------------------------------------------------------
  // One item
  // ---------------------------------------------------------------------

  /** What reading `item` back should give, `post` standing behind it. */
  function Expected(item: Item, depth: nat, post: string): (r: Option<(Item, string)>) {
    if Readable(item, depth) then Some((item, post)) else None
  }

  lemma {:induction false} FirstCharacter(item: Item)
    requires Printable(item)
    ensures var s := Print(item);
            s != "" && !Json.IsSpace(s[0]) && s[0] != ']' && s[0] != '}' && s[0] != '.'
  {
    match item
    case Int(n) =>
    case Tag(tag, _) => assert IsDigit(Digits(tag)[0]);
    case ElidedTag(tag) => assert IsDigit(Digits(tag)[0]);
    case _ =>
  }

  /** An integer, up to whatever ends it: a delimiter or a tag's parenthesis. */
  lemma IntIsRead(n: int, post: string, depth: nat)
    requires -(I128_MAX as int) - 1 <= n <= I128_MAX && EndsNumber(post)
    ensures var t := Signed(n) + post;
            && (t[0] == '-' || IsDigit(t[0]))
            && ReadNumber(t, depth) == if post != "" && post[0] == '(' then ReadTag(n, SkipSpace(post[1..]), depth)
                                       else Some((Int(n), post))
  {
    hide PartsOf, ReadTag, SkipSpace, IsSigned;
    PartsOfInt(n, post);
    Cut(Signed(n), post);
    SignedRoundTrip(n);
    if n >= 0 { assert IsDigit(Digits(n)[0]); }
  }

  lemma FloatIsRead(literal: string, post: string, depth: nat)
    requires FloatLiteral(literal) && Delimited(post) && (literal[0] == '-' || IsDigit(literal[0]))
             && literal != "-Infinity"
    ensures ReadNumber(literal + post, depth) == Some((Float(literal), post))
  {
    hide PartsOf;
    PartsLocal(literal, post);
    Cut(literal, post);
    var p := PartsOf(literal);
    var last := p.whole + p.fraction + p.exponent;
    assert p.exponent > 0 ==> (literal + post)[last - 1] == literal[last - 1];
  }

  lemma {:induction false} NoInfinity(s: string)
    requires s != "" && (s[0] == '-' ==> |s| >= 2 ==> s[1] != 'I') && s[0] != 'I'
    ensures !("-Infinity" <= s)
  {
    if "-Infinity" <= s {
      InfinityStarts(s);
    }
  }

  lemma InfinityStarts(s: string)
    requires "-Infinity" <= s
    ensures |s| >= 2 && s[0] == '-' && s[1] == 'I'
  {
    assert s[1] == "-Infinity"[1];
  }

  /** A number literal goes on with digits or a point after its sign. */
  lemma NumberStart(s: string)
    requires s != "" && s[0] == '-' && PartsOf(s).whole + PartsOf(s).fraction + PartsOf(s).exponent == |s|
    ensures |s| >= 2 ==> s[1] != 'I'
  {
    if |s| >= 2 {
      assert s[1..][0] == s[1];
    }
  }

  lemma NumberIsRead(item: Item, post: string, depth: nat)
    requires (item.Int? || item.Float?) && Printable(item) && Delimited(post) && depth <= MAX_DEPTH
    ensures ReadItem(Print(item) + post, depth) == Some((item, post))
  {
    hide ReadNumber, ReadItems, ReadEntries, ReadText, PartsOf;
    var t := Print(item) + post;
    FirstCharacter(item);
    NoSpace(t);
    if item.Int? {
      IntIsRead(item.n, post, depth);
      SignStart(item.n, post);
      NoInfinity(t);
    } else {
      Cut(item.literal, post);
      WordOrNumber(item.literal, post, depth);
    }
  }

  lemma SignStart(n: int, post: string)
    ensures var t := Signed(n) + post;
            t != "" && (t[0] == '-' ==> |t| >= 2 ==> t[1] != 'I') && t[0] != 'I'
  {
    if n < 0 {
      assert Signed(n)[1] == Digits(-n)[0];
      assert IsDigit(Digits(-n)[0]);
    } else {
      assert IsDigit(Digits(n)[0]);
    }
  }

  lemma WordOrNumber(literal: string, post: string, depth: nat)
    requires FloatLiteral(literal) && Delimited(post) && depth <= MAX_DEPTH
    ensures ReadItem(literal + post, depth) == Some((Float(literal), post))
  {
    hide ReadNumber, ReadItems, ReadEntries, ReadText, PartsOf;
    var t := literal + post;
    Cut(literal, post);
    NoSpace(t);
    if literal == "NaN" || literal == "Infinity" {
      NamedFloat(literal, post);
    } else if literal == "-Infinity" {
      assert "-Infinity" <= t;
    } else {
      FloatIsRead(literal, post, depth);
      if literal[0] == '-' {
        NumberStart(literal);
        assert |literal| >= 2 ==> t[1] == literal[1];
      }
      NoInfinity(t);
    }
  }

  lemma NamedFloat(literal: string, post: string)
    requires literal == "NaN" || literal == "Infinity"
    ensures ReadWord(literal + post) == Some((Float(literal), post))
  {
    Cut(literal, post);
    var t := literal + post;
    assert t[0] == literal[0];
    OtherWords(t, literal);
  }

  /** A word is none of the others. */
  lemma OtherWords(t: string, w: string)
    requires w != "" && w <= t
    ensures w[0] != 'h' ==> !("h'" <= t)
    ensures w[0] != 's' ==> !("simple(" <= t)
    ensures w[0] != 't' ==> !("true" <= t)
    ensures w[0] != 'f' ==> !("false" <= t)
    ensures w[0] != 'n' ==> !("null" <= t)
    ensures w[0] != 'u' ==> !("undefined" <= t)
    ensures w[0] != 'N' ==> !("NaN" <= t)
  {
    assert t[0] == w[0];
  }

  /** The number of a simple value, up to its closing parenthesis. */
  lemma NumberInParentheses(n: nat, post: string)
    ensures var u := Digits(n) + (")" + post);
            var d := TakeDigits(u);
            SkipSpace(u) == u && d == Digits(n) && Eat(u[|d|..], ')') == Some(post)
  {
    hide TakeDigits, Digits;
    var u := Digits(n) + (")" + post);
    assert IsDigit(Digits(n)[0]);
    NoSpace(u);
    DigitsTaken(Digits(n), ")" + post);
    Cut(Digits(n), ")" + post);
    NoSpace(")" + post);
    assert (")" + post)[1..] == post;
  }

  lemma SimpleIsRead(n: nat, post: string)
    requires n <= 255
    ensures ReadWord("simple(" + (Digits(n) + ")") + post) == Some((Simple(n), post))
  {
    hide TakeDigits, Digits, SkipSpace, Eat, NatOf, AllDigits, Before;
    var t := "simple(" + (Digits(n) + ")") + post;
    var u := Digits(n) + (")" + post);
    assert t == "simple(" + u;
    assert "simple(" <= t;
    OtherWords(t, "simple(");
    Cut("simple(", u);
    NumberInParentheses(n, post);
    DigitsRoundTrip(n);
  }

  lemma BytesAreRead(hex: string, content: seq<byte>, post: string)
    requires UnHex(hex) == Some(content) && '\'' !in hex
    ensures ReadWord("h'" + (hex + "'") + post) == Some((Bytes(content), post))
  {
    hide UnHex, Before;
    var t := "h'" + (hex + "'") + post;
    assert t == "h'" + (hex + (['\''] + post));
    assert "h'" <= t;
    Cut("h'", hex + (['\''] + post));
    BeforeQuote(hex, '\'', post);
    assert t == ("h'" + hex + "'") + post;
    Cut("h'" + hex + "'", post);
  }

  lemma ItemIsWord(t: string, depth: nat)
    requires t != "" && depth <= MAX_DEPTH && 'a' <= t[0] <= 'z'
    ensures ReadItem(t, depth) == ReadWord(t)
  {
    hide ReadNumber, ReadItems, ReadEntries, ReadText, ReadWord;
    NoSpace(t);
  }

  lemma WordIsRead(item: Item, post: string, depth: nat)
    requires (item.Bytes? || item.Bool? || item.Null? || item.Simple?) && Printable(item) && depth <= MAX_DEPTH
    ensures ReadItem(Print(item) + post, depth) == Some((item, post))
  {
    hide ReadItem, Hex, Digits;
    var t := Print(item) + post;
    ItemIsWord(t, depth);
    match item
    case Bytes(content) =>
      HexRoundTrip(content);
      HexHasNo(content, '\'');
      BytesAreRead(Hex(content), content, post);
    case Simple(n) => SimpleIsRead(n, post);
    case Bool(on) => PlainWord(item, post);
    case Null => PlainWord(item, post);
  }

  lemma PlainWord(item: Item, post: string)
    requires item.Bool? || item.Null?
    ensures ReadWord(Print(item) + post) == Some((item, post))
  {
    var t := Print(item) + post;
    Cut(Print(item), post);
    OtherWords(t, Print(item));
    assert Print(item) <= t;
  }

  lemma TextIsRead(text: string, post: string, depth: nat)
    requires depth <= MAX_DEPTH
    ensures ReadItem(Print(Text(text)) + post, depth) == Some((Text(text), post))
  {
    hide ReadNumber, ReadItems, ReadEntries, ReadText, ReadWord, Debugged;
    var t := Print(Text(text)) + post;
    assert t == "\"" + (Debugged(text) + ("\"" + post));
    NoSpace(t);
    DebuggedIsRead(text, post, "");
    assert t[1..] == Debugged(text) + ("\"" + post);
    assert "" + text == text;
  }

  // ---------------------------------------------------------------------
  // Nesting
  // ---------------------------------------------------------------------

  /** Any printed item, with anything behind it that may stand there. */
  lemma {:induction false} PrintedIsRead(item: Item, depth: nat, post: string)
    requires Printable(item) && Delimited(post)
    ensures ReadItem(Print(item) + post, depth) == Expected(item, depth, post)
    decreases item, 1, 0
  {
    hide ReadItem, Print;
    if depth > MAX_DEPTH {
      TooDeep(Print(item) + post, depth);
    } else {
      match item
      case Int(_) => NumberIsRead(item, post, depth);
      case Float(_) => NumberIsRead(item, post, depth);
      case Bytes(_) => WordIsRead(item, post, depth);
      case Bool(_) => WordIsRead(item, post, depth);
      case Null => WordIsRead(item, post, depth);
      case Simple(_) => WordIsRead(item, post, depth);
      case Text(text) => TextIsRead(text, post, depth);
      case Tag(tag, inner) => TagIsRead(tag, inner, post, depth);
      case Array(items) => ArrayIsRead(items, post, depth);
      case Map(entries) => MapIsRead(entries, post, depth);
      case ElidedTag(tag) => ElidedTagIsRefused(tag, post, depth);
      case ElidedArray => ElidedIsRefused(item, post, depth);
      case ElidedMap => ElidedIsRefused(item, post, depth);
    }
  }

  lemma TooDeep(s: string, depth: nat)
    requires depth > MAX_DEPTH
    ensures ReadItem(s, depth).None?
  {
  }

  lemma NotElided(s: string)
    requires s != "" && s[0] != '.'
    ensures !(ELISION <= s)
  {
  }

  lemma ElidedIsRefused(item: Item, post: string, depth: nat)
    requires item.ElidedArray? || item.ElidedMap?
    ensures ReadItem(Print(item) + post, depth).None?
  {
    hide ReadNumber, ReadText, ReadWord;
    var t := Print(item) + post;
    var close := if item.ElidedArray? then "]" else "}";
    NoSpace(t);
    assert t[1..] == ELISION + (close + post);
    NoSpace(t[1..]);
  }

  /** What stands from a tag's number on. */
  lemma TagStart(tag: nat, rest: string, depth: nat)
    requires tag <= U64_MAX && depth <= MAX_DEPTH
    requires rest == "" || !Json.IsSpace(rest[0])
    ensures ReadItem(Digits(tag) + ("(" + rest), depth) == ReadTag(tag, rest, depth)
  {
    hide ReadNumber, ReadTag, ReadItems, ReadEntries, ReadText, Digits;
    var t := Digits(tag) + ("(" + rest);
    assert t == Signed(tag) + ("(" + rest);
    assert IsDigit(Digits(tag)[0]);
    NoSpace(t);
    NoInfinity(t);
    IntIsRead(tag, "(" + rest, depth);
    assert ("(" + rest)[1..] == rest;
    NoSpace(rest);
  }

  lemma ElidedTagIsRefused(tag: nat, post: string, depth: nat)
    requires tag <= U64_MAX && depth <= MAX_DEPTH
    ensures ReadItem(Print(ElidedTag(tag)) + post, depth).None?
  {
    hide ReadItem, Digits;
    var rest := ELISION + (")" + post);
    assert Print(ElidedTag(tag)) + post == Digits(tag) + ("(" + rest);
    TagStart(tag, rest, depth);
    assert ELISION <= rest;
  }

  lemma {:induction false} TagIsRead(tag: nat, inner: Item, post: string, depth: nat)
    requires tag <= U64_MAX && Printable(inner) && depth <= MAX_DEPTH
    ensures ReadItem(Print(Tag(tag, inner)) + post, depth) == Expected(Tag(tag, inner), depth, post)
    decreases inner, 2, 0
  {
    hide ReadItem, Digits, SkipSpace;
    var rest := Print(inner) + (")" + post);
    assert Print(Tag(tag, inner)) + post == Digits(tag) + ("(" + rest);
    FirstCharacter(inner);
    TagStart(tag, rest, depth);
    NotElided(rest);
    PrintedIsRead(inner, depth + 1, ")" + post);
    NoSpace(")" + post);
    assert (")" + post)[1..] == post;
  }

  lemma {:induction false} ArrayIsRead(items: seq<Item>, post: string, depth: nat)
    requires (forall k | 0 <= k < |items| :: Printable(items[k])) && depth <= MAX_DEPTH
    ensures ReadItem(Print(Array(items)) + post, depth) == Expected(Array(items), depth, post)
    decreases items, 2, 0
  {
    hide ReadItems, ReadNumber, ReadText, ReadWord, PrintItems;
    var t := Print(Array(items)) + post;
    var u := PrintItems(items, true) + ("]" + post);
    assert t == "[" + u && t[1..] == u;
    NoSpace(t);
    ItemsStart(items, "]" + post);
    if items == [] {
      assert u == "]" + post && u[1..] == post;
      assert Array([]) == Array(items);
    } else {
      ItemsAreRead(items, [], post, depth);
      assert [] + items == items;
    }
  }

  lemma ItemsStart(items: seq<Item>, tail: string)
    requires forall k | 0 <= k < |items| :: Printable(items[k])
    requires tail != "" && tail[0] == ']'
    ensures var u := PrintItems(items, true) + tail;
            u != "" && SkipSpace(u) == u && (u[0] == ']' <==> items == []) && (items == [] ==> u == tail)
  {
    hide Print;
    if items != [] {
      FirstCharacter(items[0]);
    }
    NoSpace(PrintItems(items, true) + tail);
  }

  /** The space a separator leaves in front of an item is skipped. */
  lemma AfterSeparator(s: string, depth: nat, items: seq<Item>, entries: seq<Pair>)
    requires s != "" && !Json.IsSpace(s[0])
    ensures ReadItems(" " + s, depth, items) == ReadItems(s, depth, items)
    ensures ReadEntries(" " + s, depth, entries) == ReadEntries(s, depth, entries)
  {
    hide ReadItem;
    OneSpace(s);
    NoSpace(s);
  }

  lemma ItemsBehind(items: seq<Item>)
    ensures PrintItems(items, false) == if items == [] then "" else ", " + PrintItems(items, true)
  {
    hide Print;
    if items != [] {
      assert "" + (Print(items[0]) + PrintItems(items[1..], false)) == Print(items[0]) + PrintItems(items[1..], false);
    }
  }

  lemma EntriesBehind(entries: seq<Pair>)
    ensures PrintEntries(entries, false) == if entries == [] then "" else ", " + PrintEntries(entries, true)
  {
    hide PrintPair;
    if entries != [] {
      assert "" + (PrintPair(entries[0]) + PrintEntries(entries[1..], false))
          == PrintPair(entries[0]) + PrintEntries(entries[1..], false);
    }
  }

  lemma Regroup(a: string, rest: string, close: string)
    ensures ("" + (a + (", " + rest))) + close == a + ("," + (" " + (rest + close)))
    ensures ("" + (a + "")) + close == a + close
  {
    var left, right := ("" + (a + (", " + rest))) + close, a + ("," + (" " + (rest + close)));
    assert left == a + (", " + (rest + close));
    assert ", " + (rest + close) == "," + (" " + (rest + close));
  }

  lemma SplitItems(items: seq<Item>, post: string)
    requires items != []
    ensures PrintItems(items, true) + ("]" + post)
         == if |items| == 1 then Print(items[0]) + ("]" + post)
            else Print(items[0]) + ("," + (" " + (PrintItems(items[1..], true) + ("]" + post))))
  {
    hide Print;
    ItemsBehind(items[1..]);
    assert PrintItems(items, true) == "" + (Print(items[0]) + PrintItems(items[1..], false));
    hide PrintItems;
    Regroup(Print(items[0]), PrintItems(items[1..], true), "]" + post);
  }

  lemma {:induction false} ItemsAreRead(items: seq<Item>, done: seq<Item>, post: string, depth: nat)
    requires items != [] && (forall k | 0 <= k < |items| :: Printable(items[k])) && depth <= MAX_DEPTH
    ensures ReadItems(PrintItems(items, true) + ("]" + post), depth, done)
         == if forall k | 0 <= k < |items| :: Readable(items[k], depth + 1)
            then Some((Array(done + items), post)) else None
    decreases items, 1, 0
  {
    hide ReadItem, Print, PrintItems, Printable, Readable;
    var first := items[0];
    SplitItems(items, post);
    FirstCharacter(first);
    if |items| == 1 {
      LastItem(first, done, post, depth);
      assert items == [first];
    } else {
      var tail := PrintItems(items[1..], true) + ("]" + post);
      ItemsStart(items[1..], "]" + post);
      MoreItems(first, done, tail, depth);
      AfterSeparator(tail, depth, done + [first], []);
      ItemsAreRead(items[1..], done + [first], post, depth);
      assert done + [first] + items[1..] == done + items;
      assert (forall k | 0 <= k < |items| :: Readable(items[k], depth + 1))
         <==> Readable(first, depth + 1) && forall k | 0 <= k < |items[1..]| :: Readable(items[1..][k], depth + 1) by {
        AllOf(items, depth + 1);
      }
    }
  }

  lemma AllOf(items: seq<Item>, depth: nat)
    requires items != []
    ensures (forall k | 0 <= k < |items| :: Readable(items[k], depth))
       <==> Readable(items[0], depth) && forall k | 0 <= k < |items[1..]| :: Readable(items[1..][k], depth)
  {
    hide Readable;
    assert forall k | 1 <= k < |items| :: items[k] == items[1..][k - 1];
  }

  lemma {:induction false} LastItem(item: Item, done: seq<Item>, post: string, depth: nat)
    requires Printable(item) && depth <= MAX_DEPTH
    ensures ReadItems(Print(item) + ("]" + post), depth, done)
         == if Readable(item, depth + 1) then Some((Array(done + [item]), post)) else None
    decreases item, 2, 0
  {
    hide ReadItem, Print, Printable, Readable;
    var s := Print(item) + ("]" + post);
    FirstCharacter(item);
    NoSpace(s);
    NotElided(s);
    PrintedIsRead(item, depth + 1, "]" + post);
    NoSpace("]" + post);
    assert ("]" + post)[1..] == post;
  }

  lemma {:induction false} MoreItems(item: Item, done: seq<Item>, tail: string, depth: nat)
    requires Printable(item) && depth <= MAX_DEPTH
    ensures ReadItems(Print(item) + ("," + (" " + tail)), depth, done)
         == if Readable(item, depth + 1) then ReadItems(" " + tail, depth, done + [item]) else None
    decreases item, 2, 0
  {
    hide ReadItem, Print, Printable, Readable;
    var post := "," + (" " + tail);
    var s := Print(item) + post;
    FirstCharacter(item);
    NoSpace(s);
    NotElided(s);
    PrintedIsRead(item, depth + 1, post);
    NoSpace(post);
    assert post[1..] == " " + tail;
  }

  lemma {:induction false} MapIsRead(entries: seq<Pair>, post: string, depth: nat)
    requires (forall k | 0 <= k < |entries| :: PrintablePair(entries[k])) && depth <= MAX_DEPTH
    ensures ReadItem(Print(Map(entries)) + post, depth) == Expected(Map(entries), depth, post)
    decreases entries, 2, 0
  {
    hide ReadEntries, ReadNumber, ReadText, ReadWord, PrintEntries;
    var t := Print(Map(entries)) + post;
    var u := PrintEntries(entries, true) + ("}" + post);
    assert t == "{" + u && t[1..] == u;
    NoSpace(t);
    EntriesStart(entries, "}" + post);
    if entries == [] {
      assert u == "}" + post && u[1..] == post;
      assert Map([]) == Map(entries);
    } else {
      EntriesAreRead(entries, [], post, depth);
      assert [] + entries == entries;
    }
  }

  lemma EntriesStart(entries: seq<Pair>, tail: string)
    requires forall k | 0 <= k < |entries| :: PrintablePair(entries[k])
    requires tail != "" && tail[0] == '}'
    ensures var u := PrintEntries(entries, true) + tail;
            u != "" && SkipSpace(u) == u && (u[0] == '}' <==> entries == []) && (entries == [] ==> u == tail)
  {
    hide PrintPair, PrintablePair;
    if entries != [] {
      assert PrintablePair(entries[0]);
      PairStart(entries[0]);
    }
    NoSpace(PrintEntries(entries, true) + tail);
  }

  lemma PairStart(e: Pair)
    requires PrintablePair(e)
    ensures var s := PrintPair(e); s != "" && !Json.IsSpace(s[0]) && s[0] != '}'
  {
    hide Print, Printable;
    FirstCharacter(e.key);
  }

  lemma SplitEntries(entries: seq<Pair>, post: string)
    requires entries != []
    ensures PrintEntries(entries, true) + ("}" + post)
         == if |entries| == 1 then PrintPair(entries[0]) + ("}" + post)
            else PrintPair(entries[0]) + ("," + (" " + (PrintEntries(entries[1..], true) + ("}" + post))))
  {
    hide PrintPair;
    EntriesBehind(entries[1..]);
    assert PrintEntries(entries, true) == "" + (PrintPair(entries[0]) + PrintEntries(entries[1..], false));
    hide PrintEntries;
    Regroup(PrintPair(entries[0]), PrintEntries(entries[1..], true), "}" + post);
  }

  lemma {:induction false} EntriesAreRead(entries: seq<Pair>, done: seq<Pair>, post: string, depth: nat)
    requires entries != [] && (forall k | 0 <= k < |entries| :: PrintablePair(entries[k])) && depth <= MAX_DEPTH
    ensures ReadEntries(PrintEntries(entries, true) + ("}" + post), depth, done)
         == if forall k | 0 <= k < |entries| :: ReadablePair(entries[k], depth + 1)
            then Some((Map(done + entries), post)) else None
    decreases entries, 1, 0
  {
    hide ReadItem, PrintPair, PrintEntries, PrintablePair, ReadablePair;
    var first := entries[0];
    SplitEntries(entries, post);
    if |entries| == 1 {
      EntryIsRead(first, done, "}" + post, depth);
      NoSpace("}" + post);
      assert ("}" + post)[1..] == post;
      assert entries == [first];
    } else {
      var tail := PrintEntries(entries[1..], true) + ("}" + post);
      EntriesStart(entries[1..], "}" + post);
      EntryIsRead(first, done, "," + (" " + tail), depth);
      assert ("," + (" " + tail))[1..] == " " + tail;
      EntriesStartPlain(entries[1..], post);
      AfterSeparator(tail, depth, [], done + [first]);
      EntriesAreRead(entries[1..], done + [first], post, depth);
      assert done + [first] + entries[1..] == done + entries;
      AllPairs(entries, depth + 1);
    }
  }

  lemma EntriesStartPlain(entries: seq<Pair>, post: string)
    requires entries != [] && forall k | 0 <= k < |entries| :: PrintablePair(entries[k])
    ensures var tail := PrintEntries(entries, true) + ("}" + post); tail != "" && !Json.IsSpace(tail[0])
  {
    hide Print;
    FirstCharacter(entries[0].key);
  }

  lemma AllPairs(entries: seq<Pair>, depth: nat)
    requires entries != []
    ensures (forall k | 0 <= k < |entries| :: ReadablePair(entries[k], depth))
       <==> ReadablePair(entries[0], depth)
            && forall k | 0 <= k < |entries[1..]| :: ReadablePair(entries[1..][k], depth)
  {
    hide ReadablePair;
    assert forall k | 1 <= k < |entries| :: entries[k] == entries[1..][k - 1];
  }

  /** One entry and the comma or brace behind it. */
  lemma {:induction false} EntryIsRead(e: Pair, done: seq<Pair>, post: string, depth: nat)
    requires PrintablePair(e) && depth <= MAX_DEPTH && post != "" && (post[0] == ',' || post[0] == '}')
    ensures ReadEntries(PrintPair(e) + post, depth, done)
         == if !ReadablePair(e, depth + 1) then None
            else if post[0] == ',' then ReadEntries(post[1..], depth, done + [e])
            else Some((Map(done + [e]), post[1..]))
    decreases e, 2, 0
  {
    hide ReadItem, Print, Printable, Readable, SkipSpace;
    var s := PrintPair(e) + post;
    var valueText := Print(e.value) + post;
    var afterKey := ":" + (" " + valueText);
    assert s == Print(e.key) + afterKey;
    FirstCharacter(e.key);
    FirstCharacter(e.value);
    NoSpace(s);
    NotElided(s);
    PrintedIsRead(e.key, depth + 1, afterKey);
    NoSpace(afterKey);
    assert afterKey[1..] == " " + valueText;
    SpaceBefore(valueText, depth + 1);
    PrintedIsRead(e.value, depth + 1, post);
    NoSpace(post);
  }

  lemma SpaceBefore(s: string, depth: nat)
    requires s != "" && !Json.IsSpace(s[0])
    ensures ReadItem(" " + s, depth) == ReadItem(s, depth)
  {
    hide ReadItems, ReadEntries, ReadNumber, ReadText, ReadWord;
    OneSpace(s);
    NoSpace(s);
  }

  // ---------------------------------------------------------------------
  // Whole texts
  // ---------------------------------------------------------------------

  predicate IsComposite(item: Item) {
    item.Array? || item.Map? || item.Tag? || item.Simple? || item.ElidedTag? || item.ElidedArray? || item.ElidedMap?
  }

  lemma CompositeStart(item: Item)
    requires Printable(item)
    ensures StartsComposite(Print(item)) <==> IsComposite(item)
  {
    hide PartsOf;
    var s := Print(item);
    match item
    case Int(n) => IntStart(n);
    case Float(literal) => FloatStart(literal);
    case Simple(n) => assert "simple(" <= s;
    case Tag(tag, inner) => TagPrinted(tag, "(" + (Print(inner) + ")"));
    case ElidedTag(tag) => TagPrinted(tag, "(...)");
    case Bytes(_) => OtherWords(s, "h'");
    case Bool(on) => OtherWords(s, s);
    case Null => OtherWords(s, s);
    case _ => OtherWords(s, [s[0]]);
  }

  lemma IntStart(n: int)
    ensures !StartsComposite(Signed(n))
  {
    hide TakeDigits, Digits;
    var s := Signed(n);
    OtherWords(s, [s[0]]);
    if n >= 0 {
      assert IsDigit(s[0]);
      DigitsTaken(s, "");
      assert s + "" == s;
    }
  }

  /** Behind the whole digits of a float literal stands no parenthesis. */
  lemma AfterWhole(s: string)
    requires s != "" && IsDigit(s[0]) && PartsOf(s).fraction + PartsOf(s).exponent > 0
    ensures var d := |TakeDigits(s)|; d < |s| && s[d] != '('
  {
    hide TakeDigits;
    assert s[0..] == s;
    var rest := s[|TakeDigits(s)|..];
    assert rest != "" && (rest[0] == '.' || rest[0] == 'e' || rest[0] == 'E');
  }

  lemma FloatStart(literal: string)
    requires FloatLiteral(literal)
    ensures !StartsComposite(literal)
  {
    hide TakeDigits, PartsOf;
    OtherWords(literal, [literal[0]]);
    if IsDigit(literal[0]) {
      AfterWhole(literal);
    }
  }

  lemma TagPrinted(tag: nat, rest: string)
    requires rest != "" && rest[0] == '('
    ensures StartsComposite(Digits(tag) + rest)
  {
    hide TakeDigits;
    DigitsTaken(Digits(tag), rest);
    assert IsDigit(Digits(tag)[0]);
  }

  /** Reading what was printed: the item itself, exactly when it is composite,
      nothing in it is elided and it nests within the bound. */
  lemma ParsePrinted(item: Item)
    requires Printable(item)
    ensures ParseComposite(Print(item)) == if IsComposite(item) && Readable(item, 0) then Some(item) else None
  {
    hide ReadItem, Print, Printable, Readable, StartsComposite;
    var s := Print(item);
    FirstCharacter(item);
    NoSpace(s);
    CompositeStart(item);
    PrintedIsRead(item, 0, "");
    assert s + "" == s;
    NoSpace("");
  }

  // ---------------------------------------------------------------------
  // Spellings the printer does not use
  // ---------------------------------------------------------------------

  /** Space before an item is passed over. */
  lemma SpaceIsSkipped(space: char, s: string, depth: nat)
    requires space in {' ', '\t', '\n', '\r'}
    ensures ReadItem([space] + s, depth) == ReadItem(s, depth)
  {
    hide ReadText, ReadNumber, ReadWord, ReadItems, ReadEntries;
    assert ([space] + s)[1..] == s;
    assert SkipSpace([space] + s) == SkipSpace(s);
  }

  /** The bytes may be spelled in either case, each digit by itself. */
  lemma AnyHexIsRead(hex: string, content: seq<byte>, post: string, depth: nat)
    requires SpellsBytes(hex, content) && depth <= MAX_DEPTH
    ensures ReadItem("h'" + (hex + "'") + post, depth) == Some((Bytes(content), post))
  {
    hide ReadWord, SpellsBytes;
    HexExactly(hex, content);
    HexIsPlain(hex);
    BytesAreRead(hex, content, post);
    ItemIsWord("h'" + (hex + "'") + post, depth);
  }

  lemma {:induction false} HexIsPlain(hex: string)
    requires UnHex(hex).Some?
    ensures '\'' !in hex
    decreases |hex|
  {
    if hex != "" {
      HexIsPlain(hex[2..]);
      assert hex == [hex[0], hex[1]] + hex[2..];
    }
  }

  /** There is no item for an undefined value; it is read as null. */
  lemma UndefinedIsNull(post: string, depth: nat)
    requires depth <= MAX_DEPTH
    ensures ReadItem("undefined" + post, depth) == Some((Null, post))
  {
    hide ReadText, ReadNumber, ReadItems, ReadEntries;
    var s := "undefined" + post;
    NoSpace(s);
    assert s[0] == 'u' && s[9..] == post && "undefined" <= s;
  }
}
