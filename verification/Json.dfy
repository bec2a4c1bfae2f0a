/** JSON values, the text the recursive writer gives them, and a reader of JSON
    text (RFC 8259) that unboxes the number token. */
module Json {
  import opened Wire
  import opened Text

  /** An integer, or a number written with a fraction or an exponent: that one is
      kept as its token, as the tree keeps it. */
  datatype Number = Int(value: int) | Frac(token: string)

  datatype Value =
    | Null
    | Bool(b: bool)
    | Num(n: Number)
    | Str(s: string)
    | Arr(items: seq<Value>)
    | Obj(entries: seq<Entry>)

  datatype Entry = Entry(key: string, value: Value)

  /** The key under which a number JavaScript cannot take is written. */
  const NUMBER_TOKEN := "$serde_json::private::Number"

  const MAX_SAFE_INTEGER: nat := 0x1F_FFFF_FFFF_FFFF

  // ---------------------------------------------------------------------
  // Number tokens
  // ---------------------------------------------------------------------

  function DropDigits(s: string): (t: string)
    ensures |t| <= |s|
  {
    if s != "" && IsDigit(s[0]) then DropDigits(s[1..]) else s
  }

  /** What is left of a number token after its integer part. */
  function AfterInteger(s: string): (t: Option<string>)
    ensures t.Some? ==> |t.value| <= |s|
  {
    var d := if s != "" && s[0] == '-' then s[1..] else s;
    if d == "" || !IsDigit(d[0]) then None
    else if d[0] == '0' then Some(d[1..])
    else Some(DropDigits(d))
  }

  function AfterFraction(s: string): (t: Option<string>)
    ensures t.Some? ==> |t.value| <= |s|
  {
    if s == "" || s[0] != '.' then Some(s)
    else if |s| < 2 || !IsDigit(s[1]) then None
    else Some(DropDigits(s[1..]))
  }

  function AfterExponent(s: string): (t: Option<string>) {
    if s == "" || (s[0] != 'e' && s[0] != 'E') then Some(s)
    else
      var d := if |s| > 1 && (s[1] == '+' || s[1] == '-') then s[2..] else s[1..];
      if d == "" || !IsDigit(d[0]) then None else Some(DropDigits(d))
  }

  /** The number grammar of RFC 8259, section 6. */
  predicate IsNumberToken(s: string) {
    var a := AfterInteger(s);
    a.Some? &&
    var b := AfterFraction(a.value);
    b.Some? && AfterExponent(b.value) == Some("")
  }

  /** The digits of `s`, whatever stands between them, as one number. */
  function DigitsIn(s: string): (n: nat) {
    if s == "" then 0
    else
      var front, c := s[..|s| - 1], s[|s| - 1];
      if IsDigit(c) then 10 * DigitsIn(front) + (c as int - '0' as int) else DigitsIn(front)
  }

  function Pow10(n: nat): (p: nat)
    ensures p > 0
  {
    if n == 0 then 1 else 10 * Pow10(n - 1)
  }

  function Squared(n: nat): (s: nat) {
    n * n
  }

  /** The least magnitude that rounds past the largest finite binary64: half a unit
      of its last place above it, 2^1024 - 2^970. */
  function RoundsToInfinity(): (limit: nat) {
    var to128 := Squared(0x1_0000_0000_0000_0000);
    var to256 := Squared(to128);
    var to960 := Squared(to256) * (to256 * (to128 * 0x1_0000_0000_0000_0000));
    0x3F_FFFF_FFFF_FFFF * (0x400 * to960)
  }

  /** A number token a binary64 can take without becoming infinite: its digits,
      shifted by its exponent and its places, stay below the limit. */
  predicate FitsBinary64(token: string) {
    IsNumberToken(token) &&
    var a := AfterInteger(token).value;
    var b := AfterFraction(a).value;
    var digits := DigitsIn(token[..|token| - |b|]);
    var places := if |b| < |a| then |a| - |b| - 1 else 0;
    var scale := (if |b| > 1 && b[1] == '-' then -(DigitsIn(b) as int) else DigitsIn(b)) - places;
    if scale >= 0 then digits * Pow10(scale) < RoundsToInfinity() else digits < RoundsToInfinity() * Pow10(-scale)
  }

  // ---------------------------------------------------------------------
  // Writing
  // ---------------------------------------------------------------------

  predicate NeedsEscape(c: char) {
    c == '\"' || c == '\\' || c < ' '
  }

  /** How one character stands inside a string literal. */
  function EscapeChar(c: char): (s: string)
    ensures |s| > 0
  {
    if c == '\"' then "\\\""
    else if c == '\\' then "\\\\"
    else if c as int == 8 then "\\b"
    else if c as int == 12 then "\\f"
    else if c == '\n' then "\\n"
    else if c == '\r' then "\\r"
    else if c == '\t' then "\\t"
    else if c < ' ' then "\\u00" + [HexChar(c as int / 16), HexChar(c as int % 16)]
    else [c]
  }

  function Escaped(s: string): (t: string) {
    if s == "" then "" else EscapeChar(s[0]) + Escaped(s[1..])
  }

  function Quote(s: string): (t: string) {
    "\"" + Escaped(s) + "\""
  }

  function NumberText(n: Number): (s: string) {
    match n
    case Int(i) => Signed(i)
    case Frac(token) => token
  }

  /** An integer that a JavaScript number reads back exactly, or a fraction that it
      reads back as a finite number. */
  predicate Exact(n: Number) {
    match n
    case Int(i) => -(MAX_SAFE_INTEGER as int) <= i <= MAX_SAFE_INTEGER
    case Frac(token) => FitsBinary64(token)
  }

  function WriteNumber(n: Number, boxing: bool): (s: string) {
    if !boxing || Exact(n) then NumberText(n)
    else "{\"" + NUMBER_TOKEN + "\":\"" + NumberText(n) + "\"}"
  }

  /** `v` as compact JSON text. With `boxing`, a number JavaScript cannot take is
      written as a one-entry object around its text. */
  function Write(v: Value, boxing: bool): (s: string)
    decreases v, 0
  {
    match v
    case Null => "null"
    case Bool(b) => if b then "true" else "false"
    case Num(n) => WriteNumber(n, boxing)
    case Str(s) => Quote(s)
    case Arr(items) => "[" + (WriteItems(items, true, boxing) + "]")
    case Obj(entries) => "{" + (WriteEntries(entries, true, boxing) + "}")
  }

  function Comma(first: bool): (s: string) {
    if first then "" else ","
  }

  function WriteItems(items: seq<Value>, first: bool, boxing: bool): (s: string)
    decreases items
  {
    if items == [] then "" else Comma(first) + (Write(items[0], boxing) + WriteItems(items[1..], false, boxing))
  }

  function WriteEntry(e: Entry, boxing: bool): (s: string)
    decreases e, 1
  {
    Quote(e.key) + (":" + Write(e.value, boxing))
  }

  function WriteEntries(entries: seq<Entry>, first: bool, boxing: bool): (s: string)
    decreases entries
  {
    if entries == [] then ""
    else Comma(first) + (WriteEntry(entries[0], boxing) + WriteEntries(entries[1..], false, boxing))
  }

  // ---------------------------------------------------------------------
  // Reading
  // ---------------------------------------------------------------------

  predicate IsSpace(c: char) {
    c == ' ' || c == '\t' || c == '\n' || c == '\r'
  }

  function SkipSpace(s: string): (t: string)
    ensures |t| <= |s|
  {
    if s != "" && IsSpace(s[0]) then SkipSpace(s[1..]) else s
  }

  predicate StartsWith(s: string, prefix: string) {
    prefix <= s
  }

  /** The character an escape after the backslash stands for, and what follows
      it. Escapes of UTF-16 surrogates are not read. */
  function ReadEscape(s: string): (r: Option<(char, string)>)
    ensures r.Some? ==> |r.value.1| < |s|
  {
    if s == "" then None
    else if s[0] == '\"' || s[0] == '\\' || s[0] == '/' then Some((s[0], s[1..]))
    else if s[0] == 'b' then Some((8 as char, s[1..]))
    else if s[0] == 'f' then Some((12 as char, s[1..]))
    else if s[0] == 'n' then Some(('\n', s[1..]))
    else if s[0] == 'r' then Some(('\r', s[1..]))
    else if s[0] == 't' then Some(('\t', s[1..]))
    else if s[0] == 'u' && |s| >= 5 && (forall i | 1 <= i < 5 :: HexValue(s[i]).Some?) then
      var code := 4096 * HexValue(s[1]).value + 256 * HexValue(s[2]).value + 16 * HexValue(s[3]).value
        + HexValue(s[4]).value;
      if 0xD800 <= code < 0xE000 then None else Some((code as char, s[5..]))
    else None
  }

  /** The text of a string literal after its opening quote. */
  function ReadChars(s: string): (r: Option<(string, string)>)
    ensures r.Some? ==> |r.value.1| < |s|
    decreases |s|
  {
    if s == "" || s[0] < ' ' then None
    else if s[0] == '\"' then Some(("", s[1..]))
    else
      var first := if s[0] == '\\' then ReadEscape(s[1..]) else Some((s[0], s[1..]));
      if first.None? then None
      else
        match ReadChars(first.value.1)
        case None => None
        case Some((t, rest)) => Some(([first.value.0] + t, rest))
  }

  predicate IsNumberChar(c: char) {
    IsDigit(c) || c == '-' || c == '+' || c == '.' || c == 'e' || c == 'E'
  }

  /** How many characters a number can go on for. */
  function NumberRun(s: string): (n: nat)
    ensures n <= |s|
  {
    if s == "" || !IsNumberChar(s[0]) then 0 else 1 + NumberRun(s[1..])
  }

  function NumberOf(token: string): (n: Number) {
    if IsSigned(token) then Int(IntOf(token)) else Frac(token)
  }

  predicate IsBox(entries: seq<Entry>) {
    |entries| == 1 && entries[0].key == NUMBER_TOKEN && entries[0].value.Str? && IsNumberToken(entries[0].value.s)
  }

  /** The value an object read with `entries` stands for. */
  function Unboxed(entries: seq<Entry>): (v: Value) {
    if IsBox(entries) then Num(NumberOf(entries[0].value.s)) else Obj(entries)
  }

  /** One value, after white space, and what follows it. */
  function ReadValue(s0: string): (r: Option<(Value, string)>)
    ensures r.Some? ==> |r.value.1| < |s0|
    decreases |s0|, 0
  {
    var s := SkipSpace(s0);
    if s == "" then None
    else if s[0] == '{' then
      var t := SkipSpace(s[1..]);
      if t != "" && t[0] == '}' then Some((Obj([]), t[1..]))
      else
        match ReadEntries(s[1..])
        case None => None
        case Some((entries, rest)) => Some((Unboxed(entries), rest))
    else if s[0] == '[' then
      var t := SkipSpace(s[1..]);
      if t != "" && t[0] == ']' then Some((Arr([]), t[1..]))
      else
        match ReadItems(s[1..])
        case None => None
        case Some((items, rest)) => Some((Arr(items), rest))
    else if s[0] == '\"' then
      match ReadChars(s[1..])
      case None => None
      case Some((text, rest)) => Some((Str(text), rest))
    else if StartsWith(s, "null") then Some((Null, s[4..]))
    else if StartsWith(s, "true") then Some((Bool(true), s[4..]))
    else if StartsWith(s, "false") then Some((Bool(false), s[5..]))
    else
      var n := NumberRun(s);
      if n > 0 && IsNumberToken(s[..n]) then Some((Num(NumberOf(s[..n])), s[n..])) else None
  }

  /** One or more items up to the closing bracket. */
  function ReadItems(s: string): (r: Option<(seq<Value>, string)>)
    ensures r.Some? ==> |r.value.1| < |s|
    decreases |s|, 1
  {
    match ReadValue(s)
    case None => None
    case Some((v, after)) =>
      var t := SkipSpace(after);
      if t == "" then None
      else if t[0] == ']' then Some(([v], t[1..]))
      else if t[0] != ',' then None
      else
        match ReadItems(t[1..])
        case None => None
        case Some((vs, rest)) => Some(([v] + vs, rest))
  }

  function ReadEntry(s0: string): (r: Option<(Entry, string)>)
    ensures r.Some? ==> |r.value.1| < |s0|
    decreases |s0|, 1
  {
    var s := SkipSpace(s0);
    if s == "" || s[0] != '\"' then None
    else
      match ReadChars(s[1..])
      case None => None
      case Some((key, after)) =>
        var t := SkipSpace(after);
        if t == "" || t[0] != ':' then None
        else
          match ReadValue(t[1..])
          case None => None
          case Some((v, rest)) => Some((Entry(key, v), rest))
  }

  /** One or more entries up to the closing brace. */
  function ReadEntries(s: string): (r: Option<(seq<Entry>, string)>)
    ensures r.Some? ==> |r.value.1| < |s|
    decreases |s|, 2
  {
    match ReadEntry(s)
    case None => None
    case Some((e, after)) =>
      var t := SkipSpace(after);
      if t == "" then None
      else if t[0] == '}' then Some(([e], t[1..]))
      else if t[0] != ',' then None
      else
        match ReadEntries(t[1..])
        case None => None
        case Some((es, rest)) => Some(([e] + es, rest))
  }

  /** `s` as exactly one JSON value. */
  function Read(s: string): (r: Option<Value>) {
    match ReadValue(s)
    case None => None
    case Some((v, rest)) => if SkipSpace(rest) == "" then Some(v) else None
  }

  // ---------------------------------------------------------------------
  // What the reader makes of a value's text
  // ---------------------------------------------------------------------

  /** A fraction's token is a number the integer reader does not take. */
  predicate Printable(v: Value)
    decreases v, 0
  {
    match v
    case Num(Frac(token)) =>
      IsNumberToken(token) && !IsSigned(token) && forall i | 0 <= i < |token| :: IsNumberChar(token[i])
    case Arr(items) => PrintableItems(items)
    case Obj(entries) => PrintableEntries(entries)
    case _ => true
  }

  predicate PrintableItems(items: seq<Value>)
    decreases items
  {
    items != [] ==> Printable(items[0]) && PrintableItems(items[1..])
  }

  predicate PrintableEntries(entries: seq<Entry>)
    decreases entries
  {
    entries != [] ==> Printable(entries[0].value) && PrintableEntries(entries[1..])
  }

  /** `v` with every object shaped like a boxed number read as that number. */
  function Collapse(v: Value): (r: Value)
    decreases v, 0
  {
    match v
    case Arr(items) => Arr(CollapseItems(items))
    case Obj(entries) => Unboxed(CollapseEntries(entries))
    case _ => v
  }

  function CollapseItems(items: seq<Value>): (r: seq<Value>)
    ensures |r| == |items|
    decreases items
  {
    if items == [] then [] else [Collapse(items[0])] + CollapseItems(items[1..])
  }

  function CollapseEntries(entries: seq<Entry>): (r: seq<Entry>)
    ensures |r| == |entries|
    decreases entries
  {
    if entries == [] then []
    else [Entry(entries[0].key, Collapse(entries[0].value))] + CollapseEntries(entries[1..])
  }

  /** No object anywhere in `v` is shaped like a boxed number. */
  predicate BoxFree(v: Value)
    decreases v, 0
  {
    match v
    case Arr(items) => BoxFreeItems(items)
    case Obj(entries) => !IsBox(entries) && BoxFreeEntries(entries)
    case _ => true
  }

  predicate BoxFreeItems(items: seq<Value>)
    decreases items
  {
    items != [] ==> BoxFree(items[0]) && BoxFreeItems(items[1..])
  }

  predicate BoxFreeEntries(entries: seq<Entry>)
    decreases entries
  {
    entries != [] ==> BoxFree(entries[0].value) && BoxFreeEntries(entries[1..])
  }

  lemma {:induction false} CollapseChangesOnlyBoxes(v: Value)
    ensures Collapse(v) == v <==> BoxFree(v)
    decreases v, 0
  {
    match v
    case Arr(items) => CollapseItemsChangeOnlyBoxes(items);
    case Obj(entries) =>
      CollapseEntriesChangeOnlyBoxes(entries);
      if IsBox(entries) {
        assert CollapseEntries(entries)[0].value == entries[0].value;
      }
    case _ =>
  }

  lemma {:induction false} CollapseItemsChangeOnlyBoxes(items: seq<Value>)
    ensures CollapseItems(items) == items <==> BoxFreeItems(items)
    decreases items
  {
    if items != [] {
      CollapseChangesOnlyBoxes(items[0]);
      CollapseItemsChangeOnlyBoxes(items[1..]);
      assert items == [items[0]] + items[1..];
      assert CollapseItems(items)[0] == Collapse(items[0]);
      assert CollapseItems(items)[1..] == CollapseItems(items[1..]);
    }
  }

  lemma {:induction false} CollapseEntriesChangeOnlyBoxes(entries: seq<Entry>)
    ensures CollapseEntries(entries) == entries <==> BoxFreeEntries(entries)
    decreases entries
  {
    if entries != [] {
      CollapseChangesOnlyBoxes(entries[0].value);
      CollapseEntriesChangeOnlyBoxes(entries[1..]);
      assert entries == [entries[0]] + entries[1..];
      assert CollapseEntries(entries)[0] == Entry(entries[0].key, Collapse(entries[0].value));
      assert CollapseEntries(entries)[1..] == CollapseEntries(entries[1..]);
    }
  }
}
