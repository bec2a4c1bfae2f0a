/** Diagnostic notation (section 8 of RFC 8949) for composite map keys: what the
    validator prints, and the reader that takes it back. */
module Diagnostic {
  import opened Wire
  import opened Text
  import Json

  const MAX_DEPTH: nat := 32
  const I128_MAX: nat := 0x7FFF_FFFF_FFFF_FFFF_FFFF_FFFF_FFFF_FFFF

  /** A data item; a float is kept as its literal. The elided forms stand for
      nesting the printer left out. */
  datatype Item =
    | Int(n: int)
    | Bytes(content: seq<byte>)
    | Text(text: string)
    | Float(literal: string)
    | Bool(on: bool)
    | Null
    | Simple(number: nat)
    | Tag(tag: nat, inner: Item)
    | Array(items: seq<Item>)
    | Map(entries: seq<Pair>)
    | ElidedTag(tag: nat)
    | ElidedArray
    | ElidedMap

  datatype Pair = Pair(key: Item, value: Item)

  // ---------------------------------------------------------------------
  // Scanning
  // ---------------------------------------------------------------------

  function SkipSpace(s: string): (t: string)
    ensures |t| <= |s|
  {
    Json.SkipSpace(s)
  }

  /** The digits at the front of `s`. */
  function TakeDigits(s: string): (d: string)
    ensures |d| <= |s| && d == s[..|d|] && AllDigits(d)
    ensures |d| < |s| ==> !IsDigit(s[|d|])
  {
    if s != "" && IsDigit(s[0]) then [s[0]] + TakeDigits(s[1..]) else ""
  }

  /** What stands before the first `c`, and what after it. */
  function Before(s: string, c: char): (r: Option<string>)
    ensures r.Some? ==> |r.value| < |s| && r.value == s[..|r.value|] && s[|r.value|] == c
  {
    if s == "" then None
    else if s[0] == c then Some("")
    else
      match Before(s[1..], c)
      case None => None
      case Some(rest) => Some([s[0]] + rest)
  }

  /** `c`, after any space. */
  function Eat(s: string, c: char): (r: Option<string>)
    ensures r.Some? ==> |r.value| < |s|
  {
    var t := SkipSpace(s);
    if t != "" && t[0] == c then Some(t[1..]) else None
  }

  function Unsigned(d: string, limit: nat): (r: Option<nat>) {
    if d != "" && AllDigits(d) && NatOf(d) <= limit then Some(NatOf(d)) else None
  }

  // ---------------------------------------------------------------------
  // Text
  // ---------------------------------------------------------------------

  function HexNat(s: string): (r: Option<nat>) {
    if s == "" then Some(0)
    else
      match HexNat(s[..|s| - 1])
      case None => None
      case Some(n) => if HexValue(s[|s| - 1]).None? then None else Some(16 * n + HexValue(s[|s| - 1]).value)
  }

  /** A scalar value in hexadecimal, an explicit plus sign allowed. */
  function CodePoint(s: string): (r: Option<char>) {
    var digits := if s != "" && s[0] == '+' then s[1..] else s;
    var n := if digits == "" then None else HexNat(digits);
    if n.None? || (0xD800 <= n.value < 0xE000) || n.value > 0x10FFFF then None else Some(n.value as char)
  }

  /** What an escape stands for, from just after the backslash on. */
  function ReadEscape(s: string): (r: Option<(string, string)>)
    ensures r.Some? ==> |r.value.1| < |s|
  {
    if s == "" then None
    else if s[0] == '"' || s[0] == '\\' || s[0] == '\'' then Some(([s[0]], s[1..]))
    else if s[0] == 'n' then Some(("\n", s[1..]))
    else if s[0] == 't' then Some(("\t", s[1..]))
    else if s[0] == 'r' then Some(("\r", s[1..]))
    else if s[0] == '0' then Some(("\0", s[1..]))
    else if s[0] == 'u' then
      match Eat(s[1..], '{')
      case None => None
      case Some(t) =>
        match Before(t, '}')
        case None => None
        case Some(digits) =>
          match CodePoint(digits)
          case None => None
          case Some(c) => Some(([c], t[|digits| + 1..]))
    else Some((['\\', s[0]], s[1..]))
  }

  /** The rest of a quoted text, from inside the quotes on. */
  function ReadText(s: string, out: string): (r: Option<(Item, string)>)
    ensures r.Some? ==> |r.value.1| < |s|
    decreases |s|
  {
    if s == "" then None
    else if s[0] == '"' then Some((Text(out), s[1..]))
    else if s[0] == '\\' then
      match ReadEscape(s[1..])
      case None => None
      case Some((c, rest)) => ReadText(rest, out + c)
    else ReadText(s[1..], out + [s[0]])
  }

  // ---------------------------------------------------------------------
  // Numbers
  // ---------------------------------------------------------------------

  function Sign(s: string): (n: nat)
    ensures n <= |s|
  {
    if s != "" && s[0] == '-' then 1 else 0
  }

  /** The length of a fraction at the front of `s`: a point and its digits. */
  function FractionLength(s: string): (n: nat)
    ensures n <= |s| && n != 1
  {
    if |s| >= 2 && s[0] == '.' && IsDigit(s[1]) then 1 + |TakeDigits(s[1..])| else 0
  }

  /** The length of an exponent at the front of `s`; its digits may be missing. */
  function ExponentLength(s: string): (n: nat)
    ensures n <= |s|
  {
    if s != "" && (s[0] == 'e' || s[0] == 'E') then
      var sign := if |s| >= 2 && (s[1] == '+' || s[1] == '-') then 1 else 0;
      1 + sign + |TakeDigits(s[1 + sign..])|
    else 0
  }

  /** A number's parts by length: sign and whole digits, fraction, exponent. */
  datatype Parts = Parts(whole: nat, fraction: nat, exponent: nat)

  function PartsOf(s: string): (p: Parts)
    ensures p.whole + p.fraction + p.exponent <= |s| && Sign(s) <= p.whole
  {
    var whole := Sign(s) + |TakeDigits(s[Sign(s)..])|;
    var fraction := FractionLength(s[whole..]);
    Parts(whole, fraction, ExponentLength(s[whole + fraction..]))
  }

  /** A float literal has a digit before its exponent, and one in it. */
  predicate IsFloat(s: string, p: Parts)
    requires p == PartsOf(s)
  {
    && (p.whole > Sign(s) || p.fraction > 0)
    && (p.exponent > 0 ==> IsDigit(s[p.whole + p.fraction + p.exponent - 1]))
  }

  function ReadInt(s: string): (r: Option<int>) {
    if !IsSigned(s) then None
    else if -(I128_MAX as int) - 1 <= IntOf(s) <= I128_MAX then Some(IntOf(s))
    else None
  }

  // ---------------------------------------------------------------------
  // Items
  // ---------------------------------------------------------------------

  const ELISION := "..."

  /** The item at the front of `s`, and what follows it. */
  function ReadItem(s: string, depth: nat): (r: Option<(Item, string)>)
    ensures r.Some? ==> |r.value.1| < |s|
    decreases |s|, 2
  {
    var t := SkipSpace(s);
    if depth > MAX_DEPTH || t == "" then None
    else if t[0] == '[' then
      var u := SkipSpace(t[1..]);
      if u == "" then None
      else if u[0] == ']' then Some((Array([]), u[1..]))
      else ReadItems(u, depth, [])
    else if t[0] == '{' then
      var u := SkipSpace(t[1..]);
      if u == "" then None
      else if u[0] == '}' then Some((Map([]), u[1..]))
      else ReadEntries(u, depth, [])
    else if t[0] == '"' then ReadText(t[1..], "")
    else if t[0] == '-' || IsDigit(t[0]) then
      if "-Infinity" <= t then Some((Float("-Infinity"), t[9..])) else ReadNumber(t, depth)
    else ReadWord(t)
  }

  /** An item that starts with a letter. */
  function ReadWord(t: string): (r: Option<(Item, string)>)
    ensures r.Some? ==> |r.value.1| < |t|
  {
    if "h'" <= t then
      match Before(t[2..], '\'')
      case None => None
      case Some(hex) =>
        match UnHex(hex)
        case None => None
        case Some(content) => Some((Bytes(content), t[3 + |hex|..]))
    else if "simple(" <= t then
      var u := SkipSpace(t[7..]);
      var d := TakeDigits(u);
      match Eat(u[|d|..], ')')
      case None => None
      case Some(rest) => if Unsigned(d, 255).Some? then Some((Simple(Unsigned(d, 255).value), rest)) else None
    else if "true" <= t then Some((Bool(true), t[4..]))
    else if "false" <= t then Some((Bool(false), t[5..]))
    else if "null" <= t then Some((Null, t[4..]))
    else if "undefined" <= t then Some((Null, t[9..]))
    else if "NaN" <= t then Some((Float("NaN"), t[3..]))
    else if "Infinity" <= t then Some((Float("Infinity"), t[8..]))
    else None
  }

  function ReadItems(s: string, depth: nat, items: seq<Item>): (r: Option<(Item, string)>)
    ensures r.Some? ==> |r.value.1| < |s|
    decreases |s|, 3
  {
    var t := SkipSpace(s);
    if ELISION <= t then None
    else
      match ReadItem(t, depth + 1)
      case None => None
      case Some((item, u)) =>
        var v := SkipSpace(u);
        if v == "" then None
        else if v[0] == ',' then ReadItems(v[1..], depth, items + [item])
        else if v[0] == ']' then Some((Array(items + [item]), v[1..]))
        else None
  }

  function ReadEntries(s: string, depth: nat, entries: seq<Pair>): (r: Option<(Item, string)>)
    ensures r.Some? ==> |r.value.1| < |s|
    decreases |s|, 3
  {
    var t := SkipSpace(s);
    if ELISION <= t then None
    else
      match ReadItem(t, depth + 1)
      case None => None
      case Some((key, u)) =>
        match Eat(u, ':')
        case None => None
        case Some(v) =>
          match ReadItem(v, depth + 1)
          case None => None
          case Some((value, w)) =>
            var x := SkipSpace(w);
            if x == "" then None
            else if x[0] == ',' then ReadEntries(x[1..], depth, entries + [Pair(key, value)])
            else if x[0] == '}' then Some((Map(entries + [Pair(key, value)]), x[1..]))
            else None
  }

  /** A float, an integer, or the tag an integer before a parenthesis is. */
  function ReadNumber(t: string, depth: nat): (r: Option<(Item, string)>)
    requires t != "" && (t[0] == '-' || IsDigit(t[0]))
    ensures r.Some? ==> |r.value.1| < |t|
    decreases |t|, 1
  {
    var p := PartsOf(t);
    var rest := t[p.whole + p.fraction + p.exponent..];
    if p.fraction + p.exponent > 0 then
      if IsFloat(t, p) then Some((Float(t[..p.whole + p.fraction + p.exponent]), rest)) else None
    else
      match ReadInt(t[..p.whole])
      case None => None
      case Some(n) =>
        if rest != "" && rest[0] == '(' then ReadTag(n, SkipSpace(rest[1..]), depth) else Some((Int(n), rest))
  }

  function ReadTag(n: int, s: string, depth: nat): (r: Option<(Item, string)>)
    ensures r.Some? ==> |r.value.1| < |s|
    decreases |s|, 3
  {
    if ELISION <= s then None
    else
      match ReadItem(s, depth + 1)
      case None => None
      case Some((inner, u)) =>
        match Eat(u, ')')
        case None => None
        case Some(rest) => if 0 <= n <= U64_MAX then Some((Tag(n, inner), rest)) else None
  }

  /** Arrays, maps, tagged items and simple values are composite. */
  predicate StartsComposite(t: string) {
    t != "" &&
    (t[0] == '[' || t[0] == '{' || "simple(" <= t
     || (IsDigit(t[0]) && |TakeDigits(t)| < |t| && t[|TakeDigits(t)|] == '('))
  }

  /** The composite item the whole text denotes. */
  function ParseComposite(s: string): (r: Option<Item>) {
    var t := SkipSpace(s);
    if !StartsComposite(t) then None
    else
      match ReadItem(t, 0)
      case None => None
      case Some((item, rest)) => if SkipSpace(rest) == "" then Some(item) else None
  }
}
