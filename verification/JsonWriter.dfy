/** JSON text written without recursion: the open containers are frames on a
    heap stack, and what they append is the recursive writer's text. */
module JsonWriter {
  import opened Wire
  import opened Text
  import opened Json

  /** The string the writer appends to. */
  class Output {
    var text: string

    constructor ()
      ensures text == ""
    {
      text := "";
    }

    method Append(s: string)
      modifies this
      ensures text == old(text) + s
    {
      text := text + s;
    }

    /** `s` as a string literal. Runs of characters that need no escape are
        copied as slices. */
    method WriteString(s: string)
      modifies this
      ensures text == old(text) + Quote(s)
    {
      hide EscapeChar;
      Append("\"");
      var start := 0;
      for i := 0 to |s|
        invariant start <= i
        invariant forall k | start <= k < i :: !NeedsEscape(s[k])
        invariant text + s[start..i] + Escaped(s[i..]) == old(text) + "\"" + Escaped(s)
      {
        assert s[i..][0] == s[i] && s[i..][1..] == s[i + 1..];
        ghost var rest := Escaped(s[i + 1..]);
        if NeedsEscape(s[i]) {
          assert text + s[start..i] + (EscapeChar(s[i]) + rest) == text + s[start..i] + EscapeChar(s[i]) + rest;
          Append(s[start..i]);
          WriteEscape(s[i]);
          start := i + 1;
          assert text + s[start..i + 1] == text;
        } else {
          PlainChar(s[i]);
          assert s[start..i + 1] == s[start..i] + [s[i]];
          assert text + s[start..i] + ([s[i]] + rest) == text + (s[start..i] + [s[i]]) + rest;
        }
      }
      assert s[|s|..] == "" && s[start..|s|] == s[start..];
      assert text + s[start..] + "" == text + s[start..];
      Append(s[start..]);
      Append("\"");
      assert old(text) + "\"" + Escaped(s) + "\"" == old(text) + Quote(s);
    }

    /** The escape of one character: a short one where there is one, four
        hexadecimal digits otherwise. */
    method WriteEscape(c: char)
      requires NeedsEscape(c)
      modifies this
      ensures text == old(text) + EscapeChar(c)
    {
      match c
      case '\"' => Append("\\\"");
      case '\\' => Append("\\\\");
      case '\n' => Append("\\n");
      case '\r' => Append("\\r");
      case '\t' => Append("\\t");
      case _ =>
        if c as int == 8 {
          Append("\\b");
        } else if c as int == 12 {
          Append("\\f");
        } else {
          Append("\\u00");
          Append([HexChar(c as int / 16)]);
          Append([HexChar(c as int % 16)]);
        }
    }

    /** The number's text, inside a box when `Exact` is false of it. */
    method WriteNumberInto(n: Number)
      modifies this
      ensures text == old(text) + WriteNumber(n, true)
    {
      if Exact(n) {
        Append(NumberText(n));
      } else {
        Append("{\"");
        Append(NUMBER_TOKEN);
        Append("\":\"");
        Append(NumberText(n));
        Append("\"}");
        BoxPieces(old(text), NUMBER_TOKEN, NumberText(n));
      }
    }

    method WriteScalar(v: Value)
      requires !v.Arr? && !v.Obj?
      modifies this
      ensures text == old(text) + Write(v, true)
    {
      match v
      case Null => Append("null");
      case Bool(b) => Append(if b then "true" else "false");
      case Num(n) => WriteNumberInto(n);
      case Str(s) => WriteString(s);
    }

    /** Scalars are written out; a container writes its bracket and gets a frame on
        top of the stack. */
    method StartValue(value: Value, stack: seq<Frame>) returns (grown: seq<Frame>)
      modifies this
      ensures text + Remaining(None, grown) == old(text) + Remaining(Some(value), stack)
      ensures Work(None, grown) < Work(Some(value), stack)
    {
      if value.Arr? {
        ArrayStarted(value.items, stack, text);
        Append("[");
        grown := stack + [ArrayFrame(value.items, true)];
      } else if value.Obj? {
        ObjectStarted(value.entries, stack, text);
        Append("{");
        grown := stack + [ObjectFrame(value.entries, true)];
      } else {
        ScalarStarted(value, stack, text);
        WriteScalar(value);
        grown := stack;
      }
    }

    /** Advance the innermost container to its next value, or close it. */
    method StepFrame(stack: seq<Frame>) returns (next: Option<Value>, left: seq<Frame>)
      requires stack != []
      modifies this
      ensures text + Remaining(next, left) == old(text) + Remaining(None, stack)
      ensures Work(next, left) < Work(None, stack)
    {
      hide Remaining, Work, Comma, Quote;
      var top := stack[|stack| - 1];
      var below := stack[..|stack| - 1];
      assert stack == below + [top];
      next := None;
      match top
      case ArrayFrame(items, first) =>
        ArrayStep(items, first, below, text);
        if items != [] {
          WriteComma(first);
          left := below + [ArrayFrame(items[1..], false)];
          next := Some(items[0]);
        } else {
          Append("]");
          left := below;
        }
      case ObjectFrame(entries, first) =>
        ObjectStep(entries, first, below, text);
        if entries != [] {
          WriteComma(first);
          WriteString(entries[0].key);
          Append(":");
          left := below + [ObjectFrame(entries[1..], false)];
          next := Some(entries[0].value);
        } else {
          Append("}");
          left := below;
        }
    }

    method WriteComma(first: bool)
      modifies this
      ensures text == old(text) + Comma(first)
    {
      if !first {
        Append(",");
      } else {
        assert text + "" == text;
      }
    }

    /** The text grows by the whole text of `root`. */
    method WriteJsonInto(root: Value)
      modifies this
      ensures text == old(text) + Write(root, true)
    {
      hide Remaining, Work, Write;
      var stack: seq<Frame> := [];
      var next := Some(root);
      OnlyRoot(root);
      while true
        invariant text + Remaining(next, stack) == old(text) + Write(root, true)
        decreases Work(next, stack)
      {
        if next.Some? {
          stack := StartValue(next.value, stack);
          next := None;
        }
        if stack == [] {
          NothingLeft(text);
          return;
        }
        next, stack := StepFrame(stack);
      }
    }
  }

  /** A bracket not yet closed, with the items or entries behind it; `first` says
      that no comma is due. */
  datatype Frame =
    | ArrayFrame(items: seq<Value>, first: bool)
    | ObjectFrame(entries: seq<Entry>, first: bool)

  /** What a frame still has to write, its closing bracket included. */
  function RestOfFrame(f: Frame): (s: string) {
    match f
    case ArrayFrame(items, first) => WriteItems(items, first, true) + "]"
    case ObjectFrame(entries, first) => WriteEntries(entries, first, true) + "}"
  }

  /** What the stack still has to write, innermost frame last. */
  function RestOf(stack: seq<Frame>): (s: string)
    decreases |stack|
  {
    if stack == [] then ""
    else RestOfFrame(stack[|stack| - 1]) + RestOf(stack[..|stack| - 1])
  }

  function Rest(next: Option<Value>): (s: string) {
    if next.None? then "" else Write(next.value, true)
  }

  /** What is still to be written: the value at hand, then the open frames. */
  function Remaining(next: Option<Value>, stack: seq<Frame>): (s: string) {
    Rest(next) + RestOf(stack)
  }

  function Work(next: Option<Value>, stack: seq<Frame>): (n: nat) {
    WeightOf(stack) + if next.Some? then Weight(next.value) else 0
  }

  /** Loop iterations a value is good for. */
  function Weight(v: Value): (n: nat)
    ensures n > 0
    decreases v, 0
  {
    match v
    case Arr(items) => 2 + WeightAll(items)
    case Obj(entries) => 2 + WeightEntries(entries)
    case _ => 1
  }

  function WeightAll(items: seq<Value>): (n: nat)
    decreases items
  {
    if items == [] then 0 else 1 + Weight(items[0]) + WeightAll(items[1..])
  }

  function WeightEntries(entries: seq<Entry>): (n: nat)
    decreases entries
  {
    if entries == [] then 0 else 1 + Weight(entries[0].value) + WeightEntries(entries[1..])
  }

  function WeightOf(stack: seq<Frame>): (n: nat)
    decreases |stack|
  {
    if stack == [] then 0
    else FrameWeight(stack[|stack| - 1]) + WeightOf(stack[..|stack| - 1])
  }

  function FrameWeight(f: Frame): (n: nat) {
    match f
    case ArrayFrame(items, _) => 1 + WeightAll(items)
    case ObjectFrame(entries, _) => 1 + WeightEntries(entries)
  }

  lemma PlainChar(c: char)
    requires !NeedsEscape(c)
    ensures EscapeChar(c) == [c]
  {
  }

  lemma BoxPieces(text: string, key: string, digits: string)
    ensures text + "{\"" + key + "\":\"" + digits + "\"}" == text + ("{\"" + key + "\":\"" + digits + "\"}")
  {
    assert text + "{\"" + key + "\":\"" + digits == text + ("{\"" + key + "\":\"" + digits);
  }

  lemma OnlyRoot(root: Value)
    ensures Remaining(Some(root), []) == Write(root, true)
  {
  }

  lemma NothingLeft(text: string)
    ensures text + Remaining(None, []) == text
  {
  }

  lemma PushFrame(below: seq<Frame>, top: Frame)
    ensures RestOf(below + [top]) == RestOfFrame(top) + RestOf(below)
    ensures WeightOf(below + [top]) == FrameWeight(top) + WeightOf(below)
  {
    assert (below + [top])[..|below|] == below;
  }

  lemma ScalarStarted(value: Value, below: seq<Frame>, text: string)
    requires !value.Arr? && !value.Obj?
    ensures text + Write(value, true) + Remaining(None, below) == text + Remaining(Some(value), below)
    ensures Work(None, below) < Work(Some(value), below)
  {
    hide RestOf, Write;
  }

  lemma ArrayStarted(items: seq<Value>, below: seq<Frame>, text: string)
    ensures var grown := below + [ArrayFrame(items, true)];
      && text + "[" + Remaining(None, grown) == text + Remaining(Some(Arr(items)), below)
      && Work(None, grown) < Work(Some(Arr(items)), below)
  {
    hide RestOf, WriteItems;
    PushFrame(below, ArrayFrame(items, true));
    OpenStep(text, "[", WriteItems(items, true, true), "]", RestOf(below));
  }

  lemma ObjectStarted(entries: seq<Entry>, below: seq<Frame>, text: string)
    ensures var grown := below + [ObjectFrame(entries, true)];
      && text + "{" + Remaining(None, grown) == text + Remaining(Some(Obj(entries)), below)
      && Work(None, grown) < Work(Some(Obj(entries)), below)
  {
    hide RestOf, WriteEntries;
    PushFrame(below, ObjectFrame(entries, true));
    OpenStep(text, "{", WriteEntries(entries, true, true), "}", RestOf(below));
  }

  /** The innermost array takes its next item, or closes. */
  lemma ArrayStep(items: seq<Value>, first: bool, below: seq<Frame>, text: string)
    ensures var stack := below + [ArrayFrame(items, first)];
      if items == [] then
        text + "]" + Remaining(None, below) == text + Remaining(None, stack) && Work(None, below) < Work(None, stack)
      else
        var next := below + [ArrayFrame(items[1..], false)];
        && text + Comma(first) + Remaining(Some(items[0]), next) == text + Remaining(None, stack)
        && Work(Some(items[0]), next) < Work(None, stack)
  {
    hide RestOf, Write;
    PushFrame(below, ArrayFrame(items, first));
    if items != [] {
      PushFrame(below, ArrayFrame(items[1..], false));
      ItemStep(text, Comma(first), Write(items[0], true), WriteItems(items[1..], false, true), RestOf(below));
    }
  }

  /** The innermost object takes its next entry, or closes. */
  lemma ObjectStep(entries: seq<Entry>, first: bool, below: seq<Frame>, text: string)
    ensures var stack := below + [ObjectFrame(entries, first)];
      if entries == [] then
        text + "}" + Remaining(None, below) == text + Remaining(None, stack) && Work(None, below) < Work(None, stack)
      else
        var next := below + [ObjectFrame(entries[1..], false)];
        && text + Comma(first) + Quote(entries[0].key) + ":" + Remaining(Some(entries[0].value), next)
           == text + Remaining(None, stack)
        && Work(Some(entries[0].value), next) < Work(None, stack)
  {
    hide RestOf, Write, Quote;
    PushFrame(below, ObjectFrame(entries, first));
    if entries != [] {
      PushFrame(below, ObjectFrame(entries[1..], false));
      EntryStep(text, Comma(first), Quote(entries[0].key), Write(entries[0].value, true),
                WriteEntries(entries[1..], false, true), RestOf(below));
      assert WriteEntries(entries, first, true)
          == Comma(first) + ((Quote(entries[0].key) + (":" + Write(entries[0].value, true)))
                             + WriteEntries(entries[1..], false, true));
    }
  }

  lemma OpenStep(text: string, bracket: string, content: string, close: string, rest: string)
    ensures text + bracket + ("" + ((content + close) + rest)) == text + ((bracket + (content + close)) + rest)
  {
  }

  lemma ItemStep(text: string, comma: string, item: string, others: string, rest: string)
    ensures text + comma + (item + ((others + "]") + rest)) == text + ("" + (((comma + (item + others)) + "]") + rest))
  {
  }

  lemma EntryStep(text: string, comma: string, key: string, item: string, others: string, rest: string)
    ensures text + comma + key + ":" + (item + ((others + "}") + rest))
         == text + ("" + (((comma + ((key + (":" + item)) + others)) + "}") + rest))
  {
    assert comma + ((key + (":" + item)) + others) == (comma + key + ":") + (item + others);
    assert ((comma + key + ":") + (item + others)) + "}" == (comma + key + ":") + (item + (others + "}"));
    assert ((comma + key + ":") + (item + (others + "}"))) + rest
      == (comma + key + ":") + (item + ((others + "}") + rest));
    assert text + (comma + key + ":") == text + comma + key + ":";
  }

  /** `value` as JSON text of its own. */
  method WriteJson(value: Value) returns (text: string)
    ensures text == Write(value, true)
  {
    var out := new Output();
    out.WriteJsonInto(value);
    text := out.text;
  }
}
