/** The JSON text of a native script: one loop over the pre-order array, with a
    stack of list ends, prints the recursive rendering; and that text read as
    JSON gives the script back. */
module ScriptJson {
  import opened Wire
  import opened Text
  import opened NativeScript
  import opened ScriptWalks
  import Json
  import JsonRoundTrip

  // ---------------------------------------------------------------------
  // The recursive rendering
  // ---------------------------------------------------------------------

  function Name(node: Node): (s: string) {
    match node
    case Pubkey(_) => "ScriptPubkey"
    case All => "ScriptAll"
    case Any => "ScriptAny"
    case NOfK(_) => "ScriptNOfK"
    case TimelockStart(_) => "TimelockStart"
    case TimelockExpiry(_) => "TimelockExpiry"
  }

  function Field(node: Node): (s: string)
    requires !HasList(node)
  {
    if node.Pubkey? then "addr_keyhash" else "slot"
  }

  function FieldText(node: Node): (s: string)
    requires !HasList(node)
  {
    match node
    case Pubkey(key) => Hex(key)
    case TimelockStart(slot) => Digits(slot)
    case TimelockExpiry(slot) => Digits(slot)
  }

  /** The whole text of a script without sub-scripts, such as
      `{"TimelockStart":{"slot":"5"}}`. */
  function LeafText(node: Node): (s: string)
    requires !HasList(node)
  {
    "{\"" + Name(node) + "\":{\"" + Field(node) + "\":\"" + FieldText(node) + "\"}}"
  }

  /** The text of a script up to its sub-scripts, such as
      `{"ScriptNOfK":{"n":2,"native_scripts":[`. */
  function OpenText(node: Node): (s: string)
    requires HasList(node)
  {
    "{\"" + Name(node) + "\":{" + (if node.NOfK? then "\"n\":" + Signed(node.n) + "," else "") + "\"native_scripts\":["
  }

  const CLOSE := "]}}"

  function Render(t: Script): (s: string)
    decreases t, 0
  {
    if HasList(t.node) then OpenText(t.node) + (RenderAll(t.subs, true) + CLOSE)
    else LeafText(t.node)
  }

  function RenderAll(ts: seq<Script>, first: bool): (s: string)
    decreases ts
  {
    if ts == [] then "" else Json.Comma(first) + (Render(ts[0]) + RenderAll(ts[1..], false))
  }

  /** Only the scripts that may have sub-scripts do. */
  predicate Shaped(t: Script)
    decreases t, 0
  {
    (!HasList(t.node) ==> t.subs == []) && ShapedAll(t.subs)
  }

  predicate ShapedAll(ts: seq<Script>)
    decreases ts
  {
    ts != [] ==> Shaped(ts[0]) && ShapedAll(ts[1..])
  }

  /** Every script that is read is shaped so. */
  lemma {:induction false} ReadScriptsAreShaped(bytes: seq<byte>, at: nat)
    requires Parse(bytes, at).Some?
    ensures Shaped(Parse(bytes, at).value.0)
    decreases |bytes| - at, 0
  {
    var p := ReadPrefix(bytes, at).value;
    if p.list.Some? {
      ReadListsAreShaped(bytes, p.pos, p.list.value);
    }
  }

  lemma {:induction false} ReadListsAreShaped(bytes: seq<byte>, at: nat, remaining: Option<nat>)
    requires at <= |bytes| && ParseSubs(bytes, at, remaining).Some?
    ensures ShapedAll(ParseSubs(bytes, at, remaining).value.0)
    decreases |bytes| - at, 1
  {
    var ts := ParseSubs(bytes, at, remaining).value.0;
    if ts != [] {
      ReadScriptsAreShaped(bytes, at);
      var (t, p) := Parse(bytes, at).value;
      var left := if remaining.None? then None else Some(remaining.value - 1);
      ReadListsAreShaped(bytes, p, left);
      assert ts[1..] == ParseSubs(bytes, p, left).value.0;
    }
  }

  lemma {:induction false} SubtreesAreShaped(t: Script, i: nat)
    requires Shaped(t) && i < Size(t)
    ensures Shaped(SubtreeAt(t, i))
    decreases t, 0
  {
    if i > 0 {
      SubtreesInAreShaped(t.subs, i - 1);
    }
  }

  lemma {:induction false} SubtreesInAreShaped(ts: seq<Script>, i: nat)
    requires ShapedAll(ts) && i < SizeAll(ts)
    ensures Shaped(SubtreeIn(ts, i))
    decreases ts
  {
    if i < Size(ts[0]) {
      SubtreesAreShaped(ts[0], i);
    } else {
      SubtreesInAreShaped(ts[1..], i - Size(ts[0]));
    }
  }

  // ---------------------------------------------------------------------
  // The loop
  // ---------------------------------------------------------------------

  /** A bracket still to be closed: the index past its list, and whether a comma is
      due before the next item. */
  datatype ListText = ListText(end: nat, hasItem: bool)

  /** The scripts still to print: `pending[0]` is the root, until it is taken,
      and `pending[k + 1]` what list `k` has left. They stand in the array from
      `i` on, innermost list first, and each list ends where its scripts do. */
  ghost predicate Aligned(t: Script, open: seq<ListText>, pending: seq<seq<Script>>, i: nat)
    decreases |open|
  {
    && |pending| == |open| + 1
    && var left := pending[|open|];
      if open == [] then (left == [t] && i == 0) || (left == [] && i == Size(t))
      else
        var k := |open| - 1;
        && Follows(t, left, i)
        && open[k].end == i + SizeAll(left) && Aligned(t, open[..k], pending[..|open|], open[k].end)
  }

  predicate First(open: seq<ListText>) {
    open == [] || !open[|open| - 1].hasItem
  }

  /** The text that completes the open lists. */
  ghost function TextLeft(open: seq<ListText>, pending: seq<seq<Script>>): (s: string)
    requires |pending| == |open| + 1
    decreases |open|
  {
    RenderAll(pending[|open|], First(open))
    + if open == [] then "" else CLOSE + TextLeft(open[..|open| - 1], pending[..|open|])
  }

  function Taken(open: seq<ListText>): (r: seq<ListText>)
    ensures |r| == |open|
  {
    if open == [] then [] else open[|open| - 1 := open[|open| - 1].(hasItem := true)]
  }

  ghost function Rest(pending: seq<seq<Script>>): (r: seq<seq<Script>>)
    requires pending != [] && pending[|pending| - 1] != []
    ensures |r| == |pending|
  {
    pending[|pending| - 1 := pending[|pending| - 1][1..]]
  }

  lemma NothingInside(ts: seq<Script>)
    requires SizeAll(ts) == 0
    ensures ts == []
  {
  }

  /** A list that ends here has nothing left, and closes. */
  lemma ListPopped(t: Script, open: seq<ListText>, pending: seq<seq<Script>>, i: nat)
    requires Aligned(t, open, pending, i) && open != [] && open[|open| - 1].end == i
    ensures Aligned(t, open[..|open| - 1], pending[..|open|], i)
    ensures TextLeft(open, pending) == CLOSE + TextLeft(open[..|open| - 1], pending[..|open|])
  {
    NothingInside(pending[|open|]);
    var left := CLOSE + TextLeft(open[..|open| - 1], pending[..|open|]);
    assert "" + left == left;
  }

  /** A node that no list ends at is the next script of the innermost one. */
  lemma ScriptTaken(t: Script, open: seq<ListText>, pending: seq<seq<Script>>, i: nat)
    requires Aligned(t, open, pending, i) && i < Size(t)
    requires open != [] ==> open[|open| - 1].end != i
    ensures pending[|open|] != [] && SubtreeAt(t, i) == pending[|open|][0]
    ensures Aligned(t, Taken(open), Rest(pending), i + Size(SubtreeAt(t, i)))
    ensures TextLeft(open, pending)
         == Json.Comma(First(open)) + (Render(SubtreeAt(t, i)) + TextLeft(Taken(open), Rest(pending)))
  {
    var left := pending[|open|];
    var taken, rest := Taken(open), Rest(pending);
    assert rest[..|open|] == pending[..|open|];
    if open != [] {
      FirstFollows(t, left, i);
      var k := |open| - 1;
      assert taken[..k] == open[..k];
      TakenText(Json.Comma(First(open)), Render(left[0]), RenderAll(left[1..], false),
                CLOSE + TextLeft(open[..k], pending[..|open|]));
    } else {
      FirstIsRoot(t);
      assert left[1..] == [];
      TakenText(Json.Comma(First(open)), Render(left[0]), "", "");
    }
  }

  lemma TakenText(comma: string, script: string, others: string, left: string)
    ensures (comma + (script + others)) + left == comma + (script + (others + left))
  {
  }

  /** A script with sub-scripts opens a list of its own. */
  lemma ListPushed(t: Script, open: seq<ListText>, pending: seq<seq<Script>>, i: nat)
    requires i < Size(t) && Aligned(t, open, pending, i + Size(SubtreeAt(t, i)))
    ensures var s := SubtreeAt(t, i);
      var grown, more := open + [ListText(i + Size(s), false)], pending + [s.subs];
      && Aligned(t, grown, more, i + 1)
      && TextLeft(grown, more) == RenderAll(s.subs, true) + (CLOSE + TextLeft(open, pending))
  {
    var s := SubtreeAt(t, i);
    ChildrenFollow(t, i);
    var grown, more := open + [ListText(i + Size(s), false)], pending + [s.subs];
    assert grown[..|open|] == open && more[..|grown|] == pending;
  }

  lemma RootAligned(t: Script)
    ensures Aligned(t, [], [[t]], 0)
    ensures TextLeft([], [[t]]) == Render(t)
  {
    var root := [[t]];
    assert root[0][1..] == [];
    assert RenderAll(root[0], true) == "" + (Render(t) + "");
  }

  lemma AllTaken(t: Script, open: seq<ListText>, pending: seq<seq<Script>>)
    requires Aligned(t, open, pending, Size(t))
    ensures open != [] ==> open[|open| - 1].end == Size(t)
    ensures open == [] ==> TextLeft(open, pending) == ""
  {
  }

  lemma LeafRendered(t: Script, i: nat)
    requires Shaped(t) && i < Size(t)
    ensures var s := SubtreeAt(t, i);
      if HasList(s.node) then Render(s) == OpenText(s.node) + (RenderAll(s.subs, true) + CLOSE)
      else Size(s) == 1 && Render(s) == LeafText(s.node)
  {
    SubtreesAreShaped(t, i);
  }

  lemma Written(out: string, comma: string, start: string, items: string, close: string, left: string)
    ensures out + (comma + ((start + (items + close)) + left)) == (out + comma + start) + (items + (close + left))
    ensures out + (comma + (start + left)) == (out + comma + start) + left
  {
    assert out + (comma + (start + left)) == (out + comma) + (start + left);
    var rest := items + (close + left);
    assert (start + (items + close)) + left == start + rest;
    assert out + (comma + (start + rest)) == (out + comma) + (start + rest);
  }

  /** The script as JSON text, in one pass over its nodes. */
  method ToCslJson(f: FlatNativeScript, ghost t: Script) returns (out: string)
    requires f == Flatten(t) && Shaped(t)
    ensures out == Render(t)
  {
    hide Aligned, TextLeft, Render, LeafText, OpenText, Nodes, Ends, SubtreeAt, Rest, Size, Shaped, CLOSE;
    out := "";
    var open: seq<ListText> := [];
    ghost var pending := [[t]];
    RootAligned(t);
    assert "" + TextLeft(open, pending) == TextLeft(open, pending);
    for i := 0 to |f.nodes|
      invariant |pending| == |open| + 1 && Aligned(t, open, pending, i)
      invariant out + TextLeft(open, pending) == Render(t)
    {
      while open != [] && open[|open| - 1].end == i
        invariant |pending| == |open| + 1 && Aligned(t, open, pending, i)
        invariant out + TextLeft(open, pending) == Render(t)
        decreases |open|
      {
        ListPopped(t, open, pending, i);
        Closed(out, CLOSE, TextLeft(open[..|open| - 1], pending[..|open|]));
        out := out + CLOSE;
        pending := pending[..|open|];
        open := open[..|open| - 1];
      }
      ghost var s := SubtreeAt(t, i);
      ScriptTaken(t, open, pending, i);
      NodeAndEndAt(t, i, 0);
      LeafRendered(t, i);
      var node := f.nodes[i];
      ghost var left := TextLeft(Taken(open), Rest(pending));
      if HasList(node) {
        Written(out, Json.Comma(First(open)), OpenText(node), RenderAll(s.subs, true), CLOSE, left);
      } else {
        Written(out, Json.Comma(First(open)), LeafText(node), "", "", left);
      }
      ghost var before, comma := out, Json.Comma(First(open));
      if open != [] {
        if open[|open| - 1].hasItem {
          out := out + ",";
        }
      }
      assert out == before + comma;
      open, pending := Taken(open), Rest(pending);
      if HasList(node) {
        out := out + OpenText(node);
        ListPushed(t, open, pending, i);
        open, pending := open + [ListText(f.end[i], false)], pending + [s.subs];
      } else {
        out := out + LeafText(node);
      }
    }
    AllTaken(t, open, pending);
    while open != []
      invariant |pending| == |open| + 1 && Aligned(t, open, pending, Size(t))
      invariant out + TextLeft(open, pending) == Render(t)
      decreases |open|
    {
      AllTaken(t, open, pending);
      ListPopped(t, open, pending, Size(t));
      Closed(out, CLOSE, TextLeft(open[..|open| - 1], pending[..|open|]));
      out := out + CLOSE;
      pending := pending[..|open|];
      open := open[..|open| - 1];
    }
    AllTaken(t, open, pending);
    assert out + "" == out;
  }

  lemma Closed(out: string, close: string, left: string)
    ensures out + (close + left) == (out + close) + left
  {
  }

  // ---------------------------------------------------------------------
  // The text is JSON, and reads back to the script
  // ---------------------------------------------------------------------

  /** The JSON value a script is rendered as. */
  function ToValue(t: Script): (v: Json.Value)
    decreases t, 0
  {
    var content :=
      if HasList(t.node) then ListContent(t.node, ToValues(t.subs))
      else Json.Obj([Json.Entry(Field(t.node), Json.Str(FieldText(t.node)))]);
    Json.Obj([Json.Entry(Name(t.node), content)])
  }

  function ListContent(node: Node, items: seq<Json.Value>): (v: Json.Value) {
    Json.Obj((if node.NOfK? then [Json.Entry("n", Json.Num(Json.Int(node.n)))] else [])
             + [Json.Entry("native_scripts", Json.Arr(items))])
  }

  function ToValues(ts: seq<Script>): (vs: seq<Json.Value>)
    ensures |vs| == |ts|
    decreases ts
  {
    if ts == [] then [] else [ToValue(ts[0])] + ToValues(ts[1..])
  }

  predicate Plain(key: string) {
    forall i | 0 <= i < |key| :: !Json.NeedsEscape(key[i])
  }

  /** An object of one entry, as text. */
  lemma OneEntryText(key: string, v: Json.Value)
    requires Plain(key)
    ensures Json.Write(Json.Obj([Json.Entry(key, v)]), false) == "{\"" + key + "\":" + Json.Write(v, false) + "}"
  {
    JsonRoundTrip.PlainIsItsOwnEscape(key);
    var e := Json.Entry(key, v);
    assert [e][1..] == [];
    assert Json.WriteEntries([e], true, false) == "" + (Json.WriteEntry(e, false) + "");
    Wrapped(key, Json.Write(v, false));
  }

  lemma Wrapped(key: string, w: string)
    ensures "{" + (("" + ((("\"" + key + "\"") + (":" + w)) + "")) + "}") == "{\"" + key + "\":" + w + "}"
  {
    assert "{" + ("\"" + key + "\"") == "{\"" + key + "\"";
    assert ("{" + ("\"" + key + "\"")) + (":" + w) == "{\"" + key + "\":" + w;
  }

  lemma TwoEntriesText(key: string, v: Json.Value, other: string, w: Json.Value)
    requires Plain(key) && Plain(other)
    ensures Json.Write(Json.Obj([Json.Entry(key, v), Json.Entry(other, w)]), false)
         == "{\"" + key + "\":" + Json.Write(v, false) + ",\"" + other + "\":" + Json.Write(w, false) + "}"
  {
    JsonRoundTrip.PlainIsItsOwnEscape(key);
    JsonRoundTrip.PlainIsItsOwnEscape(other);
    var d, e := Json.Entry(key, v), Json.Entry(other, w);
    LastEntry(e);
    assert [d, e][1..] == [e];
    assert Json.WriteEntries([d, e], true, false)
      == "" + (Json.WriteEntry(d, false) + Json.WriteEntries([e], false, false));
    Joined(key, Json.Write(v, false), other, Json.Write(w, false));
  }

  lemma LastEntry(e: Json.Entry)
    ensures Json.WriteEntries([e], false, false) == "," + (Json.WriteEntry(e, false) + "")
  {
    assert [e][1..] == [];
  }

  lemma Joined(key: string, v: string, other: string, w: string)
    ensures "{" + (("" + ((("\"" + key + "\"") + (":" + v)) + ("," + ((("\"" + other + "\"") + (":" + w)) + ""))))
                   + "}")
         == "{\"" + key + "\":" + v + ",\"" + other + "\":" + w + "}"
  {
    var head := "{\"" + key + "\":" + v;
    assert "{" + (("\"" + key + "\"") + (":" + v)) == head;
    var tail := ("\"" + other + "\"") + (":" + w);
    assert tail == "\"" + other + "\":" + w;
    assert head + ("," + tail) == head + ",\"" + other + "\":" + w;
    assert ("," + (tail + "")) + "}" == "," + tail + "}";
  }

  lemma NamesArePlain(node: Node)
    ensures Plain(Name(node)) && Plain("n") && Plain("native_scripts")
    ensures !HasList(node) ==> Plain(Field(node)) && Json.Escaped(FieldText(node)) == FieldText(node)
  {
    hide FieldText, Json.Escaped;
    if !HasList(node) {
      FieldTextIsPlain(node);
    }
  }

  lemma FieldTextIsPlain(node: Node)
    requires !HasList(node)
    ensures Json.Escaped(FieldText(node)) == FieldText(node)
  {
    if node.Pubkey? {
      HexIsPlain(node.key);
    }
    JsonRoundTrip.PlainIsItsOwnEscape(FieldText(node));
  }

  lemma {:induction false} HexIsPlain(bytes: seq<byte>)
    ensures Plain(Hex(bytes))
  {
    if bytes != [] {
      HexIsPlain(bytes[1..]);
    }
  }

  lemma LeafIsJson(node: Node)
    requires !HasList(node)
    ensures LeafText(node)
         == Json.Write(Json.Obj([Json.Entry(Name(node),
                                            Json.Obj([Json.Entry(Field(node), Json.Str(FieldText(node)))]))]), false)
  {
    hide Name, Field, FieldText, Json.NeedsEscape, Plain, Json.WriteEntries;
    NamesArePlain(node);
    var text := Json.Str(FieldText(node));
    OneEntryText(Field(node), text);
    OneEntryText(Name(node), Json.Obj([Json.Entry(Field(node), text)]));
    LeafText'(Name(node), Field(node), FieldText(node));
  }

  lemma ListIsJson(node: Node, vs: seq<Json.Value>)
    requires HasList(node)
    ensures OpenText(node) + (Json.WriteItems(vs, true, false) + CLOSE)
         == Json.Write(Json.Obj([Json.Entry(Name(node), ListContent(node, vs))]), false)
  {
    hide Name, Json.NeedsEscape, Plain, Json.WriteEntries;
    NamesArePlain(node);
    var items := Json.WriteItems(vs, true, false);
    var list := Json.Arr(vs);
    OneEntryText(Name(node), ListContent(node, vs));
    if node.NOfK? {
      var n := Json.Num(Json.Int(node.n));
      CountedContent(node.n, vs);
      CountedText(Name(node), Signed(node.n), items);
    } else {
      UncountedContent(node, vs);
      ListText'(Name(node), items);
    }
  }

  lemma CountedContent(n: int, vs: seq<Json.Value>)
    ensures Json.Write(ListContent(NOfK(n), vs), false)
         == "{\"" + "n" + "\":" + Signed(n) + ",\"" + "native_scripts" + "\":"
           + ("[" + (Json.WriteItems(vs, true, false) + "]")) + "}"
  {
    hide Json.WriteEntries, Json.WriteItems;
    var number, list := Json.Num(Json.Int(n)), Json.Arr(vs);
    assert [Json.Entry("n", number)] + [Json.Entry("native_scripts", list)]
        == [Json.Entry("n", number), Json.Entry("native_scripts", list)];
    TwoEntriesText("n", number, "native_scripts", list);
  }

  lemma UncountedContent(node: Node, vs: seq<Json.Value>)
    requires HasList(node) && !node.NOfK?
    ensures Json.Write(ListContent(node, vs), false)
         == "{\"native_scripts\":" + ("[" + (Json.WriteItems(vs, true, false) + "]")) + "}"
  {
    hide Json.WriteEntries, Json.WriteItems;
    var list := Json.Arr(vs);
    assert [] + [Json.Entry("native_scripts", list)] == [Json.Entry("native_scripts", list)];
    OneEntryText("native_scripts", list);
    assert "{\"" + "native_scripts" + "\":" == "{\"native_scripts\":";
  }

  lemma {:induction false} RenderIsJson(t: Script)
    requires Shaped(t)
    ensures Render(t) == Json.Write(ToValue(t), false)
    decreases t, 0
  {
    hide Json.Write, LeafText, OpenText, Name, Field, FieldText, ListContent, CLOSE;
    if HasList(t.node) {
      ItemsAreJson(t.subs, true);
      ListIsJson(t.node, ToValues(t.subs));
    } else {
      LeafIsJson(t.node);
    }
  }

  lemma LeafText'(name: string, field: string, text: string)
    ensures "{\"" + name + "\":" + ("{\"" + field + "\":" + ("\"" + text + "\"") + "}") + "}"
         == "{\"" + name + "\":{\"" + field + "\":\"" + text + "\"}}"
  {
    var head := "{\"" + name + "\":";
    assert head + "{\"" == "{\"" + name + "\":{\"";
    var inner := "{\"" + field + "\":" + ("\"" + text + "\"") + "}";
    assert inner == "{\"" + (field + "\":\"" + text + "\"}");
    assert head + inner == (head + "{\"") + (field + "\":\"" + text + "\"}");
    var tail := field + "\":\"" + text + "\"}";
    assert tail + "}" == field + "\":\"" + text + "\"}}";
    var full := "{\"" + name + "\":{\"";
    assert full + (field + "\":\"" + text + "\"}}") == full + field + "\":\"" + text + "\"}}";
  }

  lemma ListText'(name: string, items: string)
    ensures "{\"" + name + "\":" + ("{\"native_scripts\":" + ("[" + (items + "]")) + "}") + "}"
         == ("{\"" + name + "\":{" + "" + "\"native_scripts\":[") + (items + "]}}")
  {
    var head := "{\"" + name + "\":";
    var inner := "{\"native_scripts\":" + ("[" + (items + "]")) + "}";
    assert inner == "{\"native_scripts\":[" + (items + "]}");
    assert head + inner + "}" == (head + "{\"native_scripts\":[") + (items + "]}}");
    assert head + "{\"native_scripts\":[" == "{\"" + name + "\":{" + "" + "\"native_scripts\":[";
  }

  lemma CountedText(name: string, n: string, items: string)
    ensures "{\"" + name + "\":"
            + ("{\"" + "n" + "\":" + n + ",\"" + "native_scripts" + "\":" + ("[" + (items + "]")) + "}") + "}"
         == ("{\"" + name + "\":{" + ("\"n\":" + n + ",") + "\"native_scripts\":[") + (items + "]}}")
  {
    var head := "{\"" + name + "\":";
    var inner := "{\"" + "n" + "\":" + n + ",\"" + "native_scripts" + "\":" + ("[" + (items + "]")) + "}";
    var count := "\"n\":" + n + ",";
    assert "{\"" + "n" + "\":" + n + ",\"" == "{" + count + "\"";
    assert inner == ("{" + count + "\"native_scripts\":[") + (items + "]}");
    assert head + inner + "}" == (head + ("{" + count + "\"native_scripts\":[")) + (items + "]}}");
    assert head + ("{" + count + "\"native_scripts\":[") == "{\"" + name + "\":{" + count + "\"native_scripts\":[";
  }

  lemma {:induction false} ItemsAreJson(ts: seq<Script>, first: bool)
    requires ShapedAll(ts)
    ensures RenderAll(ts, first) == Json.WriteItems(ToValues(ts), first, false)
    decreases ts
  {
    if ts != [] {
      RenderIsJson(ts[0]);
      ItemsAreJson(ts[1..], false);
      assert ToValues(ts)[0] == ToValue(ts[0]) && ToValues(ts)[1..] == ToValues(ts[1..]);
    }
  }

  lemma {:induction false} ValueIsPrintable(t: Script)
    requires Shaped(t)
    ensures Json.Printable(ToValue(t)) && Json.BoxFree(ToValue(t))
    decreases t, 0
  {
    var v := ToValue(t);
    assert Json.NUMBER_TOKEN[0] == '$';
    if HasList(t.node) {
      ValuesArePrintable(t.subs);
      var content := ListContent(t.node, ToValues(t.subs));
      var list := [Json.Entry("native_scripts", Json.Arr(ToValues(t.subs)))];
      OneEntryIsPrintable(list[0]);
      if t.node.NOfK? {
        assert content.entries[1..] == list;
      } else {
        assert content.entries == list;
      }
    } else {
      OneEntryIsPrintable(v.entries[0].value.entries[0]);
    }
    OneEntryIsPrintable(v.entries[0]);
  }

  lemma OneEntryIsPrintable(e: Json.Entry)
    requires Json.Printable(e.value) && Json.BoxFree(e.value)
    ensures Json.PrintableEntries([e]) && Json.BoxFreeEntries([e])
  {
    assert [e][1..] == [];
  }

  lemma {:induction false} ValuesArePrintable(ts: seq<Script>)
    requires ShapedAll(ts)
    ensures Json.PrintableItems(ToValues(ts)) && Json.BoxFreeItems(ToValues(ts))
    decreases ts
  {
    if ts != [] {
      ValueIsPrintable(ts[0]);
      ValuesArePrintable(ts[1..]);
      assert ToValues(ts)[1..] == ToValues(ts[1..]);
    }
  }

  /** The script a JSON value names. */
  function FromValue(v: Json.Value): (t: Option<Script>)
    decreases v, 0
  {
    if !v.Obj? || |v.entries| != 1 || !v.entries[0].value.Obj? then None
    else
      var name, fields := v.entries[0].key, v.entries[0].value.entries;
      if name in {"ScriptPubkey", "TimelockStart", "TimelockExpiry"} then
        if |fields| != 1 || !fields[0].value.Str? then None
        else
          var text := fields[0].value.s;
          if name == "ScriptPubkey" then
            if fields[0].key != "addr_keyhash" || UnHex(text).None? then None
            else Some(Script(Pubkey(UnHex(text).value), []))
          else if fields[0].key != "slot" || !AllDigits(text) then None
          else if name == "TimelockStart" then Some(Script(TimelockStart(NatOf(text)), []))
          else Some(Script(TimelockExpiry(NatOf(text)), []))
      else
        if fields == [] || fields[|fields| - 1].key != "native_scripts" || !fields[|fields| - 1].value.Arr? then None
        else
          var list := fields[|fields| - 1].value;
          assert list < v.entries[0].value;
          match FromValues(list.items)
          case None => None
          case Some(subs) =>
            if name == "ScriptAll" && |fields| == 1 then Some(Script(All, subs))
            else if name == "ScriptAny" && |fields| == 1 then Some(Script(Any, subs))
            else if name == "ScriptNOfK" && |fields| == 2 && fields[0].key == "n" && fields[0].value.Num?
              && fields[0].value.n.Int?
            then Some(Script(NOfK(fields[0].value.n.value), subs))
            else None
  }

  function FromValues(vs: seq<Json.Value>): (ts: Option<seq<Script>>)
    decreases vs
  {
    if vs == [] then Some([])
    else
      match FromValue(vs[0])
      case None => None
      case Some(t) =>
        match FromValues(vs[1..])
        case None => None
        case Some(ts) => Some([t] + ts)
  }

  lemma {:induction false} ValueNamesTheScript(t: Script)
    requires Shaped(t)
    ensures FromValue(ToValue(t)) == Some(t)
    decreases t, 0
  {
    hide Digits, NatOf, Hex, UnHex, FromValues, ToValues, AllDigits;
    match t.node
    case Pubkey(key) => HexRoundTrip(key);
    case TimelockStart(slot) => DigitsRoundTrip(slot);
    case TimelockExpiry(slot) => DigitsRoundTrip(slot);
    case All => ValuesNameTheScripts(t.subs);
    case Any => ValuesNameTheScripts(t.subs);
    case NOfK(_) => ValuesNameTheScripts(t.subs);
  }

  lemma {:induction false} ValuesNameTheScripts(ts: seq<Script>)
    requires ShapedAll(ts)
    ensures FromValues(ToValues(ts)) == Some(ts)
    decreases ts
  {
    hide FromValue, ToValue;
    if ts != [] {
      ValueNamesTheScript(ts[0]);
      ValuesNameTheScripts(ts[1..]);
      assert ToValues(ts)[1..] == ToValues(ts[1..]);
      assert ts == [ts[0]] + ts[1..];
    }
  }

  /** A script's text, read as JSON, names the script again. */
  lemma TextReadsBack(t: Script)
    requires Shaped(t)
    ensures Json.Read(Render(t)).Some? && FromValue(Json.Read(Render(t)).value) == Some(t)
  {
    RenderIsJson(t);
    ValueIsPrintable(t);
    JsonRoundTrip.RoundTripIffBoxFree(ToValue(t), false);
    ValueNamesTheScript(t);
  }
}
