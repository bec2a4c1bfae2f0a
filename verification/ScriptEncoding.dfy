/** Every encoding of a native script the grammar allows: any header widths,
    definite or indefinite arrays, tagged or untagged lists. The reader accepts
    exactly these encodings and gives back the script they encode. */
module ScriptEncoding {
  import opened Wire
  import opened NativeScript

  /** The header choices of a sub-script list. */
  datatype ListForm = ListForm(tag: Option<Head>, items: Head)

  /** A script together with every choice its encoding made. */
  datatype Coded = Coded(outer: Head, kind: Head, node: Node, field: Option<Head>, list: Option<ListForm>,
                         subs: seq<Coded>)

  function Plain(c: Coded): (t: Script)
    decreases c, 0
  {
    Script(c.node, PlainAll(c.subs))
  }

  function PlainAll(cs: seq<Coded>): (ts: seq<Script>)
    ensures |ts| == |cs|
    decreases cs
  {
    if cs == [] then [] else [Plain(cs[0])] + PlainAll(cs[1..])
  }

  function KindOf(node: Node): (k: nat) {
    match node
    case Pubkey(_) => 0
    case All => 1
    case Any => 2
    case NOfK(_) => 3
    case TimelockStart(_) => 4
    case TimelockExpiry(_) => 5
  }

  predicate FieldFits(node: Node, field: Option<Head>) {
    match node
    case Pubkey(key) =>
      |key| == 28 && field.Some? && field.value.major == 2 && field.value.argument == Some(28)
    case All => field.None?
    case Any => field.None?
    case NOfK(n) =>
      && field.Some? && field.value.argument.Some? && field.value.argument.value < 0x8000_0000_0000_0000
      && (if n >= 0 then field.value.major == 0 && field.value.argument.value == n
          else field.value.major == 1 && field.value.argument.value == -1 - n)
    case TimelockStart(slot) => field.Some? && field.value.major == 0 && field.value.argument == Some(slot)
    case TimelockExpiry(slot) => field.Some? && field.value.major == 0 && field.value.argument == Some(slot)
  }

  predicate OptFits(h: Option<Head>) {
    h.Some? ==> HeadFits(h.value)
  }

  predicate ListFits(form: ListForm, count: nat) {
    && OptFits(form.tag) && HeadFits(form.items)
    && (form.tag.Some? ==> form.tag.value.major == 6 && form.tag.value.argument == Some(SET_TAG))
    && form.items.major == 4
    && (form.items.argument.Some? ==> form.items.argument.value == count)
  }

  predicate Valid(c: Coded)
    decreases c, 0
  {
    && HeadFits(c.outer) && c.outer.major == 4
    && (c.outer.argument.Some? ==> c.outer.argument.value == if c.node.NOfK? then 3 else 2)
    && HeadFits(c.kind) && c.kind.major == 0 && c.kind.argument == Some(KindOf(c.node))
    && FieldFits(c.node, c.field) && OptFits(c.field)
    && (c.list.Some? <==> HasList(c.node))
    && (c.list.Some? ==> ListFits(c.list.value, |c.subs|))
    && (c.list.None? ==> c.subs == [])
    && ValidAll(c.subs)
  }

  predicate ValidAll(cs: seq<Coded>)
    decreases cs
  {
    cs != [] ==> Valid(cs[0]) && ValidAll(cs[1..])
  }

  function WriteOpt(h: Option<Head>): (s: seq<byte>)
    requires OptFits(h)
  {
    if h.None? then [] else WriteHead(h.value)
  }

  function BreakIf(indefinite: bool): (s: seq<byte>) {
    if indefinite then [BREAK] else []
  }

  function WriteField(node: Node, field: Option<Head>): (s: seq<byte>)
    requires OptFits(field)
  {
    WriteOpt(field) + if node.Pubkey? then node.key else []
  }

  function WriteListHead(form: ListForm): (s: seq<byte>)
    requires OptFits(form.tag) && HeadFits(form.items)
  {
    WriteOpt(form.tag) + WriteHead(form.items)
  }

  function WritePrefix(c: Coded): (s: seq<byte>)
    requires Valid(c)
    ensures |s| > 0
  {
    WriteHead(c.outer) + (WriteHead(c.kind) + (WriteField(c.node, c.field)
      + if c.list.None? then [] else WriteListHead(c.list.value)))
  }

  /** The bytes of an encoding. */
  function Write(c: Coded): (s: seq<byte>)
    requires Valid(c)
    ensures |s| > 0
    decreases c, 0
  {
    WritePrefix(c) + (WriteAll(c.subs)
      + (BreakIf(c.list.Some? && c.list.value.items.argument.None?) + BreakIf(c.outer.argument.None?)))
  }

  function WriteAll(cs: seq<Coded>): (s: seq<byte>)
    requires ValidAll(cs)
    decreases cs
  {
    if cs == [] then [] else Write(cs[0]) + WriteAll(cs[1..])
  }

  /** The bytes `s` stand at `at`. */
  predicate At(bytes: seq<byte>, at: nat, s: seq<byte>): (there: bool)
    ensures there ==> at + |s| <= |bytes|
    ensures at <= |bytes| && s == [] ==> there
  {
    at + |s| <= |bytes| && bytes[at..at + |s|] == s
  }

  lemma AtJoin(bytes: seq<byte>, at: nat, s: seq<byte>, t: seq<byte>)
    ensures At(bytes, at, s + t) <==> At(bytes, at, s) && At(bytes, at + |s|, t)
  {
    if at + |s| + |t| <= |bytes| {
      var whole := bytes[at..at + |s + t|];
      assert bytes[at..at + |s|] == whole[..|s|];
      assert bytes[at + |s|..at + |s| + |t|] == whole[|s|..];
      assert whole == whole[..|s|] + whole[|s|..];
    }
  }

  lemma AtHead(bytes: seq<byte>, at: nat, h: Head)
    requires HeadFits(h)
    ensures At(bytes, at, WriteHead(h)) <==> ReadHead(bytes, at) == Some(h)
  {
    if At(bytes, at, WriteHead(h)) {
      HeadWrittenIsRead(bytes, at, h);
    }
    if ReadHead(bytes, at) == Some(h) {
      HeadReadIsWritten(bytes, at, h);
    }
  }

  lemma AtBreak(bytes: seq<byte>, at: nat, indefinite: bool)
    requires at <= |bytes|
    ensures At(bytes, at, BreakIf(indefinite))
       <==> ReadClose(bytes, at, indefinite) == Some(at + |BreakIf(indefinite)|)
  {
    if indefinite && at < |bytes| {
      assert bytes[at..at + 1] == [bytes[at]];
    }
  }

  // ---------------------------------------------------------------------
  // Every encoding is read back
  // ---------------------------------------------------------------------

  lemma FieldIsRead(bytes: seq<byte>, at: nat, node: Node, field: Option<Head>)
    requires at <= |bytes| && FieldFits(node, field) && OptFits(field)
    requires At(bytes, at, WriteField(node, field))
    ensures ReadNode(bytes, at, KindOf(node)) == Some((node, at + |WriteField(node, field)|))
  {
    AtJoin(bytes, at, WriteOpt(field), if node.Pubkey? then node.key else []);
    if field.Some? {
      AtHead(bytes, at, field.value);
    }
  }

  lemma ListHeadIsRead(bytes: seq<byte>, at: nat, form: ListForm, count: nat)
    requires ListFits(form, count) && At(bytes, at, WriteListHead(form))
    ensures ReadListHead(bytes, at) == Some((form.items.argument, at + |WriteListHead(form)|))
  {
    AtJoin(bytes, at, WriteOpt(form.tag), WriteHead(form.items));
    var q := at + |WriteOpt(form.tag)|;
    AtHead(bytes, q, form.items);
    if form.tag.Some? {
      AtHead(bytes, at, form.tag.value);
      MajorOfByte(bytes, at);
    } else {
      MajorOfByte(bytes, at);
    }
  }

  /** The first byte of a header names its major type, and nothing but a break
      or a tag is taken for one. */
  lemma MajorOfByte(bytes: seq<byte>, at: nat)
    requires ReadHead(bytes, at).Some? && ReadHead(bytes, at).value.major in {4, 6}
    requires ReadHead(bytes, at).value.major == 6 ==> ReadHead(bytes, at).value.argument.Some?
    ensures PeekType(bytes, at) == Some(if ReadHead(bytes, at).value.major == 6 then Tag else Other)
  {
  }

  lemma TwoHeadsAreRead(bytes: seq<byte>, at: nat, outer: Head, kind: Head, rest: seq<byte>)
    requires HeadFits(outer) && outer.major == 4 && HeadFits(kind) && kind.major == 0 && kind.argument.Some?
    requires At(bytes, at, WriteHead(outer) + (WriteHead(kind) + rest))
    ensures ReadArray(bytes, at) == Some((outer.argument, at + outer.len))
    ensures ReadUnsigned(bytes, at + outer.len) == Some((kind.argument.value, at + outer.len + kind.len))
    ensures At(bytes, at + outer.len + kind.len, rest)
  {
    hide At, ReadHead, HeadFits;
    AtJoin(bytes, at, WriteHead(outer), WriteHead(kind) + rest);
    AtHead(bytes, at, outer);
    AtJoin(bytes, at + outer.len, WriteHead(kind), rest);
    AtHead(bytes, at + outer.len, kind);
  }

  lemma PrefixIsRead(bytes: seq<byte>, at: nat, c: Coded)
    requires Valid(c) && At(bytes, at, WritePrefix(c))
    ensures ReadPrefix(bytes, at)
         == Some(Prefix(c.node, c.outer.argument.None?,
                        if c.list.None? then None else Some(c.list.value.items.argument),
                        at + |WritePrefix(c)|))
  {
    hide At, ReadArray, ReadUnsigned, HeadFits, PeekType, ReadNode, ReadListHead, FieldFits, WriteField, WriteListHead,
         WriteHead, ValidAll;
    var list := if c.list.None? then [] else WriteListHead(c.list.value);
    var field := WriteField(c.node, c.field);
    TwoHeadsAreRead(bytes, at, c.outer, c.kind, field + list);
    var q := at + c.outer.len + c.kind.len;
    AtJoin(bytes, q, field, list);
    FieldIsRead(bytes, q, c.node, c.field);
    if c.list.Some? {
      ListHeadIsRead(bytes, q + |field|, c.list.value, |c.subs|);
    }
  }

  /** Reading any encoding of a script gives the script. */
  lemma {:induction false} EncodingIsRead(bytes: seq<byte>, at: nat, c: Coded)
    requires Valid(c) && At(bytes, at, Write(c))
    ensures Parse(bytes, at) == Some((Plain(c), at + |Write(c)|))
    decreases c, 0
  {
    hide At, ReadHead, HeadFits, FieldFits, OptFits, PeekType, ReadPrefix, WritePrefix, ReadClose, ParseSubs;
    var listBreak := BreakIf(c.list.Some? && c.list.value.items.argument.None?);
    var ownBreak := BreakIf(c.outer.argument.None?);
    AtJoin(bytes, at, WritePrefix(c), WriteAll(c.subs) + (listBreak + ownBreak));
    PrefixIsRead(bytes, at, c);
    var p := at + |WritePrefix(c)|;
    AtJoin(bytes, p, WriteAll(c.subs), listBreak + ownBreak);
    var q := p + |WriteAll(c.subs)|;
    AtJoin(bytes, q, listBreak, ownBreak);
    AtBreak(bytes, q + |listBreak|, c.outer.argument.None?);
    if c.list.Some? {
      SubsAreRead(bytes, p, c.subs, c.list.value.items.argument);
    }
  }

  lemma {:induction false} SubsAreRead(bytes: seq<byte>, at: nat, cs: seq<Coded>, remaining: Option<nat>)
    requires ValidAll(cs) && At(bytes, at, WriteAll(cs))
    requires remaining.Some? ==> remaining.value == |cs|
    requires remaining.None? ==> At(bytes, at + |WriteAll(cs)|, [BREAK])
    ensures at <= |bytes|
    ensures ParseSubs(bytes, at, remaining)
         == Some((PlainAll(cs), at + |WriteAll(cs)| + if remaining.None? then 1 else 0))
    decreases cs
  {
    hide At, ReadHead, Parse, PeekType, Valid, Write;
    if cs == [] {
      if remaining.None? {
        AtBreak(bytes, at, true);
      }
    } else {
      var first := Write(cs[0]);
      AtJoin(bytes, at, first, WriteAll(cs[1..]));
      EncodingIsRead(bytes, at, cs[0]);
      ScriptIsNoBreak(bytes, at);
      var left := if remaining.None? then None else Some(remaining.value - 1);
      SubsAreRead(bytes, at + |first|, cs[1..], left);
    }
  }

  lemma ScriptIsNoBreak(bytes: seq<byte>, at: nat)
    requires Parse(bytes, at).Some?
    ensures PeekType(bytes, at) == Some(Other)
  {
    assert ReadPrefix(bytes, at).Some?;
    assert ReadArray(bytes, at).Some?;
    MajorOfByte(bytes, at);
  }

  // ---------------------------------------------------------------------
  // Whatever is read is an encoding
  // ---------------------------------------------------------------------

  ghost predicate Encodes(bytes: seq<byte>, at: nat, end: nat, t: Script, c: Coded) {
    Valid(c) && Plain(c) == t && At(bytes, at, Write(c)) && at + |Write(c)| == end
  }

  lemma ReadHeadFits(bytes: seq<byte>, at: nat)
    requires ReadHead(bytes, at).Some?
    ensures HeadFits(ReadHead(bytes, at).value)
    ensures At(bytes, at, WriteHead(ReadHead(bytes, at).value))
  {
    HeadReadIsWritten(bytes, at, ReadHead(bytes, at).value);
  }

  lemma AtSlice(bytes: seq<byte>, at: nat, n: nat)
    requires at + n <= |bytes|
    ensures At(bytes, at, bytes[at..at + n])
  {
  }

  lemma NodeIsWritten(bytes: seq<byte>, at: nat, kind: nat) returns (field: Option<Head>)
    requires at <= |bytes| && ReadNode(bytes, at, kind).Some?
    ensures var (node, s) := ReadNode(bytes, at, kind).value;
      && kind == KindOf(node) && FieldFits(node, field) && OptFits(field)
      && At(bytes, at, WriteField(node, field)) && at + |WriteField(node, field)| == s
  {
    hide At, HeadFits, WriteHead;
    var (node, s) := ReadNode(bytes, at, kind).value;
    field := None;
    if !node.All? && !node.Any? {
      ReadHeadFits(bytes, at);
      field := ReadHead(bytes, at);
      AtJoin(bytes, at, WriteOpt(field), if node.Pubkey? then node.key else []);
      if node.Pubkey? {
        AtSlice(bytes, at + field.value.len, |node.key|);
      }
    }
  }

  lemma ListHeadIsWritten(bytes: seq<byte>, at: nat, count: nat) returns (form: ListForm)
    requires ReadListHead(bytes, at).Some?
    requires var remaining := ReadListHead(bytes, at).value.0; remaining.Some? ==> remaining.value == count
    ensures ListFits(form, count) && form.items.argument == ReadListHead(bytes, at).value.0
    ensures At(bytes, at, WriteListHead(form)) && at + |WriteListHead(form)| == ReadListHead(bytes, at).value.1
  {
    hide At, HeadFits, WriteHead, ReadHead;
    ReadHeadFits(bytes, at);
    if PeekType(bytes, at) == Some(Tag) {
      var tag := ReadHead(bytes, at).value;
      ReadHeadFits(bytes, at + tag.len);
      form := ListForm(Some(tag), ReadHead(bytes, at + tag.len).value);
    } else {
      form := ListForm(None, ReadHead(bytes, at).value);
    }
    AtJoin(bytes, at, WriteOpt(form.tag), WriteHead(form.items));
  }

  lemma TwoHeadsAreWritten(bytes: seq<byte>, at: nat) returns (outer: Head, kind: Head)
    requires ReadArray(bytes, at).Some? && ReadUnsigned(bytes, ReadArray(bytes, at).value.1).Some?
    ensures var (size, p) := ReadArray(bytes, at).value; var (k, q) := ReadUnsigned(bytes, p).value;
      && HeadFits(outer) && outer.major == 4 && outer.argument == size && at + outer.len == p
      && HeadFits(kind) && kind.major == 0 && kind.argument == Some(k) && p + kind.len == q
      && At(bytes, at, WriteHead(outer)) && At(bytes, p, WriteHead(kind))
  {
    hide At, HeadFits, WriteHead, ReadHead;
    outer := ReadHead(bytes, at).value;
    kind := ReadHead(bytes, at + outer.len).value;
    ReadHeadFits(bytes, at);
    ReadHeadFits(bytes, at + outer.len);
  }

  lemma PrefixIsWritten(bytes: seq<byte>, at: nat, subs: seq<Coded>) returns (c: Coded)
    requires ReadPrefix(bytes, at).Some? && ValidAll(subs)
    requires var list := ReadPrefix(bytes, at).value.list;
      if list.None? then subs == [] else list.value.Some? ==> list.value.value == |subs|
    ensures var p := ReadPrefix(bytes, at).value;
      && Valid(c) && c.subs == subs && c.node == p.node
      && (c.outer.argument.None? <==> p.indefinite)
      && (p.list.Some? ==> c.list.value.items.argument == p.list.value)
      && At(bytes, at, WritePrefix(c)) && at + |WritePrefix(c)| == p.pos
  {
    hide At, HeadFits, ReadArray, ReadUnsigned, ReadNode, ReadListHead, PeekType, FieldFits, WriteField, WriteListHead,
         WriteHead, ValidAll;
    var p := ReadPrefix(bytes, at).value;
    var (size, k) := ReadArray(bytes, at).value;
    var (number, q) := ReadUnsigned(bytes, k).value;
    var outer, kind := TwoHeadsAreWritten(bytes, at);
    var field := NodeIsWritten(bytes, q, number);
    c := Coded(outer, kind, p.node, field, None, subs);
    var written := WriteField(p.node, field);
    if HasList(p.node) {
      var form := ListHeadIsWritten(bytes, q + |written|, |subs|);
      c := c.(list := Some(form));
    }
    var list := if c.list.None? then [] else WriteListHead(c.list.value);
    AtJoin(bytes, q, written, list);
    AtJoin(bytes, k, WriteHead(kind), written + list);
    AtJoin(bytes, at, WriteHead(outer), WriteHead(kind) + (written + list));
  }

  /** What is read is one of the encodings: nothing else is accepted. */
  lemma {:induction false} ReadIsAnEncoding(bytes: seq<byte>, at: nat)
    requires Parse(bytes, at).Some?
    ensures exists c: Coded :: Encodes(bytes, at, Parse(bytes, at).value.1, Parse(bytes, at).value.0, c)
    decreases |bytes| - at, 0
  {
    var c := Annotate(bytes, at);
  }

  lemma {:induction false} Annotate(bytes: seq<byte>, at: nat) returns (c: Coded)
    requires Parse(bytes, at).Some?
    ensures Encodes(bytes, at, Parse(bytes, at).value.1, Parse(bytes, at).value.0, c)
    decreases |bytes| - at, 0
  {
    hide At, ReadHead, HeadFits, FieldFits, OptFits, PeekType, ReadPrefix, WritePrefix, ParseSubs;
    var p := ReadPrefix(bytes, at).value;
    var e := Parse(bytes, at).value.1;
    var subs: seq<Coded> := [];
    var s := p.pos;
    if p.list.Some? {
      subs := AnnotateSubs(bytes, p.pos, p.list.value);
      s := ParseSubs(bytes, p.pos, p.list.value).value.1;
    }
    c := PrefixIsWritten(bytes, at, subs);
    var listBreak := BreakIf(c.list.Some? && c.list.value.items.argument.None?);
    var ownBreak := BreakIf(c.outer.argument.None?);
    AtBreak(bytes, s, p.indefinite);
    var q := p.pos + |WriteAll(subs)|;
    AtJoin(bytes, q, listBreak, ownBreak);
    AtJoin(bytes, p.pos, WriteAll(subs), listBreak + ownBreak);
    AtJoin(bytes, at, WritePrefix(c), WriteAll(subs) + (listBreak + ownBreak));
  }

  lemma {:induction false} AnnotateSubs(bytes: seq<byte>, at: nat, remaining: Option<nat>) returns (cs: seq<Coded>)
    requires at <= |bytes| && ParseSubs(bytes, at, remaining).Some?
    ensures ValidAll(cs) && PlainAll(cs) == ParseSubs(bytes, at, remaining).value.0
    ensures remaining.Some? ==> remaining.value == |cs|
    ensures At(bytes, at, WriteAll(cs)) && At(bytes, at + |WriteAll(cs)|, BreakIf(remaining.None?))
    ensures at + |WriteAll(cs)| + |BreakIf(remaining.None?)| == ParseSubs(bytes, at, remaining).value.1
    decreases |bytes| - at, 1
  {
    hide At, ReadHead, Parse, PeekType, Valid, Write;
    if remaining == Some(0) {
      cs := [];
    } else if remaining.None? && PeekType(bytes, at) == Some(Break) {
      cs := [];
      AtBreak(bytes, at, true);
    } else {
      var (t, p) := Parse(bytes, at).value;
      var first := Annotate(bytes, at);
      var left := if remaining.None? then None else Some(remaining.value - 1);
      var rest := AnnotateSubs(bytes, p, left);
      cs := [first] + rest;
      assert cs[1..] == rest;
      AtJoin(bytes, at, Write(first), WriteAll(rest));
    }
  }

  /** The reader is the inverse of the encodings: a script is read from `at` to
      `end` exactly when some encoding of it stands there. */
  lemma AcceptsExactlyTheEncodings(bytes: seq<byte>, at: nat, end: nat, t: Script)
    ensures Parse(bytes, at) == Some((t, end)) <==> exists c: Coded :: Encodes(bytes, at, end, t, c)
  {
    hide At, Parse, Valid, Write, Plain;
    if Parse(bytes, at) == Some((t, end)) {
      ReadIsAnEncoding(bytes, at);
    }
    forall c: Coded | Encodes(bytes, at, end, t, c)
      ensures Parse(bytes, at) == Some((t, end))
    {
      EncodingIsRead(bytes, at, c);
    }
  }
}
