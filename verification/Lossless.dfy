/** A positional tree keeps everything: its types, values and header widths spell
    the bytes it was decoded from. */
module Lossless {
  import opened Wire
  import opened Oddities
  import opened Decoder
  import opened PositionalTree

  function Spell(h: Head): (s: seq<byte>) {
    if HeadFits(h) then WriteHead(h) else []
  }

  /** The bytes a token stands for, from its type, value and length alone. */
  function SpellToken(name: TypeName, length: nat, value: Scalar): (s: seq<byte>) {
    match value
    case Number(n) =>
      if name.Simple? then Spell(Head(7, if n >= 0 then Some(n) else None, length))
      else if n >= 0 then Spell(Head(0, Some(n), length))
      else Spell(Head(1, Some(-1 - n), length))
    case FloatBits(bits) => Spell(Head(7, Some(bits), length))
    case Flag(on) => Spell(Head(7, Some(if on then 21 else 20), length))
    case Payload(content) =>
      if length < |content| then []
      else Spell(Head(if name.String? then 3 else 2, Some(|content|), length - |content|)) + content
    case Nothing =>
      if name.Null? then Spell(Head(7, Some(22), length))
      else if name.Undefined? then Spell(Head(7, Some(23), length))
      else [BREAK]
  }

  /** The bytes a tree stands for; no offset is looked at. */
  function Respell(node: Node): (s: seq<byte>)
    decreases node, 0
  {
    match node
    case Token(name, pos, value, _) => SpellToken(name, pos.length, value)
    case ChunkedNode(text, header, _, chunks, _, _) =>
      Spell(Head(if text then 3 else 2, None, header.length)) + RespellAll(chunks)
    case ArrayNode(header, _, len, values, _, _) => Spell(Head(4, len, header.length)) + RespellAll(values)
    case MapNode(header, _, len, entries, _, _) => Spell(Head(5, len, header.length)) + RespellEntries(entries)
    case TagNode(header, _, tag, inner, _, _) =>
      Spell(Head(6, Some(tag), header.length)) + (if inner.Some? then Respell(inner.value) else [])
  }

  function RespellAll(values: seq<Node>): (s: seq<byte>)
    decreases values, 1
  {
    if values == [] then []
    else RespellAll(values[..|values| - 1]) + Respell(values[|values| - 1])
  }

  function RespellEntries(entries: seq<Entry>): (s: seq<byte>)
    decreases entries, 1
  {
    if entries == [] then []
    else RespellEntries(entries[..|entries| - 1]) + RespellEntry(entries[|entries| - 1])
  }

  function RespellEntry(e: Entry): (s: seq<byte>)
    decreases e, 1
  {
    match e
    case Pair(key, value) => Respell(key) + Respell(value)
    case Closing(mark) => Respell(mark)
    case PartialEntry(_, _, _) => []
  }

  // ---------------------------------------------------------------------
  // Respelling a decoded tree gives the input back
  // ---------------------------------------------------------------------

  lemma Joined(bytes: seq<byte>, from: nat, mid: nat, to: nat)
    requires from <= mid <= to <= |bytes|
    ensures bytes[from..mid] + bytes[mid..to] == bytes[from..to]
  {
  }

  lemma HeadSpelled(bytes: seq<byte>, at: nat)
    requires at <= |bytes| && PullHead(bytes, at).Pulled?
    ensures var h := PullHead(bytes, at).h; Spell(h) == bytes[at..at + h.len]
  {
    HeadReadIsWritten(bytes, at, PullHead(bytes, at).h);
  }

  lemma TokenSpelled(bytes: seq<byte>, at: nat, node: Node)
    requires node.Token? && Describes(bytes, at, node)
    ensures NodeEnd(node) <= |bytes| && SpellToken(node.name, node.pos.length, node.value) == bytes[at..NodeEnd(node)]
  {
    hide PullHead, ReadHead, WriteHead, Spell;
    HeadSpelled(bytes, at);
    var h := PullHead(bytes, at).h;
    if h.major in {2, 3} {
      Joined(bytes, at, at + h.len, NodeEnd(node));
    }
  }

  lemma ChunkSpelled(bytes: seq<byte>, at: nat, text: bool, chunk: Node)
    requires IsChunk(bytes, at, text, chunk)
    ensures at < NodeEnd(chunk) <= |bytes| && Respell(chunk) == bytes[at..NodeEnd(chunk)]
  {
    hide PullHead, ReadHead, WriteHead, Spell;
    HeadSpelled(bytes, at);
    var h := PullHead(bytes, at).h;
    Joined(bytes, at, at + h.len, NodeEnd(chunk));
  }

  lemma BreakSpelled(bytes: seq<byte>, mark: Node, end: nat)
    requires ClosedBy(bytes, mark, end)
    ensures Respell(mark) == bytes[end - 1..end]
  {
  }

  lemma {:induction false} ChunksSpelled(bytes: seq<byte>, from: nat, text: bool, chunks: seq<Node>, to: nat)
    requires from <= |bytes| && TileChunks(bytes, from, text, chunks, to)
    ensures from <= to <= |bytes| && RespellAll(chunks) == bytes[from..to]
    decreases |chunks|
  {
    hide IsChunk, Respell;
    if chunks != [] {
      var n := |chunks| - 1;
      var mid := Edge(from, chunks[..n], n);
      assert forall k | 0 <= k < n :: Edge(from, chunks[..n], k) == Edge(from, chunks, k);
      ChunksSpelled(bytes, from, text, chunks[..n], mid);
      ChunkSpelled(bytes, mid, text, chunks[n]);
      Joined(bytes, from, mid, to);
    }
  }

  lemma {:induction false} ItemsSpelled(bytes: seq<byte>, from: nat, values: seq<Node>, to: nat)
    requires from <= |bytes| && Tile(bytes, from, values, to)
    ensures from <= to <= |bytes| && RespellAll(values) == bytes[from..to]
    decreases values, 0
  {
    hide Describes, Respell;
    if values != [] {
      var n := |values| - 1;
      var mid := Edge(from, values[..n], n);
      assert forall k | 0 <= k < n :: Edge(from, values[..n], k) == Edge(from, values, k);
      ItemsSpelled(bytes, from, values[..n], mid);
      DescribedSpan(bytes, mid, values[n]);
      RespellsInput(bytes, mid, values[n]);
      Joined(bytes, from, mid, to);
    }
  }

  lemma {:induction false} PairsSpelled(bytes: seq<byte>, from: nat, entries: seq<Entry>, to: nat)
    requires from <= |bytes| && TilePairs(bytes, from, entries, to)
    ensures from <= to <= |bytes| && RespellEntries(entries) == bytes[from..to]
    decreases entries, 0
  {
    hide Describes, Respell;
    if entries != [] {
      var n := |entries| - 1;
      var mid := EntryEdge(from, entries[..n], n);
      assert forall k | 0 <= k < n :: EntryEdge(from, entries[..n], k) == EntryEdge(from, entries, k);
      PairsSpelled(bytes, from, entries[..n], mid);
      PairSpelled(bytes, mid, entries[n]);
      Joined(bytes, from, mid, to);
    }
  }

  lemma {:induction false} PairSpelled(bytes: seq<byte>, at: nat, e: Entry)
    requires DescribesPair(bytes, at, e)
    ensures at <= EntryEnd(e) <= |bytes| && RespellEntry(e) == bytes[at..EntryEnd(e)]
    decreases e, 0
  {
    hide Describes, Respell;
    var mid := NodeEnd(e.key);
    DescribedSpan(bytes, at, e.key);
    DescribedSpan(bytes, mid, e.value);
    RespellsInput(bytes, at, e.key);
    RespellsInput(bytes, mid, e.value);
    Joined(bytes, at, mid, NodeEnd(e.value));
  }

  /** A tree that describes bytes spells exactly those bytes. */
  lemma {:induction false} RespellsInput(bytes: seq<byte>, at: nat, node: Node)
    requires Describes(bytes, at, node)
    ensures at < NodeEnd(node) <= |bytes| && Respell(node) == bytes[at..NodeEnd(node)]
    decreases node, 0
  {
    hide PullHead, Spell, Leaf, Tile, TilePairs, TileChunks, MapOddities, TagOddities, RespellEntry, HeadIsReadable;
    DescribedSpan(bytes, at, node);
    HeadSpelled(bytes, at);
    var h := PullHead(bytes, at).h;
    var from, end := at + h.len, NodeEnd(node);
    match node
    case Token(_, _, _, _) =>
      TokenSpelled(bytes, at, node);
    case ChunkedNode(text, _, _, chunks, _, _) =>
      ChunksSpelled(bytes, from, text, chunks[..|chunks| - 1], end - 1);
      BreakSpelled(bytes, chunks[|chunks| - 1], end);
      Joined(bytes, from, end - 1, end);
      Joined(bytes, at, from, end);
    case ArrayNode(_, _, len, values, _, _) =>
      ValuesSpelled(bytes, from, len, values, end);
      Joined(bytes, at, from, end);
    case MapNode(_, _, len, entries, _, _) =>
      EntriesSpelled(bytes, from, len, entries, end);
      Joined(bytes, at, from, end);
    case TagNode(_, _, _, inner, _, _) =>
      RespellsInput(bytes, from, inner.value);
      Joined(bytes, at, from, end);
  }

  lemma {:induction false} ValuesSpelled(bytes: seq<byte>, from: nat, len: Option<nat>, values: seq<Node>, to: nat)
    requires from <= |bytes| && ValuesFill(bytes, from, len, values, to)
    ensures from <= to <= |bytes| && RespellAll(values) == bytes[from..to]
    decreases values, 1
  {
    hide Tile, Respell;
    if len.Some? {
      ItemsSpelled(bytes, from, values, to);
    } else {
      ItemsSpelled(bytes, from, values[..|values| - 1], to - 1);
      BreakSpelled(bytes, values[|values| - 1], to);
      Joined(bytes, from, to - 1, to);
    }
  }

  lemma {:induction false} EntriesSpelled(bytes: seq<byte>, from: nat, len: Option<nat>, entries: seq<Entry>, to: nat)
    requires from <= |bytes| && EntriesFill(bytes, from, len, entries, to)
    ensures from <= to <= |bytes| && RespellEntries(entries) == bytes[from..to]
    decreases entries, 1
  {
    hide TilePairs, Respell;
    if len.Some? {
      PairsSpelled(bytes, from, entries, to);
    } else {
      PairsSpelled(bytes, from, entries[..|entries| - 1], to - 1);
      BreakSpelled(bytes, entries[|entries| - 1].mark, to);
      Joined(bytes, from, to - 1, to);
    }
  }

  /** Two inputs that decode to the same tree are the same bytes, and the tree
      spells them. */
  lemma DocumentRespells(bytes: seq<byte>, node: Node)
    requires Document(bytes) == Whole(node)
    ensures Respell(node) == bytes
  {
    hide Item, Respell, Describes;
    ItemDescribes(bytes, 0, []);
    RespellsInput(bytes, 0, node);
    assert bytes[0..|bytes|] == bytes;
  }

  // ---------------------------------------------------------------------
  // Type names
  // ---------------------------------------------------------------------

  /** The bytes of the machine integer a name stands for. */
  function NameBytes(name: TypeName): (w: nat)
    requires name in {U8, U16, U32, U64, I8, I16, I32, I64}
  {
    if name in {U8, I8} then 1 else if name in {U16, I16} then 2 else if name in {U32, I32} then 4 else 8
  }

  predicate FitsName(name: TypeName, n: int)
    requires name in {U8, U16, U32, U64, I8, I16, I32, I64}
  {
    var half := Pow256(NameBytes(name)) / 2;
    if name in {U8, U16, U32, U64} then 0 <= n < Pow256(NameBytes(name)) else -half <= n < half
  }

  /** An integer token's name tells its argument's width on the wire, and the
      machine integer of that name holds the value; only a negative value the
      signed integer of that width cannot hold is named otherwise. */
  lemma NamesHoldValues(bytes: seq<byte>, at: nat, node: Node)
    requires Describes(bytes, at, node) && node.Token? && node.value.Number? && !node.name.Simple?
    ensures var width := if node.pos.length == 1 then 1 else node.pos.length - 1;
            if node.name.BigInt? then width in {1, 2, 4, 8} && node.value.n < -(Pow256(width) / 2)
            else
              && node.name in {U8, U16, U32, U64, I8, I16, I32, I64}
              && NameBytes(node.name) == width && FitsName(node.name, node.value.n)
  {
    hide PullHead, IntOddities, ReadHead, BigEndian;
    ArgumentFitsWord();
    ArgumentInWidth(bytes, at);
  }

  /** Every other token's name and value tell its header apart: a float's name its
      width, the named simple values their numbers, a string its type. */
  lemma OtherNamesHoldValues(bytes: seq<byte>, at: nat, node: Node)
    requires Describes(bytes, at, node) && node.Token? && (node.value.Number? ==> node.name.Simple?)
    ensures ReadHead(bytes, at).Some?
    ensures var h := ReadHead(bytes, at).value;
            match node.name
            case F16 => h.major == 7 && h.len == 3 && h.argument.Some? && node.value == FloatBits(h.argument.value)
            case F32 => h.major == 7 && h.len == 5 && h.argument.Some? && node.value == FloatBits(h.argument.value)
            case F64 => h.major == 7 && h.len == 9 && h.argument.Some? && node.value == FloatBits(h.argument.value)
            case Bool =>
              h.major == 7 && h.len <= 2 && h.argument in {Some(20), Some(21)}
                && node.value == Flag(h.argument == Some(21))
            case Null => h.major == 7 && h.len <= 2 && h.argument == Some(22) && node.value == Nothing
            case Undefined => h.major == 7 && h.len <= 2 && h.argument == Some(23) && node.value == Nothing
            case Simple =>
              && h.major == 7 && h.len <= 2 && h.argument.Some? && !(20 <= h.argument.value <= 23)
              && node.value == Number(h.argument.value)
            case Bytes => h.major == 2 && node.value.Payload? && h.argument == Some(|node.value.content|)
            case String => h.major == 3 && node.value.Payload? && h.argument == Some(|node.value.content|)
            case _ => false
  {
    hide IntOddities, FloatOddities, BigEndian;
    ArgumentInWidth(bytes, at);
  }

  lemma ArgumentInWidth(bytes: seq<byte>, at: nat)
    requires at <= |bytes| && PullHead(bytes, at).Pulled?
    ensures HeadFits(PullHead(bytes, at).h)
  {
    HeadReadIsWritten(bytes, at, PullHead(bytes, at).h);
  }
}
