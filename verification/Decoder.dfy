/** The positional CBOR decoder as a recursive definition: the tree, or the first
    error with the part of the tree decoded before it. */
module Decoder {
  import opened Wire
  import opened Utf8
  import opened Oddities

  /** How many arrays, maps and tags may stand around an item. */
  const MAX_DEPTH: nat := 32_768
  const READ_CHUNK: nat := 65_536

  // ---------------------------------------------------------------------
  // The positional tree
  // ---------------------------------------------------------------------

  datatype Pos = Pos(offset: nat, length: nat)

  function Span(start: nat, end: nat): (p: Pos)
    ensures p.offset == start && (start <= end ==> p.offset + p.length == end)
  {
    Pos(start, if end >= start then end - start else 0)
  }

  datatype TypeName =
    | U8 | U16 | U32 | U64
    | I8 | I16 | I32 | I64 | BigInt
    | F16 | F32 | F64
    | Bool | Null | Undefined | Simple
    | Bytes | String
    | Break

  /** What a token shows as its value; a float is kept as the bits on the wire. */
  datatype Scalar =
    | Nothing
    | Flag(on: bool)
    | Number(n: int)
    | FloatBits(bits: nat)
    | Payload(content: seq<byte>)

  datatype Node =
    | Token(name: TypeName, pos: Pos, value: Scalar, oddities: seq<Oddity>)
    | ChunkedNode(text: bool, header: Pos, whole: Pos, chunks: seq<Node>, incomplete: bool, oddities: seq<Oddity>)
    | ArrayNode(header: Pos, whole: Pos, len: Option<nat>, values: seq<Node>, incomplete: bool, oddities: seq<Oddity>)
    | MapNode(header: Pos, whole: Pos, len: Option<nat>, entries: seq<Entry>, incomplete: bool, oddities: seq<Oddity>)
    | TagNode(header: Pos, whole: Pos, tag: nat, inner: Option<Node>, incomplete: bool, oddities: seq<Oddity>)

  /** An entry of a map; `Closing` is the break that ends an indefinite one. */
  datatype Entry =
    | Pair(key: Node, value: Node)
    | PartialEntry(begunKey: Option<Node>, begunValue: Option<Node>, failing: Side)
    | Closing(mark: Node)

  datatype Side = KeySide | ValueSide

  datatype PathSeg =
    | ArrayIdx(i: nat)
    | MapEntry(i: nat, side: Side)
    | ChunkIdx(i: nat)
    | TagInner

  function SpanOf(node: Node): (p: Pos) {
    if node.Token? then node.pos else node.whole
  }

  function NodeEnd(node: Node): (e: nat) {
    SpanOf(node).offset + SpanOf(node).length
  }

  // ---------------------------------------------------------------------
  // Errors
  // ---------------------------------------------------------------------

  datatype ErrorKind =
    | InvalidSyntax
    | UnexpectedEof
    | UnexpectedBreak
    | TrailingData
    | InvalidUtf8
    | InvalidChunk
    | NonFiniteFloat
    | NestingTooDeep

  datatype DecodeError = DecodeError(kind: ErrorKind, offset: nat, span: Option<(nat, nat)>, path: seq<PathSeg>)

  /** A decoded item and where it ends; or the error, the part of this item that
      was decoded and the offset the reader had reached. */
  datatype Outcome =
    | Done(node: Node, end: nat)
    | Fail(error: DecodeError, part: Option<Node>, stop: nat)

  function Refuse(kind: ErrorKind, offset: nat, path: seq<PathSeg>, stop: nat): (r: Outcome) {
    Fail(DecodeError(kind, offset, None, path), None, stop)
  }

  // ---------------------------------------------------------------------
  // Token reads
  // ---------------------------------------------------------------------

  datatype Pull = Pulled(h: Head) | Refused(kind: ErrorKind, offset: nat, stop: nat)

  /** Headers the pull layer has no reading for: an integer or a tag without an
      argument, and a length `usize` cannot hold. */
  predicate HeadIsReadable(h: Head) {
    match h.argument
    case None => h.major !in {0, 1, 6}
    case Some(v) => 2 <= h.major <= 5 ==> v <= USIZE_MAX
  }

  /** Pulling the header at `at`. The initial byte is consumed before a missing
      argument is noticed. */
  function PullHead(bytes: seq<byte>, at: nat): (r: Pull)
    requires at <= |bytes|
    ensures r.Pulled? ==> ReadHead(bytes, at) == Some(r.h) && at < at + r.h.len <= |bytes| && r.h.major < 8
    ensures r.Pulled? ==> HeadIsReadable(r.h)
    ensures r.Refused? ==> at <= r.stop <= |bytes| && r.offset == at
  {
    if at == |bytes| then Refused(UnexpectedEof, at, at)
    else if 28 <= bytes[at] % 32 < 31 then Refused(InvalidSyntax, at, at + 1)
    else
      match ReadHead(bytes, at)
      case None => Refused(UnexpectedEof, at, at + 1)
      case Some(h) => if HeadIsReadable(h) then Pulled(h) else Refused(InvalidSyntax, at, at + h.len)
  }

  /** Where a payload read of `len` bytes leaves the reader: past it, or past the
      last whole chunk when the input ends inside it. */
  function PayloadStop(bytes: seq<byte>, at: nat, len: nat): (stop: nat)
    requires at <= |bytes|
    ensures at <= stop <= |bytes|
    ensures at + len <= |bytes| ==> stop == at + len
  {
    if at + len <= |bytes| then at + len
    else at + (|bytes| - at) / READ_CHUNK * READ_CHUNK
  }

  // ---------------------------------------------------------------------
  // Items without items of their own
  // ---------------------------------------------------------------------

  function PositiveName(len: nat): (t: TypeName) {
    if len <= 2 then U8 else if len == 3 then U16 else if len == 5 then U32 else U64
  }

  function NegativeName(len: nat, value: int): (t: TypeName) {
    if len <= 2 && value >= -0x80 then I8
    else if len == 3 && value >= -0x8000 then I16
    else if len == 5 && value >= -0x8000_0000 then I32
    else if len == 9 && value >= -0x8000_0000_0000_0000 then I64
    else BigInt
  }

  function FloatName(len: nat): (t: TypeName) {
    if len == 3 then F16 else if len == 5 then F32 else F64
  }

  function SimpleToken(v: nat, pos: Pos): (t: Node) {
    if v == 20 then Token(Bool, pos, Flag(false), [])
    else if v == 21 then Token(Bool, pos, Flag(true), [])
    else if v == 22 then Token(Null, pos, Nothing, [])
    else if v == 23 then Token(Undefined, pos, Nothing, [])
    else Token(Simple, pos, Number(v), [])
  }

  function BreakToken(at: nat): (t: Node) {
    Token(Break, Pos(at, 1), Nothing, [])
  }

  /** A string of a known length: `start` is where its header starts. */
  function StringItem(bytes: seq<byte>, start: nat, at: nat, len: nat, text: bool, path: seq<PathSeg>): (r: Outcome)
    requires start <= at <= |bytes|
    ensures r.Done? ==> start <= at <= r.end <= |bytes|
    ensures r.Fail? ==> at <= r.stop <= |bytes| && r.part.None?
  {
    var end := PayloadStop(bytes, at, len);
    if at + len > |bytes| then Refuse(UnexpectedEof, at, path, end)
    else if text && !ValidUtf8(bytes[at..end]) then
      Fail(DecodeError(InvalidUtf8, start, Some((start, end - start)), path), None, end)
    else Done(Token(if text then String else Bytes, Span(start, end), Payload(bytes[at..end]), []), end)
  }

  /** The item a header spells by itself or with the payload behind it. */
  predicate IsLeaf(h: Head) {
    h.major in {0, 1, 7} || (h.major in {2, 3} && h.argument.Some?)
  }

  function Leaf(bytes: seq<byte>, at: nat, h: Head, path: seq<PathSeg>): (r: Outcome)
    requires at + h.len <= |bytes| && h.len >= 1 && IsLeaf(h)
    ensures r.Done? ==> at + h.len <= r.end <= |bytes| && r.node.Token? && r.node.pos == Pos(at, r.end - at)
    ensures r.Fail? ==> at + h.len <= r.stop <= |bytes| && r.part.None?
  {
    var end := at + h.len;
    var pos := Pos(at, h.len);
    match h.argument
    case None =>
      Fail(DecodeError(UnexpectedBreak, at, Some((at, 1)), path), None, end)
    case Some(v) =>
      if h.major == 0 then Done(Token(PositiveName(h.len), pos, Number(v), IntOddities(v, h.len)), end)
      else if h.major == 1 then
        Done(Token(NegativeName(h.len, -1 - v), pos, Number(-1 - v), IntOddities(v, h.len)), end)
      else if h.major == 7 then
        if h.len <= 2 then Done(SimpleToken(v, pos), end)
        else if !IsFinite(WidthOf(h.len), v) then Refuse(NonFiniteFloat, at, path, end)
        else Done(Token(FloatName(h.len), pos, FloatBits(v), FloatOddities(h.len, v)), end)
      else StringItem(bytes, at, end, v, h.major == 3, path)
  }

  // ---------------------------------------------------------------------
  // Indefinite-length strings
  // ---------------------------------------------------------------------

  function ChunksSoFar(start: nat, headerEnd: nat, chunks: seq<Node>, text: bool, stop: nat): (n: Node) {
    ChunkedNode(text, Span(start, headerEnd), Span(start, stop), chunks, true, [])
  }

  function ChunksClosed(start: nat, headerEnd: nat, chunks: seq<Node>, text: bool, end: nat): (n: Node) {
    ChunkedNode(text, Span(start, headerEnd), Span(start, end), chunks, false, [IndefiniteLength])
  }

  /** The chunk at `at`, or the outcome that ends the string there. */
  function Chunk(bytes: seq<byte>, at: nat, text: bool, path: seq<PathSeg>): (r: Outcome)
    requires at <= |bytes|
    ensures r.Done? ==> at < r.end <= |bytes|
    ensures r.Fail? ==> at <= r.stop <= |bytes| && r.part.None?
  {
    match PullHead(bytes, at)
    case Refused(kind, offset, stop) => Refuse(kind, offset, path, stop)
    case Pulled(h) =>
      if h.major == 7 && h.argument.None? then Done(BreakToken(at), at + 1)
      else if h.major == (if text then 3 else 2) && h.argument.Some? then
        StringItem(bytes, at, at + h.len, h.argument.value, text, path)
      else Refuse(InvalidChunk, at, path, at + h.len)
  }

  /** The rest of an indefinite-length string whose `chunks` are read. */
  function Chunks(bytes: seq<byte>, start: nat, headerEnd: nat, text: bool, chunks: seq<Node>, at: nat,
                  path: seq<PathSeg>): (r: Outcome)
    requires start < headerEnd <= at <= |bytes|
    ensures r.Done? ==> at < r.end <= |bytes|
    ensures r.Fail? ==> at <= r.stop <= |bytes|
    decreases |bytes| - at
  {
    match Chunk(bytes, at, text, path + [ChunkIdx(|chunks|)])
    case Fail(error, _, stop) => Fail(error, Some(ChunksSoFar(start, headerEnd, chunks, text, stop)), stop)
    case Done(chunk, end) =>
      if chunk == BreakToken(at) then Done(ChunksClosed(start, headerEnd, chunks + [chunk], text, end), end)
      else Chunks(bytes, start, headerEnd, text, chunks + [chunk], end, path)
  }

  // ---------------------------------------------------------------------
  // Containers
  // ---------------------------------------------------------------------

  /** A container some of whose items are decoded. */
  datatype Open =
    | OpenArray(start: nat, headerEnd: nat, len: Option<nat>, values: seq<Node>)
    | OpenMap(start: nat, headerEnd: nat, len: Option<nat>, entries: seq<Entry>,
              keySpans: seq<(nat, nat)>, keyStart: nat, key: Option<(Node, nat)>)
    | OpenTag(start: nat, headerEnd: nat, tag: nat)

  /** The frame a container's header opens. */
  function Opened(at: nat, h: Head): (f: Open)
    requires h.major in {4, 5, 6} && (h.major == 6 ==> h.argument.Some?)
    ensures f.start == at && f.headerEnd == at + h.len
  {
    if h.major == 4 then OpenArray(at, at + h.len, h.argument, [])
    else if h.major == 5 then OpenMap(at, at + h.len, h.argument, [], [], at + h.len, None)
    else OpenTag(at, at + h.len, h.argument.value)
  }

  function ArrayClosed(f: Open, values: seq<Node>, end: nat): (n: Node)
    requires f.OpenArray?
  {
    ArrayNode(Span(f.start, f.headerEnd), Span(f.start, end), f.len, values, false,
              if f.len.None? then [IndefiniteLength] else [])
  }

  function MapClosed(bytes: seq<byte>, f: Open, entries: seq<Entry>, end: nat): (n: Node)
    requires f.OpenMap?
  {
    MapNode(Span(f.start, f.headerEnd), Span(f.start, end), f.len, entries, false,
            MapOddities(bytes, f.keySpans, f.len.None?))
  }

  function TagOddities(tag: nat, inner: Node): (r: seq<Oddity>) {
    if inner.Token? && inner.name == Bytes && inner.value.Payload? then BignumOddities(tag, inner.value.content)
    else []
  }

  function TagClosed(f: Open, inner: Node, end: nat): (n: Node)
    requires f.OpenTag?
  {
    TagNode(Span(f.start, f.headerEnd), Span(f.start, end), f.tag, Some(inner), false, TagOddities(f.tag, inner))
  }

  /** The container cut short at `stop`, with the part of the item it was taking.
      `inside` says that an item was being taken at all. */
  function Cut(f: Open, part: Option<Node>, stop: nat, inside: bool): (n: Node) {
    match f
    case OpenArray(start, headerEnd, len, values) =>
      ArrayNode(Span(start, headerEnd), Span(start, stop), len,
                if part.Some? then values + [part.value] else values, true, [])
    case OpenMap(start, headerEnd, len, entries, _, _, key) =>
      var all :=
        if key.Some? then entries + [PartialEntry(Some(key.value.0), part, ValueSide)]
        else if inside then entries + [PartialEntry(part, None, KeySide)]
        else entries;
      MapNode(Span(start, headerEnd), Span(start, stop), len, all, true, [])
    case OpenTag(start, headerEnd, tag) =>
      TagNode(Span(start, headerEnd), Span(start, stop), tag, part, true, [])
  }

  /** What a container does between two items: takes one more, closes, or finds
      the input at its end. */
  datatype Step =
    | Next(frame: Open, seg: PathSeg)
    | Closed(node: Node, end: nat)
    | Short

  function Count(f: Open): (n: nat)
    requires !f.OpenTag?
  {
    if f.OpenArray? then |f.values| else |f.entries|
  }

  function Advance(bytes: seq<byte>, f: Open, at: nat): (s: Step)
    requires at <= |bytes|
    ensures s.Closed? ==> at <= s.end <= |bytes|
    ensures s.Next? ==> s.frame.start == f.start && s.frame.headerEnd == f.headerEnd
    ensures s.Short? ==> at == |bytes|
  {
    if f.OpenTag? then Next(f, TagInner)
    else if f.len.None? && at == |bytes| then Short
    else if f.len.None? && bytes[at] == BREAK then
      Closed(if f.OpenArray? then ArrayClosed(f, f.values + [BreakToken(at)], at + 1)
             else MapClosed(bytes, f, f.entries + [Closing(BreakToken(at))], at + 1), at + 1)
    else if f.len.Some? && Count(f) >= f.len.value then
      Closed(if f.OpenArray? then ArrayClosed(f, f.values, at) else MapClosed(bytes, f, f.entries, at), at)
    else if f.OpenArray? then Next(f, ArrayIdx(Count(f)))
    else Next(f.(keyStart := at), MapEntry(Count(f), KeySide))
  }

  /** The frame once it has taken the finished item `node`; a tag closes instead,
      and the key of an entry waits for its value. */
  function Took(f: Open, node: Node, end: nat): (g: Open)
    requires !f.OpenTag?
    ensures g.start == f.start && g.headerEnd == f.headerEnd
  {
    match f
    case OpenArray(_, _, _, values) => f.(values := values + [node])
    case OpenMap(_, _, _, entries, keySpans, keyStart, key) =>
      if key.None? then f.(key := Some((node, end)))
      else
        f.(entries := entries + [Pair(key.value.0, node)], keySpans := keySpans + [(keyStart, key.value.1)],
           key := None)
  }

  // ---------------------------------------------------------------------
  // The decoder
  // ---------------------------------------------------------------------

  /** One whole item from `at` on, one level deep for every segment of `path`. */
  function Item(bytes: seq<byte>, at: nat, path: seq<PathSeg>): (r: Outcome)
    requires at <= |bytes|
    ensures r.Done? ==> at < r.end <= |bytes|
    ensures r.Fail? ==> at <= r.stop <= |bytes|
    decreases 1 + |bytes| - at, 0
  {
    if |path| > MAX_DEPTH then
      Fail(DecodeError(NestingTooDeep, at, Some((at, 1)), path), None, at)
    else
      match PullHead(bytes, at)
      case Refused(kind, offset, stop) => Refuse(kind, offset, path, stop)
      case Pulled(h) => Content(bytes, at, h, path)
  }

  /** The item whose header `h` was just pulled at `at`. */
  function Content(bytes: seq<byte>, at: nat, h: Head, path: seq<PathSeg>): (r: Outcome)
    requires at + h.len <= |bytes| && h.len >= 1 && h.major < 8 && HeadIsReadable(h)
    ensures r.Done? ==> at + h.len <= r.end <= |bytes|
    ensures r.Fail? ==> at + h.len <= r.stop <= |bytes|
    decreases 1 + |bytes| - at - h.len, 2
  {
    if IsLeaf(h) then Leaf(bytes, at, h, path)
    else if h.major in {2, 3} then Chunks(bytes, at, at + h.len, h.major == 3, [], at + h.len, path)
    else Steps(bytes, Opened(at, h), at + h.len, path)
  }

  /** The container `f`, from between two of its items on. */
  function Steps(bytes: seq<byte>, f: Open, at: nat, path: seq<PathSeg>): (r: Outcome)
    requires at <= |bytes|
    ensures r.Done? ==> at <= r.end <= |bytes|
    ensures r.Fail? ==> at <= r.stop <= |bytes|
    decreases 1 + |bytes| - at, 1
  {
    match Advance(bytes, f, at)
    case Short => Fail(DecodeError(UnexpectedEof, at, None, path), Some(Cut(f, None, at, false)), at)
    case Closed(node, end) => Done(node, end)
    case Next(g, seg) => Takes(bytes, g, Item(bytes, at, path + [seg]), path)
  }

  /** The container `f`, from the outcome of the item it was taking on. */
  function Takes(bytes: seq<byte>, f: Open, item: Outcome, path: seq<PathSeg>): (r: Outcome)
    requires item.Done? ==> item.end <= |bytes|
    requires item.Fail? ==> item.stop <= |bytes|
    ensures r.Done? ==> item.Done? && item.end <= r.end <= |bytes|
    ensures r.Fail? ==> (if item.Done? then item.end else item.stop) <= r.stop <= |bytes|
    decreases if item.Done? then 1 + |bytes| - item.end else 0, 2
  {
    match item
    case Fail(error, part, stop) => Fail(error, Some(Cut(f, part, stop, true)), stop)
    case Done(node, end) =>
      if f.OpenTag? then Done(TagClosed(f, node, end), end)
      else if f.OpenMap? && f.key.None? then
        Takes(bytes, Took(f, node, end), Item(bytes, end, path + [MapEntry(|f.entries|, ValueSide)]), path)
      else Steps(bytes, Took(f, node, end), end, path)
  }

  datatype Decoded = Whole(tree: Node) | Failed(error: DecodeError, part: Option<Node>)

  /** The whole input as one item; bytes after it are an error that carries the
      finished tree. */
  function Document(bytes: seq<byte>): (r: Decoded) {
    match Item(bytes, 0, [])
    case Fail(error, part, _) => Failed(error, part)
    case Done(node, end) =>
      if end == |bytes| then Whole(node)
      else Failed(DecodeError(TrailingData, end, Some((end, |bytes| - end)), []), Some(node))
  }
}
