/** The position map's rows for values without a schema, as the recursive pre-order
    walk emits them. */
module RawEmission {
  import opened Wire
  import opened Text
  import opened Decoder
  import opened PathTable

  const RAW_LEVEL: nat := 8192

  // ---------------------------------------------------------------------
  // Values, nodes and rows
  // ---------------------------------------------------------------------

  /** A decoded CBOR value; a scalar other than a simple value is the text it
      shows as a JSON key. */
  datatype Cbor =
    | Items(items: seq<Cbor>)
    | Entries(entries: seq<Assoc>)
    | Tagged(tag: nat, inner: Cbor)
    | SimpleValue(number: nat)
    | Scalar(text: string)

  datatype Assoc = Assoc(key: Cbor, value: Cbor)

  type Extent = Option<(nat, nat)>

  /** What a row shows beside its two paths. */
  datatype Content =
    | NodeContent(node: Option<Node>, span: Extent)
    | WrapperContent(extent: Extent)
    | TagContent(tagNode: Option<Node>)
    | PairContent(pairExtent: Extent)

  function JsonKey(c: Cbor): (name: string) {
    match c
    case Scalar(text) => text
    case SimpleValue(n) => "simple(" + Digits(n) + ")"
    case Items(_) => "@array"
    case Entries(_) => "@map"
    case Tagged(tag, _) => "@tag" + Digits(tag)
  }

  /** A map shows as `@entries` pairs when a key is no scalar or repeats another. */
  predicate NeedsEntries(entries: seq<Assoc>) {
    || (exists k | 0 <= k < |entries| :: !entries[k].key.Scalar?)
    || (exists j, k | 0 <= j < k < |entries| :: JsonKey(entries[j].key) == JsonKey(entries[k].key))
  }

  predicate IsWordChar(c: char) {
    IsDigit(c) || 'a' <= c <= 'z' || 'A' <= c <= 'Z' || c == '_'
  }

  predicate IsWord(s: string) {
    s != "" && forall i | 0 <= i < |s| :: IsWordChar(s[i])
  }

  function CborSegment(name: string): (s: string) {
    if IsSigned(name) then "[" + name + "]"
    else if IsWord(name) then "." + name
    else "[\"" + Backslashed(name) + "\"]"
  }

  function DecodedSegment(name: string): (s: string) {
    if IsWord(name) && !IsDigit(name[0]) then "." + name else "[\"" + Backslashed(name) + "\"]"
  }

  function IndexSegment(i: nat): (s: string) {
    "[" + Digits(i) + "]"
  }

  // The positional nodes beside a value; absent where the shapes differ.

  function WithoutBreaks(values: seq<Node>): (r: seq<Node>) {
    if values == [] then []
    else (if values[0].Token? && values[0].name.Break? then [] else [values[0]]) + WithoutBreaks(values[1..])
  }

  function ItemNode(n: Option<Node>, i: nat): (r: Option<Node>) {
    if n.Some? && n.value.ArrayNode? && i < |WithoutBreaks(n.value.values)| then
      Some(WithoutBreaks(n.value.values)[i])
    else None
  }

  function PairsIn(entries: seq<Entry>): (r: seq<(Node, Node)>) {
    if entries == [] then []
    else
      (match entries[0]
       case Pair(key, value) => [(key, value)]
       case PartialEntry(key, value, _) => if key.Some? && value.Some? then [(key.value, value.value)] else []
       case Closing(_) => [])
      + PairsIn(entries[1..])
  }

  function PairNode(n: Option<Node>, i: nat): (r: Option<(Node, Node)>) {
    if n.Some? && n.value.MapNode? && i < |PairsIn(n.value.entries)| then Some(PairsIn(n.value.entries)[i]) else None
  }

  function KeyNode(n: Option<Node>, i: nat): (r: Option<Node>) {
    if PairNode(n, i).Some? then Some(PairNode(n, i).value.0) else None
  }

  function ValueNode(n: Option<Node>, i: nat): (r: Option<Node>) {
    if PairNode(n, i).Some? then Some(PairNode(n, i).value.1) else None
  }

  function TagPayload(n: Option<Node>): (r: Option<Node>) {
    if n.Some? && n.value.TagNode? then n.value.inner else None
  }

  function NodeExtent(n: Option<Node>): (e: Extent) {
    if n.Some? then Some((SpanOf(n.value).offset, SpanOf(n.value).length)) else None
  }

  /** From the start of the earlier node to the end of the later one. */
  function PairExtent(n: Option<Node>, i: nat): (e: Extent) {
    if PairNode(n, i).None? then None
    else
      var (key, value) := PairNode(n, i).value;
      var start := if SpanOf(key).offset <= SpanOf(value).offset then SpanOf(key).offset else SpanOf(value).offset;
      var end := if NodeEnd(key) >= NodeEnd(value) then NodeEnd(key) else NodeEnd(value);
      Some((start, if end >= start then end - start else 0))
  }

  // ---------------------------------------------------------------------
  // The rows of a value, in pre-order
  // ---------------------------------------------------------------------

  /** A row as its reader sees it: both paths in full. */
  datatype Shown = Shown(cbor: string, decoded: string, content: Content)

  const ENTRIES := "[\"@entries\"]"
  const TAG := "[\"@tag\"]"
  const VALUE := "[\"@value\"]"
  const SIMPLE := "[\"@simple\"]"

  function NodeRows(c: Cbor, n: Option<Node>, p: string, q: string, span: Extent): (rows: seq<Shown>)
    decreases c, 1, 0
  {
    [Shown(p, q, NodeContent(n, span))] + ChildRows(c, n, p, q)
  }

  function ChildRows(c: Cbor, n: Option<Node>, p: string, q: string): (rows: seq<Shown>)
    decreases c, 0, 0
  {
    match c
    case Items(items) => ItemRows(items, n, 0, p, q)
    case Entries(entries) =>
      if NeedsEntries(entries) then
        [Shown(p, q + ENTRIES, WrapperContent(NodeExtent(n)))] + PairRows(entries, n, 0, p, q + ENTRIES)
      else MemberRows(entries, n, 0, p, q)
    case Tagged(_, inner) => [Shown(p, q + TAG, TagContent(n))] + NodeRows(inner, TagPayload(n), p, q + VALUE, None)
    case SimpleValue(_) => [Shown(p, q + SIMPLE, NodeContent(n, None))]
    case Scalar(_) => []
  }

  function ItemRows(items: seq<Cbor>, n: Option<Node>, i: nat, p: string, q: string): (rows: seq<Shown>)
    requires i <= |items|
    decreases items, 0, |items| - i
  {
    if i == |items| then []
    else
      NodeRows(items[i], ItemNode(n, i), p + IndexSegment(i), q + IndexSegment(i), None)
        + ItemRows(items, n, i + 1, p, q)
  }

  function MemberRows(entries: seq<Assoc>, n: Option<Node>, i: nat, p: string, q: string): (rows: seq<Shown>)
    requires i <= |entries|
    decreases entries, 0, |entries| - i
  {
    if i == |entries| then []
    else MemberRow(entries[i], ValueNode(n, i), p, q) + MemberRows(entries, n, i + 1, p, q)
  }

  function MemberRow(e: Assoc, n: Option<Node>, p: string, q: string): (rows: seq<Shown>)
    decreases e, 0, 0
  {
    NodeRows(e.value, n, p + CborSegment(JsonKey(e.key)), q + DecodedSegment(JsonKey(e.key)), None)
  }

  function PairRows(entries: seq<Assoc>, n: Option<Node>, i: nat, p: string, q: string): (rows: seq<Shown>)
    requires i <= |entries|
    decreases entries, 0, |entries| - i
  {
    if i == |entries| then []
    else
      PairRow(entries[i], KeyNode(n, i), ValueNode(n, i), PairExtent(n, i), p, q + IndexSegment(i))
      + PairRows(entries, n, i + 1, p, q)
  }

  function PairRow(e: Assoc, key: Option<Node>, value: Option<Node>, extent: Extent, p: string,
                   q: string): (rows: seq<Shown>)
    decreases e, 0, 0
  {
    [Shown(p, q, PairContent(extent))]
    + NodeRows(e.key, key, p, q + DecodedSegment("key"), None)
    + NodeRows(e.value, value, p, q + DecodedSegment("value"), None)
  }

  // ---------------------------------------------------------------------
  // The writer
  // ---------------------------------------------------------------------

  /** A written row names its paths by their index in the two tables. */
  datatype Written = Written(cbor: nat, decoded: nat, content: Content)

  /** The two path tables, the rows so far, the row slots left, the descent
      charged, and whether a bound was hit. */
  datatype Scene = Scene(cbor: State, decoded: State, rows: seq<Written>, slots: nat, spent: nat, limit: nat,
                         slotsOut: bool, tooDeep: bool, mapperRefused: bool)

  datatype Mark = Mark(cbor: nat, decoded: nat)

  predicate Stopped(s: Scene) {
    s.mapperRefused || s.tooDeep || s.slotsOut
  }

  /** Both tables can spell their current path. */
  predicate Ready(s: Scene) {
    Spellable(s.cbor) && Spellable(s.decoded)
  }

  function MarkOf(s: Scene): (m: Mark) {
    Mark(|s.cbor.path|, |s.decoded.path|)
  }

  function EnterBoth(s: Scene, cborSegment: string, decodedSegment: string): (t: Scene)
    requires Ready(s)
    ensures Ready(t)
  {
    s.(cbor := Entered(s.cbor, cborSegment), decoded := Entered(s.decoded, decodedSegment))
  }

  function LeaveBoth(s: Scene, mark: Mark): (t: Scene)
    requires Ready(s)
    ensures Ready(t)
  {
    s.(cbor := Left(s.cbor, mark.cbor), decoded := Left(s.decoded, mark.decoded))
  }

  /** Writes a row at the current paths, unless a bound was hit; the row past the
      last slot hits one. */
  function EmitRow(s: Scene, content: Content): (t: Scene)
    requires Ready(s)
    ensures Ready(t)
  {
    if Stopped(s) then s
    else if s.slots == 0 then s.(slotsOut := true)
    else
      s.(slots := s.slots - 1, cbor := Interned(s.cbor), decoded := Interned(s.decoded),
         rows := s.rows + [Written(Index(s.cbor), Index(s.decoded), content)])
  }

  function Refund(s: Scene): (t: Scene)
    requires Ready(s)
    ensures Ready(t)
  {
    s.(spent := if s.spent >= RAW_LEVEL then s.spent - RAW_LEVEL else 0)
  }

  /** A row one segment below the current paths. */
  function EmitBelow(s: Scene, segment: string, content: Content): (t: Scene)
    requires Ready(s)
    ensures Ready(t)
  {
    LeaveBoth(EmitRow(EnterBoth(s, "", segment), content), MarkOf(s))
  }

  // ---------------------------------------------------------------------
  // The recursive walk
  // ---------------------------------------------------------------------

  function WalkNode(c: Cbor, n: Option<Node>, cborSegment: string, decodedSegment: string, span: Extent,
                    s: Scene): (t: Scene)
    requires Ready(s)
    ensures Ready(t)
    decreases c, 1, 0
  {
    if Stopped(s) then s
    else
      var e := EnterBoth(s, cborSegment, decodedSegment);
      if e.spent + RAW_LEVEL > e.limit then e.(tooDeep := true)
      else
        var b := WalkChildren(c, n, EmitRow(e.(spent := e.spent + RAW_LEVEL), NodeContent(n, span)));
        Refund(Back(b, MarkOf(s)))
  }

  /** The paths are restored unless a bound stopped the walk. */
  function Back(s: Scene, mark: Mark): (t: Scene)
    requires Ready(s)
    ensures Ready(t)
  {
    if Stopped(s) then s else LeaveBoth(s, mark)
  }

  function WalkChildren(c: Cbor, n: Option<Node>, s: Scene): (t: Scene)
    requires Ready(s)
    ensures Ready(t)
    decreases c, 0, 0
  {
    if Stopped(s) then s
    else
      match c
      case Items(items) => WalkItems(items, n, 0, s)
      case Entries(entries) =>
        if NeedsEntries(entries) then
          Back(WalkPairs(entries, n, 0, EmitRow(EnterBoth(s, "", ENTRIES), WrapperContent(NodeExtent(n)))), MarkOf(s))
        else WalkMembers(entries, n, 0, s)
      case Tagged(_, inner) => WalkNode(inner, TagPayload(n), "", VALUE, None, EmitBelow(s, TAG, TagContent(n)))
      case SimpleValue(_) => EmitBelow(s, SIMPLE, NodeContent(n, None))
      case Scalar(_) => s
  }

  function WalkItems(items: seq<Cbor>, n: Option<Node>, i: nat, s: Scene): (t: Scene)
    requires Ready(s)
    ensures Ready(t)
    requires i <= |items|
    decreases items, 0, |items| - i
  {
    if i == |items| then s
    else WalkItems(items, n, i + 1, WalkNode(items[i], ItemNode(n, i), IndexSegment(i), IndexSegment(i), None, s))
  }

  function WalkMembers(entries: seq<Assoc>, n: Option<Node>, i: nat, s: Scene): (t: Scene)
    requires Ready(s)
    ensures Ready(t)
    requires i <= |entries|
    decreases entries, 0, |entries| - i
  {
    if i == |entries| then s
    else WalkMembers(entries, n, i + 1, WalkMember(entries[i], ValueNode(n, i), s))
  }

  function WalkMember(e: Assoc, n: Option<Node>, s: Scene): (t: Scene)
    requires Ready(s)
    ensures Ready(t)
    decreases e, 0, 0
  {
    WalkNode(e.value, n, CborSegment(JsonKey(e.key)), DecodedSegment(JsonKey(e.key)), None, s)
  }

  function WalkPairs(entries: seq<Assoc>, n: Option<Node>, i: nat, s: Scene): (t: Scene)
    requires Ready(s)
    ensures Ready(t)
    requires i <= |entries|
    decreases entries, 0, |entries| - i
  {
    if i == |entries| then s
    else WalkPairs(entries, n, i + 1, WalkPair(i, entries[i], KeyNode(n, i), ValueNode(n, i), PairExtent(n, i), s))
  }

  function WalkPair(i: nat, e: Assoc, key: Option<Node>, value: Option<Node>, extent: Extent, s: Scene): (t: Scene)
    requires Ready(s)
    ensures Ready(t)
    decreases e, 0, 0
  {
    if Stopped(s) then s
    else
      var a := EmitRow(EnterBoth(s, "", IndexSegment(i)), PairContent(extent));
      var b := WalkNode(e.key, key, "", DecodedSegment("key"), None, a);
      Back(WalkNode(e.value, value, "", DecodedSegment("value"), None, b), MarkOf(s))
  }
}
