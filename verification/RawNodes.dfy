/** What the raw rows point at: read as a path through the shown value, a row's path
    leads to one place of it, and the row shows the positional node that stands beside
    that place. */
module RawNodes {
  import opened Wire
  import opened Text
  import opened Decoder
  import opened PositionalTree
  import opened Acceptance
  import opened RawEmission
  import opened PathText

  // ---------------------------------------------------------------------
  // Nodes that spell values
  // ---------------------------------------------------------------------

  /** The node holds the value, scalars being told by the text `show` gives them. */
  ghost predicate Spells(show: Node -> string, n: Node, c: Cbor)
    decreases c, 0
  {
    match c
    case Scalar(text) => (n.Token? || n.ChunkedNode?) && show(n) == text
    case SimpleValue(number) => n.Token? && n.name == Simple && n.value == Number(number)
    case Items(items) => n.ArrayNode? && SpellItems(show, ItemsOf(n.len, n.values), items)
    case Entries(entries) => n.MapNode? && SpellEntries(show, ItemsOf(n.len, n.entries), entries)
    case Tagged(tag, inner) => n.TagNode? && n.tag == tag && n.inner.Some? && Spells(show, n.inner.value, inner)
  }

  ghost predicate SpellItems(show: Node -> string, values: seq<Node>, items: seq<Cbor>)
    decreases items, 1
  {
    |values| == |items| && forall k | 0 <= k < |items| :: Spells(show, values[k], items[k])
  }

  ghost predicate SpellEntries(show: Node -> string, pairs: seq<Entry>, entries: seq<Assoc>)
    decreases entries, 1
  {
    |pairs| == |entries| && forall k | 0 <= k < |entries| :: SpellsAssoc(show, pairs[k], entries[k])
  }

  ghost predicate SpellsAssoc(show: Node -> string, pair: Entry, e: Assoc)
    decreases e, 0
  {
    pair.Pair? && Spells(show, pair.key, e.key) && Spells(show, pair.value, e.value)
  }

  /** A node of a decoded input that holds the value. */
  ghost predicate SpelledBy(bytes: seq<byte>, show: Node -> string, n: Node, c: Cbor) {
    Describes(bytes, SpanOf(n).offset, n) && Spells(show, n, c)
  }

  // ---------------------------------------------------------------------
  // Following a path
  // ---------------------------------------------------------------------

  /** The places of a shown value, each with the node beside it: a value, the list a map
      shows as, one pair of it, and what a tag and a simple value show of themselves. */
  datatype Spot =
    | ValueSpot(c: Cbor, n: Node)
    | ListSpot(c: Cbor, n: Node)
    | PairSpot(e: Assoc, key: Node, value: Node)
    | TagSpot(c: Cbor, n: Node)
    | SimpleSpot(c: Cbor, n: Node)

  /** A place, and the path to it that leaves the wrappers out. */
  datatype Reached = Reached(spot: Spot, cbor: seq<Seg>)

  function Under(r: Option<Reached>, before: seq<Seg>): (u: Option<Reached>) {
    match r
    case None => None
    case Some(reached) => Some(Reached(reached.spot, before + reached.cbor))
  }

  function IndexIn(seg: Seg, n: nat): (i: Option<nat>)
    ensures i.Some? ==> i.value < n
  {
    if seg.Bare? && seg.text != "" && AllDigits(seg.text) && NatOf(seg.text) < n && seg.text == Digits(NatOf(seg.text))
    then Some(NatOf(seg.text))
    else None
  }

  function ItemOf(n: Node, i: nat): (r: Option<Node>) {
    if n.ArrayNode? && i < |ItemsOf(n.len, n.values)| then Some(n.values[i]) else None
  }

  function PairOf(n: Node, i: nat): (r: Option<(Node, Node)>) {
    if n.MapNode? && i < |ItemsOf(n.len, n.entries)| && n.entries[i].Pair? then
      Some((n.entries[i].key, n.entries[i].value))
    else None
  }

  function PayloadOf(n: Node): (r: Option<Node>) {
    if n.TagNode? then n.inner else None
  }

  /** The first entry whose key is the scalar that shows as the name. */
  function NamedEntry(entries: seq<Assoc>, name: string): (i: Option<nat>)
    ensures i.Some? ==> i.value < |entries| && entries[i.value].key == Scalar(name)
  {
    if entries == [] then None
    else if entries[0].key == Scalar(name) then Some(0)
    else
      match NamedEntry(entries[1..], name)
      case None => None
      case Some(i) => Some(i + 1)
  }

  function Follow(c: Cbor, n: Node, segs: seq<Seg>): (r: Option<Reached>)
    decreases |segs|
  {
    if segs == [] then Some(Reached(ValueSpot(c, n), []))
    else
      match c
      case Items(items) =>
        (match IndexIn(segs[0], |items|)
         case None => None
         case Some(i) =>
           if ItemOf(n, i).None? then None
           else Under(Follow(items[i], ItemOf(n, i).value, segs[1..]), [segs[0]]))
      case Entries(entries) =>
        if !NeedsEntries(entries) then
          (match if segs[0].Name? then NamedEntry(entries, segs[0].text) else None
           case None => None
           case Some(i) =>
             if PairOf(n, i).None? then None
             else Under(Follow(entries[i].value, PairOf(n, i).value.1, segs[1..]), [CborSeg(segs[0].text)]))
        else if segs[0] != Name("@entries") then None
        else if |segs| == 1 then Some(Reached(ListSpot(c, n), []))
        else
          (match IndexIn(segs[1], |entries|)
           case None => None
           case Some(i) =>
             if PairOf(n, i).None? then None
             else
               var (key, value) := PairOf(n, i).value;
               if |segs| == 2 then Some(Reached(PairSpot(entries[i], key, value), []))
               else if segs[2] == Name("key") then Follow(entries[i].key, key, segs[3..])
               else if segs[2] == Name("value") then Follow(entries[i].value, value, segs[3..])
               else None)
      case Tagged(_, inner) =>
        if segs == [Name("@tag")] then Some(Reached(TagSpot(c, n), []))
        else if segs[0] != Name("@value") || PayloadOf(n).None? then None
        else Follow(inner, PayloadOf(n).value, segs[1..])
      case SimpleValue(_) => if segs == [Name("@simple")] then Some(Reached(SimpleSpot(c, n), [])) else None
      case Scalar(_) => None
  }

  /** What a row shows at a place: the node there, or its bytes. */
  predicate Fits(spot: Spot, content: Content) {
    match spot
    case ValueSpot(_, n) => content.NodeContent? && content.node == Some(n)
    case SimpleSpot(_, n) => content == NodeContent(Some(n), None)
    case TagSpot(_, n) => content == TagContent(Some(n))
    case ListSpot(_, n) => content == WrapperContent(Some((SpanOf(n).offset, SpanOf(n).length)))
    case PairSpot(_, key, value) =>
      content == PairContent(Some((SpanOf(key).offset, SpanOf(key).length + SpanOf(value).length)))
  }

  /** Below the paths `p` and `q` the row's paths lead to a place of the value, and the
      row shows what is there. */
  predicate RowFits(c: Cbor, n: Node, p: string, q: string, row: Shown) {
    && p <= row.cbor && q <= row.decoded
    && var segs := ReadPath(row.decoded[|q|..]);
    && segs.Some? && Follow(c, n, segs.value).Some?
    && var reached := Follow(c, n, segs.value).value;
    && Fits(reached.spot, row.content) && ReadPath(row.cbor[|p|..]) == Some(reached.cbor)
  }

  predicate RowsFit(c: Cbor, n: Node, p: string, q: string, rows: seq<Shown>) {
    forall k | 0 <= k < |rows| :: RowFits(c, n, p, q, rows[k])
  }

  // ---------------------------------------------------------------------
  // The node beside each part of a value
  // ---------------------------------------------------------------------

  lemma NoBreakToken(bytes: seq<byte>, at: nat, n: Node)
    requires Describes(bytes, at, n)
    ensures !(n.Token? && n.name.Break?)
  {
    hide PullHead;
  }

  lemma {:induction false} NothingToDrop(values: seq<Node>)
    requires forall k | 0 <= k < |values| :: !(values[k].Token? && values[k].name.Break?)
    ensures WithoutBreaks(values) == values
    decreases |values|
  {
    if values != [] {
      assert forall k | 0 <= k < |values[1..]| :: values[1..][k] == values[k + 1];
      NothingToDrop(values[1..]);
      assert [values[0]] + values[1..] == values;
    }
  }

  lemma {:induction false} BreakIsDropped(values: seq<Node>, at: nat)
    ensures WithoutBreaks(values + [BreakToken(at)]) == WithoutBreaks(values)
    decreases |values|
  {
    if values == [] {
      assert [BreakToken(at)][1..] == [];
    } else {
      BreakIsDropped(values[1..], at);
      assert (values + [BreakToken(at)])[1..] == values[1..] + [BreakToken(at)];
    }
  }

  /** Leaving out the breaks of a described array leaves its items. */
  lemma ItemsAreKept(bytes: seq<byte>, at: nat, n: Node)
    requires n.ArrayNode? && Describes(bytes, at, n)
    ensures WithoutBreaks(n.values) == ItemsOf(n.len, n.values)
  {
    hide PullHead, WithoutBreaks, Describes;
    var items := ItemsOf(n.len, n.values);
    forall k | 0 <= k < |items| ensures !(items[k].Token? && items[k].name.Break?) {
      ArrayItem(bytes, at, n, k);
      NoBreakToken(bytes, SpanOf(n.values[k]).offset, n.values[k]);
    }
    NothingToDrop(items);
    if n.len.None? {
      var mark := ArrayBreak(bytes, at, n);
      BreakIsDropped(items, mark);
    }
  }

  lemma ArrayBreak(bytes: seq<byte>, at: nat, n: Node) returns (mark: nat)
    requires n.ArrayNode? && n.len.None? && Describes(bytes, at, n)
    ensures n.values == ItemsOf(n.len, n.values) + [BreakToken(mark)]
  {
    hide PullHead, Tile;
    assert ValuesFill(bytes, at + PullHead(bytes, at).h.len, n.len, n.values, NodeEnd(n));
    mark := NodeEnd(n) - 1;
  }

  lemma {:induction false} PairsAreListed(entries: seq<Entry>, i: nat)
    requires i < |entries| && forall k | 0 <= k <= i :: entries[k].Pair?
    ensures |PairsIn(entries)| > i && PairsIn(entries)[i] == (entries[i].key, entries[i].value)
    decreases i
  {
    if i > 0 {
      assert forall k | 0 <= k <= i - 1 :: entries[1..][k] == entries[k + 1];
      PairsAreListed(entries[1..], i - 1);
    }
  }

  /** Item by item, the node beside a value's part is the part's own. */
  lemma ItemBeside(bytes: seq<byte>, show: Node -> string, n: Node, items: seq<Cbor>, i: nat)
    requires SpelledBy(bytes, show, n, Items(items)) && i < |items|
    ensures ItemNode(Some(n), i) == ItemOf(n, i) && ItemOf(n, i).Some?
    ensures SpelledBy(bytes, show, ItemOf(n, i).value, items[i])
  {
    hide Describes, WithoutBreaks;
    assert SpellItems(show, ItemsOf(n.len, n.values), items);
    ItemsAreKept(bytes, SpanOf(n).offset, n);
    ArrayItem(bytes, SpanOf(n).offset, n, i);
  }

  lemma PairBeside(bytes: seq<byte>, show: Node -> string, n: Node, entries: seq<Assoc>, i: nat)
    requires SpelledBy(bytes, show, n, Entries(entries)) && i < |entries|
    ensures PairNode(Some(n), i) == PairOf(n, i) && PairOf(n, i).Some?
    ensures var (key, value) := PairOf(n, i).value;
            && SpelledBy(bytes, show, key, entries[i].key) && SpelledBy(bytes, show, value, entries[i].value)
            && PairExtent(Some(n), i) == Some((SpanOf(key).offset, SpanOf(key).length + SpanOf(value).length))
            && SpanOf(value).offset == NodeEnd(key)
  {
    hide Describes, PairsIn;
    assert SpellEntries(show, ItemsOf(n.len, n.entries), entries);
    assert SpellsAssoc(show, n.entries[i], entries[i]);
    forall k | 0 <= k <= i ensures n.entries[k].Pair? {
      assert SpellsAssoc(show, ItemsOf(n.len, n.entries)[k], entries[k]);
    }
    PairsAreListed(n.entries, i);
    MapPair(bytes, SpanOf(n).offset, n, i);
    PairStands(bytes, SpanOf(n.entries[i].key).offset, n.entries[i]);
  }

  lemma PairStands(bytes: seq<byte>, at: nat, pair: Entry)
    requires DescribesPair(bytes, at, pair)
    ensures SpanOf(pair.key).offset == at && SpanOf(pair.value).offset == NodeEnd(pair.key)
    ensures Describes(bytes, at, pair.key) && Describes(bytes, NodeEnd(pair.key), pair.value)
  {
    hide Describes;
    DescribedSpan(bytes, at, pair.key);
    DescribedSpan(bytes, NodeEnd(pair.key), pair.value);
  }

  lemma PayloadBeside(bytes: seq<byte>, show: Node -> string, n: Node, tag: nat, inner: Cbor)
    requires SpelledBy(bytes, show, n, Tagged(tag, inner))
    ensures TagPayload(Some(n)) == PayloadOf(n) && PayloadOf(n).Some?
    ensures SpelledBy(bytes, show, PayloadOf(n).value, inner)
  {
    hide PullHead, TagOddities;
    var at := SpanOf(n).offset;
    var from := at + PullHead(bytes, at).h.len;
    assert Describes(bytes, from, n.inner.value);
    DescribedSpan(bytes, from, n.inner.value);
  }

  // ---------------------------------------------------------------------
  // Every row fits its place
  // ---------------------------------------------------------------------

  /** `text` spells the segments wherever another path goes on behind it. */
  ghost predicate SpellsPath(text: string, segs: seq<Seg>) {
    forall rest | ReadPath(rest).Some? :: ReadPath(text + rest) == Some(segs + ReadPath(rest).value)
  }

  lemma NoText()
    ensures SpellsPath("", [])
  {
    hide ReadPath;
    forall rest | ReadPath(rest).Some? ensures ReadPath("" + rest) == Some([] + ReadPath(rest).value) {
      assert "" + rest == rest && [] + ReadPath(rest).value == ReadPath(rest).value;
    }
  }

  lemma OneSegment(text: string, seg: Seg)
    requires SpellsSeg(text, seg)
    ensures SpellsPath(text, [seg])
  {
    hide SpellsSeg, ReadPath;
    forall rest | ReadPath(rest).Some? ensures ReadPath(text + rest) == Some([seg] + ReadPath(rest).value) {
      PathGrows(text, seg, rest);
    }
  }

  lemma MoreSegments(a: string, before: seq<Seg>, b: string, after: seq<Seg>)
    requires SpellsPath(a, before) && SpellsPath(b, after)
    ensures SpellsPath(a + b, before + after)
  {
    hide ReadPath;
    forall rest | ReadPath(rest).Some? ensures ReadPath(a + b + rest) == Some(before + after + ReadPath(rest).value) {
      assert a + b + rest == a + (b + rest);
      assert before + after + ReadPath(rest).value == before + (after + ReadPath(rest).value);
    }
  }

  /** Following `segs` from a value leads to the part `part`, `cbor` being its path
      without wrappers. */
  ghost predicate LeadsTo(c: Cbor, n: Node, segs: seq<Seg>, cbor: seq<Seg>, part: Cbor, beside: Node) {
    forall rest: seq<Seg> :: Follow(c, n, segs + rest) == Under(Follow(part, beside, rest), cbor)
  }

  /** A row that fits below a part fits below the whole. */
  lemma Lift(c: Cbor, n: Node, segs: seq<Seg>, cbor: seq<Seg>, part: Cbor, beside: Node, p: string, pText: string,
             q: string, qText: string, row: Shown)
    requires LeadsTo(c, n, segs, cbor, part, beside) && SpellsPath(qText, segs) && SpellsPath(pText, cbor)
    requires RowFits(part, beside, p + pText, q + qText, row)
    ensures RowFits(c, n, p, q, row)
  {
    hide Follow, ReadPath, Fits, SpellsPath, LeadsTo;
    var inner, innerCbor := row.decoded[|q + qText|..], row.cbor[|p + pText|..];
    TextBehind(q, qText, row.decoded);
    TextBehind(p, pText, row.cbor);
    SpellsAt(qText, segs, inner);
    SpellsAt(pText, cbor, innerCbor);
    LeadsAt(c, n, segs, cbor, part, beside, ReadPath(inner).value);
  }

  lemma TextBehind(before: string, text: string, whole: string)
    requires before + text <= whole
    ensures before <= whole && whole[|before|..] == text + whole[|before + text|..]
  {
  }

  lemma SpellsAt(text: string, segs: seq<Seg>, rest: string)
    requires SpellsPath(text, segs) && ReadPath(rest).Some?
    ensures ReadPath(text + rest) == Some(segs + ReadPath(rest).value)
  {
    hide ReadPath;
  }

  lemma LeadsAt(c: Cbor, n: Node, segs: seq<Seg>, cbor: seq<Seg>, part: Cbor, beside: Node, rest: seq<Seg>)
    requires LeadsTo(c, n, segs, cbor, part, beside)
    ensures Follow(c, n, segs + rest) == Under(Follow(part, beside, rest), cbor)
  {
    hide Follow;
  }

  lemma LiftAll(c: Cbor, n: Node, segs: seq<Seg>, cbor: seq<Seg>, part: Cbor, beside: Node, p: string, pText: string,
                q: string, qText: string, rows: seq<Shown>)
    requires LeadsTo(c, n, segs, cbor, part, beside) && SpellsPath(qText, segs) && SpellsPath(pText, cbor)
    requires RowsFit(part, beside, p + pText, q + qText, rows)
    ensures RowsFit(c, n, p, q, rows)
  {
    hide LeadsTo, SpellsPath, RowFits;
    forall k | 0 <= k < |rows| ensures RowFits(c, n, p, q, rows[k]) {
      Lift(c, n, segs, cbor, part, beside, p, pText, q, qText, rows[k]);
    }
  }

  /** A row of the value's own: its path is spelled by `qText`. */
  lemma OwnRow(c: Cbor, n: Node, segs: seq<Seg>, p: string, q: string, qText: string, content: Content)
    requires SpellsPath(qText, segs) && Follow(c, n, segs).Some?
    requires Fits(Follow(c, n, segs).value.spot, content) && Follow(c, n, segs).value.cbor == []
    ensures RowFits(c, n, p, q, Shown(p, q + qText, content))
  {
    hide Follow, Fits;
    assert (q + qText)[|q|..] == qText + "" && p[|p|..] == "";
    assert ReadPath("") == Some([]);
    assert segs + [] == segs;
  }

  lemma IndexLeads(i: nat, n: nat)
    requires i < n
    ensures IndexIn(Bare(Digits(i)), n) == Some(i)
  {
    DigitsRoundTrip(i);
  }

  lemma ItemLeads(items: seq<Cbor>, n: Node, i: nat)
    requires i < |items| && ItemOf(n, i).Some?
    ensures LeadsTo(Items(items), n, [Bare(Digits(i))], [Bare(Digits(i))], items[i], ItemOf(n, i).value)
  {
    hide ItemOf, IndexIn;
    IndexLeads(i, |items|);
    forall rest: seq<Seg>
      ensures Follow(Items(items), n, [Bare(Digits(i))] + rest)
           == Under(Follow(items[i], ItemOf(n, i).value, rest), [Bare(Digits(i))])
    {
      assert ([Bare(Digits(i))] + rest)[1..] == rest;
    }
  }

  lemma {:induction false} NameLeads(entries: seq<Assoc>, i: nat)
    requires i < |entries| && !NeedsEntries(entries)
    ensures NamedEntry(entries, JsonKey(entries[i].key)) == Some(i)
    decreases |entries|
  {
    assert entries[i].key == Scalar(JsonKey(entries[i].key));
    if i > 0 {
      var rest := entries[1..];
      assert forall k | 0 <= k < |rest| :: rest[k] == entries[k + 1];
      assert JsonKey(entries[0].key) != JsonKey(entries[i].key);
      NameLeads(rest, i - 1);
    }
  }

  lemma MemberLeads(entries: seq<Assoc>, n: Node, i: nat)
    requires i < |entries| && !NeedsEntries(entries) && PairOf(n, i).Some?
    ensures var name := JsonKey(entries[i].key);
            LeadsTo(Entries(entries), n, [Name(name)], [CborSeg(name)], entries[i].value, PairOf(n, i).value.1)
  {
    hide PairOf, JsonKey, CborSeg, NeedsEntries;
    var name := JsonKey(entries[i].key);
    NameLeads(entries, i);
    forall rest: seq<Seg>
      ensures Follow(Entries(entries), n, [Name(name)] + rest)
           == Under(Follow(entries[i].value, PairOf(n, i).value.1, rest), [CborSeg(name)])
    {
      assert ([Name(name)] + rest)[1..] == rest;
    }
  }

  lemma SideLeads(entries: seq<Assoc>, n: Node, i: nat, side: string)
    requires i < |entries| && NeedsEntries(entries) && PairOf(n, i).Some? && side in {"key", "value"}
    ensures var part := if side == "key" then entries[i].key else entries[i].value;
            var beside := if side == "key" then PairOf(n, i).value.0 else PairOf(n, i).value.1;
            LeadsTo(Entries(entries), n, [Name("@entries"), Bare(Digits(i)), Name(side)], [], part, beside)
  {
    hide PairOf, IndexIn, NeedsEntries;
    IndexLeads(i, |entries|);
    var segs := [Name("@entries"), Bare(Digits(i)), Name(side)];
    var part := if side == "key" then entries[i].key else entries[i].value;
    var beside := if side == "key" then PairOf(n, i).value.0 else PairOf(n, i).value.1;
    assert "key" != "value";
    forall rest: seq<Seg> ensures Follow(Entries(entries), n, segs + rest) == Under(Follow(part, beside, rest), []) {
      assert (segs + rest)[3..] == rest;
      UnderNothing(Follow(part, beside, rest));
    }
  }

  lemma UnderNothing(r: Option<Reached>)
    ensures Under(r, []) == r
  {
    if r.Some? {
      assert [] + r.value.cbor == r.value.cbor;
    }
  }

  lemma InnerLeads(tag: nat, inner: Cbor, n: Node)
    requires PayloadOf(n).Some?
    ensures LeadsTo(Tagged(tag, inner), n, [Name("@value")], [], inner, PayloadOf(n).value)
  {
    hide PayloadOf;
    assert "@tag"[1] != "@value"[1];
    assert Name("@tag") != Name("@value") && [Name("@tag")][0] == Name("@tag");
    forall rest: seq<Seg>
      ensures Follow(Tagged(tag, inner), n, [Name("@value")] + rest)
           == Under(Follow(inner, PayloadOf(n).value, rest), [])
    {
      assert ([Name("@value")] + rest)[0] == Name("@value") && ([Name("@value")] + rest)[1..] == rest;
      assert [Name("@value")] + rest != [Name("@tag")];
      UnderNothing(Follow(inner, PayloadOf(n).value, rest));
    }
  }

  /** Every row of a value whose node spells it leads to its place and shows the node
      there. */
  lemma {:induction false} NodeRowsFit(bytes: seq<byte>, show: Node -> string, c: Cbor, n: Node, p: string, q: string,
                                       span: Extent)
    requires SpelledBy(bytes, show, n, c)
    ensures RowsFit(c, n, p, q, NodeRows(c, Some(n), p, q, span))
    decreases c, 1, 0
  {
    hide SpelledBy, RowFits, ChildRows;
    NoText();
    OwnRow(c, n, [], p, q, "", NodeContent(Some(n), span));
    assert q + "" == q;
    ChildRowsFit(bytes, show, c, n, p, q);
    assert NodeRows(c, Some(n), p, q, span)
        == [Shown(p, q, NodeContent(Some(n), span))] + ChildRows(c, Some(n), p, q);
  }

  lemma {:induction false} ChildRowsFit(bytes: seq<byte>, show: Node -> string, c: Cbor, n: Node, p: string, q: string)
    requires SpelledBy(bytes, show, n, c)
    ensures RowsFit(c, n, p, q, ChildRows(c, Some(n), p, q))
    decreases c, 0, 0
  {
    hide SpelledBy, RowFits, NodeRows, ItemRows, MemberRows, PairRows, TagPayload, NeedsEntries, SpellsPath, SpellsSeg;
    WrappersAreRead();
    match c
    case Items(items) => ItemRowsFit(bytes, show, items, n, 0, p, q);
    case Entries(entries) =>
      if NeedsEntries(entries) {
        OneSegment(ENTRIES, Name("@entries"));
        ListRow(entries, n, p, q);
        PairRowsFit(bytes, show, entries, n, 0, p, q);
      } else {
        MemberRowsFit(bytes, show, entries, n, 0, p, q);
      }
    case Tagged(tag, inner) =>
      OneSegment(TAG, Name("@tag"));
      TagRow(tag, inner, n, p, q);
      InnerRowsFit(bytes, show, tag, inner, n, p, q);
    case SimpleValue(number) =>
      OneSegment(SIMPLE, Name("@simple"));
      SimpleRow(number, n, p, q);
    case Scalar(_) =>
  }

  lemma ListRow(entries: seq<Assoc>, n: Node, p: string, q: string)
    requires NeedsEntries(entries) && SpellsPath(ENTRIES, [Name("@entries")])
    ensures RowFits(Entries(entries), n, p, q, Shown(p, q + ENTRIES, WrapperContent(NodeExtent(Some(n)))))
  {
    hide NeedsEntries, SpellsPath, RowFits;
    OwnRow(Entries(entries), n, [Name("@entries")], p, q, ENTRIES, WrapperContent(NodeExtent(Some(n))));
  }

  lemma TagRow(tag: nat, inner: Cbor, n: Node, p: string, q: string)
    requires SpellsPath(TAG, [Name("@tag")])
    ensures RowFits(Tagged(tag, inner), n, p, q, Shown(p, q + TAG, TagContent(Some(n))))
  {
    hide SpellsPath, RowFits;
    OwnRow(Tagged(tag, inner), n, [Name("@tag")], p, q, TAG, TagContent(Some(n)));
  }

  lemma SimpleRow(number: nat, n: Node, p: string, q: string)
    requires SpellsPath(SIMPLE, [Name("@simple")])
    ensures RowFits(SimpleValue(number), n, p, q, Shown(p, q + SIMPLE, NodeContent(Some(n), None)))
  {
    hide SpellsPath, RowFits;
    OwnRow(SimpleValue(number), n, [Name("@simple")], p, q, SIMPLE, NodeContent(Some(n), None));
  }

  lemma {:induction false} InnerRowsFit(bytes: seq<byte>, show: Node -> string, tag: nat, inner: Cbor, n: Node,
                                        p: string,
                                        q: string)
    requires SpelledBy(bytes, show, n, Tagged(tag, inner)) && SpellsSeg(VALUE, Name("@value"))
    ensures RowsFit(Tagged(tag, inner), n, p, q, NodeRows(inner, TagPayload(Some(n)), p, q + VALUE, None))
    decreases inner, 2, 0
  {
    hide SpelledBy, RowsFit, LeadsTo, SpellsPath, SpellsSeg, NodeRows, TagPayload, PayloadOf;
    PayloadBeside(bytes, show, n, tag, inner);
    NodeRowsFit(bytes, show, inner, PayloadOf(n).value, p + "", q + VALUE, None);
    assert p + "" == p;
    InnerLeads(tag, inner, n);
    OneSegment(VALUE, Name("@value"));
    NoText();
    LiftAll(Tagged(tag, inner), n, [Name("@value")], [], inner, PayloadOf(n).value, p, "", q, VALUE,
            NodeRows(inner, TagPayload(Some(n)), p, q + VALUE, None));
  }

  lemma {:induction false} ItemRowsFit(bytes: seq<byte>, show: Node -> string, items: seq<Cbor>, n: Node, i: nat,
                                       p: string, q: string)
    requires i <= |items| && SpelledBy(bytes, show, n, Items(items))
    ensures RowsFit(Items(items), n, p, q, ItemRows(items, Some(n), i, p, q))
    decreases items, 0, |items| - i
  {
    hide SpelledBy, RowFits, LeadsTo, SpellsPath, SpellsSeg, NodeRows, ItemNode, ItemOf, IndexSegment;
    if i < |items| {
      var child, text, seg := ItemOf(n, i), IndexSegment(i), Bare(Digits(i));
      ItemBeside(bytes, show, n, items, i);
      NodeRowsFit(bytes, show, items[i], child.value, p + text, q + text, None);
      ItemLeads(items, n, i);
      IndexIsRead(i);
      OneSegment(text, seg);
      LiftAll(Items(items), n, [seg], [seg], items[i], child.value, p, text, q, text,
              NodeRows(items[i], child, p + text, q + text, None));
      ItemRowsFit(bytes, show, items, n, i + 1, p, q);
    }
  }

  lemma {:induction false} MemberRowsFit(bytes: seq<byte>, show: Node -> string, entries: seq<Assoc>, n: Node, i: nat,
                                         p: string, q: string)
    requires i <= |entries| && SpelledBy(bytes, show, n, Entries(entries)) && !NeedsEntries(entries)
    ensures RowsFit(Entries(entries), n, p, q, MemberRows(entries, Some(n), i, p, q))
    decreases entries, 0, |entries| - i
  {
    hide SpelledBy, RowFits, MemberRow, PairNode, PairOf, NeedsEntries;
    if i < |entries| {
      PairBeside(bytes, show, n, entries, i);
      MemberRowFits(bytes, show, entries, n, i, p, q);
      MemberRowsFit(bytes, show, entries, n, i + 1, p, q);
    }
  }

  lemma {:induction false} MemberRowFits(bytes: seq<byte>, show: Node -> string, entries: seq<Assoc>, n: Node, i: nat,
                                         p: string, q: string)
    requires i < |entries| && !NeedsEntries(entries) && PairOf(n, i).Some?
    requires SpelledBy(bytes, show, PairOf(n, i).value.1, entries[i].value)
    ensures RowsFit(Entries(entries), n, p, q, MemberRow(entries[i], Some(PairOf(n, i).value.1), p, q))
    decreases entries[i], 2, 0
  {
    hide SpelledBy, RowsFit, LeadsTo, SpellsPath, SpellsSeg, NodeRows, PairOf, NeedsEntries, JsonKey, CborSegment,
         DecodedSegment, CborSeg;
    var name, value := JsonKey(entries[i].key), PairOf(n, i).value.1;
    var pText, qText := CborSegment(name), DecodedSegment(name);
    NodeRowsFit(bytes, show, entries[i].value, value, p + pText, q + qText, None);
    MemberLeads(entries, n, i);
    DecodedIsRead(name);
    CborIsRead(name);
    OneSegment(qText, Name(name));
    OneSegment(pText, CborSeg(name));
    LiftAll(Entries(entries), n, [Name(name)], [CborSeg(name)], entries[i].value, value, p, pText, q, qText,
            NodeRows(entries[i].value, Some(value), p + pText, q + qText, None));
  }

  lemma {:induction false} PairRowsFit(bytes: seq<byte>, show: Node -> string, entries: seq<Assoc>, n: Node, i: nat,
                                       p: string, q: string)
    requires i <= |entries| && SpelledBy(bytes, show, n, Entries(entries)) && NeedsEntries(entries)
    ensures RowsFit(Entries(entries), n, p, q, PairRows(entries, Some(n), i, p, q + ENTRIES))
    decreases entries, 0, |entries| - i
  {
    hide SpelledBy, RowFits, PairRow, PairNode, PairOf, NeedsEntries, PairExtent, IndexSegment;
    if i < |entries| {
      PairBeside(bytes, show, n, entries, i);
      PairRowFits(bytes, show, entries, n, i, p, q);
      PairRowsFit(bytes, show, entries, n, i + 1, p, q);
    }
  }

  /** The path to pair `i` and to its sides. */
  lemma PairTexts(i: nat, side: string)
    requires side in {"key", "value"}
    ensures SpellsPath(ENTRIES + IndexSegment(i), [Name("@entries"), Bare(Digits(i))])
    ensures SpellsPath(ENTRIES + IndexSegment(i)
                       + DecodedSegment(side), [Name("@entries"), Bare(Digits(i)), Name(side)])
  {
    hide SpellsPath, SpellsSeg, IndexSegment, DecodedSegment;
    WrappersAreRead();
    IndexIsRead(i);
    DecodedIsRead(side);
    OneSegment(ENTRIES, Name("@entries"));
    OneSegment(IndexSegment(i), Bare(Digits(i)));
    OneSegment(DecodedSegment(side), Name(side));
    MoreSegments(ENTRIES, [Name("@entries")], IndexSegment(i), [Bare(Digits(i))]);
    var pair := [Name("@entries"), Bare(Digits(i))];
    assert [Name("@entries")] + [Bare(Digits(i))] == pair;
    MoreSegments(ENTRIES + IndexSegment(i), pair, DecodedSegment(side), [Name(side)]);
    assert pair + [Name(side)] == [Name("@entries"), Bare(Digits(i)), Name(side)];
  }

  lemma {:induction false} PairRowFits(bytes: seq<byte>, show: Node -> string, entries: seq<Assoc>, n: Node, i: nat,
                                       p: string, q: string)
    requires i < |entries| && NeedsEntries(entries) && PairOf(n, i).Some?
    requires SpelledBy(bytes, show, PairOf(n, i).value.0, entries[i].key)
    requires SpelledBy(bytes, show, PairOf(n, i).value.1, entries[i].value)
    ensures var (key, value) := PairOf(n, i).value;
            var extent := Some((SpanOf(key).offset, SpanOf(key).length + SpanOf(value).length));
            RowsFit(Entries(entries), n, p, q,
                    PairRow(entries[i], Some(key), Some(value), extent, p, q + ENTRIES + IndexSegment(i)))
    decreases entries[i], 3, 0
  {
    hide SpelledBy, RowFits, SpellsPath, NodeRows, PairOf, NeedsEntries, DecodedSegment, IndexSegment;
    var (key, value) := PairOf(n, i).value;
    var extent := Some((SpanOf(key).offset, SpanOf(key).length + SpanOf(value).length));
    PairTexts(i, "key");
    PairOwnRow(entries, n, i, p, q);
    SideRowsFit(bytes, show, entries, n, i, "key", p, q);
    SideRowsFit(bytes, show, entries, n, i, "value", p, q);
    assert q + (ENTRIES + IndexSegment(i)) == q + ENTRIES + IndexSegment(i);
  }

  lemma PairOwnRow(entries: seq<Assoc>, n: Node, i: nat, p: string, q: string)
    requires i < |entries| && NeedsEntries(entries) && PairOf(n, i).Some?
    requires SpellsPath(ENTRIES + IndexSegment(i), [Name("@entries"), Bare(Digits(i))])
    ensures var (key, value) := PairOf(n, i).value;
            var extent := Some((SpanOf(key).offset, SpanOf(key).length + SpanOf(value).length));
            RowFits(Entries(entries), n, p, q, Shown(p, q + (ENTRIES + IndexSegment(i)), PairContent(extent)))
  {
    hide SpellsPath, RowFits, PairOf, NeedsEntries, IndexSegment, IndexIn;
    var (key, value) := PairOf(n, i).value;
    IndexLeads(i, |entries|);
    OwnRow(Entries(entries), n, [Name("@entries"), Bare(Digits(i))], p, q, ENTRIES + IndexSegment(i),
           PairContent(Some((SpanOf(key).offset, SpanOf(key).length + SpanOf(value).length))));
  }

  lemma {:induction false} SideRowsFit(bytes: seq<byte>, show: Node -> string, entries: seq<Assoc>, n: Node, i: nat,
                                       side: string, p: string, q: string)
    requires i < |entries| && NeedsEntries(entries) && PairOf(n, i).Some? && side in {"key", "value"}
    requires SpelledBy(bytes, show, PairOf(n, i).value.0, entries[i].key)
    requires SpelledBy(bytes, show, PairOf(n, i).value.1, entries[i].value)
    ensures var part := if side == "key" then entries[i].key else entries[i].value;
            var beside := if side == "key" then PairOf(n, i).value.0 else PairOf(n, i).value.1;
            RowsFit(Entries(entries), n, p, q,
                    NodeRows(part, Some(beside), p, q + ENTRIES + IndexSegment(i) + DecodedSegment(side), None))
    decreases entries[i], 2, 0
  {
    hide SpelledBy, RowsFit, LeadsTo, SpellsPath, NodeRows, PairOf, NeedsEntries, DecodedSegment, IndexSegment;
    var part := if side == "key" then entries[i].key else entries[i].value;
    var beside := if side == "key" then PairOf(n, i).value.0 else PairOf(n, i).value.1;
    var text := ENTRIES + IndexSegment(i) + DecodedSegment(side);
    assert q + text == q + ENTRIES + IndexSegment(i) + DecodedSegment(side);
    assert p + "" == p;
    NodeRowsFit(bytes, show, part, beside, p, q + text, None);
    SideLeads(entries, n, i, side);
    PairTexts(i, side);
    NoText();
    LiftAll(Entries(entries), n, [Name("@entries"), Bare(Digits(i)), Name(side)], [], part, beside, p, "", q, text,
            NodeRows(part, Some(beside), p, q + text, None));
  }

  /** The node at a place holds the value there; a pair's nodes stand side by side. */
  ghost predicate SpotSpelled(bytes: seq<byte>, show: Node -> string, spot: Spot) {
    match spot
    case PairSpot(e, key, value) =>
      && SpelledBy(bytes, show, key, e.key) && SpelledBy(bytes, show, value, e.value)
      && SpanOf(value).offset == NodeEnd(key)
    case _ => SpelledBy(bytes, show, spot.n, spot.c)
  }

  /** Wherever a path leads, the node holds the value. */
  lemma {:induction false} ReachedIsSpelled(bytes: seq<byte>, show: Node -> string, c: Cbor, n: Node, segs: seq<Seg>)
    requires SpelledBy(bytes, show, n, c) && Follow(c, n, segs).Some?
    ensures SpotSpelled(bytes, show, Follow(c, n, segs).value.spot)
    decreases |segs|, 1
  {
    hide SpelledBy, NeedsEntries, ItemOf, PairOf, PayloadOf, IndexIn;
    if segs != [] {
      match c
      case Items(items) =>
        var i := IndexIn(segs[0], |items|).value;
        ItemBeside(bytes, show, n, items, i);
        ReachedIsSpelled(bytes, show, items[i], ItemOf(n, i).value, segs[1..]);
      case Entries(entries) => EntryIsSpelled(bytes, show, entries, n, segs);
      case Tagged(tag, inner) =>
        PayloadBeside(bytes, show, n, tag, inner);
        if segs != [Name("@tag")] {
          ReachedIsSpelled(bytes, show, inner, PayloadOf(n).value, segs[1..]);
        }
      case SimpleValue(_) =>
      case Scalar(_) =>
    }
  }

  lemma {:induction false} EntryIsSpelled(bytes: seq<byte>, show: Node -> string, entries: seq<Assoc>, n: Node,
                                          segs: seq<Seg>)
    requires SpelledBy(bytes, show, n, Entries(entries)) && Follow(Entries(entries), n, segs).Some? && segs != []
    ensures SpotSpelled(bytes, show, Follow(Entries(entries), n, segs).value.spot)
    decreases |segs|, 0
  {
    hide SpelledBy, NeedsEntries, PairOf, IndexIn;
    if !NeedsEntries(entries) {
      var i := NamedEntry(entries, segs[0].text).value;
      PairBeside(bytes, show, n, entries, i);
      ReachedIsSpelled(bytes, show, entries[i].value, PairOf(n, i).value.1, segs[1..]);
    } else if |segs| > 1 {
      var i := IndexIn(segs[1], |entries|).value;
      PairBeside(bytes, show, n, entries, i);
      if |segs| > 2 && segs[2] == Name("key") {
        ReachedIsSpelled(bytes, show, entries[i].key, PairOf(n, i).value.0, segs[3..]);
      } else if |segs| > 2 {
        ReachedIsSpelled(bytes, show, entries[i].value, PairOf(n, i).value.1, segs[3..]);
      }
    }
  }

  /** For the value a document holds: every row's path leads to a place of it, and the
      row shows the node that spells what is there. */
  lemma RowsPointAtTheirBytes(bytes: seq<byte>, show: Node -> string, c: Cbor, root: Node, p: string, q: string,
                              span: Extent, k: nat)
    requires Document(bytes) == Whole(root) && Spells(show, root, c) && k < |NodeRows(c, Some(root), p, q, span)|
    ensures var row := NodeRows(c, Some(root), p, q, span)[k];
            && RowFits(c, root, p, q, row)
            && SpotSpelled(bytes, show, Follow(c, root, ReadPath(row.decoded[|q|..]).value).value.spot)
  {
    hide Item, Describes, Spells, Follow, ReadPath, NodeRows, SpotSpelled;
    ItemDescribes(bytes, 0, []);
    DescribedSpan(bytes, 0, root);
    NodeRowsFit(bytes, show, c, root, p, q, span);
    var row := NodeRows(c, Some(root), p, q, span)[k];
    assert RowFits(c, root, p, q, row);
    ReachedIsSpelled(bytes, show, c, root, ReadPath(row.decoded[|q|..]).value);
  }

  // ---------------------------------------------------------------------
  // Every place has its row
  // ---------------------------------------------------------------------

  predicate RowAt(q: string, segs: seq<Seg>, row: Shown) {
    q <= row.decoded && ReadPath(row.decoded[|q|..]) == Some(segs)
  }

  ghost predicate HasRow(rows: seq<Shown>, q: string, segs: seq<Seg>) {
    exists row | row in rows :: RowAt(q, segs, row)
  }

  lemma OwnRowIsThere(rows: seq<Shown>, q: string, text: string, segs: seq<Seg>, p: string, content: Content)
    requires SpellsPath(text, segs) && Shown(p, q + text, content) in rows
    ensures HasRow(rows, q, segs)
  {
    var row := Shown(p, q + text, content);
    assert row.decoded[|q|..] == text + "";
    assert ReadPath("") == Some([]);
    assert segs + [] == segs;
    assert RowAt(q, segs, row);
  }

  lemma RowBelow(rows: seq<Shown>, all: seq<Shown>, q: string, text: string, before: seq<Seg>, rest: seq<Seg>)
    requires SpellsPath(text, before) && HasRow(rows, q + text, rest) && forall row | row in rows :: row in all
    ensures HasRow(all, q, before + rest)
  {
    hide ReadPath, SpellsPath;
    var row :| row in rows && RowAt(q + text, rest, row);
    TextBehind(q, text, row.decoded);
    SpellsAt(text, before, row.decoded[|q + text|..]);
    assert RowAt(q, before + rest, row);
  }

  lemma {:induction false} ItemRowsHold(items: seq<Cbor>, n: Option<Node>, i: nat, k: nat, p: string, q: string)
    requires i <= k < |items|
    ensures forall row | row in NodeRows(items[k], ItemNode(n, k), p + IndexSegment(k), q + IndexSegment(k), None) ::
              row in ItemRows(items, n, i, p, q)
    decreases k - i
  {
    hide NodeRows, ItemNode, IndexSegment;
    if i < k {
      ItemRowsHold(items, n, i + 1, k, p, q);
    }
  }

  lemma {:induction false} MemberRowsHold(entries: seq<Assoc>, n: Option<Node>, i: nat, k: nat, p: string, q: string)
    requires i <= k < |entries|
    ensures forall row | row in MemberRow(entries[k], ValueNode(n, k), p, q) :: row in MemberRows(entries, n, i, p, q)
    decreases k - i
  {
    hide MemberRow, ValueNode;
    if i < k {
      MemberRowsHold(entries, n, i + 1, k, p, q);
    }
  }

  lemma {:induction false} PairRowsHold(entries: seq<Assoc>, n: Option<Node>, i: nat, k: nat, p: string, q: string)
    requires i <= k < |entries|
    ensures forall row | row in PairRow(entries[k], KeyNode(n, k), ValueNode(n, k), PairExtent(n, k), p,
                                        q + IndexSegment(k)) ::
              row in PairRows(entries, n, i, p, q)
    decreases k - i
  {
    hide PairRow, ValueNode, KeyNode, PairExtent, IndexSegment;
    if i < k {
      PairRowsHold(entries, n, i + 1, k, p, q);
    }
  }

  /** Every path that leads to a place of the value is the path of a row. */
  lemma {:induction false} EveryPlaceHasARow(bytes: seq<byte>, show: Node -> string, c: Cbor, n: Node, segs: seq<Seg>,
                                             p: string, q: string, span: Extent)
    requires SpelledBy(bytes, show, n, c) && Follow(c, n, segs).Some?
    ensures HasRow(NodeRows(c, Some(n), p, q, span), q, segs)
    decreases |segs|, 3
  {
    hide SpelledBy, HasRow, Follow, ChildRows;
    var rows := NodeRows(c, Some(n), p, q, span);
    if segs == [] {
      NoText();
      assert q + "" == q;
      OwnRowIsThere(rows, q, "", [], p, NodeContent(Some(n), span));
    } else {
      ChildRowIsThere(bytes, show, c, n, segs, p, q);
      NoText();
      assert q + "" == q && [] + segs == segs;
      RowBelow(ChildRows(c, Some(n), p, q), rows, q, "", [], segs);
    }
  }

  lemma {:induction false} ChildRowIsThere(bytes: seq<byte>, show: Node -> string, c: Cbor, n: Node, segs: seq<Seg>,
                                           p: string, q: string)
    requires SpelledBy(bytes, show, n, c) && Follow(c, n, segs).Some? && segs != []
    ensures HasRow(ChildRows(c, Some(n), p, q), q, segs)
    decreases |segs|, 2
  {
    hide SpelledBy, HasRow, NodeRows, ItemRows, MemberRows, PairRows, SpellsPath, SpellsSeg, NeedsEntries, TagPayload,
         PayloadOf;
    WrappersAreRead();
    match c
    case Items(items) => ItemRowIsThere(bytes, show, items, n, segs, p, q);
    case Entries(entries) =>
      if NeedsEntries(entries) {
        PairRowIsThere(bytes, show, entries, n, segs, p, q);
      } else {
        MemberRowIsThere(bytes, show, entries, n, segs, p, q);
      }
    case Tagged(tag, inner) =>
      var rows := ChildRows(c, Some(n), p, q);
      if segs == [Name("@tag")] {
        OneSegment(TAG, Name("@tag"));
        OwnRowIsThere(rows, q, TAG, segs, p, TagContent(Some(n)));
      } else {
        PayloadBeside(bytes, show, n, tag, inner);
        EveryPlaceHasARow(bytes, show, inner, PayloadOf(n).value, segs[1..], p, q + VALUE, None);
        OneSegment(VALUE, Name("@value"));
        assert [segs[0]] + segs[1..] == segs;
        RowBelow(NodeRows(inner, TagPayload(Some(n)), p, q + VALUE, None), rows, q, VALUE, [Name("@value")], segs[1..]);
      }
    case SimpleValue(_) =>
      OneSegment(SIMPLE, Name("@simple"));
      OwnRowIsThere(ChildRows(c, Some(n), p, q), q, SIMPLE, segs, p, NodeContent(Some(n), None));
    case Scalar(_) =>
  }

  lemma {:induction false} ItemRowIsThere(bytes: seq<byte>, show: Node -> string, items: seq<Cbor>, n: Node,
                                          segs: seq<Seg>,
                                          p: string, q: string)
    requires SpelledBy(bytes, show, n, Items(items)) && Follow(Items(items), n, segs).Some? && segs != []
    ensures HasRow(ItemRows(items, Some(n), 0, p, q), q, segs)
    decreases |segs|, 0
  {
    hide SpelledBy, HasRow, NodeRows, ItemRows, SpellsPath, SpellsSeg, IndexSegment, ItemNode, ItemOf;
    var i := IndexIn(segs[0], |items|).value;
    var text := IndexSegment(i);
    ItemBeside(bytes, show, n, items, i);
    EveryPlaceHasARow(bytes, show, items[i], ItemOf(n, i).value, segs[1..], p + text, q + text, None);
    ItemRowsHold(items, Some(n), 0, i, p, q);
    IndexIsRead(i);
    OneSegment(text, Bare(Digits(i)));
    assert [segs[0]] + segs[1..] == segs;
    RowBelow(NodeRows(items[i], ItemNode(Some(n), i), p + text, q + text, None), ItemRows(items, Some(n), 0, p, q), q,
             text,
             [segs[0]], segs[1..]);
  }

  lemma ScalarName(name: string)
    ensures JsonKey(Scalar(name)) == name
  {
  }

  lemma {:induction false} MemberRowIsThere(bytes: seq<byte>, show: Node -> string, entries: seq<Assoc>, n: Node,
                                            segs: seq<Seg>, p: string, q: string)
    requires SpelledBy(bytes, show, n, Entries(entries)) && Follow(Entries(entries), n, segs).Some? && segs != []
    requires !NeedsEntries(entries)
    ensures HasRow(MemberRows(entries, Some(n), 0, p, q), q, segs)
    decreases |segs|, 0
  {
    hide SpelledBy, HasRow, NodeRows, MemberRows, SpellsPath, SpellsSeg, PairOf, PairNode, NeedsEntries, DecodedSegment,
         CborSegment, JsonKey;
    var i := NamedEntry(entries, segs[0].text).value;
    var name := segs[0].text;
    assert JsonKey(entries[i].key) == name by { ScalarName(name); }
    var text := DecodedSegment(name);
    PairBeside(bytes, show, n, entries, i);
    var value := PairOf(n, i).value.1;
    EveryPlaceHasARow(bytes, show, entries[i].value, value, segs[1..], p + CborSegment(name), q + text, None);
    MemberRowsHold(entries, Some(n), 0, i, p, q);
    DecodedIsRead(name);
    OneSegment(text, Name(name));
    assert [segs[0]] + segs[1..] == segs;
    RowBelow(NodeRows(entries[i].value, Some(value), p + CborSegment(name), q + text, None),
             MemberRows(entries, Some(n), 0, p, q), q, text, [segs[0]], segs[1..]);
  }

  lemma {:induction false} PairRowIsThere(bytes: seq<byte>, show: Node -> string, entries: seq<Assoc>, n: Node,
                                          segs: seq<Seg>, p: string, q: string)
    requires SpelledBy(bytes, show, n, Entries(entries)) && Follow(Entries(entries), n, segs).Some? && segs != []
    requires NeedsEntries(entries)
    ensures HasRow(ChildRows(Entries(entries), Some(n), p, q), q, segs)
    decreases |segs|, 1
  {
    hide SpelledBy, HasRow, PairRows, SpellsPath, SpellsSeg, PairOf, NeedsEntries, IndexSegment;
    var rows := ChildRows(Entries(entries), Some(n), p, q);
    WrappersAreRead();
    OneSegment(ENTRIES, Name("@entries"));
    if |segs| == 1 {
      assert segs == [Name("@entries")];
      OwnRowIsThere(rows, q, ENTRIES, segs, p, WrapperContent(NodeExtent(Some(n))));
    } else {
      var i := IndexIn(segs[1], |entries|).value;
      PairRowsHold(entries, Some(n), 0, i, p, q + ENTRIES);
      SideRowIsThere(bytes, show, entries, n, segs, i, p, q);
      NoText();
      assert q + "" == q && [] + segs == segs;
      var own := PairRow(entries[i], KeyNode(Some(n), i), ValueNode(Some(n), i), PairExtent(Some(n), i), p,
                         q + ENTRIES + IndexSegment(i));
      RowBelow(own, rows, q, "", [], segs);
    }
  }

  lemma {:induction false} SideRowIsThere(bytes: seq<byte>, show: Node -> string, entries: seq<Assoc>, n: Node,
                                          segs: seq<Seg>, i: nat, p: string, q: string)
    requires SpelledBy(bytes, show, n, Entries(entries)) && Follow(Entries(entries), n, segs).Some? && |segs| > 1
    requires NeedsEntries(entries) && IndexIn(segs[1], |entries|) == Some(i)
    ensures HasRow(PairRow(entries[i], KeyNode(Some(n), i), ValueNode(Some(n), i), PairExtent(Some(n), i), p,
                           q + ENTRIES + IndexSegment(i)), q, segs)
    decreases |segs|, 0
  {
    hide SpelledBy, HasRow, NodeRows, SpellsPath, SpellsSeg, PairOf, PairNode, PairExtent, NeedsEntries, IndexSegment,
         DecodedSegment;
    PairBeside(bytes, show, n, entries, i);
    var (key, value) := PairOf(n, i).value;
    var at := q + ENTRIES + IndexSegment(i);
    var rows := PairRow(entries[i], Some(key), Some(value), PairExtent(Some(n), i), p, at);
    PairTexts(i, "key");
    PairTexts(i, "value");
    assert segs[1] == Bare(Digits(i));
    if |segs| == 2 {
      assert segs == [Name("@entries"), Bare(Digits(i))];
      assert at == q + (ENTRIES + IndexSegment(i));
      OwnRowIsThere(rows, q, ENTRIES + IndexSegment(i), segs, p, PairContent(PairExtent(Some(n), i)));
    } else {
      var side := segs[2].text;
      var part := if side == "key" then entries[i].key else entries[i].value;
      var beside := if side == "key" then key else value;
      var text := ENTRIES + IndexSegment(i) + DecodedSegment(side);
      assert at + DecodedSegment(side) == q + text;
      EveryPlaceHasARow(bytes, show, part, beside, segs[3..], p, q + text, None);
      assert [Name("@entries"), Bare(Digits(i)), Name(side)] + segs[3..] == segs;
      RowBelow(NodeRows(part, Some(beside), p, q + text, None), rows, q, text,
               [Name("@entries"), Bare(Digits(i)), Name(side)], segs[3..]);
    }
  }
}
