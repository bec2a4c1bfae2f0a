/** The decoder finishes with exactly the trees that describe its input and stay
    within its depth limit. */
module TreeIsExact {
  import opened Wire
  import opened Oddities
  import opened Decoder
  import opened PositionalTree

  /** The items a container holds, complete or cut. */
  function Holds<T>(incomplete: bool, len: Option<nat>, held: seq<T>): (items: seq<T>)
    ensures |items| <= |held| && items == held[..|items|]
  {
    if incomplete then held else ItemsOf(len, held)
  }

  /** No item of `node`, itself at `level`, lies deeper than the limit. */
  ghost predicate Within(node: Node, level: nat)
    decreases node
  {
    && level <= MAX_DEPTH
    && match node
       case Token(_, _, _, _) => true
       case ChunkedNode(_, _, _, _, _, _) => true
       case ArrayNode(_, _, len, values, incomplete, _) =>
         forall k | 0 <= k < |Holds(incomplete, len, values)| :: Within(values[k], level + 1)
       case MapNode(_, _, len, entries, incomplete, _) =>
         forall k | 0 <= k < |Holds(incomplete, len, entries)| :: EntryWithin(entries[k], level + 1)
       case TagNode(_, _, _, inner, _, _) => inner.Some? ==> Within(inner.value, level + 1)
  }

  /** A key shares its value's level. */
  ghost predicate EntryWithin(e: Entry, level: nat)
    decreases e
  {
    match e
    case Pair(key, value) => Within(key, level) && Within(value, level)
    case PartialEntry(key, value, _) => (key.Some? ==> Within(key.value, level))
      && (value.Some? ==> Within(value.value, level))
    case Closing(_) => true
  }

  ghost predicate PartWithin(part: Option<Node>, level: nat) {
    part.Some? ==> Within(part.value, level)
  }

  // ---------------------------------------------------------------------
  // What is decoded, the part before an error included, is within the limit
  // ---------------------------------------------------------------------

  ghost predicate OutcomeWithin(o: Outcome, level: nat) {
    if o.Done? then Within(o.node, level) else PartWithin(o.part, level)
  }

  ghost predicate FrameWithin(f: Open, level: nat) {
    match f
    case OpenArray(_, _, _, values) => forall k | 0 <= k < |values| :: Within(values[k], level + 1)
    case OpenMap(_, _, _, entries, _, _, key) =>
      && (forall k | 0 <= k < |entries| :: EntryWithin(entries[k], level + 1))
      && (key.Some? ==> Within(key.value.0, level + 1))
    case OpenTag(_, _, _) => true
  }

  lemma {:induction false} ItemIsWithin(bytes: seq<byte>, at: nat, path: seq<PathSeg>)
    requires at <= |bytes|
    ensures OutcomeWithin(Item(bytes, at, path), |path|)
    decreases 1 + |bytes| - at, 0
  {
    hide Leaf, ReadHead, Chunks, Steps;
    if |path| <= MAX_DEPTH && PullHead(bytes, at).Pulled? {
      var h := PullHead(bytes, at).h;
      if IsLeaf(h) {
      } else if h.major in {2, 3} {
        ChunksAreChunked(bytes, at, at + h.len, h.major == 3, [], at + h.len, path);
      } else {
        StepsAreWithin(bytes, Opened(at, h), at + h.len, path);
      }
    }
  }

  lemma {:induction false} ChunksAreChunked(bytes: seq<byte>, start: nat, headerEnd: nat, text: bool, chunks: seq<Node>,
                                            at: nat, path: seq<PathSeg>)
    requires start < headerEnd <= at <= |bytes|
    ensures var o := Chunks(bytes, start, headerEnd, text, chunks, at, path);
            if o.Done? then o.node.ChunkedNode? else o.part.Some? && o.part.value.ChunkedNode?
    decreases |bytes| - at
  {
    var o := Chunk(bytes, at, text, path + [ChunkIdx(|chunks|)]);
    if o.Done? && o.node != BreakToken(at) {
      ChunksAreChunked(bytes, start, headerEnd, text, chunks + [o.node], o.end, path);
    }
  }

  lemma {:induction false} StepsAreWithin(bytes: seq<byte>, f: Open, at: nat, path: seq<PathSeg>)
    requires at <= |bytes| && FrameWithin(f, |path|) && |path| <= MAX_DEPTH
    ensures OutcomeWithin(Steps(bytes, f, at, path), |path|)
    decreases 1 + |bytes| - at, 1
  {
    match Advance(bytes, f, at)
    case Short =>
    case Closed(_, _) =>
    case Next(g, seg) =>
      ItemIsWithin(bytes, at, path + [seg]);
      TakesAreWithin(bytes, g, Item(bytes, at, path + [seg]), path);
  }

  lemma {:induction false} TakesAreWithin(bytes: seq<byte>, f: Open, item: Outcome, path: seq<PathSeg>)
    requires FrameWithin(f, |path|) && |path| <= MAX_DEPTH
    requires OutcomeWithin(item, |path| + 1)
    requires item.Done? ==> item.end <= |bytes|
    requires item.Fail? ==> item.stop <= |bytes|
    ensures OutcomeWithin(Takes(bytes, f, item, path), |path|)
    decreases if item.Done? then 1 + |bytes| - item.end else 0, 2
  {
    if item.Done? && !f.OpenTag? {
      var g := Took(f, item.node, item.end);
      assert FrameWithin(g, |path|);
      if f.OpenMap? && f.key.None? {
        var next := path + [MapEntry(|f.entries|, ValueSide)];
        ItemIsWithin(bytes, item.end, next);
        TakesAreWithin(bytes, g, Item(bytes, item.end, next), path);
      } else {
        StepsAreWithin(bytes, g, item.end, path);
      }
    }
  }

  // ---------------------------------------------------------------------
  // A tree within the limit that describes the input is what is decoded
  // ---------------------------------------------------------------------

  lemma BreakIsNoItem(bytes: seq<byte>, at: nat)
    requires at < |bytes| && bytes[at] == BREAK && PullHead(bytes, at).Pulled?
    ensures var h := PullHead(bytes, at).h; h.major == 7 && IsLeaf(h) && Leaf(bytes, at, h, []).Fail?
  {
  }

  lemma NoBreakAhead(bytes: seq<byte>, at: nat, node: Node)
    requires Describes(bytes, at, node)
    ensures at < NodeEnd(node) <= |bytes| && bytes[at] != BREAK && SpanOf(node).offset == at
  {
    hide PullHead, Leaf, ValuesFill, EntriesFill, ChunksFill, MapOddities, TagOddities, KeySpans;
    if bytes[at] == BREAK {
      BreakIsNoItem(bytes, at);
    }
  }

  /** `count` items that end at `mid` are all a container of length `len` takes. */
  predicate Closes(bytes: seq<byte>, len: Option<nat>, count: nat, mid: nat) {
    && mid <= |bytes|
    && (len.Some? ==> count == len.value)
    && (len.None? ==> mid < |bytes| && bytes[mid] == BREAK)
  }

  function ClosedEnd(len: Option<nat>, mid: nat): (end: nat) {
    if len.Some? then mid else mid + 1
  }

  function AllValues(len: Option<nat>, items: seq<Node>, mid: nat): (values: seq<Node>) {
    if len.Some? then items else items + [BreakToken(mid)]
  }

  function AllEntries(len: Option<nat>, pairs: seq<Entry>, mid: nat): (entries: seq<Entry>) {
    if len.Some? then pairs else pairs + [Closing(BreakToken(mid))]
  }

  lemma {:induction false} DescribedIsDecoded(bytes: seq<byte>, at: nat, node: Node, path: seq<PathSeg>)
    requires Describes(bytes, at, node) && Within(node, |path|)
    ensures Item(bytes, at, path) == Done(node, NodeEnd(node))
    decreases node, 1, 0
  {
    hide Item, PullHead, Within, Leaf, Describes;
    match node
    case Token(_, _, _, _) => TokenCase(bytes, at, node, path);
    case ChunkedNode(_, _, _, _, _, _) => ChunkedCase(bytes, at, node, path);
    case ArrayNode(_, _, _, _, _, _) => ArrayCase(bytes, at, node, path);
    case MapNode(_, _, _, _, _, _) => MapCase(bytes, at, node, path);
    case TagNode(_, _, _, _, _, _) => TagCase(bytes, at, node, path);
  }

  lemma ItemIsSteps(bytes: seq<byte>, at: nat, path: seq<PathSeg>)
    requires |path| <= MAX_DEPTH && at <= |bytes| && PullHead(bytes, at).Pulled?
             && PullHead(bytes, at).h.major in {4, 5, 6}
    ensures var h := PullHead(bytes, at).h;
            (h.major == 6 ==> h.argument.Some?)
              && Item(bytes, at, path) == Steps(bytes, Opened(at, h), at + h.len, path)
  {
    hide PullHead, Steps, Leaf;
  }

  lemma TokenCase(bytes: seq<byte>, at: nat, node: Node, path: seq<PathSeg>)
    requires node.Token? && Describes(bytes, at, node) && Within(node, |path|)
    ensures Item(bytes, at, path) == Done(node, NodeEnd(node))
  {
    hide PullHead, HeadIsReadable;
    LeafDescribes(bytes, at, PullHead(bytes, at).h, path);
  }

  lemma ChunkedCase(bytes: seq<byte>, at: nat, node: Node, path: seq<PathSeg>)
    requires node.ChunkedNode? && Describes(bytes, at, node) && Within(node, |path|)
    ensures Item(bytes, at, path) == Done(node, NodeEnd(node))
  {
    hide PullHead, HeadIsReadable, TileChunks, Chunks, Leaf;
    var h := PullHead(bytes, at).h;
    var chunks, end := node.chunks, NodeEnd(node);
    ChunksDecoded(bytes, at, at + h.len, node.text, chunks[..|chunks| - 1], 0, end - 1, path);
    assert chunks[..|chunks| - 1] + [chunks[|chunks| - 1]] == chunks;
  }

  lemma {:induction false} ArrayCase(bytes: seq<byte>, at: nat, node: Node, path: seq<PathSeg>)
    requires node.ArrayNode? && Describes(bytes, at, node) && Within(node, |path|)
    ensures Item(bytes, at, path) == Done(node, NodeEnd(node))
    decreases node, 0, 0
  {
    hide PullHead, Tile, Steps, Item;
    ItemIsSteps(bytes, at, path);
    var h := PullHead(bytes, at).h;
    var end := NodeEnd(node);
    var items, mid := ItemsOf(node.len, node.values), if node.len.Some? then end else end - 1;
    ArrayReaches(bytes, Opened(at, h), items, 0, mid, path);
    ArrayCloses(bytes, Opened(at, h).(values := items), mid, path);
  }

  lemma {:induction false} MapCase(bytes: seq<byte>, at: nat, node: Node, path: seq<PathSeg>)
    requires node.MapNode? && Describes(bytes, at, node) && Within(node, |path|)
    ensures Item(bytes, at, path) == Done(node, NodeEnd(node))
    decreases node, 0, 0
  {
    hide PullHead, TilePairs, Steps, Item, MapOddities, EntryWithin, KeySpans;
    ItemIsSteps(bytes, at, path);
    var h := PullHead(bytes, at).h;
    var end := NodeEnd(node);
    NoPairs();
    var pairs, mid := ItemsOf(node.len, node.entries), if node.len.Some? then end else end - 1;
    assert MapHolding(at, at + h.len, node.len, pairs, 0) == Opened(at, h);
    MapReaches(bytes, at, at + h.len, node.len, pairs, 0, mid, path);
    assert pairs[..|pairs|] == pairs;
    MapCloses(bytes, MapHolding(at, at + h.len, node.len, pairs, |pairs|), pairs, mid, path);
  }

  lemma NoPairs()
    ensures KeySpans([]) == []
  {
  }

  lemma {:induction false} TagCase(bytes: seq<byte>, at: nat, node: Node, path: seq<PathSeg>)
    requires node.TagNode? && Describes(bytes, at, node) && Within(node, |path|)
    ensures Item(bytes, at, path) == Done(node, NodeEnd(node))
    decreases node, 0, 0
  {
    hide PullHead, Steps, Item, TagOddities, ValuesFill, EntriesFill, ChunksFill, Leaf, KeySpans, MapOddities;
    ItemIsSteps(bytes, at, path);
    TagDecoded(bytes, at, PullHead(bytes, at).h, node.inner.value, path);
  }

  lemma {:induction false} TagDecoded(bytes: seq<byte>, at: nat, h: Head, inner: Node, path: seq<PathSeg>)
    requires at + h.len <= |bytes| && h.major == 6 && h.argument.Some?
    requires Describes(bytes, at + h.len, inner) && Within(inner, |path| + 1)
    ensures var f := Opened(at, h);
            Steps(bytes, f, at + h.len, path) == Done(TagClosed(f, inner, NodeEnd(inner)), NodeEnd(inner))
    decreases inner, 2, 0
  {
    hide PullHead, Describes, Within, Item;
    NoBreakAhead(bytes, at + h.len, inner);
    DescribedIsDecoded(bytes, at + h.len, inner, path + [TagInner]);
  }

  /** An array that holds the first `k` of some items comes to hold them all. */
  lemma {:induction false} ArrayReaches(bytes: seq<byte>, f: Open, items: seq<Node>, k: nat, mid: nat,
                                        path: seq<PathSeg>)
    requires k <= |items| && f.OpenArray? && f.values == items[..k] && f.headerEnd <= |bytes|
    requires Tile(bytes, f.headerEnd, items, mid) && (f.len.Some? ==> |items| <= f.len.value)
    requires forall i | 0 <= i < |items| :: Within(items[i], |path| + 1)
    ensures var here := Edge(f.headerEnd, items, k);
            && here <= mid <= |bytes| && Steps(bytes, f, here, path) == Steps(bytes, f.(values := items), mid, path)
    decreases items, 1, |items| - k
  {
    hide PullHead, Describes, Within, Item;
    var here := Edge(f.headerEnd, items, k);
    if k > 0 {
      NoBreakAhead(bytes, Edge(f.headerEnd, items, k - 1), items[k - 1]);
    }
    if k < |items| {
      NoBreakAhead(bytes, here, items[k]);
      DescribedIsDecoded(bytes, here, items[k], path + [ArrayIdx(k)]);
      assert items[..k] + [items[k]] == items[..k + 1];
      ArrayReaches(bytes, f.(values := items[..k + 1]), items, k + 1, mid, path);
    } else {
      assert items[..k] == items;
    }
  }

  lemma ArrayCloses(bytes: seq<byte>, f: Open, mid: nat, path: seq<PathSeg>)
    requires f.OpenArray? && Closes(bytes, f.len, |f.values|, mid)
    ensures var end := ClosedEnd(f.len, mid);
            Steps(bytes, f, mid, path) == Done(ArrayClosed(f, AllValues(f.len, f.values, mid), end), end)
  {
  }

  function KeyStart(from: nat, pairs: seq<Entry>, k: nat): (start: nat)
    requires k <= |pairs| && forall i | 0 <= i < |pairs| :: pairs[i].Pair?
  {
    if k == 0 then from else EntryEdge(from, pairs, k - 1)
  }

  /** A map that holds the first `k` of some pairs. */
  function MapHolding(start: nat, headerEnd: nat, len: Option<nat>, pairs: seq<Entry>, k: nat): (f: Open)
    requires k <= |pairs| && forall i | 0 <= i < |pairs| :: pairs[i].Pair?
    ensures f.OpenMap? && f.key.None? && f.start == start && f.headerEnd == headerEnd && f.len == len
  {
    OpenMap(start, headerEnd, len, pairs[..k], KeySpans(pairs[..k]), KeyStart(headerEnd, pairs, k), None)
  }

  /** A map that holds the first `k` of some pairs comes to hold one more. */
  lemma {:induction false} MapTakesPair(bytes: seq<byte>, start: nat, headerEnd: nat, len: Option<nat>,
                                        pairs: seq<Entry>, k: nat, path: seq<PathSeg>)
    requires headerEnd <= |bytes| && k < |pairs| && (forall i | 0 <= i < |pairs| :: pairs[i].Pair?)
    requires DescribesPair(bytes, EntryEdge(headerEnd, pairs, k), pairs[k]) && (len.Some? ==> |pairs| <= len.value)
    requires EntryWithin(pairs[k], |path| + 1)
    ensures var here, next := EntryEdge(headerEnd, pairs, k), EntryEdge(headerEnd, pairs, k + 1);
            && here < next <= |bytes|
            && Steps(bytes, MapHolding(start, headerEnd, len, pairs, k), here, path)
            == Steps(bytes, MapHolding(start, headerEnd, len, pairs, k + 1), next, path)
    decreases pairs, 0, 0
  {
    hide PullHead, Describes, Within, Item, KeySpans, EntryWithin, Steps, DescribesPair;
    var here := EntryEdge(headerEnd, pairs, k);
    PairSpan(bytes, here, pairs[k]);
    StepsTakePair(bytes, MapHolding(start, headerEnd, len, pairs, k), here, pairs[k], path);
    OneMorePair(bytes, pairs, k, here);
  }

  /** A map that holds the first `k` of some pairs comes to hold them all. */
  lemma {:induction false} MapReaches(bytes: seq<byte>, start: nat, headerEnd: nat, len: Option<nat>, pairs: seq<Entry>,
                                      k: nat, mid: nat, path: seq<PathSeg>)
    requires headerEnd <= |bytes| && k <= |pairs|
    requires TilePairs(bytes, headerEnd, pairs, mid) && (len.Some? ==> |pairs| <= len.value)
    requires forall i | 0 <= i < |pairs| :: EntryWithin(pairs[i], |path| + 1)
    ensures var here := EntryEdge(headerEnd, pairs, k);
            && here <= mid <= |bytes|
            && Steps(bytes, MapHolding(start, headerEnd, len, pairs, k), here, path)
            == Steps(bytes, MapHolding(start, headerEnd, len, pairs, |pairs|), mid, path)
    decreases pairs, 1, |pairs| - k
  {
    hide EntryWithin, Steps, DescribesPair, MapHolding, EntryEdge;
    if k < |pairs| {
      MapTakesPair(bytes, start, headerEnd, len, pairs, k, path);
      MapReaches(bytes, start, headerEnd, len, pairs, k + 1, mid, path);
    } else if k > 0 {
      LastPairEnds(bytes, headerEnd, pairs, mid);
    } else {
      NoPairEdge(headerEnd, pairs);
    }
  }

  lemma LastPairEnds(bytes: seq<byte>, from: nat, pairs: seq<Entry>, mid: nat)
    requires TilePairs(bytes, from, pairs, mid) && pairs != []
    ensures mid <= |bytes|
  {
    hide DescribesPair;
    PairSpan(bytes, EntryEdge(from, pairs, |pairs| - 1), pairs[|pairs| - 1]);
  }

  lemma NoPairEdge(from: nat, pairs: seq<Entry>)
    requires forall i | 0 <= i < |pairs| :: pairs[i].Pair?
    ensures EntryEdge(from, pairs, 0) == from
  {
  }

  lemma MapCloses(bytes: seq<byte>, f: Open, pairs: seq<Entry>, mid: nat, path: seq<PathSeg>)
    requires f.OpenMap? && f.key.None? && f.entries == pairs && Closes(bytes, f.len, |pairs|, mid)
    ensures var end := ClosedEnd(f.len, mid);
            Steps(bytes, f, mid, path) == Done(MapClosed(bytes, f, AllEntries(f.len, pairs, mid), end), end)
  {
    hide MapOddities;
  }

  lemma PairSpan(bytes: seq<byte>, at: nat, pair: Entry)
    requires DescribesPair(bytes, at, pair)
    ensures at < NodeEnd(pair.key) < NodeEnd(pair.value) <= |bytes| && bytes[at] != BREAK
    ensures SpanOf(pair.key).offset == at
  {
    hide Describes;
    NoBreakAhead(bytes, at, pair.key);
    NoBreakAhead(bytes, NodeEnd(pair.key), pair.value);
  }

  lemma OneMorePair(bytes: seq<byte>, pairs: seq<Entry>, k: nat, here: nat)
    requires k < |pairs| && forall i | 0 <= i < |pairs| :: pairs[i].Pair?
    requires SpanOf(pairs[k].key).offset == here
    ensures pairs[..k] + [pairs[k]] == pairs[..k + 1]
    ensures KeySpans(pairs[..k]) + [(here, NodeEnd(pairs[k].key))] == KeySpans(pairs[..k + 1])
  {
    assert pairs[..k + 1][..k] == pairs[..k];
  }

  /** Between two entries, a map takes the key and then the value. */
  lemma {:induction false} StepsTakePair(bytes: seq<byte>, f: Open, here: nat, pair: Entry, path: seq<PathSeg>)
    requires f.OpenMap? && f.key.None? && (f.len.Some? ==> |f.entries| < f.len.value)
    requires DescribesPair(bytes, here, pair) && EntryWithin(pair, |path| + 1)
    requires here < |bytes| && bytes[here] != BREAK && NodeEnd(pair.value) <= |bytes|
    ensures Steps(bytes, f, here, path)
         == Steps(bytes, OpenMap(f.start, f.headerEnd, f.len, f.entries + [pair],
                                 f.keySpans + [(here, NodeEnd(pair.key))], here, None), NodeEnd(pair.value), path)
    decreases pair, 0, 0
  {
    hide PullHead, Describes, Within, Item;
    var k := |f.entries|;
    var keyPath, valuePath := path + [MapEntry(k, KeySide)], path + [MapEntry(k, ValueSide)];
    PairSpan(bytes, here, pair);
    DescribedIsDecoded(bytes, here, pair.key, keyPath);
    DescribedIsDecoded(bytes, NodeEnd(pair.key), pair.value, valuePath);
    var taking := f.(keyStart := here);
    assert Advance(bytes, f, here) == Next(taking, MapEntry(k, KeySide));
    var waiting := taking.(key := Some((pair.key, NodeEnd(pair.key))));
    assert Takes(bytes, taking, Done(pair.key, NodeEnd(pair.key)), path)
        == Takes(bytes, waiting, Done(pair.value, NodeEnd(pair.value)), path);
  }

  lemma {:induction false} ChunksDecoded(bytes: seq<byte>, start: nat, headerEnd: nat, text: bool, strings: seq<Node>,
                                         k: nat, mid: nat, path: seq<PathSeg>)
    requires start < headerEnd <= |bytes| && k <= |strings|
    requires TileChunks(bytes, headerEnd, text, strings, mid) && mid < |bytes| && bytes[mid] == BREAK
    ensures var here := Edge(headerEnd, strings, k);
            && headerEnd <= here <= |bytes|
            && Chunks(bytes, start, headerEnd, text, strings[..k], here, path)
            == Done(ChunksClosed(start, headerEnd, strings + [BreakToken(mid)], text, mid + 1), mid + 1)
    decreases |strings| - k
  {
    hide PullHead, Chunk, IsChunk, ChunksClosed, Edge;
    EdgeOfChunks(bytes, headerEnd, text, strings, k, mid);
    var here := Edge(headerEnd, strings, k);
    if k < |strings| {
      ChunkDone(bytes, here, text, strings[k], path + [ChunkIdx(k)]);
      assert strings[..k] + [strings[k]] == strings[..k + 1];
      assert Edge(headerEnd, strings, k + 1) == NodeEnd(strings[k]) by { EdgeAfter(headerEnd, strings, k); }
      ChunksDecoded(bytes, start, headerEnd, text, strings, k + 1, mid, path);
    } else {
      assert strings[..k] == strings;
      BreakChunk(bytes, mid, text, path + [ChunkIdx(k)]);
    }
  }

  lemma EdgeAfter(from: nat, values: seq<Node>, k: nat)
    requires k < |values|
    ensures Edge(from, values, k + 1) == NodeEnd(values[k])
  {
  }

  lemma {:induction false} EdgeOfChunks(bytes: seq<byte>, from: nat, text: bool, strings: seq<Node>, k: nat, mid: nat)
    requires from <= |bytes| && k <= |strings| && TileChunks(bytes, from, text, strings, mid)
    ensures from <= Edge(from, strings, k) <= |bytes|
    ensures k < |strings| ==> IsChunk(bytes, Edge(from, strings, k), text, strings[k])
    ensures k == |strings| ==> Edge(from, strings, k) == mid
    decreases k
  {
    hide Chunk, IsChunk;
    if k > 0 {
      EdgeOfChunks(bytes, from, text, strings, k - 1, mid);
      ChunkDone(bytes, Edge(from, strings, k - 1), text, strings[k - 1], []);
    }
  }

  lemma BreakChunk(bytes: seq<byte>, at: nat, text: bool, path: seq<PathSeg>)
    requires at < |bytes| && bytes[at] == BREAK
    ensures Chunk(bytes, at, text, path) == Done(BreakToken(at), at + 1)
  {
  }

  lemma ChunkDone(bytes: seq<byte>, at: nat, text: bool, chunk: Node, path: seq<PathSeg>)
    requires IsChunk(bytes, at, text, chunk)
    ensures Chunk(bytes, at, text, path) == Done(chunk, NodeEnd(chunk)) && chunk.name != Break
    ensures at < NodeEnd(chunk) <= |bytes|
  {
  }

  // ---------------------------------------------------------------------
  // Both directions
  // ---------------------------------------------------------------------

  /** Decoding at `at` finishes with `node` exactly when `node` describes the
      bytes there and stays within the depth limit. */
  lemma DecodedExactly(bytes: seq<byte>, at: nat, path: seq<PathSeg>, node: Node, end: nat)
    requires at <= |bytes|
    ensures Item(bytes, at, path) == Done(node, end)
       <==> Describes(bytes, at, node) && NodeEnd(node) == end && Within(node, |path|)
  {
    hide Item, Describes, Within;
    if Item(bytes, at, path) == Done(node, end) {
      ItemDescribes(bytes, at, path);
      ItemIsWithin(bytes, at, path);
    }
    if Describes(bytes, at, node) && NodeEnd(node) == end && Within(node, |path|) {
      DescribedIsDecoded(bytes, at, node, path);
    }
  }

  /** The same for a whole document: the root describes every byte of it. */
  lemma WholeExactly(bytes: seq<byte>, node: Node)
    ensures Document(bytes) == Whole(node)
       <==> Describes(bytes, 0, node) && NodeEnd(node) == |bytes| && Within(node, 0)
  {
    hide Item, Describes, Within;
    DecodedExactly(bytes, 0, [], node, |bytes|);
  }
}
