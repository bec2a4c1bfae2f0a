/** What a finished positional tree says about the bytes it was decoded from: a
    description of the tree by its spans alone, which the decoder meets exactly. */
module PositionalTree {
  import opened Wire
  import opened Oddities
  import opened Decoder

  // ---------------------------------------------------------------------
  // Describing bytes
  // ---------------------------------------------------------------------

  /** Where item `k` of a run of items that starts at `from` starts: where the
      item before it ends. */
  function Edge(from: nat, values: seq<Node>, k: nat): (e: nat)
    requires k <= |values|
  {
    if k == 0 then from else NodeEnd(values[k - 1])
  }

  function EntryEnd(e: Entry): (end: nat)
    requires e.Pair?
  {
    NodeEnd(e.value)
  }

  function EntryEdge(from: nat, entries: seq<Entry>, k: nat): (e: nat)
    requires k <= |entries| && forall i | 0 <= i < |entries| :: entries[i].Pair?
  {
    if k == 0 then from else EntryEnd(entries[k - 1])
  }

  /** The items of a container: all it holds but the closing break. */
  function ItemsOf<T>(len: Option<nat>, held: seq<T>): (items: seq<T>)
    ensures |items| <= |held| && items == held[..|items|]
  {
    if len.None? && held != [] then held[..|held| - 1] else held
  }

  /** The spans of the keys of `pairs`. */
  function KeySpans(pairs: seq<Entry>): (spans: seq<(nat, nat)>)
    requires forall i | 0 <= i < |pairs| :: pairs[i].Pair?
    ensures |spans| == |pairs|
  {
    if pairs == [] then []
    else
      var key := pairs[|pairs| - 1].key;
      KeySpans(pairs[..|pairs| - 1]) + [(SpanOf(key).offset, NodeEnd(key))]
  }

  /** A container's break mark sits on the last byte before `end`. */
  predicate ClosedBy(bytes: seq<byte>, mark: Node, end: nat) {
    0 < end <= |bytes| && bytes[end - 1] == BREAK && mark == BreakToken(end - 1)
  }

  /** The node spans `at..NodeEnd(node)` and its header the first `len` bytes. */
  predicate Placed(node: Node, at: nat, len: nat) {
    && SpanOf(node).offset == at && SpanOf(node).length >= len
    && (!node.Token? ==> node.header == Pos(at, len) && !node.incomplete)
  }

  /** `node` is the item spelled at `at`: its header is the one there, its
      children stand side by side from the end of its header to its own end, the
      closing break included, and its oddities are those of its bytes. */
  ghost predicate Describes(bytes: seq<byte>, at: nat, node: Node)
    decreases node
  {
    && at <= |bytes| && PullHead(bytes, at).Pulled?
    && var h := PullHead(bytes, at).h;
    && Placed(node, at, h.len) && NodeEnd(node) <= |bytes|
    && match node
       case Token(_, _, _, _) => IsLeaf(h) && Leaf(bytes, at, h, []) == Done(node, NodeEnd(node))
       case ChunkedNode(text, _, _, chunks, _, oddities) =>
         && h.major == (if text then 3 else 2) && h.argument.None? && oddities == [IndefiniteLength]
         && ChunksFill(bytes, at + h.len, text, chunks, NodeEnd(node))
       case ArrayNode(_, _, len, values, _, oddities) =>
         && h.major == 4 && h.argument == len && oddities == (if len.None? then [IndefiniteLength] else [])
         && ValuesFill(bytes, at + h.len, len, values, NodeEnd(node))
       case MapNode(_, _, len, entries, _, oddities) =>
         && h.major == 5 && h.argument == len
         && EntriesFill(bytes, at + h.len, len, entries, NodeEnd(node))
         && oddities == MapOddities(bytes, KeySpans(ItemsOf(len, entries)), len.None?)
       case TagNode(_, _, tag, inner, _, oddities) =>
         && h.major == 6 && h.argument == Some(tag) && inner.Some?
         && Describes(bytes, at + h.len, inner.value) && NodeEnd(inner.value) == NodeEnd(node)
         && oddities == TagOddities(tag, inner.value)
  }

  ghost predicate ValuesFill(bytes: seq<byte>, from: nat, len: Option<nat>, values: seq<Node>, to: nat)
    decreases values, 1
  {
    if len.Some? then |values| == len.value && Tile(bytes, from, values, to)
    else values != [] && ClosedBy(bytes, values[|values| - 1], to) && Tile(bytes, from, values[..|values| - 1], to - 1)
  }

  /** The items stand side by side from `from` to `to`. */
  ghost predicate Tile(bytes: seq<byte>, from: nat, values: seq<Node>, to: nat)
    decreases values, 0
  {
    && (forall k | 0 <= k < |values| :: Describes(bytes, Edge(from, values, k), values[k]))
    && Edge(from, values, |values|) == to
  }

  ghost predicate EntriesFill(bytes: seq<byte>, from: nat, len: Option<nat>, entries: seq<Entry>, to: nat)
    ensures EntriesFill(bytes, from, len, entries, to) ==>
              forall k | 0 <= k < |ItemsOf(len, entries)| :: ItemsOf(len, entries)[k].Pair?
    decreases entries, 1
  {
    if len.Some? then |entries| == len.value && TilePairs(bytes, from, entries, to)
    else
      && entries != [] && entries[|entries| - 1].Closing? && ClosedBy(bytes, entries[|entries| - 1].mark, to)
      && TilePairs(bytes, from, entries[..|entries| - 1], to - 1)
  }

  ghost predicate TilePairs(bytes: seq<byte>, from: nat, entries: seq<Entry>, to: nat)
    decreases entries, 0
  {
    && (forall k | 0 <= k < |entries| :: entries[k].Pair?)
    && (forall k | 0 <= k < |entries| :: DescribesPair(bytes, EntryEdge(from, entries, k), entries[k]))
    && EntryEdge(from, entries, |entries|) == to
  }

  ghost predicate DescribesPair(bytes: seq<byte>, at: nat, e: Entry)
    decreases e
  {
    e.Pair? && Describes(bytes, at, e.key) && Describes(bytes, NodeEnd(e.key), e.value)
  }

  /** Definite-length chunks side by side, then the break. */
  ghost predicate ChunksFill(bytes: seq<byte>, from: nat, text: bool, chunks: seq<Node>, to: nat) {
    && chunks != [] && ClosedBy(bytes, chunks[|chunks| - 1], to)
    && TileChunks(bytes, from, text, chunks[..|chunks| - 1], to - 1)
  }

  ghost predicate TileChunks(bytes: seq<byte>, from: nat, text: bool, chunks: seq<Node>, to: nat) {
    && (forall k | 0 <= k < |chunks| :: IsChunk(bytes, Edge(from, chunks, k), text, chunks[k]))
    && Edge(from, chunks, |chunks|) == to
  }

  ghost predicate IsChunk(bytes: seq<byte>, at: nat, text: bool, chunk: Node) {
    && at <= |bytes| && Chunk(bytes, at, text, []) == Done(chunk, NodeEnd(chunk))
    && chunk.Token? && chunk.name == (if text then String else Bytes)
  }

  // ---------------------------------------------------------------------
  // The decoder's trees describe its input
  // ---------------------------------------------------------------------

  /** A half-decoded container whose next item starts at `at`. */
  ghost predicate FrameFits(bytes: seq<byte>, f: Open, at: nat) {
    && f.start < |bytes| && PullHead(bytes, f.start).Pulled? && f.headerEnd <= at <= |bytes|
    && var h := PullHead(bytes, f.start).h;
    && f.headerEnd == f.start + h.len
    && match f
       case OpenArray(_, headerEnd, len, values) =>
         && h.major == 4 && h.argument == len && Tile(bytes, headerEnd, values, at)
         && (len.Some? ==> |values| <= len.value)
       case OpenMap(_, headerEnd, len, entries, keySpans, keyStart, key) =>
         && h.major == 5 && h.argument == len && (len.Some? ==> |entries| <= len.value)
         && (key.Some? ==>
              && Describes(bytes, keyStart, key.value.0) && NodeEnd(key.value.0) == key.value.1 == at
              && (len.Some? ==> |entries| < len.value))
         && TilePairs(bytes, headerEnd, entries, if key.Some? then keyStart else at)
         && keySpans == KeySpans(entries)
       case OpenTag(_, headerEnd, tag) => h.major == 6 && h.argument == Some(tag) && headerEnd == at
  }

  /** A container of length `len` that holds `count` items takes one more at `at`. */
  predicate MoreDue(bytes: seq<byte>, len: Option<nat>, count: nat, at: nat) {
    if len.Some? then count < len.value else at < |bytes| && bytes[at] != BREAK
  }

  /** The frame is due the item it is about to take. */
  ghost predicate Taking(bytes: seq<byte>, f: Open, at: nat) {
    match f
    case OpenArray(_, _, len, values) => MoreDue(bytes, len, |values|, at)
    case OpenMap(_, _, len, entries, _, keyStart, key) =>
      MoreDue(bytes, len, |entries|, keyStart) && (key.None? ==> keyStart == at)
    case OpenTag(_, _, _) => true
  }

  ghost predicate ItemFits(bytes: seq<byte>, at: nat, o: Outcome) {
    o.Done? ==> at < o.end <= |bytes| && Describes(bytes, at, o.node) && NodeEnd(o.node) == o.end
  }

  lemma {:induction false} OpenedFits(bytes: seq<byte>, at: nat, h: Head)
    requires at <= |bytes| && PullHead(bytes, at) == Pulled(h) && h.major in {4, 5, 6}
    ensures FrameFits(bytes, Opened(at, h), at + h.len)
  {
  }

  lemma {:induction false} ArrayTakes(bytes: seq<byte>, f: Open, at: nat, node: Node)
    requires f.OpenArray? && FrameFits(bytes, f, at) && Taking(bytes, f, at) && Describes(bytes, at, node)
    ensures FrameFits(bytes, Took(f, node, NodeEnd(node)), NodeEnd(node))
  {
    hide Describes;
    assert at <= NodeEnd(node) <= |bytes| by { DescribedSpan(bytes, at, node); }
    var values := f.values + [node];
    forall k | 0 <= k < |values| ensures Describes(bytes, Edge(f.headerEnd, values, k), values[k]) {
      if k < |f.values| {
        assert Edge(f.headerEnd, values, k) == Edge(f.headerEnd, f.values, k);
      }
    }
  }

  lemma DescribedSpan(bytes: seq<byte>, at: nat, node: Node)
    requires Describes(bytes, at, node)
    ensures at < NodeEnd(node) <= |bytes| && SpanOf(node) == Span(at, NodeEnd(node))
  {
  }

  lemma OneMoreSpan(pairs: seq<Entry>, pair: Entry)
    requires pair.Pair? && forall i | 0 <= i < |pairs| :: pairs[i].Pair?
    ensures KeySpans(pairs + [pair]) == KeySpans(pairs) + [(SpanOf(pair.key).offset, NodeEnd(pair.key))]
  {
    assert (pairs + [pair])[..|pairs|] == pairs;
  }

  lemma {:induction false} MapTakesValue(bytes: seq<byte>, f: Open, at: nat, node: Node)
    requires f.OpenMap? && f.key.Some? && FrameFits(bytes, f, at) && Taking(bytes, f, at) && Describes(bytes, at, node)
    ensures FrameFits(bytes, Took(f, node, NodeEnd(node)), NodeEnd(node))
  {
    hide Describes, PullHead, KeySpans, MapOddities, Edge;
    OneMoreSpan(f.entries, Pair(f.key.value.0, node));
    assert at <= NodeEnd(node) <= |bytes| by { DescribedSpan(bytes, at, node); }
    var key := f.key.value.0;
    assert SpanOf(key).offset == f.keyStart by { DescribedSpan(bytes, f.keyStart, key); }
    var pair := Pair(key, node);
    var entries := f.entries + [pair];
    assert entries[..|entries| - 1] == f.entries;
    forall k | 0 <= k < |entries| ensures DescribesPair(bytes, EntryEdge(f.headerEnd, entries, k), entries[k]) {
      if k < |f.entries| {
        assert EntryEdge(f.headerEnd, entries, k) == EntryEdge(f.headerEnd, f.entries, k);
      }
    }
  }

  lemma {:induction false} ClosedDescribes(bytes: seq<byte>, f: Open, at: nat)
    requires FrameFits(bytes, f, at) && (f.OpenMap? ==> f.key.None?) && Advance(bytes, f, at).Closed?
    ensures var s := Advance(bytes, f, at);
            f.start < s.end && Describes(bytes, f.start, s.node) && NodeEnd(s.node) == s.end
  {
    hide PullHead, Tile, TilePairs, MapOddities, Describes;
    if f.OpenArray? {
      ArrayDescribes(bytes, f, at);
    } else {
      MapDescribes(bytes, f, at);
    }
  }

  lemma ArrayDescribes(bytes: seq<byte>, f: Open, at: nat)
    requires f.OpenArray? && FrameFits(bytes, f, at) && Advance(bytes, f, at).Closed?
    ensures var s := Advance(bytes, f, at); Describes(bytes, f.start, s.node)
  {
    hide PullHead, Tile, HeadIsReadable, Leaf;
    if f.len.None? {
      assert (f.values + [BreakToken(at)])[..|f.values|] == f.values;
    }
  }

  lemma MapDescribes(bytes: seq<byte>, f: Open, at: nat)
    requires f.OpenMap? && f.key.None? && FrameFits(bytes, f, at) && Advance(bytes, f, at).Closed?
    ensures var s := Advance(bytes, f, at); Describes(bytes, f.start, s.node)
  {
    hide PullHead, TilePairs, MapOddities, KeySpans, HeadIsReadable, Leaf;
    if f.len.None? {
      assert (f.entries + [Closing(BreakToken(at))])[..|f.entries|] == f.entries;
    }
  }

  lemma {:induction false} ItemDescribes(bytes: seq<byte>, at: nat, path: seq<PathSeg>)
    requires at <= |bytes|
    ensures ItemFits(bytes, at, Item(bytes, at, path))
    decreases 1 + |bytes| - at, 0
  {
    if |path| <= MAX_DEPTH && PullHead(bytes, at).Pulled? {
      var h := PullHead(bytes, at).h;
      if IsLeaf(h) {
        LeafDescribes(bytes, at, h, path);
      } else if h.major in {2, 3} {
        assert TileChunks(bytes, at + h.len, h.major == 3, [], at + h.len);
        ChunksDescribe(bytes, at, h, [], at + h.len, path);
      } else {
        OpenedFits(bytes, at, h);
        StepsDescribe(bytes, Opened(at, h), at + h.len, path);
      }
    }
  }

  lemma LeafDescribes(bytes: seq<byte>, at: nat, h: Head, path: seq<PathSeg>)
    requires at <= |bytes| && PullHead(bytes, at) == Pulled(h) && IsLeaf(h)
    ensures ItemFits(bytes, at, Leaf(bytes, at, h, path))
    ensures Leaf(bytes, at, h, path).Done? == Leaf(bytes, at, h, []).Done?
    ensures Leaf(bytes, at, h, path).Done? ==> Leaf(bytes, at, h, path) == Leaf(bytes, at, h, [])
  {
  }

  lemma ChunkPathFree(bytes: seq<byte>, at: nat, text: bool, path: seq<PathSeg>)
    requires at <= |bytes|
    ensures var o := Chunk(bytes, at, text, path);
            o.Done? ==>
              && Chunk(bytes, at, text, []) == o
              && (o.node == BreakToken(at) || IsChunk(bytes, at, text, o.node))
    ensures var o := Chunk(bytes, at, text, path);
            o.Done? && o.node == BreakToken(at) ==> o.end == at + 1 && bytes[at] == BREAK
    ensures var o := Chunk(bytes, at, text, path);
            o.Done? ==> NodeEnd(o.node) == o.end && SpanOf(o.node).offset == at
  {
  }

  lemma {:induction false} ChunksDescribe(bytes: seq<byte>, start: nat, h: Head, chunks: seq<Node>, at: nat,
                                          path: seq<PathSeg>)
    requires start <= |bytes| && PullHead(bytes, start) == Pulled(h) && h.major in {2, 3} && h.argument.None?
    requires start + h.len <= at <= |bytes| && TileChunks(bytes, start + h.len, h.major == 3, chunks, at)
    ensures ItemFits(bytes, start, Chunks(bytes, start, start + h.len, h.major == 3, chunks, at, path))
    decreases |bytes| - at
  {
    hide PullHead, Chunk, TileChunks, Describes, IsChunk;
    var text := h.major == 3;
    ChunkPathFree(bytes, at, text, path + [ChunkIdx(|chunks|)]);
    var o := Chunk(bytes, at, text, path + [ChunkIdx(|chunks|)]);
    if o.Done? {
      if o.node == BreakToken(at) {
        ChunkedDescribes(bytes, start, h, chunks, at);
      } else {
        ChunkGrows(bytes, start + h.len, text, chunks, at, o.node);
        ChunksDescribe(bytes, start, h, chunks + [o.node], o.end, path);
      }
    }
  }

  lemma ChunkedDescribes(bytes: seq<byte>, start: nat, h: Head, chunks: seq<Node>, at: nat)
    requires start <= |bytes| && PullHead(bytes, start) == Pulled(h) && h.major in {2, 3} && h.argument.None?
    requires start + h.len <= at < |bytes| && bytes[at] == BREAK
    requires TileChunks(bytes, start + h.len, h.major == 3, chunks, at)
    ensures Describes(bytes, start, ChunksClosed(start, start + h.len, chunks + [BreakToken(at)], h.major == 3, at + 1))
  {
    hide PullHead, TileChunks;
    assert (chunks + [BreakToken(at)])[..|chunks|] == chunks;
  }

  lemma ChunkGrows(bytes: seq<byte>, from: nat, text: bool, chunks: seq<Node>, at: nat, chunk: Node)
    requires TileChunks(bytes, from, text, chunks, at) && IsChunk(bytes, at, text, chunk)
    ensures TileChunks(bytes, from, text, chunks + [chunk], NodeEnd(chunk))
  {
    hide IsChunk;
    var grown := chunks + [chunk];
    forall k | 0 <= k < |grown| ensures IsChunk(bytes, Edge(from, grown, k), text, grown[k]) {
      if k < |chunks| {
        assert Edge(from, grown, k) == Edge(from, chunks, k);
      }
    }
  }

  lemma {:induction false} StepsDescribe(bytes: seq<byte>, f: Open, at: nat, path: seq<PathSeg>)
    requires FrameFits(bytes, f, at) && (f.OpenMap? ==> f.key.None?)
    ensures ItemFits(bytes, f.start, Steps(bytes, f, at, path))
    decreases 1 + |bytes| - at, 1
  {
    match Advance(bytes, f, at)
    case Short =>
    case Closed(_, _) => ClosedDescribes(bytes, f, at);
    case Next(g, seg) =>
      ItemDescribes(bytes, at, path + [seg]);
      TakesDescribe(bytes, g, at, Item(bytes, at, path + [seg]), path);
  }

  lemma {:induction false} TakesDescribe(bytes: seq<byte>, f: Open, at: nat, item: Outcome, path: seq<PathSeg>)
    requires FrameFits(bytes, f, at) && Taking(bytes, f, at) && ItemFits(bytes, at, item)
    requires item.Fail? ==> item.stop <= |bytes|
    ensures ItemFits(bytes, f.start, Takes(bytes, f, item, path))
    decreases if item.Done? then 1 + |bytes| - item.end else 0, 2
  {
    if item.Done? {
      var node, end := item.node, item.end;
      if f.OpenMap? && f.key.None? {
        var seg := MapEntry(|f.entries|, ValueSide);
        ItemDescribes(bytes, end, path + [seg]);
        TakesDescribe(bytes, Took(f, node, end), end, Item(bytes, end, path + [seg]), path);
      } else if f.OpenMap? {
        MapTakesValue(bytes, f, at, node);
        StepsDescribe(bytes, Took(f, node, end), end, path);
      } else if f.OpenArray? {
        ArrayTakes(bytes, f, at, node);
        StepsDescribe(bytes, Took(f, node, end), end, path);
      }
    }
  }
}
