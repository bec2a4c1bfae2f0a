/** Where the items of a finished tree end: at every node, where the decoder's own
    header reader has a well-formed item end, and where the header-level skip
    stops. That reader is laxer than Appendix C of RFC 8949 in one thing, the
    two-byte simple values below 32; `Framing` says what that leaves. */
module Acceptance {
  import opened Wire
  import WF = WellFormed
  import opened Oddities
  import opened Decoder
  import opened PositionalTree

  // ---------------------------------------------------------------------
  // Decoded items are well-formed as the header reader has it
  // ---------------------------------------------------------------------

  lemma LeafIsWellFormed(bytes: seq<byte>, at: nat, node: Node)
    requires node.Token? && Describes(bytes, at, node)
    ensures WF.Item(bytes, at, false) == Some(NodeEnd(node))
  {
  }

  lemma {:induction false} ItemsFrom(bytes: seq<byte>, from: nat, items: seq<Node>, k: nat, to: nat)
    requires from <= |bytes| && k <= |items| && Tile(bytes, from, items, to)
    ensures var here := Edge(from, items, k);
            && here <= |bytes|
            && WF.Items(bytes, here, |items| - k, false) == Some(to)
            && (WF.IsBreak(bytes, to) ==> WF.ItemsToBreak(bytes, here, false) == Some(to + 1))
    decreases items, |items| - k
  {
    hide Describes, PullHead, WF.Item;
    var here := Edge(from, items, k);
    if k > 0 {
      DescribedSpan(bytes, Edge(from, items, k - 1), items[k - 1]);
    }
    if k < |items| {
      DescribedSpan(bytes, here, items[k]);
      DescribedIsWellFormed(bytes, here, items[k]);
      ItemsFrom(bytes, from, items, k + 1, to);
      WellFormedIsNoBreak(bytes, here);
    }
  }

  lemma WellFormedIsNoBreak(bytes: seq<byte>, at: nat)
    requires WF.Item(bytes, at, false).Some?
    ensures !WF.IsBreak(bytes, at)
  {
  }

  lemma {:induction false} PairsFrom(bytes: seq<byte>, from: nat, pairs: seq<Entry>, k: nat, to: nat)
    requires from <= |bytes| && k <= |pairs| && TilePairs(bytes, from, pairs, to)
    ensures var here := EntryEdge(from, pairs, k);
            && here <= |bytes|
            && WF.Items(bytes, here, 2 * (|pairs| - k), false) == Some(to)
            && (WF.IsBreak(bytes, to) ==> WF.PairsToBreak(bytes, here, false) == Some(to + 1))
    decreases pairs, |pairs| - k
  {
    hide Describes, PullHead, WF.Item, WF.Items, WF.PairsToBreak;
    var here := EntryEdge(from, pairs, k);
    if k > 0 {
      PairEnds(bytes, EntryEdge(from, pairs, k - 1), pairs[k - 1]);
    }
    if k < |pairs| {
      PairEnds(bytes, here, pairs[k]);
      PairIsWellFormed(bytes, here, pairs[k]);
      PairsFrom(bytes, from, pairs, k + 1, to);
      TwoItems(bytes, here, 2 * (|pairs| - k));
    } else {
      NoneLeft(bytes, here);
    }
  }

  lemma TwoItems(bytes: seq<byte>, at: nat, n: nat)
    requires n >= 2 && at <= |bytes| && WF.Item(bytes, at, false).Some?
    requires WF.Item(bytes, WF.Item(bytes, at, false).value, false).Some?
    ensures var mid := WF.Item(bytes, at, false).value;
            var end := WF.Item(bytes, mid, false).value;
            && WF.Items(bytes, at, n, false) == WF.Items(bytes, end, n - 2, false)
            && WF.PairsToBreak(bytes, at, false) == WF.PairsToBreak(bytes, end, false)
  {
    WellFormedIsNoBreak(bytes, at);
    hide WF.Item;
  }

  lemma NoneLeft(bytes: seq<byte>, at: nat)
    requires at <= |bytes|
    ensures WF.Items(bytes, at, 0, false) == Some(at)
    ensures WF.IsBreak(bytes, at) ==> WF.PairsToBreak(bytes, at, false) == Some(at + 1)
  {
  }

  lemma PairEnds(bytes: seq<byte>, at: nat, pair: Entry)
    requires DescribesPair(bytes, at, pair)
    ensures at < NodeEnd(pair.key) < NodeEnd(pair.value) <= |bytes|
  {
    hide Describes;
    DescribedSpan(bytes, at, pair.key);
    DescribedSpan(bytes, NodeEnd(pair.key), pair.value);
  }

  lemma {:induction false} PairIsWellFormed(bytes: seq<byte>, at: nat, pair: Entry)
    requires DescribesPair(bytes, at, pair)
    ensures WF.Item(bytes, at, false) == Some(NodeEnd(pair.key))
    ensures WF.Item(bytes, NodeEnd(pair.key), false) == Some(NodeEnd(pair.value))
    decreases pair, 0
  {
    hide Describes, WF.Item;
    DescribedIsWellFormed(bytes, at, pair.key);
    DescribedIsWellFormed(bytes, NodeEnd(pair.key), pair.value);
  }

  lemma {:induction false} ChunksFrom(bytes: seq<byte>, from: nat, text: bool, strings: seq<Node>, k: nat, to: nat)
    requires from <= |bytes| && k <= |strings| && TileChunks(bytes, from, text, strings, to) && WF.IsBreak(bytes, to)
    ensures var here := Edge(from, strings, k);
            && here <= |bytes|
            && WF.Chunks(bytes, here, if text then 3 else 2) == Some(to + 1)
    decreases |strings| - k
  {
    hide IsChunk, ReadHead, WF.IsBreak;
    var here := Edge(from, strings, k);
    if k > 0 {
      ChunkIsFramed(bytes, Edge(from, strings, k - 1), text, strings[k - 1]);
    }
    if k < |strings| {
      ChunkIsFramed(bytes, here, text, strings[k]);
      ChunksFrom(bytes, from, text, strings, k + 1, to);
    }
  }

  lemma ChunkIsFramed(bytes: seq<byte>, at: nat, text: bool, chunk: Node)
    requires IsChunk(bytes, at, text, chunk)
    ensures at < NodeEnd(chunk) <= |bytes| && !WF.IsBreak(bytes, at) && ReadHead(bytes, at).Some?
    ensures var h := ReadHead(bytes, at).value;
            h.major == (if text then 3 else 2) && h.argument.Some? && at + h.len + h.argument.value == NodeEnd(chunk)
  {
  }

  lemma {:induction false} DescribedIsWellFormed(bytes: seq<byte>, at: nat, node: Node)
    requires Describes(bytes, at, node)
    ensures WF.Item(bytes, at, false) == Some(NodeEnd(node))
    decreases node, 0
  {
    hide Tile, TilePairs, TileChunks, Leaf, HeadIsReadable, PullHead, MapOddities, KeySpans, TagOddities, ReadHead;
    hide WF.Items, WF.ItemsToBreak, WF.PairsToBreak, WF.Chunks;
    DescribedSpan(bytes, at, node);
    var h := PullHead(bytes, at).h;
    var from, end := at + h.len, NodeEnd(node);
    match node
    case Token(_, _, _, _) =>
      LeafIsWellFormed(bytes, at, node);
    case ChunkedNode(text, _, _, chunks, _, _) =>
      ChunksFrom(bytes, from, text, chunks[..|chunks| - 1], 0, end - 1);
    case ArrayNode(_, _, len, values, _, _) =>
      ItemsFrom(bytes, from, ItemsOf(len, values), 0, if len.Some? then end else end - 1);
    case MapNode(_, _, len, entries, _, _) =>
      PairsFrom(bytes, from, ItemsOf(len, entries), 0, if len.Some? then end else end - 1);
    case TagNode(_, _, _, inner, _, _) =>
      DescribedIsWellFormed(bytes, from, inner.value);
  }

  // ---------------------------------------------------------------------
  // Every node of a decoded tree ends where the header-level skip says
  // ---------------------------------------------------------------------

  /** `node` is `root` or an item somewhere below it, the chunks of a string
      included. */
  ghost predicate Inside(root: Node, node: Node)
    decreases root
  {
    || node == root
    || match root
       case Token(_, _, _, _) => false
       case ChunkedNode(_, _, _, chunks, _, _) => exists k | 0 <= k < |chunks| - 1 :: node == chunks[k]
       case ArrayNode(_, _, len, values, _, _) =>
         exists k | 0 <= k < |ItemsOf(len, values)| :: Inside(values[k], node)
       case MapNode(_, _, len, entries, _, _) =>
         exists k | 0 <= k < |ItemsOf(len, entries)| :: InsidePair(entries[k], node)
       case TagNode(_, _, _, inner, _, _) => inner.Some? && Inside(inner.value, node)
  }

  ghost predicate InsidePair(e: Entry, node: Node)
    decreases e
  {
    e.Pair? && (Inside(e.key, node) || Inside(e.value, node))
  }

  lemma ArrayItem(bytes: seq<byte>, at: nat, node: Node, k: nat)
    requires node.ArrayNode? && Describes(bytes, at, node) && k < |ItemsOf(node.len, node.values)|
    ensures Describes(bytes, SpanOf(node.values[k]).offset, node.values[k])
  {
    hide PullHead;
    var items := ItemsOf(node.len, node.values);
    var from := at + PullHead(bytes, at).h.len;
    assert ValuesFill(bytes, from, node.len, node.values, NodeEnd(node));
    assert Tile(bytes, from, items, if node.len.Some? then NodeEnd(node) else NodeEnd(node) - 1);
    assert items[k] == node.values[k];
    DescribedSpan(bytes, Edge(from, items, k), items[k]);
  }

  lemma MapPair(bytes: seq<byte>, at: nat, node: Node, k: nat)
    requires node.MapNode? && Describes(bytes, at, node) && k < |ItemsOf(node.len, node.entries)|
    ensures node.entries[k].Pair? && DescribesPair(bytes, SpanOf(node.entries[k].key).offset, node.entries[k])
  {
    hide PullHead, MapOddities;
    var pairs := ItemsOf(node.len, node.entries);
    var from := at + PullHead(bytes, at).h.len;
    assert EntriesFill(bytes, from, node.len, node.entries, NodeEnd(node));
    assert TilePairs(bytes, from, pairs, if node.len.Some? then NodeEnd(node) else NodeEnd(node) - 1);
    var here := EntryEdge(from, pairs, k);
    DescribedSpan(bytes, here, pairs[k].key);
  }

  /** A chunk is a definite string, and as such an item. */
  lemma ChunkItem(bytes: seq<byte>, at: nat, node: Node, k: nat)
    requires node.ChunkedNode? && Describes(bytes, at, node) && k < |node.chunks| - 1
    ensures Describes(bytes, SpanOf(node.chunks[k]).offset, node.chunks[k])
  {
    hide PullHead, Chunk, IsChunk, Leaf, MapOddities, TagOddities, ValuesFill, EntriesFill;
    var strings := node.chunks[..|node.chunks| - 1];
    var from := at + PullHead(bytes, at).h.len;
    assert ChunksFill(bytes, from, node.text, node.chunks, NodeEnd(node));
    assert IsChunk(bytes, Edge(from, strings, k), node.text, strings[k]);
    ChunkDescribes(bytes, Edge(from, strings, k), node.text, strings[k]);
  }

  lemma ChunkDescribes(bytes: seq<byte>, at: nat, text: bool, chunk: Node)
    requires IsChunk(bytes, at, text, chunk)
    ensures SpanOf(chunk).offset == at && Describes(bytes, at, chunk)
  {
  }

  lemma {:induction false} InsideDescribes(bytes: seq<byte>, at: nat, root: Node, node: Node)
    requires Describes(bytes, at, root) && Inside(root, node)
    ensures Describes(bytes, SpanOf(node).offset, node)
    decreases root
  {
    hide PullHead, Leaf, TileChunks, ValuesFill, EntriesFill, MapOddities;
    if node != root {
      match root
      case ChunkedNode(_, _, _, chunks, _, _) =>
        var k :| 0 <= k < |chunks| - 1 && node == chunks[k];
        ChunkItem(bytes, at, root, k);
      case ArrayNode(_, _, len, values, _, _) =>
        var k :| 0 <= k < |ItemsOf(len, values)| && Inside(values[k], node);
        ArrayItem(bytes, at, root, k);
        InsideDescribes(bytes, SpanOf(values[k]).offset, values[k], node);
      case MapNode(_, _, len, entries, _, _) =>
        var k :| 0 <= k < |ItemsOf(len, entries)| && InsidePair(entries[k], node);
        MapPair(bytes, at, root, k);
        InsidePairDescribes(bytes, SpanOf(entries[k].key).offset, entries[k], node);
      case TagNode(_, _, _, inner, _, _) =>
        InsideDescribes(bytes, at + PullHead(bytes, at).h.len, inner.value, node);
    }
  }

  lemma {:induction false} InsidePairDescribes(bytes: seq<byte>, at: nat, e: Entry, node: Node)
    requires DescribesPair(bytes, at, e) && InsidePair(e, node)
    ensures Describes(bytes, SpanOf(node).offset, node)
    decreases e
  {
    if Inside(e.key, node) {
      InsideDescribes(bytes, at, e.key, node);
    } else {
      InsideDescribes(bytes, NodeEnd(e.key), e.value, node);
    }
  }

  /** Skipping from the start of any node of a decoded tree stops at its end. */
  lemma SkipAgreesEverywhere(bytes: seq<byte>, root: Node, node: Node)
    requires Document(bytes) == Whole(root) && Inside(root, node)
    ensures WF.Lax(bytes, SpanOf(node).offset) == Some(NodeEnd(node))
    ensures WF.Item(bytes, SpanOf(node).offset, false) == Some(NodeEnd(node))
  {
    hide Item, Describes, Inside, WF.Item, WF.Lax;
    ItemDescribes(bytes, 0, []);
    InsideDescribes(bytes, 0, root, node);
    DescribedIsWellFormed(bytes, SpanOf(node).offset, node);
    WF.WellFormedIsLax(bytes, SpanOf(node).offset, false);
  }
}
