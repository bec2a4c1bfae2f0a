/** What a failed decode leaves behind: the containers along the error path, each
    cut at the same offset, around the items completed before it. */
module PartialTree {
  import opened Wire
  import opened Decoder
  import opened PositionalTree

  /** The error `e` is the fault of the item at `at` itself: it lies too deep, its
      header cannot be pulled, or it is a token that cannot be shown. */
  ghost predicate FaultAt(bytes: seq<byte>, at: nat, e: DecodeError, stop: nat) {
    && at <= |bytes|
    && if |e.path| > MAX_DEPTH then e == DecodeError(NestingTooDeep, at, Some((at, 1)), e.path) && stop == at
       else
         match PullHead(bytes, at)
         case Refused(kind, offset, reached) => e == DecodeError(kind, offset, None, e.path) && stop == reached
         case Pulled(h) => IsLeaf(h) && Leaf(bytes, at, h, e.path) == Fail(e, None, stop)
  }

  /** The input ended where an indefinite-length container expected an item or its
      break. */
  ghost predicate EndsOpen(bytes: seq<byte>, len: Option<nat>, e: DecodeError, stop: nat) {
    len.None? && e == DecodeError(UnexpectedEof, |bytes|, None, e.path) && stop == |bytes|
  }

  /** A container cut at `stop`: incomplete, spanning from its header at `at` to
      there, and with no oddities of its own. */
  predicate CutAt(node: Node, at: nat, len: nat, stop: nat) {
    !node.Token? && node.incomplete && node.oddities == [] && node.header == Pos(at, len)
      && node.whole == Span(at, stop)
  }

  /** `part` is the item at `at` as far as it was decoded when `e` stopped it at
      `stop`; `path` leads from it to the fault. Along the path every container
      is cut at `stop` and holds, before the item the path names, that many
      complete items side by side; nothing stands off the path but them. */
  ghost predicate Torn(bytes: seq<byte>, at: nat, part: Option<Node>, path: seq<PathSeg>, e: DecodeError, stop: nat)
    decreases |path|, 0
  {
    if part.None? then path == [] && FaultAt(bytes, at, e, stop)
    else
      && at <= |bytes| && PullHead(bytes, at).Pulled?
      && var h := PullHead(bytes, at).h;
      var from := at + h.len;
      && CutAt(part.value, at, h.len, stop) && from <= stop <= |bytes|
      && match part.value
         case ChunkedNode(text, _, _, chunks, _, _) =>
           && h.major == (if text then 3 else 2) && h.argument.None? && path == [ChunkIdx(|chunks|)]
           && TornChunks(bytes, from, text, chunks, e, stop)
         case ArrayNode(_, _, len, values, _, _) =>
           && h.major == 4 && h.argument == len
           && if path == [] then EndsOpen(bytes, len, e, stop) && Tile(bytes, from, values, stop)
              else
                && path[0].ArrayIdx?
                && var i := path[0].i;
                && i <= |values| <= i + 1 && MoreDue(bytes, len, i, Edge(from, values, i))
                && Tile(bytes, from, values[..i], Edge(from, values, i))
                && Torn(bytes, Edge(from, values, i), if |values| == i then None else Some(values[i]),
                        path[1..], e, stop)
         case MapNode(_, _, len, entries, _, _) =>
           && h.major == 5 && h.argument == len
           && if path == [] then EndsOpen(bytes, len, e, stop) && TilePairs(bytes, from, entries, stop)
              else
                && path[0].MapEntry? && |entries| == path[0].i + 1
                && var i := path[0].i;
                && (forall k | 0 <= k < i :: entries[k].Pair?)
                && var here := EntryEdge(from, entries[..i], i);
                && TilePairs(bytes, from, entries[..i], here) && MoreDue(bytes, len, i, here)
                && TornEntry(bytes, here, entries[i], path[0].side, path[1..], e, stop)
         case TagNode(_, _, tag, inner, _, _) =>
           && h.major == 6 && h.argument == Some(tag) && path != [] && path[0] == TagInner
           && Torn(bytes, from, inner, path[1..], e, stop)
         case Token(_, _, _, _) => false
  }

  /** The one incomplete entry of a map, marked on the side that failed. */
  ghost predicate TornEntry(bytes: seq<byte>, at: nat, entry: Entry, side: Side, path: seq<PathSeg>, e: DecodeError,
                            stop: nat)
    decreases |path|, 1
  {
    && entry.PartialEntry? && entry.failing == side
    && match side
       case KeySide => entry.begunValue.None? && Torn(bytes, at, entry.begunKey, path, e, stop)
       case ValueSide =>
         && entry.begunKey.Some? && Describes(bytes, at, entry.begunKey.value)
         && Torn(bytes, NodeEnd(entry.begunKey.value), entry.begunValue, path, e, stop)
  }

  ghost predicate TornChunks(bytes: seq<byte>, from: nat, text: bool, chunks: seq<Node>, e: DecodeError, stop: nat) {
    var here := Edge(from, chunks, |chunks|);
    && here <= |bytes| && TileChunks(bytes, from, text, chunks, here)
    && Chunk(bytes, here, text, e.path) == Fail(e, None, stop)
  }

  // ---------------------------------------------------------------------
  // Every failure leaves such a part
  // ---------------------------------------------------------------------

  /** The outcome of the item at `at`, named by `path`. */
  ghost predicate OutcomeFits(bytes: seq<byte>, at: nat, o: Outcome, path: seq<PathSeg>) {
    o.Fail? ==>
      && at <= o.stop <= |bytes| && path <= o.error.path
      && Torn(bytes, at, o.part, o.error.path[|path|..], o.error, o.stop)
  }

  lemma SamePath(path: seq<PathSeg>)
    ensures path[|path|..] == []
  {
  }

  lemma OneSegment(path: seq<PathSeg>, seg: PathSeg, longer: seq<PathSeg>)
    requires path + [seg] <= longer
    ensures path <= longer && longer[|path|..] != [] && longer[|path|..][0] == seg
    ensures longer[|path|..][1..] == longer[|path + [seg]|..]
  {
  }

  lemma LeafErrorPath(bytes: seq<byte>, at: nat, h: Head, path: seq<PathSeg>)
    requires at + h.len <= |bytes| && h.len >= 1 && IsLeaf(h) && Leaf(bytes, at, h, path).Fail?
    ensures Leaf(bytes, at, h, path).error.path == path
  {
  }

  lemma {:induction false} FaultIsTorn(bytes: seq<byte>, at: nat, path: seq<PathSeg>)
    requires at <= |bytes|
    requires |path| > MAX_DEPTH || PullHead(bytes, at).Refused? || IsLeaf(PullHead(bytes, at).h)
    ensures OutcomeFits(bytes, at, Item(bytes, at, path), path)
  {
    hide PullHead, Leaf;
    SamePath(path);
    if |path| <= MAX_DEPTH && PullHead(bytes, at).Pulled? && Item(bytes, at, path).Fail? {
      var h := PullHead(bytes, at).h;
      assert Item(bytes, at, path) == Content(bytes, at, h, path);
      LeafErrorPath(bytes, at, h, path);
    }
  }

  lemma {:induction false} ChunksAreTorn(bytes: seq<byte>, start: nat, h: Head, chunks: seq<Node>, at: nat,
                                         path: seq<PathSeg>)
    requires start <= |bytes| && PullHead(bytes, start) == Pulled(h) && h.major in {2, 3} && h.argument.None?
    requires start + h.len <= at <= |bytes| && TileChunks(bytes, start + h.len, h.major == 3, chunks, at)
    ensures OutcomeFits(bytes, start, Chunks(bytes, start, start + h.len, h.major == 3, chunks, at, path), path)
    decreases |bytes| - at
  {
    hide PullHead, Chunk, TileChunks, IsChunk, Torn;
    var text := h.major == 3;
    var seg := ChunkIdx(|chunks|);
    ChunkPathFree(bytes, at, text, path + [seg]);
    var o := Chunk(bytes, at, text, path + [seg]);
    if o.Fail? {
      ChunkIsTorn(bytes, start, h, chunks, at, path);
    } else if o.node != BreakToken(at) {
      ChunkGrows(bytes, start + h.len, text, chunks, at, o.node);
      ChunksAreTorn(bytes, start, h, chunks + [o.node], o.end, path);
    }
  }

  lemma ChunkErrorPath(bytes: seq<byte>, at: nat, text: bool, path: seq<PathSeg>)
    requires at <= |bytes| && Chunk(bytes, at, text, path).Fail?
    ensures Chunk(bytes, at, text, path).error.path == path
  {
  }

  lemma ChunkIsTorn(bytes: seq<byte>, start: nat, h: Head, chunks: seq<Node>, at: nat, path: seq<PathSeg>)
    requires start <= |bytes| && PullHead(bytes, start) == Pulled(h) && h.major in {2, 3} && h.argument.None?
    requires start + h.len <= at <= |bytes| && TileChunks(bytes, start + h.len, h.major == 3, chunks, at)
    requires Chunk(bytes, at, h.major == 3, path + [ChunkIdx(|chunks|)]).Fail?
    ensures OutcomeFits(bytes, start, Chunks(bytes, start, start + h.len, h.major == 3, chunks, at, path), path)
  {
    hide PullHead, Chunk, IsChunk;
    ChunkErrorPath(bytes, at, h.major == 3, path + [ChunkIdx(|chunks|)]);
    assert (path + [ChunkIdx(|chunks|)])[|path|..] == [ChunkIdx(|chunks|)];
  }

  /** The path segment of the item a container is taking. */
  function Segment(f: Open): (seg: PathSeg) {
    match f
    case OpenArray(_, _, _, values) => ArrayIdx(|values|)
    case OpenMap(_, _, _, entries, _, _, key) => MapEntry(|entries|, if key.Some? then ValueSide else KeySide)
    case OpenTag(_, _, _) => TagInner
  }

  lemma {:induction false} CutIsTorn(bytes: seq<byte>, f: Open, at: nat, o: Outcome, path: seq<PathSeg>)
    requires FrameFits(bytes, f, at) && Taking(bytes, f, at)
    requires o.Fail? && OutcomeFits(bytes, at, o, path + [Segment(f)])
    ensures OutcomeFits(bytes, f.start, Fail(o.error, Some(Cut(f, o.part, o.stop, true)), o.stop), path)
  {
    hide PullHead, Torn, Tile, TilePairs;
    OneSegment(path, Segment(f), o.error.path);
    match f
    case OpenArray(_, _, _, _) => CutArray(bytes, f, at, o, o.error.path[|path|..]);
    case OpenMap(_, _, _, _, _, _, _) => CutMap(bytes, f, at, o, o.error.path[|path|..]);
    case OpenTag(_, _, _) => CutTag(bytes, f, at, o, o.error.path[|path|..]);
  }

  lemma CutArray(bytes: seq<byte>, f: Open, at: nat, o: Outcome, path: seq<PathSeg>)
    requires f.OpenArray? && FrameFits(bytes, f, at) && Taking(bytes, f, at)
    requires o.Fail? && at <= o.stop <= |bytes| && path != [] && path[0] == Segment(f)
    requires Torn(bytes, at, o.part, path[1..], o.error, o.stop)
    ensures Torn(bytes, f.start, Some(Cut(f, o.part, o.stop, true)), path, o.error, o.stop)
  {
    hide PullHead, Describes, FaultAt, Tile, TilePairs, TornEntry, TornChunks;
    var values := f.values;
    var all := if o.part.Some? then values + [o.part.value] else values;
    assert all[..|values|] == values;
    assert Edge(f.headerEnd, all, |values|) == Edge(f.headerEnd, values, |values|);
    assert at == Edge(f.headerEnd, values, |values|) by { TileEnds(bytes, f.headerEnd, values, at); }
  }

  lemma TileEnds(bytes: seq<byte>, from: nat, values: seq<Node>, to: nat)
    requires Tile(bytes, from, values, to)
    ensures to == Edge(from, values, |values|)
  {
  }

  lemma PairsEnd(bytes: seq<byte>, from: nat, entries: seq<Entry>, to: nat)
    requires TilePairs(bytes, from, entries, to)
    ensures (forall k | 0 <= k < |entries| :: entries[k].Pair?) && to == EntryEdge(from, entries, |entries|)
  {
    hide Describes;
  }

  lemma CutMap(bytes: seq<byte>, f: Open, at: nat, o: Outcome, path: seq<PathSeg>)
    requires f.OpenMap? && FrameFits(bytes, f, at) && Taking(bytes, f, at)
    requires o.Fail? && at <= o.stop <= |bytes| && path != [] && path[0] == Segment(f)
    requires Torn(bytes, at, o.part, path[1..], o.error, o.stop)
    ensures Torn(bytes, f.start, Some(Cut(f, o.part, o.stop, true)), path, o.error, o.stop)
  {
    hide PullHead, Describes, FaultAt, TilePairs, KeySpans;
    var key := f.key;
    var here := if key.Some? then f.keyStart else at;
    PairsEnd(bytes, f.headerEnd, f.entries, here);
    var entry := if key.Some? then PartialEntry(Some(key.value.0), o.part, ValueSide)
      else PartialEntry(o.part, None, KeySide);
    var all := f.entries + [entry];
    assert all[..|f.entries|] == f.entries && all[|f.entries|] == entry;
    assert TornEntry(bytes, here, entry, Segment(f).side, path[1..], o.error, o.stop);
  }

  lemma CutTag(bytes: seq<byte>, f: Open, at: nat, o: Outcome, path: seq<PathSeg>)
    requires f.OpenTag? && FrameFits(bytes, f, at)
    requires o.Fail? && at <= o.stop <= |bytes| && path != [] && path[0] == Segment(f)
    requires Torn(bytes, at, o.part, path[1..], o.error, o.stop)
    ensures Torn(bytes, f.start, Some(Cut(f, o.part, o.stop, true)), path, o.error, o.stop)
  {
    hide PullHead, Describes, FaultAt;
  }

  lemma EndIsTorn(bytes: seq<byte>, f: Open, at: nat, path: seq<PathSeg>)
    requires FrameFits(bytes, f, at) && (f.OpenMap? ==> f.key.None?) && Advance(bytes, f, at).Short?
    ensures OutcomeFits(bytes, f.start, Steps(bytes, f, at, path), path)
  {
    hide PullHead, Describes, FaultAt, KeySpans;
    SamePath(path);
  }

  lemma {:induction false} ItemIsTorn(bytes: seq<byte>, at: nat, path: seq<PathSeg>)
    requires at <= |bytes|
    ensures OutcomeFits(bytes, at, Item(bytes, at, path), path)
    decreases 1 + |bytes| - at, 0
  {
    hide Leaf, Steps, Torn, Chunks, ReadHead;
    if |path| > MAX_DEPTH || PullHead(bytes, at).Refused? || IsLeaf(PullHead(bytes, at).h) {
      FaultIsTorn(bytes, at, path);
    } else {
      var h := PullHead(bytes, at).h;
      if h.major in {2, 3} {
        assert TileChunks(bytes, at + h.len, h.major == 3, [], at + h.len);
        ChunksAreTorn(bytes, at, h, [], at + h.len, path);
      } else {
        OpenedFits(bytes, at, h);
        StepsAreTorn(bytes, Opened(at, h), at + h.len, path);
      }
    }
  }

  lemma {:induction false} StepsAreTorn(bytes: seq<byte>, f: Open, at: nat, path: seq<PathSeg>)
    requires FrameFits(bytes, f, at) && (f.OpenMap? ==> f.key.None?)
    ensures OutcomeFits(bytes, f.start, Steps(bytes, f, at, path), path)
    decreases 1 + |bytes| - at, 1
  {
    hide Torn, Item, Takes, Describes, PullHead;
    match Advance(bytes, f, at)
    case Short => EndIsTorn(bytes, f, at, path);
    case Closed(_, _) =>
    case Next(g, seg) =>
      ItemIsTorn(bytes, at, path + [seg]);
      ItemDescribes(bytes, at, path + [seg]);
      TakesAreTorn(bytes, g, at, Item(bytes, at, path + [seg]), path);
  }

  lemma {:induction false} TakesAreTorn(bytes: seq<byte>, f: Open, at: nat, item: Outcome, path: seq<PathSeg>)
    requires FrameFits(bytes, f, at) && Taking(bytes, f, at) && ItemFits(bytes, at, item)
    requires OutcomeFits(bytes, at, item, path + [Segment(f)])
    ensures OutcomeFits(bytes, f.start, Takes(bytes, f, item, path), path)
    decreases if item.Done? then 1 + |bytes| - item.end else 0, 2
  {
    hide Torn, Item, Steps, Describes, PullHead;
    if item.Fail? {
      CutIsTorn(bytes, f, at, item, path);
    } else {
      var node, end := item.node, item.end;
      if f.OpenMap? && f.key.None? {
        var next := path + [MapEntry(|f.entries|, ValueSide)];
        ItemIsTorn(bytes, end, next);
        ItemDescribes(bytes, end, next);
        TakesAreTorn(bytes, Took(f, node, end), end, Item(bytes, end, next), path);
      } else if f.OpenMap? {
        MapTakesValue(bytes, f, at, node);
        StepsAreTorn(bytes, Took(f, node, end), end, path);
      } else if f.OpenArray? {
        ArrayTakes(bytes, f, at, node);
        StepsAreTorn(bytes, Took(f, node, end), end, path);
      }
    }
  }

  /** The fault a torn part leads to is never that of bytes left over. */
  lemma {:induction false} TornIsNotTrailing(bytes: seq<byte>, at: nat, part: Option<Node>, path: seq<PathSeg>,
                                             e: DecodeError, stop: nat)
    requires Torn(bytes, at, part, path, e, stop)
    ensures e.kind != TrailingData
    decreases |path|, 0
  {
    hide Tile, TilePairs, Describes, PullHead, Leaf, Chunk, TileChunks;
    if part.None? {
      FaultKind(bytes, at, e, stop);
    } else if path != [] {
      var from := at + PullHead(bytes, at).h.len;
      match part.value
      case ArrayNode(_, _, _, values, _, _) =>
        var i := path[0].i;
        TornIsNotTrailing(bytes, Edge(from, values, i), if |values| == i then None else Some(values[i]),
                          path[1..], e, stop);
      case MapNode(_, _, _, entries, _, _) =>
        TornEntryIsNotTrailing(bytes, EntryEdge(from, entries[..path[0].i], path[0].i), entries[path[0].i],
                               path[0].side,
                               path[1..], e, stop);
      case TagNode(_, _, _, inner, _, _) =>
        TornIsNotTrailing(bytes, from, inner, path[1..], e, stop);
      case ChunkedNode(text, _, _, chunks, _, _) =>
        ChunkFaultKind(bytes, Edge(from, chunks, |chunks|), text, e.path);
    }
  }

  lemma {:induction false} TornEntryIsNotTrailing(bytes: seq<byte>, at: nat, entry: Entry, side: Side,
                                                  path: seq<PathSeg>, e: DecodeError, stop: nat)
    requires TornEntry(bytes, at, entry, side, path, e, stop)
    ensures e.kind != TrailingData
    decreases |path|, 1
  {
    hide Torn, Describes;
    match side
    case KeySide => TornIsNotTrailing(bytes, at, entry.begunKey, path, e, stop);
    case ValueSide => TornIsNotTrailing(bytes, NodeEnd(entry.begunKey.value), entry.begunValue, path, e, stop);
  }

  lemma FaultKind(bytes: seq<byte>, at: nat, e: DecodeError, stop: nat)
    requires FaultAt(bytes, at, e, stop)
    ensures e.kind != TrailingData
  {
  }

  lemma ChunkFaultKind(bytes: seq<byte>, at: nat, text: bool, path: seq<PathSeg>)
    requires at <= |bytes| && Chunk(bytes, at, text, path).Fail?
    ensures Chunk(bytes, at, text, path).error.kind != TrailingData
  {
  }
}
