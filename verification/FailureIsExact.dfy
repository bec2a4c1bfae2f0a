/** The decoder fails with exactly the errors and partial trees that are torn along
    the error's path and stay within the depth limit. */
module FailureIsExact {
  import opened Wire
  import opened Decoder
  import opened PositionalTree
  import opened TreeIsExact
  import opened PartialTree

  // ---------------------------------------------------------------------
  // A torn part that fits the bytes is what a failure returns
  // ---------------------------------------------------------------------

  lemma Behind(path: seq<PathSeg>, longer: seq<PathSeg>)
    requires path <= longer
    ensures longer[|path|..] == [] ==> longer == path
    ensures longer[|path|..] != [] ==>
              && path + [longer[|path|..][0]] <= longer
              && longer[|path + [longer[|path|..][0]]|..] == longer[|path|..][1..]
  {
  }

  lemma {:induction false} TornIsReturned(bytes: seq<byte>, at: nat, part: Option<Node>, path: seq<PathSeg>,
                                          e: DecodeError, stop: nat)
    requires at <= |bytes| && path <= e.path && PartWithin(part, |path|)
    requires Torn(bytes, at, part, e.path[|path|..], e, stop)
    ensures Item(bytes, at, path) == Fail(e, part, stop)
    decreases |e.path| - |path|, 2
  {
    hide Torn, Item, Within, FaultAt;
    if part.None? {
      FaultIsReturned(bytes, at, path, e, stop);
    } else {
      match part.value
      case Token(_, _, _, _) => assert false by { TokensStayWhole(bytes, at, part.value, e.path[|path|..], e, stop); }
      case ChunkedNode(_, _, _, _, _, _) => TornChunksReturned(bytes, at, part.value, path, e, stop);
      case ArrayNode(_, _, _, _, _, _) => TornArrayReturned(bytes, at, part.value, path, e, stop);
      case MapNode(_, _, _, _, _, _) => TornMapReturned(bytes, at, part.value, path, e, stop);
      case TagNode(_, _, _, _, _, _) => TornTagReturned(bytes, at, part.value, path, e, stop);
    }
  }

  lemma TokensStayWhole(bytes: seq<byte>, at: nat, part: Node, path: seq<PathSeg>, e: DecodeError, stop: nat)
    requires Torn(bytes, at, Some(part), path, e, stop)
    ensures !part.Token?
  {
  }

  lemma FaultIsReturned(bytes: seq<byte>, at: nat, path: seq<PathSeg>, e: DecodeError, stop: nat)
    requires at <= |bytes| && path <= e.path && Torn(bytes, at, None, e.path[|path|..], e, stop)
    ensures Item(bytes, at, path) == Fail(e, None, stop)
  {
    hide PullHead, Leaf;
    Behind(path, e.path);
  }

  lemma TornChunksReturned(bytes: seq<byte>, at: nat, part: Node, path: seq<PathSeg>, e: DecodeError, stop: nat)
    requires at <= |bytes| && path <= e.path && Within(part, |path|) && part.ChunkedNode?
    requires Torn(bytes, at, Some(part), e.path[|path|..], e, stop)
    ensures Item(bytes, at, path) == Fail(e, Some(part), stop)
  {
    hide PullHead, TileChunks, Chunks, Chunk, Leaf;
    Behind(path, e.path);
    Behind(path + [ChunkIdx(|part.chunks|)], e.path);
    var h := PullHead(bytes, at).h;
    ChunksFail(bytes, at, at + h.len, part.text, part.chunks, 0, e, path, stop);
  }

  lemma {:induction false} ChunksFail(bytes: seq<byte>, start: nat, headerEnd: nat, text: bool, strings: seq<Node>,
                                      k: nat, e: DecodeError, path: seq<PathSeg>, stop: nat)
    requires start < headerEnd <= |bytes| && k <= |strings| && TornChunks(bytes, headerEnd, text, strings, e, stop)
    requires e.path == path + [ChunkIdx(|strings|)]
    ensures var here := Edge(headerEnd, strings, k);
            && headerEnd <= here <= |bytes|
            && Chunks(bytes, start, headerEnd, text, strings[..k], here, path)
            == Fail(e, Some(ChunksSoFar(start, headerEnd, strings, text, stop)), stop)
    decreases |strings| - k
  {
    hide PullHead, Chunk, IsChunk, ChunksSoFar, Edge;
    var mid := Edge(headerEnd, strings, |strings|);
    EdgeOfChunks(bytes, headerEnd, text, strings, k, mid);
    var here := Edge(headerEnd, strings, k);
    if k < |strings| {
      ChunkDone(bytes, here, text, strings[k], path + [ChunkIdx(k)]);
      assert strings[..k] + [strings[k]] == strings[..k + 1];
      assert Edge(headerEnd, strings, k + 1) == NodeEnd(strings[k]) by { EdgeAfter(headerEnd, strings, k); }
      ChunksFail(bytes, start, headerEnd, text, strings, k + 1, e, path, stop);
    } else {
      assert strings[..k] == strings;
    }
  }

  lemma {:induction false} TornTagReturned(bytes: seq<byte>, at: nat, part: Node, path: seq<PathSeg>, e: DecodeError,
                                           stop: nat)
    requires at <= |bytes| && path <= e.path && Within(part, |path|) && part.TagNode?
    requires Torn(bytes, at, Some(part), e.path[|path|..], e, stop)
    ensures Item(bytes, at, path) == Fail(e, Some(part), stop)
    decreases |e.path| - |path|, 1
  {
    hide PullHead, Item, Steps, FaultAt;
    ItemIsSteps(bytes, at, path);
    Behind(path, e.path);
    var h := PullHead(bytes, at).h;
    TornIsReturned(bytes, at + h.len, part.inner, path + [TagInner], e, stop);
    TagFails(bytes, Opened(at, h), at + h.len, path, Fail(e, part.inner, stop));
  }

  lemma TagFails(bytes: seq<byte>, f: Open, at: nat, path: seq<PathSeg>, item: Outcome)
    requires at <= |bytes| && f.OpenTag? && Item(bytes, at, path + [TagInner]) == item && item.Fail?
    ensures Steps(bytes, f, at, path) == Fail(item.error, Some(Cut(f, item.part, item.stop, true)), item.stop)
  {
    hide Item, Cut;
  }

  /** Decoding an array comes to hold the complete items it starts with. */
  lemma ArrayArrives(bytes: seq<byte>, at: nat, len: Option<nat>, values: seq<Node>, mid: nat, path: seq<PathSeg>)
    requires |path| <= MAX_DEPTH && at <= |bytes| && PullHead(bytes, at).Pulled? && PullHead(bytes, at).h.major == 4
    requires PullHead(bytes, at).h.argument == len && (len.Some? ==> |values| <= len.value)
    requires Tile(bytes, at + PullHead(bytes, at).h.len, values, mid)
    requires forall k | 0 <= k < |values| :: Within(values[k], |path| + 1)
    ensures mid <= |bytes|
    ensures Item(bytes, at, path) == Steps(bytes, OpenArray(at, at + PullHead(bytes, at).h.len, len, values), mid, path)
  {
    hide PullHead, Item, Steps, Tile, Within;
    ItemIsSteps(bytes, at, path);
    ArrayReaches(bytes, Opened(at, PullHead(bytes, at).h), values, 0, mid, path);
  }

  lemma ItemsAreWithin(part: Node, level: nat)
    requires part.ArrayNode? && part.incomplete && Within(part, level)
    ensures level <= MAX_DEPTH && forall k | 0 <= k < |part.values| :: Within(part.values[k], level + 1)
  {
  }

  lemma {:induction false} TornArrayReturned(bytes: seq<byte>, at: nat, part: Node, path: seq<PathSeg>, e: DecodeError,
                                             stop: nat)
    requires at <= |bytes| && path <= e.path && Within(part, |path|) && part.ArrayNode?
    requires Torn(bytes, at, Some(part), e.path[|path|..], e, stop)
    ensures Item(bytes, at, path) == Fail(e, Some(part), stop)
    decreases |e.path| - |path|, 1
  {
    hide PullHead, Item, Steps, FaultAt, Tile, Within;
    Behind(path, e.path);
    ItemsAreWithin(part, |path|);
    if e.path[|path|..] == [] {
      ArrayArrives(bytes, at, part.len, part.values, stop, path);
      ArrayEndsOpen(bytes, OpenArray(at, at + PullHead(bytes, at).h.len, part.len, part.values), path);
    } else {
      var i := e.path[|path|].i;
      assert path + [ArrayIdx(i)] <= e.path;
      ArrayTornInside(bytes, at, part, i, path, e, stop);
    }
  }

  lemma {:induction false} ArrayTornInside(bytes: seq<byte>, at: nat, part: Node, i: nat, path: seq<PathSeg>,
                                           e: DecodeError, stop: nat)
    requires at <= |bytes| && PullHead(bytes, at).Pulled? && PullHead(bytes, at).h.major == 4 && |path| <= MAX_DEPTH
    requires part.ArrayNode? && PullHead(bytes, at).h.argument == part.len
             && CutAt(part, at, PullHead(bytes, at).h.len, stop)
    requires i <= |part.values| <= i + 1 && path + [ArrayIdx(i)] <= e.path
    requires forall k | 0 <= k < |part.values| :: Within(part.values[k], |path| + 1)
    requires var from := at + PullHead(bytes, at).h.len;
             var here := Edge(from, part.values, i);
             && MoreDue(bytes, part.len, i, here) && Tile(bytes, from, part.values[..i], here) && from <= stop
             && Torn(bytes, here, if |part.values| == i then None else Some(part.values[i]),
                     e.path[|path| + 1..], e, stop)
    ensures Item(bytes, at, path) == Fail(e, Some(part), stop)
    decreases |e.path| - |path|, 0
  {
    hide PullHead, Item, Steps, Torn, Tile, Within;
    var from, values := at + PullHead(bytes, at).h.len, part.values;
    var here := Edge(from, values, i);
    var torn := if |values| == i then None else Some(values[i]);
    ArrayArrives(bytes, at, part.len, values[..i], here, path);
    TornIsReturned(bytes, here, torn, path + [ArrayIdx(i)], e, stop);
    ArrayFails(bytes, OpenArray(at, from, part.len, values[..i]), here, path, Fail(e, torn, stop));
    assert values == if torn.Some? then values[..i] + [torn.value] else values[..i];
  }

  lemma ArrayEndsOpen(bytes: seq<byte>, f: Open, path: seq<PathSeg>)
    requires f.OpenArray? && f.len.None?
    ensures Steps(bytes, f, |bytes|, path)
         == Fail(DecodeError(UnexpectedEof, |bytes|, None, path), Some(Cut(f, None, |bytes|, false)), |bytes|)
  {
  }

  lemma ArrayFails(bytes: seq<byte>, f: Open, at: nat, path: seq<PathSeg>, item: Outcome)
    requires at <= |bytes| && f.OpenArray? && MoreDue(bytes, f.len, |f.values|, at)
    requires Item(bytes, at, path + [ArrayIdx(|f.values|)]) == item && item.Fail?
    ensures Steps(bytes, f, at, path) == Fail(item.error, Some(Cut(f, item.part, item.stop, true)), item.stop)
  {
    hide Item, Cut;
  }

  /** Decoding a map comes to hold the complete pairs it starts with. */
  lemma MapArrives(bytes: seq<byte>, at: nat, len: Option<nat>, pairs: seq<Entry>, mid: nat, path: seq<PathSeg>)
    returns (f: Open)
    requires |path| <= MAX_DEPTH && at <= |bytes| && PullHead(bytes, at).Pulled? && PullHead(bytes, at).h.major == 5
    requires PullHead(bytes, at).h.argument == len && (len.Some? ==> |pairs| <= len.value)
    requires TilePairs(bytes, at + PullHead(bytes, at).h.len, pairs, mid)
    requires forall k | 0 <= k < |pairs| :: EntryWithin(pairs[k], |path| + 1)
    ensures mid <= |bytes| && f.OpenMap? && f.key.None? && f.entries == pairs && f.len == len
    ensures f.start == at && f.headerEnd == at + PullHead(bytes, at).h.len
    ensures Item(bytes, at, path) == Steps(bytes, f, mid, path)
  {
    hide PullHead, Item, Steps, TilePairs, EntryWithin, KeySpans;
    ItemIsSteps(bytes, at, path);
    NoPairs();
    var from := at + PullHead(bytes, at).h.len;
    PairsEnd(bytes, from, pairs, mid);
    assert MapHolding(at, from, len, pairs, 0) == Opened(at, PullHead(bytes, at).h);
    MapReaches(bytes, at, from, len, pairs, 0, mid, path);
    assert pairs[..|pairs|] == pairs;
    f := MapHolding(at, from, len, pairs, |pairs|);
  }

  lemma EntriesAreWithin(part: Node, level: nat)
    requires part.MapNode? && part.incomplete && Within(part, level)
    ensures level <= MAX_DEPTH && forall k | 0 <= k < |part.entries| :: EntryWithin(part.entries[k], level + 1)
  {
  }

  lemma {:induction false} TornMapReturned(bytes: seq<byte>, at: nat, part: Node, path: seq<PathSeg>, e: DecodeError,
                                           stop: nat)
    requires at <= |bytes| && path <= e.path && Within(part, |path|) && part.MapNode?
    requires Torn(bytes, at, Some(part), e.path[|path|..], e, stop)
    ensures Item(bytes, at, path) == Fail(e, Some(part), stop)
    decreases |e.path| - |path|, 1
  {
    hide PullHead, Item, Steps, FaultAt, TilePairs, TornEntry, Within, EntryWithin;
    Behind(path, e.path);
    EntriesAreWithin(part, |path|);
    var entries, rest := part.entries, e.path[|path|..];
    if rest == [] {
      var f := MapArrives(bytes, at, part.len, entries, stop, path);
      MapEndsOpen(bytes, f, path);
    } else {
      var i, side := rest[0].i, rest[0].side;
      var here := EntryEdge(at + PullHead(bytes, at).h.len, entries[..i], i);
      var f := MapArrives(bytes, at, part.len, entries[..i], here, path);
      assert entries == entries[..i] + [entries[i]];
      assert rest[0] == MapEntry(i, side) && e.path[|path| + 1..] == rest[1..];
      TornEntryReturned(bytes, f, here, entries[i], side, path, e, stop);
    }
  }

  lemma MapEndsOpen(bytes: seq<byte>, f: Open, path: seq<PathSeg>)
    requires f.OpenMap? && f.key.None? && f.len.None?
    ensures Steps(bytes, f, |bytes|, path)
         == Fail(DecodeError(UnexpectedEof, |bytes|, None, path), Some(Cut(f, None, |bytes|, false)), |bytes|)
  {
  }

  /** A map between two entries fails in its next one, on the side that is torn. */
  lemma {:induction false} TornEntryReturned(bytes: seq<byte>, f: Open, at: nat, entry: Entry, side: Side,
                                             path: seq<PathSeg>, e: DecodeError, stop: nat)
    requires at <= |bytes| && f.OpenMap? && f.key.None? && MoreDue(bytes, f.len, |f.entries|, at)
    requires path + [MapEntry(|f.entries|, side)] <= e.path && EntryWithin(entry, |path| + 1)
    requires TornEntry(bytes, at, entry, side, e.path[|path| + 1..], e, stop)
    ensures Steps(bytes, f, at, path)
         == Fail(e, Some(MapNode(Span(f.start, f.headerEnd), Span(f.start, stop), f.len, f.entries + [entry],
                                 true, [])), stop)
    decreases |e.path| - |path|, 0
  {
    hide PullHead, Item, Steps, Torn, Describes, Within;
    var k := |f.entries|;
    match side
    case KeySide =>
      TornIsReturned(bytes, at, entry.begunKey, path + [MapEntry(k, KeySide)], e, stop);
      KeyFails(bytes, f, at, path, Fail(e, entry.begunKey, stop));
    case ValueSide =>
      var key := entry.begunKey.value;
      NoBreakAhead(bytes, at, key);
      DescribedIsDecoded(bytes, at, key, path + [MapEntry(k, KeySide)]);
      TornIsReturned(bytes, NodeEnd(key), entry.begunValue, path + [MapEntry(k, ValueSide)], e, stop);
      ValueFails(bytes, f, at, path, key, Fail(e, entry.begunValue, stop));
  }

  lemma KeyFails(bytes: seq<byte>, f: Open, at: nat, path: seq<PathSeg>, item: Outcome)
    requires at <= |bytes| && f.OpenMap? && f.key.None? && MoreDue(bytes, f.len, |f.entries|, at)
    requires Item(bytes, at, path + [MapEntry(|f.entries|, KeySide)]) == item && item.Fail?
    ensures Steps(bytes, f, at, path) == Fail(item.error, Some(Cut(f, item.part, item.stop, true)), item.stop)
  {
    hide Item;
  }

  lemma ValueFails(bytes: seq<byte>, f: Open, at: nat, path: seq<PathSeg>, key: Node, item: Outcome)
    requires at <= |bytes| && f.OpenMap? && f.key.None? && MoreDue(bytes, f.len, |f.entries|, at)
    requires Item(bytes, at, path + [MapEntry(|f.entries|, KeySide)]) == Done(key, NodeEnd(key))
             && NodeEnd(key) <= |bytes|
    requires Item(bytes, NodeEnd(key), path + [MapEntry(|f.entries|, ValueSide)]) == item && item.Fail?
    ensures var g := f.(keyStart := at, key := Some((key, NodeEnd(key))));
            Steps(bytes, f, at, path) == Fail(item.error, Some(Cut(g, item.part, item.stop, true)), item.stop)
  {
    hide Item, Cut;
    var taking := f.(keyStart := at);
    assert Advance(bytes, f, at) == Next(taking, MapEntry(|f.entries|, KeySide));
    var waiting := taking.(key := Some((key, NodeEnd(key))));
    assert Takes(bytes, taking, Done(key, NodeEnd(key)), path) == Takes(bytes, waiting, item, path);
  }

  // ---------------------------------------------------------------------
  // Both directions
  // ---------------------------------------------------------------------

  /** Decoding at `at` fails with `e`, having decoded `part` and reached `stop`,
      exactly when the part is torn there along the rest of the error's path and
      no item of it lies too deep. */
  lemma FailedExactly(bytes: seq<byte>, at: nat, path: seq<PathSeg>, e: DecodeError, part: Option<Node>, stop: nat)
    requires at <= |bytes|
    ensures Item(bytes, at, path) == Fail(e, part, stop)
       <==> path <= e.path && Torn(bytes, at, part, e.path[|path|..], e, stop) && PartWithin(part, |path|)
  {
    hide Item, Torn, Within;
    if Item(bytes, at, path) == Fail(e, part, stop) {
      ItemIsTorn(bytes, at, path);
      ItemIsWithin(bytes, at, path);
    }
    if path <= e.path && Torn(bytes, at, part, e.path[|path|..], e, stop) && PartWithin(part, |path|) {
      TornIsReturned(bytes, at, part, path, e, stop);
    }
  }

  /** The finished first item of a document that has bytes left over. */
  ghost predicate LeftOver(bytes: seq<byte>, e: DecodeError, part: Option<Node>) {
    && part.Some? && Describes(bytes, 0, part.value) && Within(part.value, 0)
    && var end := NodeEnd(part.value);
    && end < |bytes| && e == DecodeError(TrailingData, end, Some((end, |bytes| - end)), [])
  }

  /** A document fails with exactly a torn tree along the error's path, or with the
      finished tree of its first item and the span of the bytes left over. */
  lemma FailedDocumentExactly(bytes: seq<byte>, e: DecodeError, part: Option<Node>)
    ensures Document(bytes) == Failed(e, part)
       <==> if e.kind == TrailingData then LeftOver(bytes, e, part)
            else PartWithin(part, 0) && exists stop :: Torn(bytes, 0, part, e.path, e, stop)
  {
    hide Item, Torn, Within, Describes;
    var o := Item(bytes, 0, []);
    if o.Done? {
      DecodedExactly(bytes, 0, [], o.node, o.end);
    } else {
      FailedExactly(bytes, 0, [], o.error, o.part, o.stop);
      assert o.error.path[0..] == o.error.path;
      TornIsNotTrailing(bytes, 0, o.part, o.error.path, o.error, o.stop);
    }
    if LeftOver(bytes, e, part) {
      DecodedExactly(bytes, 0, [], part.value, NodeEnd(part.value));
    }
    if stop :| PartWithin(part, 0) && Torn(bytes, 0, part, e.path, e, stop) {
      assert e.path[0..] == e.path;
      FailedExactly(bytes, 0, [], e, part, stop);
    }
  }
}
