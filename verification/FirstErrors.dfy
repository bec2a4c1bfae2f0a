/** The first error of a decode over its inputs: an input that ended too early is one
    that some continuation answers differently, any other answer is final, and each
    kind of error shows in the bytes at its offset. */
module FirstErrors {
  import opened Wire
  import opened Utf8
  import opened Oddities
  import opened Decoder
  import opened PositionalTree
  import opened TreeIsExact
  import opened PartialTree
  import opened FailureIsExact

  // ---------------------------------------------------------------------
  // Every answer but the end of the input is final
  // ---------------------------------------------------------------------

  predicate Final(o: Outcome) {
    o.Fail? ==> o.error.kind != UnexpectedEof
  }

  lemma SamePart(p: seq<byte>, q: seq<byte>, from: nat, to: nat)
    requires p <= q && from <= to <= |p|
    ensures p[from..to] == q[from..to]
  {
  }

  lemma PullIsFinal(p: seq<byte>, q: seq<byte>, at: nat)
    requires p <= q && at <= |p|
    ensures PullHead(p, at) == PullHead(q, at)
         || (PullHead(p, at).Refused? && PullHead(p, at).kind == UnexpectedEof)
  {
    hide BigEndian;
    if ReadHead(p, at).Some? {
      SamePart(p, q, at, at + ReadHead(p, at).value.len);
      HeadLocal(p, at, q, at);
    }
  }

  lemma StringIsFinal(p: seq<byte>, q: seq<byte>, start: nat, at: nat, len: nat, text: bool, path: seq<PathSeg>)
    requires p <= q && start <= at <= |p| && Final(StringItem(p, start, at, len, text, path))
    ensures StringItem(q, start, at, len, text, path) == StringItem(p, start, at, len, text, path)
  {
    hide ValidUtf8;
    if at + len <= |p| {
      SamePart(p, q, at, at + len);
    }
  }

  lemma LeafIsFinal(p: seq<byte>, q: seq<byte>, at: nat, h: Head, path: seq<PathSeg>)
    requires p <= q && at + h.len <= |p| && h.len >= 1 && IsLeaf(h) && Final(Leaf(p, at, h, path))
    ensures Leaf(q, at, h, path) == Leaf(p, at, h, path)
  {
    hide StringItem;
    if h.major in {2, 3} {
      StringIsFinal(p, q, at, at + h.len, h.argument.value, h.major == 3, path);
    }
  }

  lemma ChunkIsFinal(p: seq<byte>, q: seq<byte>, at: nat, text: bool, path: seq<PathSeg>)
    requires p <= q && at <= |p| && Final(Chunk(p, at, text, path))
    ensures Chunk(q, at, text, path) == Chunk(p, at, text, path)
  {
    hide PullHead, StringItem;
    PullIsFinal(p, q, at);
    if PullHead(p, at).Pulled? {
      var h := PullHead(p, at).h;
      if h.major == (if text then 3 else 2) && h.argument.Some? {
        StringIsFinal(p, q, at, at + h.len, h.argument.value, text, path);
      }
    }
  }

  lemma {:induction false} ChunksAreFinal(p: seq<byte>, q: seq<byte>, start: nat, headerEnd: nat, text: bool,
                                          chunks: seq<Node>, at: nat, path: seq<PathSeg>)
    requires p <= q && start < headerEnd <= at <= |p|
    requires Final(Chunks(p, start, headerEnd, text, chunks, at, path))
    ensures Chunks(q, start, headerEnd, text, chunks, at, path) == Chunks(p, start, headerEnd, text, chunks, at, path)
    decreases |p| - at
  {
    hide Chunk;
    var next := path + [ChunkIdx(|chunks|)];
    ChunkIsFinal(p, q, at, text, next);
    var o := Chunk(p, at, text, next);
    if o.Done? && o.node != BreakToken(at) {
      ChunksAreFinal(p, q, start, headerEnd, text, chunks + [o.node], o.end, path);
    }
  }

  /** The keys a map holds lie in the input it was read from. */
  predicate KeysLieIn(f: Open, len: nat) {
    f.OpenMap? ==>
      && (forall k | 0 <= k < |f.keySpans| :: f.keySpans[k].1 <= len)
      && (f.key.Some? ==> f.key.value.1 <= len)
  }

  lemma {:induction false} SameKeys(p: seq<byte>, q: seq<byte>, spans: seq<(nat, nat)>)
    requires p <= q && forall k | 0 <= k < |spans| :: spans[k].1 <= |p|
    ensures KeysOf(p, spans) == KeysOf(q, spans)
  {
    if spans != [] {
      SameKeys(p, q, spans[1..]);
      if spans[0].0 <= spans[0].1 {
        SamePart(p, q, spans[0].0, spans[0].1);
      }
    }
  }

  lemma AdvanceIsFinal(p: seq<byte>, q: seq<byte>, f: Open, at: nat)
    requires p <= q && at <= |p| && KeysLieIn(f, |p|) && !Advance(p, f, at).Short?
    ensures Advance(q, f, at) == Advance(p, f, at)
  {
    hide KeysOf, OutOfOrder, Repeating;
    if f.OpenMap? {
      SameKeys(p, q, f.keySpans);
    }
  }

  /** Decoding a prefix of an input either ends too early or answers what decoding the
      whole input answers. */
  lemma {:induction false} ItemIsFinal(p: seq<byte>, q: seq<byte>, at: nat, path: seq<PathSeg>)
    requires p <= q && at <= |p| && Final(Item(p, at, path))
    ensures Item(q, at, path) == Item(p, at, path)
    decreases 1 + |p| - at, 0
  {
    hide PullHead, Leaf, Chunks, Steps;
    PullIsFinal(p, q, at);
    if |path| <= MAX_DEPTH && PullHead(p, at).Pulled? {
      var h := PullHead(p, at).h;
      if IsLeaf(h) {
        LeafIsFinal(p, q, at, h, path);
      } else if h.major in {2, 3} {
        ChunksAreFinal(p, q, at, at + h.len, h.major == 3, [], at + h.len, path);
      } else {
        StepsAreFinal(p, q, Opened(at, h), at + h.len, path);
      }
    }
  }

  lemma {:induction false} StepsAreFinal(p: seq<byte>, q: seq<byte>, f: Open, at: nat, path: seq<PathSeg>)
    requires p <= q && at <= |p| && KeysLieIn(f, |p|) && Final(Steps(p, f, at, path))
    ensures Steps(q, f, at, path) == Steps(p, f, at, path)
    decreases 1 + |p| - at, 1
  {
    hide Item, Takes;
    AdvanceIsFinal(p, q, f, at);
    match Advance(p, f, at)
    case Short =>
    case Closed(_, _) =>
    case Next(g, seg) =>
      var item := Item(p, at, path + [seg]);
      if item.Done? {
        ItemIsFinal(p, q, at, path + [seg]);
      } else {
        FailurePasses(p, g, item, path);
        ItemIsFinal(p, q, at, path + [seg]);
      }
      TakesAreFinal(p, q, g, item, path);
  }

  lemma FailurePasses(p: seq<byte>, f: Open, item: Outcome, path: seq<PathSeg>)
    requires item.Fail? && item.stop <= |p|
    ensures Takes(p, f, item, path).Fail? && Takes(p, f, item, path).error == item.error
  {
  }

  lemma {:induction false} TakesAreFinal(p: seq<byte>, q: seq<byte>, f: Open, item: Outcome, path: seq<PathSeg>)
    requires p <= q && KeysLieIn(f, |p|)
    requires item.Done? ==> item.end <= |p|
    requires item.Fail? ==> item.stop <= |p|
    requires Final(Takes(p, f, item, path))
    ensures Takes(q, f, item, path) == Takes(p, f, item, path)
    decreases if item.Done? then 1 + |p| - item.end else 0, 2
  {
    hide Item, Steps;
    if item.Done? && !f.OpenTag? {
      var g := Took(f, item.node, item.end);
      if f.OpenMap? && f.key.None? {
        var next := path + [MapEntry(|f.entries|, ValueSide)];
        var value := Item(p, item.end, next);
        if value.Fail? {
          FailurePasses(p, g, value, path);
        }
        ItemIsFinal(p, q, item.end, next);
        TakesAreFinal(p, q, g, value, path);
      } else {
        StepsAreFinal(p, q, g, item.end, path);
      }
    }
  }

  // ---------------------------------------------------------------------
  // What each kind of error shows in the bytes
  // ---------------------------------------------------------------------

  /** How many bytes the header with this initial byte has. */
  function HeaderLength(initial: byte): (n: nat) {
    var info := initial % 32;
    if info == 24 then 2 else if info == 25 then 3 else if info == 26 then 5 else if info == 27 then 9 else 1
  }

  /** The input stops at `offset`: before a header, inside one, or inside the payload
      that starts there. The reader stops where it noticed, a payload being read in
      pieces of 65536 bytes. */
  ghost predicate EndsAt(bytes: seq<byte>, offset: nat, stop: nat) {
    || offset == stop == |bytes|
    || (&& offset < |bytes| < offset + HeaderLength(bytes[offset]) && stop == offset + 1)
    || (&& offset <= |bytes| && stop == offset + (|bytes| - offset) / 65_536 * 65_536
        && exists start: nat ::
             && ReadHead(bytes, start).Some?
             && var h := ReadHead(bytes, start).value;
             && start + h.len == offset && h.major in {2, 3}
             && h.argument.Some? && h.argument.value <= USIZE_MAX && |bytes| < offset + h.argument.value)
  }

  /** The header at `offset` is reserved, lacks the argument its type needs, or gives a
      length `usize` cannot hold. */
  predicate IsMalformed(bytes: seq<byte>, offset: nat, stop: nat) {
    && offset < |bytes|
    && if bytes[offset] % 32 in {28, 29, 30} then stop == offset + 1
       else
         && ReadHead(bytes, offset).Some? && stop == offset + ReadHead(bytes, offset).value.len
         && var h := ReadHead(bytes, offset).value;
         && (h.argument.None? ==> h.major in {0, 1, 6})
         && (h.argument.Some? ==> h.major in {2, 3, 4, 5} && h.argument.value > USIZE_MAX)
  }

  predicate IsBadText(bytes: seq<byte>, offset: nat, span: (nat, nat), stop: nat) {
    && ReadHead(bytes, offset).Some?
    && var h := ReadHead(bytes, offset).value;
    && h.major == 3 && h.argument.Some? && stop == offset + h.len + h.argument.value <= |bytes|
    && span == (offset, h.len + h.argument.value) && !ValidUtf8(bytes[offset + h.len..stop])
  }

  predicate IsBadFloat(bytes: seq<byte>, offset: nat, stop: nat) {
    && ReadHead(bytes, offset).Some?
    && var h := ReadHead(bytes, offset).value;
    && h.major == 7 && h.len in {3, 5, 9} && h.argument.Some? && stop == offset + h.len
    && !IsFinite(WidthOf(h.len), h.argument.value)
  }

  predicate InChunk(path: seq<PathSeg>) {
    path != [] && path[|path| - 1].ChunkIdx?
  }

  /** A header that can be read, inside a string in chunks, and is not its break. */
  predicate IsBadChunk(bytes: seq<byte>, e: DecodeError, stop: nat) {
    && InChunk(e.path) && ReadHead(bytes, e.offset).Some? && bytes[e.offset] != BREAK
    && !IsMalformed(bytes, e.offset, stop) && stop == e.offset + ReadHead(bytes, e.offset).value.len
  }

  /** Kind, offset and span of the error are those of the bytes. */
  ghost predicate Shows(bytes: seq<byte>, e: DecodeError, stop: nat) {
    && (e.kind == NestingTooDeep <==> |e.path| > 32_768 && !(InChunk(e.path) && |e.path| == 32_769))
    && match e.kind
       case NestingTooDeep => e.offset == stop <= |bytes| && e.span == Some((e.offset, 1))
       case UnexpectedEof => EndsAt(bytes, e.offset, stop) && e.span.None?
       case InvalidSyntax => IsMalformed(bytes, e.offset, stop) && e.span.None?
       case UnexpectedBreak =>
         && e.offset < |bytes| && bytes[e.offset] == BREAK && stop == e.offset + 1
         && e.span == Some((e.offset, 1)) && !InChunk(e.path)
       case InvalidUtf8 => e.span.Some? && IsBadText(bytes, e.offset, e.span.value, stop)
       case NonFiniteFloat => IsBadFloat(bytes, e.offset, stop) && e.span.None? && !InChunk(e.path)
       case InvalidChunk => IsBadChunk(bytes, e, stop) && e.span.None?
       case TrailingData => false
  }

  lemma PullShows(bytes: seq<byte>, at: nat)
    requires at <= |bytes| && PullHead(bytes, at).Refused?
    ensures var r := PullHead(bytes, at);
            && r.offset == at && r.kind in {UnexpectedEof, InvalidSyntax}
            && (r.kind == UnexpectedEof ==> EndsAt(bytes, at, r.stop))
            && (r.kind == InvalidSyntax ==> IsMalformed(bytes, at, r.stop))
  {
  }

  lemma PullIsReadable(bytes: seq<byte>, at: nat)
    requires at <= |bytes| && PullHead(bytes, at).Pulled?
    ensures ReadHead(bytes, at) == Some(PullHead(bytes, at).h)
    ensures forall stop :: !IsMalformed(bytes, at, stop)
    ensures var h := PullHead(bytes, at).h;
            && (h.argument.Some? && h.major in {2, 3} ==> h.argument.value <= USIZE_MAX)
            && (h.major == 7 && h.argument.None? <==> bytes[at] == BREAK)
  {
    hide BigEndian;
  }

  lemma StringShows(bytes: seq<byte>, start: nat, h: Head, path: seq<PathSeg>, o: Outcome)
    requires start <= |bytes| && PullHead(bytes, start) == Pulled(h) && h.major in {2, 3} && h.argument.Some?
    requires o == StringItem(bytes, start, start + h.len, h.argument.value, h.major == 3, path) && o.Fail?
    requires |path| <= MAX_DEPTH || (InChunk(path) && |path| == MAX_DEPTH + 1)
    ensures Shows(bytes, o.error, o.stop) && o.error.path == path
  {
    hide PullHead, ReadHead, ValidUtf8;
    PullIsReadable(bytes, start);
  }

  lemma FaultShows(bytes: seq<byte>, at: nat, e: DecodeError, stop: nat)
    requires FaultAt(bytes, at, e, stop) && !InChunk(e.path)
    ensures Shows(bytes, e, stop)
  {
    hide PullHead, ReadHead, StringItem, EndsAt, IsMalformed, ValidUtf8, IsFinite;
    if |e.path| <= MAX_DEPTH {
      if PullHead(bytes, at).Refused? {
        PullShows(bytes, at);
      } else {
        var h := PullHead(bytes, at).h;
        PullIsReadable(bytes, at);
        FloatLength(bytes, at, h);
        if h.major in {2, 3} {
          StringShows(bytes, at, h, e.path, Leaf(bytes, at, h, e.path));
        }
      }
    }
  }

  lemma FloatLength(bytes: seq<byte>, at: nat, h: Head)
    requires ReadHead(bytes, at) == Some(h)
    ensures h.len in {1, 2, 3, 5, 9} && (h.argument.None? ==> h.len == 1)
  {
  }

  lemma ChunkShows(bytes: seq<byte>, at: nat, text: bool, e: DecodeError, stop: nat)
    requires at <= |bytes| && Chunk(bytes, at, text, e.path) == Fail(e, None, stop)
    requires InChunk(e.path) && |e.path| <= MAX_DEPTH + 1
    ensures Shows(bytes, e, stop)
  {
    hide PullHead, ReadHead, StringItem, EndsAt, IsMalformed, ValidUtf8;
    if PullHead(bytes, at).Refused? {
      PullShows(bytes, at);
    } else {
      var h := PullHead(bytes, at).h;
      PullIsReadable(bytes, at);
      if h.major == (if text then 3 else 2) && h.argument.Some? {
        StringShows(bytes, at, h, e.path, Chunk(bytes, at, text, e.path));
      }
    }
  }

  /** `rest` is what is left of the error's path below a container, not a string. */
  predicate Leads(e: DecodeError, rest: seq<PathSeg>) {
    && |rest| <= |e.path| && rest == e.path[|e.path| - |rest|..]
    && !InChunk(e.path[..|e.path| - |rest|])
  }

  lemma Deeper(e: DecodeError, rest: seq<PathSeg>)
    requires Leads(e, rest) && rest != [] && !rest[0].ChunkIdx?
    ensures Leads(e, rest[1..])
  {
  }

  /** The error a torn part leads to shows in the bytes. */
  lemma {:induction false} TornShows(bytes: seq<byte>, at: nat, part: Option<Node>, rest: seq<PathSeg>, e: DecodeError,
                                     stop: nat)
    requires Torn(bytes, at, part, rest, e, stop) && Leads(e, rest) && PartWithin(part, |e.path| - |rest|)
    ensures Shows(bytes, e, stop)
    decreases |rest|, 1
  {
    hide Shows, Within, FaultAt, PullHead, Describes, Tile, TilePairs;
    if part.None? {
      assert e.path[..|e.path|] == e.path;
      FaultShows(bytes, at, e, stop);
    } else if rest == [] {
      OpenEndShows(bytes, at, part.value, e, stop);
    } else if part.value.ChunkedNode? {
      TornStringShows(bytes, at, part.value, rest, e, stop);
    } else {
      Deeper(e, rest);
      TornContainerShows(bytes, at, part.value, rest, e, stop);
    }
  }

  lemma LevelIsBounded(part: Node, level: nat)
    requires Within(part, level)
    ensures level <= MAX_DEPTH
  {
  }

  lemma OpenEndShows(bytes: seq<byte>, at: nat, part: Node, e: DecodeError, stop: nat)
    requires Torn(bytes, at, Some(part), [], e, stop) && Leads(e, []) && Within(part, |e.path|)
    ensures Shows(bytes, e, stop)
  {
    hide Within, PullHead, Describes, Tile, TilePairs;
    LevelIsBounded(part, |e.path|);
  }

  lemma TornStringShows(bytes: seq<byte>, at: nat, part: Node, rest: seq<PathSeg>, e: DecodeError, stop: nat)
    requires part.ChunkedNode? && Torn(bytes, at, Some(part), rest, e, stop) && Leads(e, rest)
    requires Within(part, |e.path| - |rest|)
    ensures Shows(bytes, e, stop)
  {
    hide Within, PullHead, Chunk, TileChunks, Shows;
    LevelIsBounded(part, |e.path| - |rest|);
    assert e.path[|e.path| - 1] == rest[0];
    ChunkShows(bytes, Edge(at + PullHead(bytes, at).h.len, part.chunks, |part.chunks|), part.text, e, stop);
  }

  lemma {:induction false} TornContainerShows(bytes: seq<byte>, at: nat, part: Node, rest: seq<PathSeg>, e: DecodeError,
                                              stop: nat)
    requires !part.ChunkedNode? && rest != [] && Torn(bytes, at, Some(part), rest, e, stop) && Leads(e, rest[1..])
    requires |rest| <= |e.path| && Within(part, |e.path| - |rest|)
    ensures Shows(bytes, e, stop)
    decreases |rest|, 0
  {
    hide Shows, PullHead, Describes, Tile, TilePairs, FaultAt, TornChunks, MoreDue;
    var from := at + PullHead(bytes, at).h.len;
    match part
    case ArrayNode(_, _, _, values, _, _) =>
      var i := rest[0].i;
      TornShows(bytes, Edge(from, values, i), if |values| == i then None else Some(values[i]), rest[1..], e, stop);
    case MapNode(_, _, _, entries, _, _) =>
      TornEntryShows(bytes, EntryEdge(from, entries[..rest[0].i], rest[0].i), entries[rest[0].i], rest[0].side,
                     rest[1..],
                     e, stop);
    case TagNode(_, _, _, inner, _, _) =>
      TornShows(bytes, from, inner, rest[1..], e, stop);
    case Token(_, _, _, _) =>
  }

  lemma {:induction false} TornEntryShows(bytes: seq<byte>, at: nat, entry: Entry, side: Side, rest: seq<PathSeg>,
                                          e: DecodeError, stop: nat)
    requires TornEntry(bytes, at, entry, side, rest, e, stop) && Leads(e, rest) && EntryWithin(entry, |e.path| - |rest|)
    ensures Shows(bytes, e, stop)
    decreases |rest|, 2
  {
    hide Shows, Torn, Describes, Within;
    match side
    case KeySide => TornShows(bytes, at, entry.begunKey, rest, e, stop);
    case ValueSide => TornShows(bytes, NodeEnd(entry.begunKey.value), entry.begunValue, rest, e, stop);
  }

  /** Every error of a decode shows in the bytes: its kind, offset, span and how far
      the reader got. */
  lemma ErrorShows(bytes: seq<byte>, at: nat, path: seq<PathSeg>)
    requires at <= |bytes| && !InChunk(path) && Item(bytes, at, path).Fail?
    ensures Shows(bytes, Item(bytes, at, path).error, Item(bytes, at, path).stop)
  {
    hide Item, Torn, Within, Shows;
    var o := Item(bytes, at, path);
    FailedExactly(bytes, at, path, o.error, o.part, o.stop);
    assert o.error.path[..|path|] == path;
    TornShows(bytes, at, o.part, o.error.path[|path|..], o.error, o.stop);
  }

  // ---------------------------------------------------------------------
  // The end of the input is never final
  // ---------------------------------------------------------------------

  /** More zero bytes than any header and payload can ask for. */
  function Filled(p: seq<byte>): (q: seq<byte>)
    ensures p <= q && |q| == |p| + USIZE_MAX + 9
  {
    p + seq(USIZE_MAX + 9, _ => 0)
  }

  lemma EndsWithin(bytes: seq<byte>, offset: nat, stop: nat)
    requires EndsAt(bytes, offset, stop)
    ensures offset <= |bytes| && |bytes| < offset + USIZE_MAX + 9
  {
  }

  /** The input `q` goes on from `p`, and is answered differently. */
  predicate AnswersDiffer(p: seq<byte>, q: seq<byte>, at: nat, path: seq<PathSeg>)
    requires at <= |p|
  {
    p <= q && Item(q, at, path) != Item(p, at, path)
  }

  /** An input ended too early exactly when some continuation of it is answered
      differently. */
  lemma TooEarlyExactly(p: seq<byte>, at: nat, path: seq<PathSeg>)
    requires at <= |p| && !InChunk(path)
    ensures !Final(Item(p, at, path)) <==> exists q :: AnswersDiffer(p, q, at, path)
  {
    hide Item, EndsAt;
    var o := Item(p, at, path);
    if Final(o) {
      forall q | p <= q ensures !AnswersDiffer(p, q, at, path) {
        ItemIsFinal(p, q, at, path);
      }
    } else {
      var q := Filled(p);
      ErrorShows(p, at, path);
      EndsWithin(p, o.error.offset, o.stop);
      assert AnswersDiffer(p, q, at, path) by {
        if Item(q, at, path) == o {
          ErrorShows(q, at, path);
          EndsWithin(q, o.error.offset, o.stop);
        }
      }
    }
  }

  // ---------------------------------------------------------------------
  // Documents
  // ---------------------------------------------------------------------

  /** Every proper beginning of a document that decodes is refused as too short. */
  lemma BeginningsAreTooShort(bytes: seq<byte>, k: nat)
    requires Document(bytes).Whole? && k < |bytes|
    ensures Document(bytes[..k]).Failed? && Document(bytes[..k]).error.kind == UnexpectedEof
  {
    hide Item;
    if Final(Item(bytes[..k], 0, [])) {
      ItemIsFinal(bytes[..k], bytes, 0, []);
    }
  }

  /** Whatever else an input is refused for, so is every continuation of it, with the
      same partial tree; one with bytes left over stays so as well. */
  lemma RefusedForGood(p: seq<byte>, q: seq<byte>)
    requires p <= q && Document(p).Failed? && Document(p).error.kind != UnexpectedEof
    ensures Document(q).Failed? && Document(q).part == Document(p).part
    ensures Document(p).error.kind != TrailingData ==> Document(q) == Document(p)
    ensures Document(p).error.kind == TrailingData ==>
              && Document(q).error.kind == TrailingData && Document(q).error.offset == Document(p).error.offset
  {
    hide Item;
    NoTrailingInside(p);
    ItemIsFinal(p, q, 0, []);
  }

  lemma NoTrailingInside(p: seq<byte>)
    ensures var o := Item(p, 0, []); o.Fail? ==> o.error.kind != TrailingData
  {
    hide Item;
    if Item(p, 0, []).Fail? {
      ErrorShows(p, 0, []);
    }
  }

  /** A refused document's error shows in its bytes, unless it is that bytes are left
      over behind a finished item. */
  lemma DocumentErrorShows(bytes: seq<byte>)
    requires Document(bytes).Failed?
    ensures var e := Document(bytes).error; e.kind != TrailingData ==> exists stop :: Shows(bytes, e, stop)
  {
    hide Item, Shows;
    if Item(bytes, 0, []).Fail? {
      ErrorShows(bytes, 0, []);
    }
  }
}
