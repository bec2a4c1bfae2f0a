/** The oddity flags on the nodes of a decoded tree, told from the bytes each node
    stands on. */
module OddityFlags {
  import opened Wire
  import opened Oddities
  import opened OddityChecks
  import opened FloatWidths
  import opened Decoder
  import opened PositionalTree
  import opened Acceptance
  import StringPayload

  /** A shorter header spells the same argument. */
  ghost predicate HasShorter(h: Head) {
    exists g :: HeadFits(g) && g.major == h.major && g.argument == h.argument && g.len < h.len
  }

  lemma {:induction false} NodeDescribes(bytes: seq<byte>, root: Node, node: Node)
    requires Document(bytes) == Whole(root) && Inside(root, node)
    ensures Describes(bytes, SpanOf(node).offset, node)
  {
    hide Item, Describes, Inside;
    ItemDescribes(bytes, 0, []);
    InsideDescribes(bytes, 0, root, node);
  }

  /** The flags a described token gets are those of its header's kind. */
  lemma TokenFlags(bytes: seq<byte>, at: nat, node: Node)
    requires node.Token? && Describes(bytes, at, node)
    ensures var h := PullHead(bytes, at).h;
            node.oddities == if h.major in {0, 1} && h.argument.Some? then IntOddities(h.argument.value, h.len)
                             else if h.major == 7 && h.len > 2 && h.argument.Some? then
                               FloatOddities(h.len, h.argument.value)
                             else []
  {
    hide PullHead, IntOddities, FloatOddities;
  }

  /** Containers, tags and strings in chunks never carry an integer's or a float's
      flag, however long their header. */
  lemma ContainerFlags(bytes: seq<byte>, at: nat, node: Node)
    requires !node.Token? && Describes(bytes, at, node)
    ensures IntNotShortest !in node.oddities && FloatNotShortest !in node.oddities
    ensures PullHead(bytes, at).h.major in {2, 3, 4, 5, 6}
  {
    hide PullHead, KeySpans, OutOfOrder, Repeating, KeysOf, FitsNativeInt;
  }

  lemma IntFlagOfHead(v: nat, len: nat)
    ensures IntNotShortest in IntOddities(v, len) <==> IntOddities(v, len) == [IntNotShortest]
    ensures FloatNotShortest !in IntOddities(v, len) && IntNotShortest !in FloatOddities(len, v)
    ensures FloatNotShortest in FloatOddities(len, v) <==> FloatOddities(len, v) == [FloatNotShortest]
  {
    hide ShortestFloatLen;
  }

  /** A node is flagged as an integer that is not shortest exactly when its header
      is an integer's and a shorter one spells the same argument: a length or a
      tag written too long is never flagged. */
  lemma IntFlagExactly(bytes: seq<byte>, root: Node, node: Node)
    requires Document(bytes) == Whole(root) && Inside(root, node)
    ensures ReadHead(bytes, SpanOf(node).offset).Some?
    ensures var h := ReadHead(bytes, SpanOf(node).offset).value;
            IntNotShortest in node.oddities <==> h.major in {0, 1} && HasShorter(h)
  {
    hide Document, Describes, Inside, HeadFits, ReadHead, IntOddities, FloatOddities;
    NodeDescribes(bytes, root, node);
    var at := SpanOf(node).offset;
    IsPulled(bytes, at, node);
    var h := PullHead(bytes, at).h;
    HeadReadIsWritten(bytes, at, h);
    if node.Token? {
      TokenFlags(bytes, at, node);
      if h.argument.Some? {
        IntFlagOfHead(h.argument.value, h.len);
        IntNotShortestExactly(h);
      }
    } else {
      ContainerFlags(bytes, at, node);
    }
  }

  lemma IsPulled(bytes: seq<byte>, at: nat, node: Node)
    requires Describes(bytes, at, node)
    ensures at <= |bytes| && PullHead(bytes, at).Pulled? && ReadHead(bytes, at) == Some(PullHead(bytes, at).h)
    ensures PullHead(bytes, at).h.argument.None? ==> !node.Token?
  {
  }

  /** A node is flagged as a float that is not shortest exactly when it is a float
      and a narrower format holds its value. */
  lemma FloatFlagExactly(bytes: seq<byte>, root: Node, node: Node)
    requires Document(bytes) == Whole(root) && Inside(root, node)
    ensures ReadHead(bytes, SpanOf(node).offset).Some?
    ensures var h := ReadHead(bytes, SpanOf(node).offset).value;
            FloatNotShortest in node.oddities
            <==> && h.major == 7 && h.len in {3, 5, 9} && h.argument.Some?
                 && exists k: nat | k in {3, 5} && k < h.len :: HeldIn(WidthOf(k), WidthOf(h.len), h.argument.value)
  {
    hide Document, Describes, Inside, HeadFits, ReadHead, IntOddities, FloatOddities, HeldIn, IsFinite;
    NodeDescribes(bytes, root, node);
    var at := SpanOf(node).offset;
    IsPulled(bytes, at, node);
    var h := PullHead(bytes, at).h;
    if node.Token? {
      TokenFlags(bytes, at, node);
      IntFlagOfHead(h.argument.value, h.len);
      if h.major == 7 && h.len > 2 {
        FloatIsFinite(bytes, at, node);
        FloatNotShortestExactly(h.len, h.argument.value);
      }
    } else {
      ContainerFlags(bytes, at, node);
    }
  }

  lemma FloatIsFinite(bytes: seq<byte>, at: nat, node: Node)
    requires node.Token? && Describes(bytes, at, node)
    requires PullHead(bytes, at).h.major == 7 && PullHead(bytes, at).h.len > 2
    ensures var h := PullHead(bytes, at).h;
            h.len in {3, 5, 9} && h.argument.Some? && IsFloat(WidthOf(h.len), h.argument.value)
  {
    hide PullHead, FloatOddities;
    ArgumentFitsWord();
    HeadReadIsWritten(bytes, at, PullHead(bytes, at).h);
  }

  /** The encoded keys of a map node, in order. */
  function EncodedKeys(bytes: seq<byte>, node: Node): (keys: seq<seq<byte>>)
    requires node.MapNode? && forall k | 0 <= k < |ItemsOf(node.len, node.entries)| :: node.entries[k].Pair?
  {
    KeysOf(bytes, KeySpans(ItemsOf(node.len, node.entries)))
  }

  lemma {:induction false} EachEncodedKey(bytes: seq<byte>, pairs: seq<Entry>, k: nat)
    requires k < |pairs| && forall i | 0 <= i < |pairs| :: pairs[i].Pair?
    requires SpanOf(pairs[k].key).offset <= NodeEnd(pairs[k].key) <= |bytes|
    ensures KeysOf(bytes, KeySpans(pairs))[k] == bytes[SpanOf(pairs[k].key).offset..NodeEnd(pairs[k].key)]
  {
    EachKeySpan(pairs, k);
  }

  lemma {:induction false} EachKeySpan(pairs: seq<Entry>, k: nat)
    requires k < |pairs| && forall i | 0 <= i < |pairs| :: pairs[i].Pair?
    ensures KeySpans(pairs)[k] == (SpanOf(pairs[k].key).offset, NodeEnd(pairs[k].key))
    decreases |pairs|
  {
    var n := |pairs| - 1;
    if k < n {
      EachKeySpan(pairs[..n], k);
    }
  }

  /** A map node is flagged for repeated keys exactly when two of its encoded keys are
      equal, as unsorted exactly when some key sorts after the next one, and carries
      neither flag exactly when they are strictly increasing. */
  lemma KeyFlagsExactly(bytes: seq<byte>, root: Node, node: Node)
    requires Document(bytes) == Whole(root) && Inside(root, node) && node.MapNode?
    ensures forall k | 0 <= k < |ItemsOf(node.len, node.entries)| :: node.entries[k].Pair?
    ensures forall k | 0 <= k < |ItemsOf(node.len, node.entries)| ::
              var key := node.entries[k].key;
              && SpanOf(key).offset <= NodeEnd(key) <= |bytes|
              && EncodedKeys(bytes, node)[k] == bytes[SpanOf(key).offset..NodeEnd(key)]
    ensures var keys := EncodedKeys(bytes, node);
            && |keys| == |ItemsOf(node.len, node.entries)|
            && (DuplicateMapKeys in node.oddities <==> exists j, k | 0 <= j < k < |keys| :: keys[j] == keys[k])
            && (MapKeysNotSorted in node.oddities
                <==> exists k | 0 <= k < |keys| - 1 :: BytesLess(keys[k + 1], keys[k]))
            && (MapKeysNotSorted !in node.oddities && DuplicateMapKeys !in node.oddities <==> Ascending(keys))
  {
    hide Document, Inside, MapOddities, Ascending, KeysOf, PullHead, KeySpans, TilePairs, Describes;
    NodeDescribes(bytes, root, node);
    var at := SpanOf(node).offset;
    PairsArePairs(bytes, at, node);
    var pairs := ItemsOf(node.len, node.entries);
    MapOddityKinds(bytes, KeySpans(pairs), node.len.None?);
    forall k | 0 <= k < |pairs|
      ensures var key := node.entries[k].key;
              && SpanOf(key).offset <= NodeEnd(key) <= |bytes|
              && EncodedKeys(bytes, node)[k] == bytes[SpanOf(key).offset..NodeEnd(key)]
    {
      MapPair(bytes, at, node, k);
      KeySpanIsInside(bytes, SpanOf(node.entries[k].key).offset, node.entries[k]);
      EachEncodedKey(bytes, pairs, k);
    }
  }

  lemma KeySpanIsInside(bytes: seq<byte>, at: nat, pair: Entry)
    requires DescribesPair(bytes, at, pair)
    ensures SpanOf(pair.key).offset <= NodeEnd(pair.key) <= |bytes|
  {
    hide Describes;
    DescribedSpan(bytes, at, pair.key);
  }

  lemma PairsArePairs(bytes: seq<byte>, at: nat, node: Node)
    requires node.MapNode? && Describes(bytes, at, node)
    ensures forall k | 0 <= k < |ItemsOf(node.len, node.entries)| :: node.entries[k].Pair?
    ensures node.oddities == MapOddities(bytes, KeySpans(ItemsOf(node.len, node.entries)), node.len.None?)
  {
    hide MapOddities, PullHead, KeySpans;
    assert EntriesFill(bytes, at + PullHead(bytes, at).h.len, node.len, node.entries, NodeEnd(node));
    assert forall k | 0 <= k < |ItemsOf(node.len, node.entries)| ::
             ItemsOf(node.len, node.entries)[k] == node.entries[k];
  }

  // ---------------------------------------------------------------------
  // Bignums
  // ---------------------------------------------------------------------

  /** The bytes at `at` spell tag 2 or 3 around a definite byte string: the tag and
      the string's payload. */
  function BignumAt(bytes: seq<byte>, at: nat): (r: Option<(nat, seq<byte>)>) {
    match ReadHead(bytes, at)
    case None => None
    case Some(h) =>
      if h.major != 6 || h.argument !in {Some(2), Some(3)} then None
      else
        match ReadHead(bytes, at + h.len)
        case None => None
        case Some(g) =>
          var from := at + h.len + g.len;
          if g.major == 2 && g.argument.Some? && from + g.argument.value <= |bytes| then
            Some((h.argument.value, bytes[from..from + g.argument.value]))
          else None
  }

  /** The value of the bignum is one the decoder takes a native integer to hold. */
  predicate TakenAsSmall(tag: nat, raw: seq<byte>) {
    BigEndian(raw) <= U64_MAX && !(tag == 3 && BigEndian(raw) == U64_MAX)
  }

  /** The check looks at the inner node's type and payload, which are those of a
      definite byte string exactly when its header is one. */
  lemma InnerString(bytes: seq<byte>, at: nat, inner: Node)
    requires Describes(bytes, at, inner)
    ensures ReadHead(bytes, at).Some?
    ensures var g := ReadHead(bytes, at).value;
            && (inner.Token? && inner.name == Bytes <==> g.major == 2 && g.argument.Some?)
            && (g.major == 2 && g.argument.Some? ==>
                  && at + g.len + g.argument.value <= |bytes|
                  && inner.value == Payload(bytes[at + g.len..at + g.len + g.argument.value]))
  {
    hide ValuesFill, EntriesFill, ChunksFill, MapOddities, TagOddities, IntOddities, FloatOddities;
  }

  /** A tag's flags are told from its number and the node behind it. */
  lemma TagIsPulled(bytes: seq<byte>, at: nat, node: Node)
    requires node.TagNode? && Describes(bytes, at, node)
    ensures ReadHead(bytes, at).Some? && node.inner.Some?
    ensures var h := ReadHead(bytes, at).value;
            && h.major == 6 && h.argument == Some(node.tag)
            && Describes(bytes, at + h.len, node.inner.value)
            && node.oddities == TagOddities(node.tag, node.inner.value)
  {
    hide TagOddities, ValuesFill, EntriesFill, ChunksFill, Leaf, MapOddities;
  }

  lemma TagFlags(bytes: seq<byte>, at: nat, node: Node)
    requires node.TagNode? && Describes(bytes, at, node)
    ensures node.oddities == match BignumAt(bytes, at) case None => [] case Some((tag, raw)) => BignumOddities(tag, raw)
  {
    hide PullHead, FitsNativeInt, ReadHead, Describes;
    TagIsPulled(bytes, at, node);
    InnerString(bytes, at + ReadHead(bytes, at).value.len, node.inner.value);
  }

  lemma OtherFlags(bytes: seq<byte>, at: nat, node: Node)
    requires !node.TagNode? && Describes(bytes, at, node)
    ensures BignumForSmallInt !in node.oddities && BignumLeadingZeroes !in node.oddities
    ensures BignumAt(bytes, at).None?
  {
    hide PullHead, Leaf, ReadHead, KeySpans, OutOfOrder, Repeating, KeysOf, ShortestFloatLen;
    IsPulled(bytes, at, node);
    if node.Token? {
      TokenFlags(bytes, at, node);
    }
  }

  /** A node is flagged as a bignum that is small exactly when its bytes are tag 2 or
      3 around a definite byte string whose value is taken as small, and as one with
      leading zeroes exactly when that string starts with a zero byte. */
  lemma BignumFlagsExactly(bytes: seq<byte>, root: Node, node: Node)
    requires Document(bytes) == Whole(root) && Inside(root, node)
    ensures var bignum := BignumAt(bytes, SpanOf(node).offset);
            && (BignumForSmallInt in node.oddities
                <==> bignum.Some? && TakenAsSmall(bignum.value.0, bignum.value.1))
            && (BignumLeadingZeroes in node.oddities
                <==> bignum.Some? && bignum.value.1 != [] && bignum.value.1[0] == 0)
  {
    hide Document, Describes, Inside, ReadHead, BignumOddities;
    var at := SpanOf(node).offset;
    NodeDescribes(bytes, root, node);
    if node.TagNode? {
      TagFlags(bytes, at, node);
      if BignumAt(bytes, at).Some? {
        BignumForSmallIntExactly(BignumAt(bytes, at).value.0, BignumAt(bytes, at).value.1);
      }
    } else {
      OtherFlags(bytes, at, node);
    }
  }

  /** A byte string, in one piece or in chunks. */
  predicate IsByteString(node: Node) {
    (node.Token? && node.name == Bytes) || (node.ChunkedNode? && !node.text)
  }

  lemma {:induction false} ChunksSplice(bytes: seq<byte>, from: nat, chunks: seq<Node>, k: nat, to: nat)
    requires k < |chunks| && chunks[|chunks| - 1] == BreakToken(to)
    requires TileChunks(bytes, from, false, chunks[..|chunks| - 1], to)
    ensures StringPayload.Spliced(chunks[k..]).Some?
    decreases |chunks| - k
  {
    hide Edge;
    var strings := chunks[..|chunks| - 1];
    if k < |strings| {
      assert chunks[k] == strings[k];
      assert IsChunk(bytes, Edge(from, strings, k), false, strings[k]);
      ChunkHasPayload(bytes, Edge(from, strings, k), strings[k]);
      ChunksSplice(bytes, from, chunks, k + 1, to);
      assert chunks[k..][1..] == chunks[k + 1..];
    } else {
      assert chunks[k..] == [BreakToken(to)];
      assert chunks[k..][1..] == [];
    }
  }

  lemma ChunkHasPayload(bytes: seq<byte>, at: nat, chunk: Node)
    requires IsChunk(bytes, at, false, chunk)
    ensures chunk.value.Payload? && !StringPayload.IsMark(chunk)
  {
  }

  lemma ByteStringHasPayload(bytes: seq<byte>, at: nat, node: Node)
    requires Describes(bytes, at, node) && IsByteString(node)
    ensures StringPayload.PayloadOf(node, false).Some?
  {
    hide PullHead, Leaf, TileChunks, MapOddities, ReadHead;
    if node.Token? {
      InnerString(bytes, at, node);
    } else {
      ChunksSplice(bytes, at + PullHead(bytes, at).h.len, node.chunks, 0, NodeEnd(node) - 1);
      assert node.chunks[0..] == node.chunks;
    }
  }

  /** Of the bignums that a native integer of their sign holds, in one string or in
      chunks, those unflagged are exactly the ones in chunks and -2^64. */
  lemma MissedExactly(bytes: seq<byte>, root: Node, node: Node)
    requires Document(bytes) == Whole(root) && Inside(root, node)
    requires node.TagNode? && node.tag in {2, 3} && node.inner.Some? && IsByteString(node.inner.value)
    ensures var raw := StringPayload.PayloadOf(node.inner.value, false);
            && raw.Some?
            && (HeadFits(Head(node.tag - 2, Some(BigEndian(raw.value)), 9)) && BignumForSmallInt !in node.oddities
                <==> && BigEndian(raw.value) <= U64_MAX
                     && (node.inner.value.ChunkedNode? || (node.tag == 3 && BigEndian(raw.value) == U64_MAX)))
  {
    hide Document, Describes, Inside, BigEndian, FitsNativeInt, Pow256, StringPayload.Spliced;
    ArgumentFitsWord();
    NodeDescribes(bytes, root, node);
    TagOdditiesOf(bytes, SpanOf(node).offset, node);
    var raw := StringPayload.PayloadOf(node.inner.value, false);
    if node.inner.value.Token? {
      BignumForSmallIntExactly(node.tag, raw.value);
    }
  }

  lemma TagOdditiesOf(bytes: seq<byte>, at: nat, node: Node)
    requires node.TagNode? && Describes(bytes, at, node)
    ensures node.inner.Some? && node.oddities == TagOddities(node.tag, node.inner.value)
    ensures IsByteString(node.inner.value) ==> StringPayload.PayloadOf(node.inner.value, false).Some?
  {
    hide PullHead, TagOddities, StringPayload.PayloadOf, IsByteString, Leaf, ValuesFill, EntriesFill, ChunksFill,
         MapOddities,
         KeySpans;
    if IsByteString(node.inner.value) {
      ByteStringHasPayload(bytes, at + PullHead(bytes, at).h.len, node.inner.value);
    }
  }

  /** A bignum that goes unflagged though its value is 1: tag 2 around a byte string
      in chunks. */
  lemma ChunkedBignumUnflagged()
    ensures var one := ChunkedNode(false, Pos(1, 1), Pos(1, 4), [OneByte(), BreakToken(4)], false, [IndefiniteLength]);
            && Document([0xc2, 0x5f, 0x41, 0x01, 0xff]) == Whole(TagNode(Pos(0, 1), Pos(0, 5), 2, Some(one), false, []))
            && StringPayload.PayloadOf(one, false) == Some([0x01]) && BigEndian([0x01]) == 1
  {
    hide Document, StringPayload.Spliced;
    ChunkedTag();
    OnePayload();
    assert [0x01][..0] == [];
  }

  function OneByte(): (chunk: Node) {
    Token(Bytes, Pos(2, 2), Payload([0x01]), [])
  }

  lemma OnePayload()
    ensures StringPayload.Spliced([OneByte(), BreakToken(4)]) == Some([0x01])
  {
    var chunks := [OneByte(), BreakToken(4)];
    assert chunks[1..] == [BreakToken(4)] && [BreakToken(4)][1..] == [];
    assert [0x01] + [] == [0x01];
  }

  lemma ChunkedTag()
    ensures var one := ChunkedNode(false, Pos(1, 1), Pos(1, 4), [OneByte(), BreakToken(4)], false, [IndefiniteLength]);
            Document([0xc2, 0x5f, 0x41, 0x01, 0xff]) == Whole(TagNode(Pos(0, 1), Pos(0, 5), 2, Some(one), false, []))
  {
    hide Chunks;
    var bytes: seq<byte> := [0xc2, 0x5f, 0x41, 0x01, 0xff];
    var tag, str := Head(6, Some(2), 1), Head(2, None, 1);
    var path := [] + [TagInner];
    OneChunk(bytes, path);
    assert PullHead(bytes, 0) == Pulled(tag) && PullHead(bytes, 1) == Pulled(str);
    assert Item(bytes, 1, path) == Content(bytes, 1, str, path) == Chunks(bytes, 1, 2, false, [], 2, path);
    assert Item(bytes, 0, []) == Content(bytes, 0, tag, []) == Steps(bytes, Opened(0, tag), 1, []);
    assert Steps(bytes, Opened(0, tag), 1, []) == Takes(bytes, Opened(0, tag), Item(bytes, 1, path), []);
  }

  lemma OneChunk(bytes: seq<byte>, path: seq<PathSeg>)
    requires bytes == [0xc2, 0x5f, 0x41, 0x01, 0xff]
    ensures Chunks(bytes, 1, 2, false, [], 2, path)
         == Done(ChunksClosed(1, 2, [OneByte(), BreakToken(4)], false, 5), 5)
  {
    var chunk := OneByte();
    assert PullHead(bytes, 2) == Pulled(Head(2, Some(1), 1));
    assert bytes[3..4] == [0x01];
    assert Chunk(bytes, 2, false, path + [ChunkIdx(0)]) == Done(chunk, 4);
    assert Chunk(bytes, 4, false, path + [ChunkIdx(1)]) == Done(BreakToken(4), 5);
    assert [] + [chunk] == [chunk] && [chunk] + [BreakToken(4)] == [chunk, BreakToken(4)];
    assert Chunks(bytes, 1, 2, false, [chunk], 4, path).Done?;
  }

  /** Headers that are longer than they need be and go unflagged: an empty array
      with its length in a byte of its own, and the tag 5 in a byte of its own. */
  lemma LongHeadersUnflagged()
    ensures Document([0x98, 0x00]) == Whole(ArrayNode(Pos(0, 2), Pos(0, 2), Some(0), [], false, []))
    ensures HasShorter(Head(4, Some(0), 2))
    ensures Document([0xd8, 0x05, 0x00])
         == Whole(TagNode(Pos(0, 2), Pos(0, 3), 5, Some(Token(U8, Pos(2, 1), Number(0), [])), false, []))
    ensures HasShorter(Head(6, Some(5), 2))
  {
    ArgumentFitsWord();
    assert HeadFits(Head(4, Some(0), 1)) && HeadFits(Head(6, Some(5), 1));
    LongArray();
    LongTag();
  }

  lemma LongArray()
    ensures Document([0x98, 0x00]) == Whole(ArrayNode(Pos(0, 2), Pos(0, 2), Some(0), [], false, []))
  {
    var bytes: seq<byte> := [0x98, 0x00];
    var h := Head(4, Some(0), 2);
    assert bytes[1..2] == [0x00] && [0x00][..0] == [];
    assert BigEndian([0x00]) == 0;
    assert PullHead(bytes, 0) == Pulled(h);
    assert Item(bytes, 0, []) == Content(bytes, 0, h, []) == Steps(bytes, Opened(0, h), 2, []);
  }

  lemma LongTag()
    ensures Document([0xd8, 0x05, 0x00])
         == Whole(TagNode(Pos(0, 2), Pos(0, 3), 5, Some(Token(U8, Pos(2, 1), Number(0), [])), false, []))
  {
    var bytes: seq<byte> := [0xd8, 0x05, 0x00];
    var h, zero := Head(6, Some(5), 2), Head(0, Some(0), 1);
    assert bytes[1..2] == [0x05] && [0x05][..0] == [];
    assert BigEndian([0x05]) == 5;
    assert PullHead(bytes, 0) == Pulled(h);
    assert PullHead(bytes, 2) == Pulled(zero);
    var path := [] + [TagInner];
    assert Item(bytes, 2, path) == Content(bytes, 2, zero, path) == Leaf(bytes, 2, zero, path);
    assert Item(bytes, 0, []) == Content(bytes, 0, h, []) == Steps(bytes, Opened(0, h), 2, []);
    assert Steps(bytes, Opened(0, h), 2, []) == Takes(bytes, Opened(0, h), Item(bytes, 2, path), []);
  }
}
