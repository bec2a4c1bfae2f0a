/** Which inputs decode, told from the bytes: the well-formed ones whose text is
    valid UTF-8, whose floats are finite and whose items lie within the depth
    limit; and which decoded inputs Appendix C of RFC 8949 refuses. */
module Decodable {
  import opened Wire
  import WF = WellFormed
  import opened Oddities
  import opened Decoder
  import opened PositionalTree
  import opened HeaderRules
  import Framing
  import Acceptance

  /** Errors well-formed bytes can still meet. */
  predicate IsPolicy(kind: ErrorKind) {
    kind in {InvalidUtf8, NonFiniteFloat, NestingTooDeep}
  }

  /** The outcome of an item that is well-formed up to `end`: finished exactly when
      it can be shown, refused for a policy otherwise. */
  predicate Accepts(o: Outcome, end: nat, shown: bool) {
    o.Done? == shown && if o.Done? then o.end == end else IsPolicy(o.error.kind)
  }

  // ---------------------------------------------------------------------
  // What is left of a container
  // ---------------------------------------------------------------------

  /** Where the container `f` ends by well-formedness once it holds `held` items
      or entries and stands at `at`. */
  function Rest(bytes: seq<byte>, f: Open, held: nat, at: nat): (r: Option<nat>)
    requires at <= |bytes|
  {
    if f.OpenTag? then
      if held == 0 then WF.Item(bytes, at, false) else Some(at)
    else if f.len.Some? then
      if held > f.len.value then None
      else WF.Items(bytes, at, (if f.OpenArray? then 1 else 2) * (f.len.value - held), false)
    else if f.OpenArray? then WF.ItemsToBreak(bytes, at, false)
    else WF.PairsToBreak(bytes, at, false)
  }

  /** The rest of its items, at `level`, can be shown. */
  predicate RestShown(bytes: seq<byte>, f: Open, held: nat, at: nat, level: nat)
    requires at <= |bytes|
  {
    if f.OpenTag? then held == 0 ==> Obeys(bytes, at, level, Shown)
    else if f.len.Some? then
      held <= f.len.value
      && ItemsObey(bytes, at, (if f.OpenArray? then 1 else 2) * (f.len.value - held), level, Shown)
    else ToBreakObeys(bytes, at, level, Shown)
  }

  function Held(f: Open): (n: nat) {
    if f.OpenTag? then 0 else Count(f)
  }

  /** What follows the item a container is taking at `at`. */
  ghost predicate RestOfTaking(bytes: seq<byte>, f: Open, at: nat, end: nat) {
    && at <= |bytes| && WF.Item(bytes, at, false).Some?
    && var m := WF.Item(bytes, at, false).value;
    if f.OpenMap? && f.key.None? then
      && WF.Item(bytes, m, false).Some?
      && Rest(bytes, f, Held(f) + 1, WF.Item(bytes, m, false).value) == Some(end)
    else Rest(bytes, f, Held(f) + 1, m) == Some(end)
  }

  /** That item and everything after it can be shown. */
  ghost predicate TakingShown(bytes: seq<byte>, f: Open, at: nat, end: nat, level: nat)
    requires RestOfTaking(bytes, f, at, end)
  {
    && Obeys(bytes, at, level, Shown)
    && var m := WF.Item(bytes, at, false).value;
    if f.OpenMap? && f.key.None? then
      Obeys(bytes, m, level, Shown) && RestShown(bytes, f, Held(f) + 1, WF.Item(bytes, m, false).value, level)
    else RestShown(bytes, f, Held(f) + 1, m, level)
  }

  /** Between two items, what is left is the next item and what follows it. */
  lemma RestAfterItem(bytes: seq<byte>, f: Open, at: nat, level: nat)
    requires at <= |bytes| && Rest(bytes, f, Held(f), at).Some? && Advance(bytes, f, at).Next?
    requires f.OpenMap? ==> f.key.None?
    ensures RestOfTaking(bytes, f, at, Rest(bytes, f, Held(f), at).value)
    ensures RestShown(bytes, f, Held(f), at, level)
       <==> TakingShown(bytes, f, at, Rest(bytes, f, Held(f), at).value, level)
  {
    hide WF.Item, WF.Lax, Obeys, MapOddities;
    Framing.SameEnd(bytes, at);
    if f.OpenMap? {
      var n := if f.len.Some? then 2 * (f.len.value - Held(f)) else 2;
      if f.len.Some? {
        assert WF.Items(bytes, WF.Item(bytes, at, false).value, n - 1, false).Some?;
      }
      var m := WF.Item(bytes, at, false).value;
      Framing.SameEnd(bytes, m);
      Acceptance.TwoItems(bytes, at, n);
      TwoShown(bytes, at, n, level);
    }
  }

  lemma TwoShown(bytes: seq<byte>, at: nat, n: nat, level: nat)
    requires n >= 2 && at <= |bytes| && WF.Item(bytes, at, false).Some?
    requires WF.Lax(bytes, at) == WF.Item(bytes, at, false)
    requires WF.Item(bytes, WF.Item(bytes, at, false).value, false).Some?
    requires var m := WF.Item(bytes, at, false).value; WF.Lax(bytes, m) == WF.Item(bytes, m, false)
    ensures var m := WF.Item(bytes, at, false).value;
            var end := WF.Item(bytes, m, false).value;
            var both := Obeys(bytes, at, level, Shown) && Obeys(bytes, m, level, Shown);
            && (ItemsObey(bytes, at, n, level, Shown) <==> both && ItemsObey(bytes, end, n - 2, level, Shown))
            && (ToBreakObeys(bytes, at, level, Shown) <==> both && ToBreakObeys(bytes, end, level, Shown))
  {
    hide WF.Item, WF.Lax, Obeys;
    var m := WF.Item(bytes, at, false).value;
    Acceptance.WellFormedIsNoBreak(bytes, at);
    Acceptance.WellFormedIsNoBreak(bytes, m);
    assert ItemsObey(bytes, at, n, level, Shown)
      <==> Obeys(bytes, at, level, Shown) && ItemsObey(bytes, m, n - 1, level, Shown);
    assert ToBreakObeys(bytes, at, level, Shown)
      <==> Obeys(bytes, at, level, Shown) && ToBreakObeys(bytes, m, level, Shown);
  }

  lemma RestAtEnd(bytes: seq<byte>, f: Open, at: nat, level: nat)
    requires at <= |bytes| && Rest(bytes, f, Held(f), at).Some?
    ensures !Advance(bytes, f, at).Short?
    ensures Advance(bytes, f, at).Closed? ==>
              && Rest(bytes, f, Held(f), at) == Some(Advance(bytes, f, at).end)
              && RestShown(bytes, f, Held(f), at, level)
  {
    hide MapOddities;
  }

  lemma SameRest(bytes: seq<byte>, f: Open, g: Open, level: nat)
    requires g == f || (f.OpenMap? && g.OpenMap? && g.len == f.len) || (f.OpenArray? && g.OpenArray? && g.len == f.len)
    ensures forall held: nat, at: nat | at <= |bytes| :: Rest(bytes, g, held, at) == Rest(bytes, f, held, at)
    ensures forall held: nat, at: nat | at <= |bytes| ::
              RestShown(bytes, g, held, at, level) == RestShown(bytes, f, held, at, level)
  {
    hide WF.Item, WF.Items, WF.ItemsToBreak, WF.PairsToBreak, Obeys, ItemsObey, ToBreakObeys;
  }

  lemma RestAtStart(bytes: seq<byte>, at: nat, h: Head, level: nat)
    requires at <= |bytes| && PullHead(bytes, at) == Pulled(h) && h.major in {4, 5, 6}
    ensures var f := Opened(at, h);
            && Rest(bytes, f, Held(f), at + h.len) == WF.Item(bytes, at, false)
            && (Obeys(bytes, at, level, Shown)
                <==> level <= MAX_DEPTH && RestShown(bytes, f, Held(f), at + h.len, level + 1))
  {
  }

  lemma TagRest(bytes: seq<byte>, f: Open, at: nat, level: nat)
    requires f.OpenTag? && at <= |bytes|
    ensures Rest(bytes, f, 1, at) == Some(at) && RestShown(bytes, f, 1, at, level)
  {
  }

  // ---------------------------------------------------------------------
  // Leaves and chunks
  // ---------------------------------------------------------------------

  lemma HeadIsPulled(bytes: seq<byte>, at: nat)
    requires |bytes| <= ISIZE_MAX && WF.Item(bytes, at, false).Some?
    ensures at < |bytes| && PullHead(bytes, at) == Pulled(ReadHead(bytes, at).value)
  {
    hide WF.Chunks, WF.ItemsToBreak, WF.PairsToBreak;
  }

  lemma LeafIsAccepted(bytes: seq<byte>, at: nat, h: Head, path: seq<PathSeg>)
    requires WF.Item(bytes, at, false).Some? && ReadHead(bytes, at) == Some(h) && IsLeaf(h) && |path| <= MAX_DEPTH
    ensures Accepts(Leaf(bytes, at, h, path), WF.Item(bytes, at, false).value, Obeys(bytes, at, |path|, Shown))
  {
    hide ReadHead;
  }

  lemma ChunkIsAccepted(bytes: seq<byte>, at: nat, text: bool, path: seq<PathSeg>, level: nat)
    requires |bytes| <= ISIZE_MAX && at <= |bytes| && WF.Chunks(bytes, at, if text then 3 else 2).Some?
    requires level <= MAX_DEPTH
    ensures var o := Chunk(bytes, at, text, path);
            var major := if text then 3 else 2;
            var end := WF.Chunks(bytes, at, major);
            if o.Fail? then IsPolicy(o.error.kind) && !ToBreakObeys(bytes, at, level, Shown)
            else if o.node == BreakToken(at) then end == Some(o.end) && ToBreakObeys(bytes, at, level, Shown)
            else
              && WF.Chunks(bytes, o.end, major) == end
              && (ToBreakObeys(bytes, at, level, Shown) <==> ToBreakObeys(bytes, o.end, level, Shown))
  {
    hide Obeys, WF.Lax;
    if !WF.IsBreak(bytes, at) {
      var h := ReadHead(bytes, at).value;
      Framing.ChunkFramed(bytes, at, h, level, Shown);
      hide ReadHead;
      assert WF.Lax(bytes, at) == Some(at + h.len + h.argument.value);
    }
  }

  lemma {:induction false} ChunksAreAccepted(bytes: seq<byte>, start: nat, headerEnd: nat, text: bool,
                                             chunks: seq<Node>, at: nat, path: seq<PathSeg>, level: nat)
    requires |bytes| <= ISIZE_MAX && start < headerEnd <= at <= |bytes| && level <= MAX_DEPTH
    requires WF.Chunks(bytes, at, if text then 3 else 2).Some?
    ensures Accepts(Chunks(bytes, start, headerEnd, text, chunks, at, path),
                    WF.Chunks(bytes, at, if text then 3 else 2).value, ToBreakObeys(bytes, at, level, Shown))
    decreases |bytes| - at
  {
    hide WF.Chunks, Chunk, ToBreakObeys;
    ChunkIsAccepted(bytes, at, text, path + [ChunkIdx(|chunks|)], level);
    var o := Chunk(bytes, at, text, path + [ChunkIdx(|chunks|)]);
    if o.Done? && o.node != BreakToken(at) {
      ChunksAreAccepted(bytes, start, headerEnd, text, chunks + [o.node], o.end, path, level);
    }
  }

  // ---------------------------------------------------------------------
  // Items
  // ---------------------------------------------------------------------

  /** A well-formed item decodes exactly when it can be shown. */
  lemma {:induction false} ItemIsAccepted(bytes: seq<byte>, at: nat, path: seq<PathSeg>)
    requires |bytes| <= ISIZE_MAX && at <= |bytes| && WF.Item(bytes, at, false).Some?
    ensures Accepts(Item(bytes, at, path), WF.Item(bytes, at, false).value, Obeys(bytes, at, |path|, Shown))
    decreases 1 + |bytes| - at, 0
  {
    hide PullHead, Leaf, Chunks, Steps, WF.Chunks, Rest, RestShown, ToBreakObeys, ItemsObey;
    HeadIsPulled(bytes, at);
    if |path| <= MAX_DEPTH {
      var h := PullHead(bytes, at).h;
      if IsLeaf(h) {
        LeafIsAccepted(bytes, at, h, path);
      } else if h.major in {2, 3} {
        ChunksAreAccepted(bytes, at, at + h.len, h.major == 3, [], at + h.len, path, |path|);
      } else {
        RestAtStart(bytes, at, h, |path|);
        StepsAreAccepted(bytes, Opened(at, h), at + h.len, path);
      }
    }
  }

  lemma {:induction false} StepsAreAccepted(bytes: seq<byte>, f: Open, at: nat, path: seq<PathSeg>)
    requires |bytes| <= ISIZE_MAX && at <= |bytes|
    requires Rest(bytes, f, Held(f), at).Some? && (f.OpenMap? ==> f.key.None?)
    ensures Accepts(Steps(bytes, f, at, path), Rest(bytes, f, Held(f), at).value,
                    RestShown(bytes, f, Held(f), at, |path| + 1))
    decreases 1 + |bytes| - at, 1
  {
    hide Rest, RestShown, Item, Takes, WF.Item, Obeys, MapOddities;
    var level := |path| + 1;
    RestAtEnd(bytes, f, at, level);
    var s := Advance(bytes, f, at);
    if s.Next? {
      RestAfterItem(bytes, f, at, level);
      ItemIsAccepted(bytes, at, path + [s.seg]);
      SameRest(bytes, f, s.frame, level);
      TakesAreAccepted(bytes, s.frame, at, Item(bytes, at, path + [s.seg]), path, Rest(bytes, f, Held(f), at).value);
    }
  }

  lemma {:induction false} TakesAreAccepted(bytes: seq<byte>, f: Open, at: nat, item: Outcome, path: seq<PathSeg>,
                                            end: nat)
    requires |bytes| <= ISIZE_MAX && RestOfTaking(bytes, f, at, end)
    requires Accepts(item, WF.Item(bytes, at, false).value, Obeys(bytes, at, |path| + 1, Shown))
    requires item.Fail? ==> item.stop <= |bytes|
    ensures Accepts(Takes(bytes, f, item, path), end, TakingShown(bytes, f, at, end, |path| + 1))
    decreases if item.Done? then 1 + |bytes| - item.end else 0, 2
  {
    hide Rest, RestShown, Item, Steps, WF.Item, Obeys, TagOddities;
    var level := |path| + 1;
    if item.Done? {
      if f.OpenTag? {
        TagRest(bytes, f, item.end, level);
      } else {
        var g := Took(f, item.node, item.end);
        SameRest(bytes, f, g, level);
        if f.OpenMap? && f.key.None? {
          var next := path + [MapEntry(|f.entries|, ValueSide)];
          ItemIsAccepted(bytes, item.end, next);
          TakesAreAccepted(bytes, g, item.end, Item(bytes, item.end, next), path, end);
        } else {
          StepsAreAccepted(bytes, g, item.end, path);
        }
      }
    }
  }

  /** At any path: decoding finishes exactly for a well-formed item that can be
      shown at that level, and a well-formed one that cannot is refused for one
      of the three policies. */
  lemma DecodesExactly(bytes: seq<byte>, at: nat, path: seq<PathSeg>)
    requires |bytes| <= ISIZE_MAX && at <= |bytes|
    ensures Item(bytes, at, path).Done? <==> WF.Item(bytes, at, false).Some? && Obeys(bytes, at, |path|, Shown)
    ensures WF.Item(bytes, at, false).Some? && Item(bytes, at, path).Done? ==>
              WF.Item(bytes, at, false) == Some(Item(bytes, at, path).end)
    ensures WF.Item(bytes, at, false).Some? && Item(bytes, at, path).Fail?
            ==> IsPolicy(Item(bytes, at, path).error.kind)
  {
    hide Item, Describes, WF.Item, Obeys;
    ItemDescribes(bytes, at, path);
    if Item(bytes, at, path).Done? {
      Acceptance.DescribedIsWellFormed(bytes, at, Item(bytes, at, path).node);
    }
    if WF.Item(bytes, at, false).Some? {
      ItemIsAccepted(bytes, at, path);
    }
  }

  /** A document decodes whole exactly when it is one well-formed item, as the
      header reader has it, that can be shown. */
  lemma DocumentDecodesExactly(bytes: seq<byte>)
    requires |bytes| <= ISIZE_MAX
    ensures Document(bytes).Whole? <==> WF.Item(bytes, 0, false) == Some(|bytes|) && Obeys(bytes, 0, 0, Shown)
  {
    hide Item, WF.Item, Obeys;
    DecodesExactly(bytes, 0, []);
  }

  // ---------------------------------------------------------------------
  // Appendix C of RFC 8949
  // ---------------------------------------------------------------------

  /** A decoded item is well-formed in the sense of Appendix C exactly when no
      header in it spells a simple value below 32 in two bytes. */
  lemma DescribedIsStrictExactly(bytes: seq<byte>, at: nat, node: Node)
    requires Describes(bytes, at, node)
    ensures WF.Item(bytes, at, true) == Some(NodeEnd(node)) <==> Obeys(bytes, at, 0, Reserved)
  {
    hide Describes, WF.Item, Obeys;
    Acceptance.DescribedIsWellFormed(bytes, at, node);
    Framing.AppendixCExactly(bytes, at, 0);
  }

  /** An input that decodes although Appendix C refuses it: the simple value 16 in
      two bytes. */
  lemma DecodedButNotStrict()
    ensures var bytes := [0xf8, 0x10];
            && Document(bytes) == Whole(Token(Simple, Pos(0, 2), Number(16), []))
            && WF.Item(bytes, 0, false) == Some(2) && WF.Item(bytes, 0, true).None?
  {
    var bytes: seq<byte> := [0xf8, 0x10];
    var h := Head(7, Some(16), 2);
    assert bytes[1..2] == [0x10] && [0x10][..0] == [];
    assert BigEndian([0x10]) == 16;
    assert ReadHead(bytes, 0) == Some(h);
    assert PullHead(bytes, 0) == Pulled(h);
    assert Item(bytes, 0, []) == Content(bytes, 0, h, []);
  }
}
