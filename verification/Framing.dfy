/** Exactly when the three readings of an item agree: what `skip_item` frames, what
    the decoder's header reader takes as well-formed, and Appendix C of RFC 8949. */
module Framing {
  import opened Wire
  import opened WellFormed
  import opened Navigation
  import opened HeaderRules

  // ---------------------------------------------------------------------
  // Lax framing against well-formedness
  // ---------------------------------------------------------------------

  /** An item `skip_item` frames is well-formed exactly when its headers obey
      `Framed`. */
  lemma {:induction false} LaxIsWellFormedExactly(bytes: seq<byte>, at: nat, level: nat)
    requires Lax(bytes, at).Some?
    ensures Item(bytes, at, false).Some? <==> Obeys(bytes, at, level, Framed)
    decreases |bytes| - at, 0
  {
    var h := ReadHead(bytes, at).value;
    var body := at + h.len;
    if h.major == 6 {
      LaxIsWellFormedExactly(bytes, body, level + 1);
    } else if h.argument.None? {
      if h.major in {2, 3} {
        ChunksExactly(bytes, body, h.major, level);
      } else if h.major == 4 {
        ToBreakExactly(bytes, body, level + 1);
      } else if h.major == 5 {
        PairsExactly(bytes, body, level + 1);
      }
    } else if h.major == 4 {
      ItemsExactly(bytes, body, h.argument.value, level + 1);
    } else if h.major == 5 {
      ItemsExactly(bytes, body, 2 * h.argument.value, level + 1);
    }
  }

  lemma {:induction false} ItemsExactly(bytes: seq<byte>, at: nat, n: nat, level: nat)
    requires at <= |bytes| && LaxItems(bytes, at, n).Some?
    ensures Items(bytes, at, n, false).Some? <==> ItemsObey(bytes, at, n, level, Framed)
    decreases |bytes| - at, 1
  {
    hide Item, Obeys;
    if n > 0 {
      LaxIsWellFormedExactly(bytes, at, level);
      SameEnd(bytes, at);
      ItemsExactly(bytes, Lax(bytes, at).value, n - 1, level);
    }
  }

  lemma SameEnd(bytes: seq<byte>, at: nat)
    ensures Item(bytes, at, false).Some? ==> Lax(bytes, at) == Item(bytes, at, false)
  {
    if Item(bytes, at, false).Some? {
      WellFormedIsLax(bytes, at, false);
    }
  }

  lemma {:induction false} ToBreakExactly(bytes: seq<byte>, at: nat, level: nat)
    requires LaxToBreak(bytes, at).Some?
    ensures ItemsToBreak(bytes, at, false).Some? <==> ToBreakObeys(bytes, at, level, Framed)
    decreases |bytes| - at, 1
  {
    hide Item, Obeys;
    if !IsBreak(bytes, at) {
      LaxIsWellFormedExactly(bytes, at, level);
      SameEnd(bytes, at);
      ToBreakExactly(bytes, Lax(bytes, at).value, level);
    }
  }

  lemma {:induction false} PairsExactly(bytes: seq<byte>, at: nat, level: nat)
    requires LaxToBreak(bytes, at).Some?
    ensures PairsToBreak(bytes, at, false).Some? <==> ToBreakObeys(bytes, at, level, Framed) && EvenToBreak(bytes, at)
    decreases |bytes| - at, 1
  {
    hide Item, Obeys;
    if !IsBreak(bytes, at) {
      LaxIsWellFormedExactly(bytes, at, level);
      SameEnd(bytes, at);
      var key := Lax(bytes, at).value;
      if IsBreak(bytes, key) {
        NoItemAtBreak(bytes, key);
        assert CountToBreak(bytes, key) == 0 && CountToBreak(bytes, at) == 1;
      } else {
        LaxIsWellFormedExactly(bytes, key, level);
        SameEnd(bytes, key);
        PairsExactly(bytes, Lax(bytes, key).value, level);
      }
    }
  }

  lemma NoItemAtBreak(bytes: seq<byte>, at: nat)
    requires IsBreak(bytes, at)
    ensures Item(bytes, at, false).None?
  {
    assert ReadHead(bytes, at) == Some(Head(7, None, 1));
  }

  lemma {:induction false} ChunksExactly(bytes: seq<byte>, at: nat, major: nat, level: nat)
    requires LaxToBreak(bytes, at).Some? && major in {2, 3}
    ensures Chunks(bytes, at, major).Some? <==> ChunksOnly(bytes, at, major)
    ensures ChunksOnly(bytes, at, major) ==> ToBreakObeys(bytes, at, level, Framed)
    decreases |bytes| - at, 1
  {
    hide ReadHead, Obeys, Lax;
    if !IsBreak(bytes, at) {
      var h := ReadHead(bytes, at);
      if h.Some? && h.value.major == major && h.value.argument.Some? {
        ChunkFramed(bytes, at, h.value, level, Framed);
      }
      ChunksExactly(bytes, Lax(bytes, at).value, major, level);
    }
  }

  /** A definite string ends after its payload and has nothing but its own header
      to answer for. */
  lemma ChunkFramed(bytes: seq<byte>, at: nat, h: Head, level: nat, rule: Rule)
    requires ReadHead(bytes, at) == Some(h) && h.major in {2, 3} && h.argument.Some?
    ensures Lax(bytes, at)
         == if at + h.len + h.argument.value <= |bytes| then Some(at + h.len + h.argument.value) else None
    ensures Obeys(bytes, at, level, rule) <==> HeadObeys(rule, bytes, at + h.len, h, level)
    ensures rule != Shown ==> Obeys(bytes, at, level, rule)
  {
    hide ReadHead;
    assert LaxBody(bytes, at + h.len, h)
        == if at + h.len + h.argument.value <= |bytes| then Some(at + h.len + h.argument.value) else None;
  }

  /** Put together: well-formedness is framing and the rule. */
  lemma WellFormedExactly(bytes: seq<byte>, at: nat, end: nat)
    ensures Item(bytes, at, false) == Some(end) <==> Lax(bytes, at) == Some(end) && Obeys(bytes, at, 0, Framed)
  {
    hide Item, Lax, Obeys;
    SameEnd(bytes, at);
    if Lax(bytes, at).Some? {
      LaxIsWellFormedExactly(bytes, at, 0);
    }
  }

  /** The three ways in which framing is lenient, one input each: an odd number of
      items in a map, a chunk of another type, and no argument where one is due. */
  lemma LaxButNotWellFormed()
    ensures var odd := [0xbf, 0x00, 0xff]; Lax(odd, 0) == Some(3) && Item(odd, 0, false).None?
    ensures var chunk := [0x5f, 0x00, 0xff]; Lax(chunk, 0) == Some(3) && Item(chunk, 0, false).None?
    ensures Lax([0x1f], 0) == Some(1) && Item([0x1f], 0, false).None?
  {
    OneByteHead([0xbf, 0x00, 0xff], 1);
    OneByteHead([0x5f, 0x00, 0xff], 1);
    assert Lax([0xbf, 0x00, 0xff], 1) == Some(2);
    assert Lax([0x5f, 0x00, 0xff], 1) == Some(2);
    NoItemAtBreak([0xbf, 0x00, 0xff], 2);
  }

  lemma OneByteHead(bytes: seq<byte>, at: nat)
    requires at < |bytes| && bytes[at] == 0
    ensures ReadHead(bytes, at) == Some(Head(0, Some(0), 1))
  {
  }

  // ---------------------------------------------------------------------
  // Lenient well-formedness against Appendix C
  // ---------------------------------------------------------------------

  /** A well-formed item is one of Appendix C exactly when its headers obey
      `Reserved`. */
  lemma {:induction false} AppendixCExactly(bytes: seq<byte>, at: nat, level: nat)
    requires Item(bytes, at, false).Some?
    ensures Item(bytes, at, true) == Item(bytes, at, false) <==> Obeys(bytes, at, level, Reserved)
    ensures Item(bytes, at, true).Some? ==> Item(bytes, at, true) == Item(bytes, at, false)
    decreases |bytes| - at, 0
  {
    StrictEnds(bytes, at);
    var h := ReadHead(bytes, at).value;
    var body := at + h.len;
    if h.major == 6 {
      AppendixCExactly(bytes, body, level + 1);
    } else if h.argument.None? {
      if h.major in {2, 3} {
        ChunksObeyReserved(bytes, body, h.major, level);
      } else if h.major == 4 {
        StrictToBreak(bytes, body, level + 1);
      } else if h.major == 5 {
        StrictPairs(bytes, body, level + 1);
      }
    } else if h.major == 4 {
      StrictItems(bytes, body, h.argument.value, level + 1);
    } else if h.major == 5 {
      StrictItems(bytes, body, 2 * h.argument.value, level + 1);
    }
  }

  lemma StrictEnds(bytes: seq<byte>, at: nat)
    ensures Item(bytes, at, true).Some? ==> Item(bytes, at, true) == Item(bytes, at, false)
    ensures Item(bytes, at, false).Some? ==> Lax(bytes, at) == Item(bytes, at, false)
  {
    if Item(bytes, at, true).Some? {
      StrictIsLenient(bytes, at);
    }
    SameEnd(bytes, at);
  }

  lemma {:induction false} StrictItems(bytes: seq<byte>, at: nat, n: nat, level: nat)
    requires at <= |bytes| && Items(bytes, at, n, false).Some?
    ensures Items(bytes, at, n, true) == Items(bytes, at, n, false) <==> ItemsObey(bytes, at, n, level, Reserved)
    decreases |bytes| - at, 1
  {
    hide Item, Obeys, Lax;
    if n > 0 {
      StrictEnds(bytes, at);
      AppendixCExactly(bytes, at, level);
      StrictItems(bytes, Item(bytes, at, false).value, n - 1, level);
    }
  }

  lemma {:induction false} StrictToBreak(bytes: seq<byte>, at: nat, level: nat)
    requires ItemsToBreak(bytes, at, false).Some?
    ensures ItemsToBreak(bytes, at, true) == ItemsToBreak(bytes, at, false)
            <==> ToBreakObeys(bytes, at, level, Reserved)
    decreases |bytes| - at, 1
  {
    hide Item, Obeys, Lax;
    if !IsBreak(bytes, at) {
      StrictEnds(bytes, at);
      AppendixCExactly(bytes, at, level);
      StrictToBreak(bytes, Item(bytes, at, false).value, level);
    }
  }

  lemma {:induction false} StrictPairs(bytes: seq<byte>, at: nat, level: nat)
    requires PairsToBreak(bytes, at, false).Some?
    ensures PairsToBreak(bytes, at, true) == PairsToBreak(bytes, at, false)
            <==> ToBreakObeys(bytes, at, level, Reserved)
    decreases |bytes| - at, 1
  {
    hide Item, Obeys, Lax;
    if !IsBreak(bytes, at) {
      var key := Item(bytes, at, false).value;
      StrictEnds(bytes, at);
      AppendixCExactly(bytes, at, level);
      StrictEnds(bytes, key);
      AppendixCExactly(bytes, key, level);
      if IsBreak(bytes, key) {
        NoItemAtBreak(bytes, key);
      }
      StrictPairs(bytes, Item(bytes, key, false).value, level);
    }
  }

  lemma {:induction false} ChunksObeyReserved(bytes: seq<byte>, at: nat, major: nat, level: nat)
    requires Chunks(bytes, at, major).Some? && major in {2, 3}
    ensures ToBreakObeys(bytes, at, level, Reserved)
    decreases |bytes| - at, 1
  {
    hide ReadHead, Obeys, Lax;
    if !IsBreak(bytes, at) {
      var h := ReadHead(bytes, at).value;
      ChunkFramed(bytes, at, h, level, Reserved);
      ChunksObeyReserved(bytes, at + h.len + h.argument.value, major, level);
    }
  }
}
