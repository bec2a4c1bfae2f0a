/** Two recursive readings of "where does the data item at `at` end":
    well-formedness as in section 3 and Appendix C of RFC 8949, and the laxer
    framing that `skip_item` follows. */
module WellFormed {
  import opened Wire

  // ---------------------------------------------------------------------
  // Appendix C of RFC 8949
  // ---------------------------------------------------------------------

  /** The end of the well-formed item that starts at `at`. With `strict` the two-byte simple
      values below 32 are refused, as the RFC does; the header reader the
      decoder builds on lets them through. */
  function Item(bytes: seq<byte>, at: nat, strict: bool): (r: Option<nat>)
    ensures r.Some? ==> at < r.value <= |bytes|
    decreases |bytes| - at, 0
  {
    match ReadHead(bytes, at)
    case None => None
    case Some(h) => Body(bytes, at + h.len, h, strict)
  }

  /** Just past the content that follows the header `h`. */
  function Body(bytes: seq<byte>, at: nat, h: Head, strict: bool): (r: Option<nat>)
    requires at <= |bytes|
    ensures r.Some? ==> at <= r.value <= |bytes|
    decreases |bytes| - at, 2
  {
    match h.argument
    case None =>
      if h.major in {2, 3} then Chunks(bytes, at, h.major)
      else if h.major == 4 then ItemsToBreak(bytes, at, strict)
      else if h.major == 5 then PairsToBreak(bytes, at, strict)
      else None
    case Some(v) =>
      if h.major in {2, 3} then
        if at + v <= |bytes| then Some(at + v) else None
      else if h.major == 4 then Items(bytes, at, v, strict)
      else if h.major == 5 then Items(bytes, at, 2 * v, strict)
      else if h.major == 6 then Item(bytes, at, strict)
      else if strict && h.major == 7 && h.len == 2 && v < 32 then None
      else Some(at)
  }

  /** Just past `n` well-formed items in a row. */
  function Items(bytes: seq<byte>, at: nat, n: nat, strict: bool): (r: Option<nat>)
    requires at <= |bytes|
    ensures r.Some? ==> at <= r.value <= |bytes| && n <= r.value - at
    decreases |bytes| - at, 1
  {
    if n == 0 then Some(at)
    else
      match Item(bytes, at, strict)
      case None => None
      case Some(e) => Items(bytes, e, n - 1, strict)
  }

  function ItemsToBreak(bytes: seq<byte>, at: nat, strict: bool): (r: Option<nat>)
    ensures r.Some? ==> at < r.value <= |bytes|
    decreases |bytes| - at, 1
  {
    if IsBreak(bytes, at) then Some(at + 1)
    else
      match Item(bytes, at, strict)
      case None => None
      case Some(e) => ItemsToBreak(bytes, e, strict)
  }

  function PairsToBreak(bytes: seq<byte>, at: nat, strict: bool): (r: Option<nat>)
    ensures r.Some? ==> at < r.value <= |bytes|
    decreases |bytes| - at, 1
  {
    if IsBreak(bytes, at) then Some(at + 1)
    else
      match Item(bytes, at, strict)
      case None => None
      case Some(k) =>
        match Item(bytes, k, strict)
        case None => None
        case Some(e) => PairsToBreak(bytes, e, strict)
  }

  /** Definite-length chunks of type `major`, up to and with the break. */
  function Chunks(bytes: seq<byte>, at: nat, major: nat): (r: Option<nat>)
    ensures r.Some? ==> at < r.value <= |bytes|
    decreases |bytes| - at, 1
  {
    if IsBreak(bytes, at) then Some(at + 1)
    else
      match ReadHead(bytes, at)
      case None => None
      case Some(h) =>
        if h.major != major || h.argument.None? || at + h.len + h.argument.value > |bytes| then None
        else Chunks(bytes, at + h.len + h.argument.value, major)
  }

  predicate IsBreak(bytes: seq<byte>, at: nat) {
    at < |bytes| && bytes[at] == BREAK
  }

  // ---------------------------------------------------------------------
  // The framing `skip_item` follows
  // ---------------------------------------------------------------------

  /** The end of an item told by headers alone: an indefinite-length string
      takes items of any kind, an indefinite-length map any number of them, and
      additional information 31 is no fault on an integer or a tag. */
  function Lax(bytes: seq<byte>, at: nat): (r: Option<nat>)
    ensures r.Some? ==> at < r.value <= |bytes|
    decreases |bytes| - at, 0
  {
    match ReadHead(bytes, at)
    case None => None
    case Some(h) => LaxBody(bytes, at + h.len, h)
  }

  /** Just past the content that follows the header `h`. */
  function LaxBody(bytes: seq<byte>, at: nat, h: Head): (r: Option<nat>)
    requires at <= |bytes|
    ensures r.Some? ==> at <= r.value <= |bytes|
    decreases |bytes| - at, 2
  {
    if h.major == 6 then Lax(bytes, at)
    else
      match h.argument
      case None =>
        if h.major == 7 then None
        else if h.major < 2 then Some(at)
        else LaxToBreak(bytes, at)
      case Some(v) =>
        if h.major in {2, 3} then
          if at + v <= |bytes| then Some(at + v) else None
        else if h.major == 4 then LaxItems(bytes, at, v)
        else if h.major == 5 then LaxItems(bytes, at, 2 * v)
        else Some(at)
  }

  function LaxItems(bytes: seq<byte>, at: nat, n: nat): (r: Option<nat>)
    requires at <= |bytes|
    ensures r.Some? ==> at <= r.value <= |bytes| && n <= r.value - at
    decreases |bytes| - at, 1
  {
    if n == 0 then Some(at)
    else
      match Lax(bytes, at)
      case None => None
      case Some(e) => LaxItems(bytes, e, n - 1)
  }

  function LaxToBreak(bytes: seq<byte>, at: nat): (r: Option<nat>)
    ensures r.Some? ==> at < r.value <= |bytes|
    decreases |bytes| - at, 1
  {
    if IsBreak(bytes, at) then Some(at + 1)
    else
      match Lax(bytes, at)
      case None => None
      case Some(e) => LaxToBreak(bytes, e)
  }

  // ---------------------------------------------------------------------
  // Well-formed items end where the lax framing says
  // ---------------------------------------------------------------------

  lemma {:induction false} WellFormedIsLax(bytes: seq<byte>, at: nat, strict: bool)
    requires Item(bytes, at, strict).Some?
    ensures Lax(bytes, at) == Item(bytes, at, strict)
    decreases |bytes| - at, 0
  {
    var h := ReadHead(bytes, at).value;
    var body := at + h.len;
    if h.major == 6 {
      WellFormedIsLax(bytes, body, strict);
    } else if h.argument.None? {
      if h.major in {2, 3} {
        ChunksAreLax(bytes, body, h.major);
      } else if h.major == 4 {
        ItemsToBreakAreLax(bytes, body, strict);
      } else {
        PairsToBreakAreLax(bytes, body, strict);
      }
    } else if h.major == 4 {
      ItemsAreLax(bytes, body, h.argument.value, strict);
    } else if h.major == 5 {
      ItemsAreLax(bytes, body, 2 * h.argument.value, strict);
    }
  }

  lemma {:induction false} ItemsAreLax(bytes: seq<byte>, at: nat, n: nat, strict: bool)
    requires at <= |bytes| && Items(bytes, at, n, strict).Some?
    ensures LaxItems(bytes, at, n) == Items(bytes, at, n, strict)
    decreases |bytes| - at, 1
  {
    if n > 0 {
      WellFormedIsLax(bytes, at, strict);
      ItemsAreLax(bytes, Item(bytes, at, strict).value, n - 1, strict);
    }
  }

  lemma {:induction false} ItemsToBreakAreLax(bytes: seq<byte>, at: nat, strict: bool)
    requires ItemsToBreak(bytes, at, strict).Some?
    ensures LaxToBreak(bytes, at) == ItemsToBreak(bytes, at, strict)
    decreases |bytes| - at, 1
  {
    if !IsBreak(bytes, at) {
      WellFormedIsLax(bytes, at, strict);
      ItemsToBreakAreLax(bytes, Item(bytes, at, strict).value, strict);
    }
  }

  lemma {:induction false} PairsToBreakAreLax(bytes: seq<byte>, at: nat, strict: bool)
    requires PairsToBreak(bytes, at, strict).Some?
    ensures LaxToBreak(bytes, at) == PairsToBreak(bytes, at, strict)
    decreases |bytes| - at, 1
  {
    if !IsBreak(bytes, at) {
      WellFormedIsLax(bytes, at, strict);
      var k := Item(bytes, at, strict).value;
      WellFormedIsLax(bytes, k, strict);
      ItemIsNoBreak(bytes, k);
      PairsToBreakAreLax(bytes, Item(bytes, k, strict).value, strict);
    }
  }

  lemma ItemIsNoBreak(bytes: seq<byte>, at: nat)
    requires Lax(bytes, at).Some?
    ensures !IsBreak(bytes, at)
  {
    assert IsBreak(bytes, at) ==> ReadHead(bytes, at) == Some(Head(7, None, 1));
  }

  lemma {:induction false} ChunksAreLax(bytes: seq<byte>, at: nat, major: nat)
    requires major in {2, 3} && Chunks(bytes, at, major).Some?
    ensures LaxToBreak(bytes, at) == Chunks(bytes, at, major)
    decreases |bytes| - at, 1
  {
    if !IsBreak(bytes, at) {
      var h := ReadHead(bytes, at).value;
      var next := at + h.len + h.argument.value;
      assert Lax(bytes, at) == Some(next);
      ChunksAreLax(bytes, next, major);
    }
  }

  lemma {:induction false} StrictIsLenient(bytes: seq<byte>, at: nat)
    requires Item(bytes, at, true).Some?
    ensures Item(bytes, at, false) == Item(bytes, at, true)
    decreases |bytes| - at, 0
  {
    var h := ReadHead(bytes, at).value;
    var body := at + h.len;
    if h.major == 6 {
      StrictIsLenient(bytes, body);
    } else if h.major == 4 && h.argument.Some? {
      StrictItemsAreLenient(bytes, body, h.argument.value);
    } else if h.major == 5 && h.argument.Some? {
      StrictItemsAreLenient(bytes, body, 2 * h.argument.value);
    } else if h.major == 4 {
      StrictItemsToBreakAreLenient(bytes, body);
    } else if h.major == 5 {
      StrictPairsToBreakAreLenient(bytes, body);
    }
  }

  lemma {:induction false} StrictItemsAreLenient(bytes: seq<byte>, at: nat, n: nat)
    requires at <= |bytes| && Items(bytes, at, n, true).Some?
    ensures Items(bytes, at, n, false) == Items(bytes, at, n, true)
    decreases |bytes| - at, 1
  {
    if n > 0 {
      StrictIsLenient(bytes, at);
      StrictItemsAreLenient(bytes, Item(bytes, at, true).value, n - 1);
    }
  }

  lemma {:induction false} StrictItemsToBreakAreLenient(bytes: seq<byte>, at: nat)
    requires ItemsToBreak(bytes, at, true).Some?
    ensures ItemsToBreak(bytes, at, false) == ItemsToBreak(bytes, at, true)
    decreases |bytes| - at, 1
  {
    if !IsBreak(bytes, at) {
      StrictIsLenient(bytes, at);
      StrictItemsToBreakAreLenient(bytes, Item(bytes, at, true).value);
    }
  }

  lemma {:induction false} StrictPairsToBreakAreLenient(bytes: seq<byte>, at: nat)
    requires PairsToBreak(bytes, at, true).Some?
    ensures PairsToBreak(bytes, at, false) == PairsToBreak(bytes, at, true)
    decreases |bytes| - at, 1
  {
    if !IsBreak(bytes, at) {
      StrictIsLenient(bytes, at);
      var k := Item(bytes, at, true).value;
      StrictIsLenient(bytes, k);
      StrictPairsToBreakAreLenient(bytes, Item(bytes, k, true).value);
    }
  }

  // ---------------------------------------------------------------------
  // Locality: an item means the same wherever its bytes stand
  // ---------------------------------------------------------------------

  /** The `n` bytes from `at` on are the `n` bytes of `other` from `there` on. */
  predicate SameBytes(bytes: seq<byte>, at: nat, other: seq<byte>, there: nat, n: nat) {
    && at + n <= |bytes| && there + n <= |other|
    && bytes[at..at + n] == other[there..there + n]
  }

  lemma SliceOfSlice<T>(s: seq<T>, at: nat, n: nat, skip: nat, m: nat)
    requires at + n <= |s| && skip + m <= n
    ensures s[at + skip..at + skip + m] == s[at..at + n][skip..skip + m]
  {
    var part, direct := s[at..at + n][skip..skip + m], s[at + skip..at + skip + m];
    assert |part| == |direct|;
    forall i | 0 <= i < m
      ensures part[i] == direct[i]
    {
      assert part[i] == s[at..at + n][skip + i];
    }
  }

  lemma SamePart(bytes: seq<byte>, at: nat, other: seq<byte>, there: nat, n: nat, skip: nat, m: nat)
    requires SameBytes(bytes, at, other, there, n) && skip + m <= n
    ensures SameBytes(bytes, at + skip, other, there + skip, m)
  {
    SliceOfSlice(bytes, at, n, skip, m);
    SliceOfSlice(other, there, n, skip, m);
  }

  lemma SameBreak(bytes: seq<byte>, at: nat, other: seq<byte>, there: nat, n: nat)
    requires SameBytes(bytes, at, other, there, n) && n > 0
    ensures IsBreak(bytes, at) == IsBreak(other, there)
  {
    assert bytes[at] == bytes[at..at + n][0] == other[there..there + n][0] == other[there];
  }

  lemma SameHead(bytes: seq<byte>, at: nat, other: seq<byte>, there: nat)
    requires ReadHead(bytes, at).Some? && SameBytes(bytes, at, other, there, ReadHead(bytes, at).value.len)
    ensures ReadHead(other, there) == ReadHead(bytes, at)
  {
    HeadLocal(bytes, at, other, there);
  }

  lemma {:induction false} LaxLocal(bytes: seq<byte>, at: nat, other: seq<byte>, there: nat)
    requires Lax(bytes, at).Some?
    requires SameBytes(bytes, at, other, there, Lax(bytes, at).value - at)
    ensures Lax(other, there) == Some(there + (Lax(bytes, at).value - at))
    decreases |bytes| - at, 0
  {
    hide SameBytes;
    var n := Lax(bytes, at).value - at;
    var h := ReadHead(bytes, at).value;
    SamePart(bytes, at, other, there, n, 0, h.len);
    SameHead(bytes, at, other, there);
    SamePart(bytes, at, other, there, n, h.len, n - h.len);
    LaxBodyLocal(bytes, at + h.len, h, other, there + h.len);
  }

  lemma {:induction false} LaxBodyLocal(bytes: seq<byte>, at: nat, h: Head, other: seq<byte>, there: nat)
    requires at <= |bytes| && there <= |other| && LaxBody(bytes, at, h).Some?
    requires SameBytes(bytes, at, other, there, LaxBody(bytes, at, h).value - at)
    ensures LaxBody(other, there, h) == Some(there + (LaxBody(bytes, at, h).value - at))
    decreases |bytes| - at, 2
  {
    if h.major == 6 {
      LaxLocal(bytes, at, other, there);
    } else if h.argument.None? {
      if h.major >= 2 && h.major != 7 {
        LaxToBreakLocal(bytes, at, other, there);
      }
    } else if h.major == 4 {
      LaxItemsLocal(bytes, at, h.argument.value, other, there);
    } else if h.major == 5 {
      LaxItemsLocal(bytes, at, 2 * h.argument.value, other, there);
    }
  }

  lemma {:induction false} LaxItemsLocal(bytes: seq<byte>, at: nat, count: nat, other: seq<byte>, there: nat)
    requires at <= |bytes| && there <= |other| && LaxItems(bytes, at, count).Some?
    requires SameBytes(bytes, at, other, there, LaxItems(bytes, at, count).value - at)
    ensures LaxItems(other, there, count) == Some(there + (LaxItems(bytes, at, count).value - at))
    decreases |bytes| - at, 1
  {
    hide SameBytes;
    if count > 0 {
      var e := Lax(bytes, at).value;
      var n := LaxItems(bytes, at, count).value - at;
      SamePart(bytes, at, other, there, n, 0, e - at);
      LaxLocal(bytes, at, other, there);
      SamePart(bytes, at, other, there, n, e - at, n - (e - at));
      LaxItemsLocal(bytes, e, count - 1, other, there + (e - at));
    }
  }

  lemma {:induction false} LaxToBreakLocal(bytes: seq<byte>, at: nat, other: seq<byte>, there: nat)
    requires LaxToBreak(bytes, at).Some?
    requires SameBytes(bytes, at, other, there, LaxToBreak(bytes, at).value - at)
    ensures LaxToBreak(other, there) == Some(there + (LaxToBreak(bytes, at).value - at))
    decreases |bytes| - at, 1
  {
    hide SameBytes;
    var n := LaxToBreak(bytes, at).value - at;
    SameBreak(bytes, at, other, there, n);
    if !IsBreak(bytes, at) {
      var e := Lax(bytes, at).value;
      SamePart(bytes, at, other, there, n, 0, e - at);
      LaxLocal(bytes, at, other, there);
      SamePart(bytes, at, other, there, n, e - at, n - (e - at));
      LaxToBreakLocal(bytes, e, other, there + (e - at));
    }
  }
}
