/** Header-level navigation: finding the end of an item, the items of an array,
    the entries of a map and the ledger size of a transaction by reading headers
    only, with the open containers counted on the heap. */
module Navigation {
  import opened Wire
  import opened WellFormed

  // ---------------------------------------------------------------------
  // skip_item
  // ---------------------------------------------------------------------

  /** What is left to read of the containers in `open`, innermost last, from
      `i` on: the number of items each still expects, or `None` until a break. */
  function Finish(bytes: seq<byte>, i: nat, open: seq<Option<nat>>): (r: Option<nat>)
    requires i <= |bytes|
    decreases |open|
  {
    if open == [] then Some(i)
    else
      var outer := open[..|open| - 1];
      var inner := match open[|open| - 1]
        case Some(n) => LaxItems(bytes, i, n)
        case None => LaxToBreak(bytes, i);
      match inner
      case None => None
      case Some(e) => Finish(bytes, e, outer)
  }

  /** What `skip_item` still has to do at its loop head. */
  function Pending(bytes: seq<byte>, i: nat, open: seq<Option<nat>>): (r: Option<nat>)
    requires i <= |bytes|
  {
    if open == [] then Lax(bytes, i) else Finish(bytes, i, open)
  }

  predicate Expecting(open: seq<Option<nat>>) {
    open != [] ==> open[|open| - 1] != Some(0)
  }

  /** The stack after the header of one more item is taken by its innermost
      container. */
  function Taken(open: seq<Option<nat>>): (r: seq<Option<nat>>)
    requires Expecting(open)
    ensures |r| == |open|
  {
    if open != [] && open[|open| - 1].Some? then open[|open| - 1 := Some(open[|open| - 1].value - 1)]
    else open
  }

  /** One item read over a stack only counts down the innermost container. */
  lemma TakeOne(bytes: seq<byte>, i: nat, open: seq<Option<nat>>)
    requires i <= |bytes| && Expecting(open) && !IsBreak(bytes, i)
    ensures Pending(bytes, i, open) == FinishAfter(bytes, Lax(bytes, i), Taken(open))
  {
    if open != [] {
      assert Taken(open)[..|open| - 1] == open[..|open| - 1];
    }
  }

  lemma NoItem(bytes: seq<byte>, i: nat, open: seq<Option<nat>>)
    requires i <= |bytes| && Expecting(open) && ReadHead(bytes, i).None?
    ensures Pending(bytes, i, open).None?
  {
    TakeOne(bytes, i, open);
  }

  lemma TakeBreak(bytes: seq<byte>, i: nat, open: seq<Option<nat>>)
    requires i <= |bytes| && Expecting(open) && IsBreak(bytes, i)
    ensures Pending(bytes, i, open)
         == if open != [] && open[|open| - 1].None? then Finish(bytes, i + 1, open[..|open| - 1]) else None
  {
    assert Lax(bytes, i).None? by {
      assert ReadHead(bytes, i) == Some(Head(7, None, 1));
    }
  }

  /** The stack entry the header `h` opens, or `None` for an item without
      items of its own. */
  function Opens(h: Head): (r: Option<Option<nat>>) {
    match h.major
    case 2 => if h.argument.None? then Some(None) else None
    case 3 => if h.argument.None? then Some(None) else None
    case 4 => if h.argument == Some(0) then None else Some(h.argument)
    case 5 =>
      if h.argument == Some(0) then None
      else if h.argument.Some? then Some(Some(2 * h.argument.value))
      else Some(None)
    case 6 => Some(Some(1))
    case _ => None
  }

  /** Finish `open` from wherever the innermost item was found to end. */
  function FinishAfter(bytes: seq<byte>, end: Option<nat>, open: seq<Option<nat>>): (r: Option<nat>)
    requires end.Some? ==> end.value <= |bytes|
  {
    if end.None? then None else Finish(bytes, end.value, open)
  }

  /** Pushing what a header opens is the same as reading its content. */
  lemma PushOpened(bytes: seq<byte>, i: nat, h: Head, open: seq<Option<nat>>)
    requires i <= |bytes| && Opens(h).Some?
    ensures FinishAfter(bytes, LaxBody(bytes, i, h), open) == Finish(bytes, i, open + [Opens(h).value])
  {
    assert (open + [Opens(h).value])[..|open|] == open;
    if h.major == 6 && Lax(bytes, i).Some? {
      assert LaxItems(bytes, Lax(bytes, i).value, 0) == Lax(bytes, i);
    }
  }

  /** More items than there are bytes left cannot follow. */
  lemma TooManyItems(bytes: seq<byte>, at: nat, n: nat)
    requires at <= |bytes| && n > |bytes| - at
    ensures LaxItems(bytes, at, n).None?
  {
  }

  lemma PayloadOutside(bytes: seq<byte>, i: nat, h: Head)
    requires i <= |bytes| && h.major in {2, 3} && h.argument.Some?
    ensures LaxBody(bytes, i, h)
         == if i + h.argument.value <= |bytes| then Some(i + h.argument.value) else None
  {
  }

  lemma LeafBody(bytes: seq<byte>, i: nat, h: Head)
    requires i <= |bytes| && Opens(h).None? && h.major < 8
    requires !(h.major == 7 && h.argument.None?) && !(h.major in {2, 3} && h.argument.Some?)
    ensures LaxBody(bytes, i, h) == Some(i)
  {
  }

  /** The branches of `skip_item` on the header `h` just read: step over a
      payload, or push what `h` opens. */
  method SkipBody(bytes: seq<byte>, at: nat, h: Head, open: seq<Option<nat>>)
    returns (failed: bool, i: nat, grown: seq<Option<nat>>)
    requires |bytes| <= ISIZE_MAX && at <= |bytes|
    requires h.major < 8 && !(h.major == 7 && h.argument.None?)
    ensures failed ==> LaxBody(bytes, at, h).None?
    ensures !failed ==> at <= i <= |bytes|
    ensures !failed ==> Finish(bytes, i, grown) == FinishAfter(bytes, LaxBody(bytes, at, h), open)
  {
    failed, i, grown := false, at, open;
    if h.major == 2 || h.major == 3 {
      if h.argument.Some? {
        PayloadOutside(bytes, at, h);
        if h.argument.value > USIZE_MAX || i + h.argument.value > USIZE_MAX {
          return true, i, grown;
        }
        i := i + h.argument.value;
        failed := i > |bytes|;
      } else {
        PushOpened(bytes, at, h, open);
        grown := open + [None];
      }
    } else if h.major == 4 {
      if h.argument == Some(0) {
        LeafBody(bytes, at, h);
      } else {
        PushOpened(bytes, at, h, open);
        grown := open + [h.argument];
      }
    } else if h.major == 5 {
      if h.argument.None? {
        PushOpened(bytes, at, h, open);
        grown := open + [None];
      } else if h.argument.value == 0 {
        LeafBody(bytes, at, h);
      } else if 2 * h.argument.value > U64_MAX {
        TooManyItems(bytes, at, 2 * h.argument.value);
        failed := true;
      } else {
        PushOpened(bytes, at, h, open);
        grown := open + [Some(2 * h.argument.value)];
      }
    } else if h.major == 6 {
      PushOpened(bytes, at, h, open);
      grown := open + [Some(1)];
    } else {
      LeafBody(bytes, at, h);
    }
  }

  /** One item is stepped over. The counter stack does exactly what the
      recursive framing says, on every input, and no counter drops below zero. */
  method SkipItem(bytes: seq<byte>, at: nat) returns (r: Option<nat>)
    requires |bytes| <= ISIZE_MAX
    ensures r == Lax(bytes, at)
  {
    if at > |bytes| {
      return None;
    }
    hide Lax, LaxBody, LaxItems, LaxToBreak, ReadHead;
    var i := at;
    var open: seq<Option<nat>> := [];
    while true
      invariant i <= |bytes| && Expecting(open)
      invariant Lax(bytes, at) == Pending(bytes, i, open)
      decreases |bytes| - i
    {
      var header := ReadHead(bytes, i);
      if header.None? {
        NoItem(bytes, i, open);
        return None;
      }
      var h := header.value;
      if h.major == 7 && h.argument.None? {
        TakeBreak(bytes, i, open);
        i := i + 1;
        if open == [] || open[|open| - 1].Some? {
          return None;
        }
        open := open[..|open| - 1];
      } else {
        TakeOne(bytes, i, open);
        i := i + h.len;
        open := Taken(open);
        var done, end, grown := SkipBody(bytes, i, h, open);
        if done {
          return None;
        }
        i, open := end, grown;
      }
      while open != [] && open[|open| - 1] == Some(0)
        invariant Lax(bytes, at) == Finish(bytes, i, open)
        decreases |open|
      {
        open := open[..|open| - 1];
      }
      if open == [] {
        return Some(i);
      }
    }
  }

  // ---------------------------------------------------------------------
  // Items of an array, entries of a map
  // ---------------------------------------------------------------------

  function StartsOf(bytes: seq<byte>, at: nat, n: nat): (r: Option<seq<nat>>)
    ensures r.Some? ==> |r.value| == n
    decreases |bytes| - at
  {
    if n == 0 then Some([])
    else
      match Lax(bytes, at)
      case None => None
      case Some(e) => Before([at], StartsOf(bytes, e, n - 1))
  }

  function StartsToBreak(bytes: seq<byte>, at: nat): (r: Option<seq<nat>>)
    decreases |bytes| - at
  {
    if IsBreak(bytes, at) then Some([])
    else
      match Lax(bytes, at)
      case None => None
      case Some(e) => Before([at], StartsToBreak(bytes, e))
  }

  function Before<T>(first: seq<T>, rest: Option<seq<T>>): (r: Option<seq<T>>) {
    match rest
    case None => None
    case Some(s) => Some(first + s)
  }

  lemma NothingBefore<T>(rest: Option<seq<T>>)
    ensures Before([], rest) == rest
  {
    if rest.Some? {
      assert [] + rest.value == rest.value;
    }
  }

  lemma NothingAfter<T>(first: seq<T>)
    ensures Before(first, Some([])) == Some(first)
  {
    assert first + [] == first;
  }

  lemma BeforeBoth<T>(first: seq<T>, second: seq<T>, rest: Option<seq<T>>)
    ensures Before(first, Before(second, rest)) == Before(first + second, rest)
  {
    if rest.Some? {
      assert first + (second + rest.value) == first + second + rest.value;
    }
  }

  /** The starting offsets of an array's elements, if an array that the framing
      follows to its end stands at `at`. */
  function ElementStarts(bytes: seq<byte>, at: nat): (r: Option<seq<nat>>) {
    match ReadHead(bytes, at)
    case None => None
    case Some(h) =>
      if h.major != 4 then None
      else if h.argument.None? then StartsToBreak(bytes, at + h.len)
      else StartsOf(bytes, at + h.len, h.argument.value)
  }

  /** `starts` are items lying side by side from `from` up to `to`. */
  predicate Tiles(bytes: seq<byte>, starts: seq<nat>, from: nat, to: nat) {
    if starts == [] then from == to
    else starts[0] == from && Lax(bytes, from).Some? && Tiles(bytes, starts[1..], Lax(bytes, from).value, to)
  }

  lemma {:induction false} StartsTile(bytes: seq<byte>, at: nat, n: nat)
    requires at <= |bytes|
    ensures StartsOf(bytes, at, n).Some? <==> LaxItems(bytes, at, n).Some?
    ensures StartsOf(bytes, at, n).Some? ==>
              Tiles(bytes, StartsOf(bytes, at, n).value, at, LaxItems(bytes, at, n).value)
    decreases |bytes| - at
  {
    if n > 0 && Lax(bytes, at).Some? {
      StartsTile(bytes, Lax(bytes, at).value, n - 1);
    }
  }

  lemma {:induction false} StartsToBreakTile(bytes: seq<byte>, at: nat)
    ensures StartsToBreak(bytes, at).Some? <==> LaxToBreak(bytes, at).Some?
    ensures StartsToBreak(bytes, at).Some? ==>
              Tiles(bytes, StartsToBreak(bytes, at).value, at, LaxToBreak(bytes, at).value - 1)
    decreases |bytes| - at
  {
    if !IsBreak(bytes, at) && Lax(bytes, at).Some? {
      StartsToBreakTile(bytes, Lax(bytes, at).value);
    }
  }

  /** The bytes between an item's header and the end of its content, leaving out
      the break of an indefinite-length one. */
  function ContentEnd(bytes: seq<byte>, at: nat): (r: nat)
    requires Lax(bytes, at).Some?
  {
    if ReadHead(bytes, at).value.argument.None? then Lax(bytes, at).value - 1 else Lax(bytes, at).value
  }

  /** An array's items can be listed exactly when the array can be skipped, and
      then they tile it from the end of its header to its end (a break apart). */
  lemma ElementsTileTheArray(bytes: seq<byte>, at: nat)
    ensures ElementStarts(bytes, at).Some?
       <==> ReadHead(bytes, at).Some? && ReadHead(bytes, at).value.major == 4 && Lax(bytes, at).Some?
    ensures ElementStarts(bytes, at).Some? ==>
              Tiles(bytes, ElementStarts(bytes, at).value, at + ReadHead(bytes, at).value.len, ContentEnd(bytes, at))
  {
    match ReadHead(bytes, at)
    case None =>
    case Some(h) =>
      if h.major == 4 {
        if h.argument.None? {
          StartsToBreakTile(bytes, at + h.len);
        } else {
          StartsTile(bytes, at + h.len, h.argument.value);
        }
      }
  }

  method ArrayElementOffsets(bytes: seq<byte>, at: nat) returns (r: Option<seq<nat>>)
    requires |bytes| <= ISIZE_MAX
    ensures r == ElementStarts(bytes, at)
  {
    var header := ReadHead(bytes, at);
    if header.None? || header.value.major != 4 {
      return None;
    }
    var offsets: seq<nat> := [];
    var i: nat := at + header.value.len;
    ghost var body := i;
    if header.value.argument.Some? {
      var count := header.value.argument.value;
      var taken: nat := 0;
      NothingBefore(StartsOf(bytes, i, count));
      while taken < count
        invariant taken <= count
        invariant StartsOf(bytes, body, count) == Before(offsets, StartsOf(bytes, i, count - taken))
      {
        var end := SkipItem(bytes, i);
        if end.None? {
          return None;
        }
        BeforeBoth(offsets, [i], StartsOf(bytes, end.value, count - taken - 1));
        offsets := offsets + [i];
        i := end.value;
        taken := taken + 1;
      }
    } else {
      NothingBefore(StartsToBreak(bytes, i));
      while !IsBreak(bytes, i)
        invariant StartsToBreak(bytes, body) == Before(offsets, StartsToBreak(bytes, i))
        decreases |bytes| - i
      {
        var end := SkipItem(bytes, i);
        if end.None? {
          return None;
        }
        BeforeBoth(offsets, [i], StartsToBreak(bytes, end.value));
        offsets := offsets + [i];
        i := end.value;
      }
    }
    NothingAfter(offsets);
    return Some(offsets);
  }

  function PairsOf(bytes: seq<byte>, at: nat, n: nat): (r: Option<seq<(nat, nat)>>)
    ensures r.Some? ==> |r.value| == n
    decreases |bytes| - at
  {
    if n == 0 then Some([])
    else
      match Lax(bytes, at)
      case None => None
      case Some(v) =>
        match Lax(bytes, v)
        case None => None
        case Some(e) => Before([(at, v)], PairsOf(bytes, e, n - 1))
  }

  function EntriesToBreak(bytes: seq<byte>, at: nat): (r: Option<seq<(nat, nat)>>)
    decreases |bytes| - at
  {
    if IsBreak(bytes, at) then Some([])
    else
      match Lax(bytes, at)
      case None => None
      case Some(v) =>
        match Lax(bytes, v)
        case None => None
        case Some(e) => Before([(at, v)], EntriesToBreak(bytes, e))
  }

  /** Where the keys and values of the map at `at` start. */
  function EntryStarts(bytes: seq<byte>, at: nat): (r: Option<seq<(nat, nat)>>) {
    match ReadHead(bytes, at)
    case None => None
    case Some(h) =>
      if h.major != 5 then None
      else if h.argument.None? then EntriesToBreak(bytes, at + h.len)
      else PairsOf(bytes, at + h.len, h.argument.value)
  }

  predicate PairTiles(bytes: seq<byte>, entries: seq<(nat, nat)>, from: nat, to: nat) {
    if entries == [] then from == to
    else
      && entries[0].0 == from && Lax(bytes, from) == Some(entries[0].1)
      && Lax(bytes, entries[0].1).Some?
      && PairTiles(bytes, entries[1..], Lax(bytes, entries[0].1).value, to)
  }

  /** How many items stand before the break. */
  function CountToBreak(bytes: seq<byte>, at: nat): (n: nat)
    requires LaxToBreak(bytes, at).Some?
    decreases |bytes| - at
  {
    if IsBreak(bytes, at) then 0 else 1 + CountToBreak(bytes, Lax(bytes, at).value)
  }

  predicate EvenToBreak(bytes: seq<byte>, at: nat) {
    LaxToBreak(bytes, at).Some? && CountToBreak(bytes, at) % 2 == 0
  }

  lemma {:induction false} PairsTile(bytes: seq<byte>, at: nat, n: nat)
    requires at <= |bytes|
    ensures PairsOf(bytes, at, n).Some? <==> LaxItems(bytes, at, 2 * n).Some?
    ensures PairsOf(bytes, at, n).Some? ==>
              PairTiles(bytes, PairsOf(bytes, at, n).value, at, LaxItems(bytes, at, 2 * n).value)
    decreases |bytes| - at
  {
    if n > 0 && Lax(bytes, at).Some? {
      var v := Lax(bytes, at).value;
      assert LaxItems(bytes, at, 2 * n) == LaxItems(bytes, v, 2 * n - 1);
      if Lax(bytes, v).Some? {
        PairsTile(bytes, Lax(bytes, v).value, n - 1);
      }
    }
  }

  lemma {:induction false} EntriesToBreakTile(bytes: seq<byte>, at: nat)
    ensures EntriesToBreak(bytes, at).Some? <==> EvenToBreak(bytes, at)
    ensures EntriesToBreak(bytes, at).Some? ==>
              PairTiles(bytes, EntriesToBreak(bytes, at).value, at, LaxToBreak(bytes, at).value - 1)
    decreases |bytes| - at
  {
    if !IsBreak(bytes, at) && Lax(bytes, at).Some? {
      var v := Lax(bytes, at).value;
      assert LaxToBreak(bytes, at) == LaxToBreak(bytes, v);
      if IsBreak(bytes, v) {
        BreakIsNoItem(bytes, v);
        assert CountToBreak(bytes, v) == 0;
      } else if Lax(bytes, v).Some? {
        var e := Lax(bytes, v).value;
        EntriesToBreakTile(bytes, e);
        if LaxToBreak(bytes, e).Some? {
          assert CountToBreak(bytes, v) == 1 + CountToBreak(bytes, e);
          assert CountToBreak(bytes, at) == 1 + CountToBreak(bytes, v);
        }
      }
    }
  }

  lemma BreakIsNoItem(bytes: seq<byte>, at: nat)
    requires IsBreak(bytes, at)
    ensures Lax(bytes, at).None?
  {
    assert ReadHead(bytes, at) == Some(Head(7, None, 1));
  }

  /** A map's entries can be listed exactly when the map can be skipped and,
      for an indefinite-length one, holds a value for its last key; they then
      tile it from header to end. */
  lemma EntriesTileTheMap(bytes: seq<byte>, at: nat)
    ensures EntryStarts(bytes, at).Some?
       <==> && ReadHead(bytes, at).Some? && ReadHead(bytes, at).value.major == 5
            && Lax(bytes, at).Some?
            && (ReadHead(bytes, at).value.argument.None? ==> EvenToBreak(bytes, at + ReadHead(bytes, at).value.len))
    ensures EntryStarts(bytes, at).Some? ==>
              PairTiles(bytes, EntryStarts(bytes, at).value, at + ReadHead(bytes, at).value.len, ContentEnd(bytes, at))
  {
    match ReadHead(bytes, at)
    case None =>
    case Some(h) =>
      if h.major == 5 {
        if h.argument.None? {
          EntriesToBreakTile(bytes, at + h.len);
        } else {
          PairsTile(bytes, at + h.len, h.argument.value);
        }
      }
  }

  method MapEntryOffsets(bytes: seq<byte>, at: nat) returns (r: Option<seq<(nat, nat)>>)
    requires |bytes| <= ISIZE_MAX
    ensures r == EntryStarts(bytes, at)
  {
    var header := ReadHead(bytes, at);
    if header.None? || header.value.major != 5 {
      return None;
    }
    var entries: seq<(nat, nat)> := [];
    var i: nat := at + header.value.len;
    ghost var body := i;
    if header.value.argument.Some? {
      var count := header.value.argument.value;
      var taken: nat := 0;
      NothingBefore(PairsOf(bytes, i, count));
      while taken < count
        invariant taken <= count
        invariant PairsOf(bytes, body, count) == Before(entries, PairsOf(bytes, i, count - taken))
      {
        var value := SkipItem(bytes, i);
        if value.None? {
          return None;
        }
        var end := SkipItem(bytes, value.value);
        if end.None? {
          return None;
        }
        BeforeBoth(entries, [(i, value.value)], PairsOf(bytes, end.value, count - taken - 1));
        entries := entries + [(i, value.value)];
        i := end.value;
        taken := taken + 1;
      }
    } else {
      NothingBefore(EntriesToBreak(bytes, i));
      while !IsBreak(bytes, i)
        invariant EntriesToBreak(bytes, body) == Before(entries, EntriesToBreak(bytes, i))
        decreases |bytes| - i
      {
        var value := SkipItem(bytes, i);
        if value.None? {
          return None;
        }
        var end := SkipItem(bytes, value.value);
        if end.None? {
          return None;
        }
        BeforeBoth(entries, [(i, value.value)], EntriesToBreak(bytes, end.value));
        entries := entries + [(i, value.value)];
        i := end.value;
      }
    }
    NothingAfter(entries);
    return Some(entries);
  }

  // ---------------------------------------------------------------------
  // The ledger's size of a transaction
  // ---------------------------------------------------------------------

  /** The original bytes of the item at `at`. */
  function ItemBytes(bytes: seq<byte>, at: nat): (s: seq<byte>)
    requires Lax(bytes, at).Some?
  {
    bytes[at..Lax(bytes, at).value]
  }

  predicate AllItems(bytes: seq<byte>, starts: seq<nat>) {
    forall k | 0 <= k < |starts| :: Lax(bytes, starts[k]).Some?
  }

  lemma {:induction false} TiledAreItems(bytes: seq<byte>, starts: seq<nat>, from: nat, to: nat)
    requires Tiles(bytes, starts, from, to)
    ensures AllItems(bytes, starts)
  {
    if starts != [] {
      TiledAreItems(bytes, starts[1..], Lax(bytes, from).value, to);
      assert forall k | 1 <= k < |starts| :: starts[k] == starts[1..][k - 1];
    }
  }

  /** The three-element transaction the ledger measures: body, witness set and
      auxiliary data as their original bytes under a one-byte header. */
  function Reencoded(bytes: seq<byte>, starts: seq<nat>): (s: seq<byte>)
    requires |starts| in {3, 4} && AllItems(bytes, starts)
  {
    [0x83] + ItemBytes(bytes, starts[0]) + ItemBytes(bytes, starts[1]) + ItemBytes(bytes, starts[|starts| - 1])
  }

  method LedgerTxSize(bytes: seq<byte>) returns (r: Option<nat>)
    requires |bytes| <= ISIZE_MAX
    ensures r.Some? <==> ElementStarts(bytes, 0).Some? && |ElementStarts(bytes, 0).value| in {3, 4}
    ensures r.Some? ==> AllItems(bytes, ElementStarts(bytes, 0).value)
    ensures r.Some? ==> r.value == |Reencoded(bytes, ElementStarts(bytes, 0).value)|
  {
    ElementsTileTheArray(bytes, 0);
    var offsets := ArrayElementOffsets(bytes, 0);
    if offsets.None? {
      return None;
    }
    var starts := offsets.value;
    TiledAreItems(bytes, starts, ReadHead(bytes, 0).value.len, ContentEnd(bytes, 0));
    var lengths: seq<nat> := [];
    for k := 0 to |starts|
      invariant |lengths| == k
      invariant forall j | 0 <= j < k :: lengths[j] == |ItemBytes(bytes, starts[j])|
    {
      var end := SkipItem(bytes, starts[k]);
      if end.None? {
        return None;
      }
      lengths := lengths + [end.value - starts[k]];
    }
    if |lengths| == 4 {
      return Some(1 + (lengths[0] + lengths[1] + lengths[3]));
    } else if |lengths| == 3 {
      return Some(1 + (lengths[0] + lengths[1] + lengths[2]));
    }
    return None;
  }

  /** What the ledger measures is itself one whole three-element array, of the
      same components byte for byte, however the document framed them. */
  lemma ReencodedIsAnArrayOfThree(bytes: seq<byte>, starts: seq<nat>)
    requires |starts| in {3, 4} && AllItems(bytes, starts)
    ensures var tx := Reencoded(bytes, starts);
      && Lax(tx, 0) == Some(|tx|)
      && ElementStarts(tx, 0).Some? && |ElementStarts(tx, 0).value| == 3
      && AllItems(tx, ElementStarts(tx, 0).value)
      && ItemBytes(tx, ElementStarts(tx, 0).value[0]) == ItemBytes(bytes, starts[0])
      && ItemBytes(tx, ElementStarts(tx, 0).value[1]) == ItemBytes(bytes, starts[1])
      && ItemBytes(tx, ElementStarts(tx, 0).value[2]) == ItemBytes(bytes, starts[|starts| - 1])
  {
    hide Lax, LaxItems, StartsOf, ElementStarts, ReadHead;
    var a, b, c := ItemBytes(bytes, starts[0]), ItemBytes(bytes, starts[1]), ItemBytes(bytes, starts[|starts| - 1]);
    var tx := Reencoded(bytes, starts);
    var second, third := 1 + |a|, 1 + |a| + |b|;
    assert tx[1..1 + |a|] == a && tx[second..second + |b|] == b && tx[third..third + |c|] == c;
    Moved(bytes, starts[0], tx, 1);
    Moved(bytes, starts[1], tx, second);
    Moved(bytes, starts[|starts| - 1], tx, third);
    ThreeInARow(tx, 1, second, third);
    ArrayOfThree(tx, second, third);
  }

  lemma ArrayOfThree(tx: seq<byte>, second: nat, third: nat)
    requires |tx| > 0 && tx[0] == 0x83
    requires LaxItems(tx, 1, 3) == Some(|tx|) && StartsOf(tx, 1, 3) == Some([1, second, third])
    ensures Lax(tx, 0) == Some(|tx|) && ElementStarts(tx, 0) == Some([1, second, third])
  {
    assert ReadHead(tx, 0) == Some(Head(4, Some(3), 1));
  }

  lemma ThreeInARow(bytes: seq<byte>, first: nat, second: nat, third: nat)
    requires first <= |bytes| && Lax(bytes, first) == Some(second) && Lax(bytes, second) == Some(third)
    requires Lax(bytes, third) == Some(|bytes|)
    ensures LaxItems(bytes, first, 3) == Some(|bytes|)
    ensures StartsOf(bytes, first, 3) == Some([first, second, third])
  {
    calc {
      LaxItems(bytes, first, 3);
      LaxItems(bytes, second, 2);
      LaxItems(bytes, third, 1);
      LaxItems(bytes, |bytes|, 0);
    }
    calc {
      StartsOf(bytes, third, 1);
      Before([third], StartsOf(bytes, |bytes|, 0));
      { NothingAfter([third]); }
      Some([third]);
    }
    calc {
      StartsOf(bytes, first, 3);
      Before([first], StartsOf(bytes, second, 2));
      Before([first], Before([second], Some([third])));
      { BeforeBoth([first], [second], Some([third])); assert [first] + [second] + [third] == [first, second, third]; }
      Some([first, second, third]);
    }
  }

  /** An item copied into another document ends where its bytes end. */
  lemma Moved(bytes: seq<byte>, at: nat, other: seq<byte>, there: nat)
    requires Lax(bytes, at).Some? && there + |ItemBytes(bytes, at)| <= |other|
    requires other[there..there + |ItemBytes(bytes, at)|] == ItemBytes(bytes, at)
    ensures Lax(other, there) == Some(there + |ItemBytes(bytes, at)|)
    ensures ItemBytes(other, there) == ItemBytes(bytes, at)
  {
    LaxLocal(bytes, at, other, there);
  }
}
