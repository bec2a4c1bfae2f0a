/** The raw rows of a value go through its bytes from front to back. */
module RawOrder {
  import opened Wire
  import opened Decoder
  import opened PositionalTree
  import opened RawEmission
  import opened RawNodes

  /** Where the bytes start that a row shows. */
  function StartOf(content: Content): (start: Option<nat>) {
    match content
    case NodeContent(node, _) => if node.Some? then Some(SpanOf(node.value).offset) else None
    case TagContent(node) => if node.Some? then Some(SpanOf(node.value).offset) else None
    case WrapperContent(extent) => if extent.Some? then Some(extent.value.0) else None
    case PairContent(extent) => if extent.Some? then Some(extent.value.0) else None
  }

  /** The rows show bytes between `lo` and `hi`, each no earlier than the row before. */
  predicate InOrder(rows: seq<Shown>, lo: nat, hi: nat) {
    && lo <= hi
    && (forall k | 0 <= k < |rows| :: StartOf(rows[k].content).Some? && lo <= StartOf(rows[k].content).value <= hi)
    && (forall j, k | 0 <= j < k < |rows| :: StartOf(rows[j].content).value <= StartOf(rows[k].content).value)
  }

  lemma OrderJoins(a: seq<Shown>, b: seq<Shown>, lo: nat, mid: nat, hi: nat)
    requires InOrder(a, lo, mid) && InOrder(b, mid, hi)
    ensures InOrder(a + b, lo, hi)
  {
    hide StartOf;
  }

  lemma OrderWidens(rows: seq<Shown>, lo: nat, hi: nat, lower: nat, higher: nat)
    requires InOrder(rows, lo, hi) && lower <= lo && hi <= higher
    ensures InOrder(rows, lower, higher)
  {
    hide StartOf;
  }

  lemma OneRow(row: Shown, at: nat)
    requires StartOf(row.content) == Some(at)
    ensures InOrder([row], at, at)
  {
  }

  /** Where the item `i` of an array or the key of entry `i` of a map starts. */
  lemma ItemStarts(bytes: seq<byte>, n: Node, i: nat)
    requires n.ArrayNode? && Describes(bytes, SpanOf(n).offset, n) && i < |ItemsOf(n.len, n.values)|
    ensures SpanOf(n).offset <= SpanOf(n.values[i]).offset <= NodeEnd(n.values[i]) <= NodeEnd(n)
    ensures i > 0 ==> NodeEnd(n.values[i - 1]) == SpanOf(n.values[i]).offset
  {
    hide PullHead, Describes;
    var items := ItemsOf(n.len, n.values);
    var at := SpanOf(n).offset;
    var from, to := ItemsTile(bytes, n);
    EdgesGrow(bytes, from, items, i, to);
    DescribedSpan(bytes, Edge(from, items, i), items[i]);
  }

  lemma ItemsTile(bytes: seq<byte>, n: Node) returns (from: nat, to: nat)
    requires n.ArrayNode? && Describes(bytes, SpanOf(n).offset, n)
    ensures Tile(bytes, from, ItemsOf(n.len, n.values), to) && SpanOf(n).offset <= from && to <= NodeEnd(n)
  {
    hide PullHead, Tile;
    from := SpanOf(n).offset + PullHead(bytes, SpanOf(n).offset).h.len;
    to := if n.len.Some? then NodeEnd(n) else NodeEnd(n) - 1;
    assert ValuesFill(bytes, from, n.len, n.values, NodeEnd(n));
  }

  lemma {:induction false} EdgesGrow(bytes: seq<byte>, from: nat, items: seq<Node>, i: nat, to: nat)
    requires Tile(bytes, from, items, to) && i < |items|
    ensures from <= Edge(from, items, i) == SpanOf(items[i]).offset <= NodeEnd(items[i]) <= to
    decreases |items| - i
  {
    hide Describes;
    DescribedSpan(bytes, Edge(from, items, i), items[i]);
    StartsBehind(bytes, from, items, i, to);
    if i + 1 < |items| {
      EdgesGrow(bytes, from, items, i + 1, to);
    }
  }

  lemma {:induction false} StartsBehind(bytes: seq<byte>, from: nat, items: seq<Node>, i: nat, to: nat)
    requires Tile(bytes, from, items, to) && i < |items|
    ensures from <= Edge(from, items, i)
    decreases i
  {
    hide Describes;
    if i > 0 {
      StartsBehind(bytes, from, items, i - 1, to);
      DescribedSpan(bytes, Edge(from, items, i - 1), items[i - 1]);
    }
  }

  lemma PairsTile(bytes: seq<byte>, n: Node) returns (from: nat, to: nat)
    requires n.MapNode? && Describes(bytes, SpanOf(n).offset, n)
    ensures TilePairs(bytes, from, ItemsOf(n.len, n.entries), to) && SpanOf(n).offset <= from && to <= NodeEnd(n)
  {
    hide PullHead, TilePairs;
    from := SpanOf(n).offset + PullHead(bytes, SpanOf(n).offset).h.len;
    to := if n.len.Some? then NodeEnd(n) else NodeEnd(n) - 1;
    assert EntriesFill(bytes, from, n.len, n.entries, NodeEnd(n));
  }

  lemma {:induction false} PairsGrow(bytes: seq<byte>, from: nat, pairs: seq<Entry>, i: nat, to: nat)
    requires TilePairs(bytes, from, pairs, to) && i < |pairs|
    ensures EntryEdge(from, pairs, i) == SpanOf(pairs[i].key).offset <= NodeEnd(pairs[i].value) <= to
    decreases |pairs| - i
  {
    hide Describes;
    var at := EntryEdge(from, pairs, i);
    assert DescribesPair(bytes, at, pairs[i]);
    DescribedSpan(bytes, at, pairs[i].key);
    DescribedSpan(bytes, NodeEnd(pairs[i].key), pairs[i].value);
    if i + 1 < |pairs| {
      PairsGrow(bytes, from, pairs, i + 1, to);
    }
  }

  lemma {:induction false} PairsBehind(bytes: seq<byte>, from: nat, pairs: seq<Entry>, i: nat, to: nat)
    requires TilePairs(bytes, from, pairs, to) && i <= |pairs|
    ensures from <= EntryEdge(from, pairs, i)
    decreases i
  {
    hide Describes;
    if i > 0 {
      PairsBehind(bytes, from, pairs, i - 1, to);
      var at := EntryEdge(from, pairs, i - 1);
      assert DescribesPair(bytes, at, pairs[i - 1]);
      DescribedSpan(bytes, at, pairs[i - 1].key);
      DescribedSpan(bytes, NodeEnd(pairs[i - 1].key), pairs[i - 1].value);
    }
  }

  lemma PairStarts(bytes: seq<byte>, n: Node, i: nat)
    requires n.MapNode? && Describes(bytes, SpanOf(n).offset, n) && i < |ItemsOf(n.len, n.entries)|
    ensures n.entries[i].Pair?
    ensures SpanOf(n).offset <= SpanOf(n.entries[i].key).offset <= NodeEnd(n.entries[i].value) <= NodeEnd(n)
    ensures i > 0 ==> n.entries[i - 1].Pair? && NodeEnd(n.entries[i - 1].value) == SpanOf(n.entries[i].key).offset
  {
    hide Describes;
    var pairs := ItemsOf(n.len, n.entries);
    var from, to := PairsTile(bytes, n);
    PairsGrow(bytes, from, pairs, i, to);
    PairsBehind(bytes, from, pairs, i, to);
    if i > 0 {
      assert pairs[i - 1] == n.entries[i - 1];
    }
  }

  /** The rows of a value go through its bytes from front to back. */
  lemma {:induction false} NodeRowsInOrder(bytes: seq<byte>, show: Node -> string, c: Cbor, n: Node, p: string,
                                           q: string,
                                           span: Extent)
    requires SpelledBy(bytes, show, n, c)
    ensures InOrder(NodeRows(c, Some(n), p, q, span), SpanOf(n).offset, NodeEnd(n))
    decreases c, 1, 0
  {
    hide InOrder, ChildRows, Spells, Describes;
    var at := SpanOf(n).offset;
    var own := Shown(p, q, NodeContent(Some(n), span));
    DescribedSpan(bytes, at, n);
    OneRow(own, at);
    ChildRowsInOrder(bytes, show, c, n, p, q);
    OrderJoins([own], ChildRows(c, Some(n), p, q), at, at, NodeEnd(n));
  }

  lemma {:induction false} ChildRowsInOrder(bytes: seq<byte>, show: Node -> string, c: Cbor, n: Node, p: string,
                                            q: string)
    requires SpelledBy(bytes, show, n, c)
    ensures InOrder(ChildRows(c, Some(n), p, q), SpanOf(n).offset, NodeEnd(n))
    decreases c, 0, 0
  {
    hide InOrder, NodeRows, ItemRows, MemberRows, PairRows, NeedsEntries, Describes, TagPayload, PayloadOf;
    var at, end := SpanOf(n).offset, NodeEnd(n);
    DescribedSpan(bytes, at, n);
    NoRows(at, end);
    match c
    case Items(items) =>
      ItemRowsInOrder(bytes, show, items, n, 0, p, q);
      OrderWidens(ItemRows(items, Some(n), 0, p, q), ItemCut(n, 0), end, at, end);
    case Entries(entries) =>
      if NeedsEntries(entries) {
        var own := Shown(p, q + ENTRIES, WrapperContent(NodeExtent(Some(n))));
        OneRow(own, at);
        PairRowsInOrder(bytes, show, entries, n, 0, p, q + ENTRIES);
        OrderWidens(PairRows(entries, Some(n), 0, p, q + ENTRIES), PairCut(n, 0), end, at, end);
        OrderJoins([own], PairRows(entries, Some(n), 0, p, q + ENTRIES), at, at, end);
      } else {
        MemberRowsInOrder(bytes, show, entries, n, 0, p, q);
        OrderWidens(MemberRows(entries, Some(n), 0, p, q), PairCut(n, 0), end, at, end);
      }
    case Tagged(tag, inner) =>
      var own := Shown(p, q + TAG, TagContent(Some(n)));
      OneRow(own, at);
      PayloadBeside(bytes, show, n, tag, inner);
      NodeRowsInOrder(bytes, show, inner, PayloadOf(n).value, p, q + VALUE, None);
      PayloadStarts(bytes, n);
      var rows := NodeRows(inner, TagPayload(Some(n)), p, q + VALUE, None);
      OrderWidens(rows, SpanOf(PayloadOf(n).value).offset, NodeEnd(PayloadOf(n).value), at, end);
      OrderJoins([own], rows, at, at, end);
    case SimpleValue(_) =>
      var own := Shown(p, q + SIMPLE, NodeContent(Some(n), None));
      OneRow(own, at);
      OrderWidens([own], at, at, at, end);
    case Scalar(_) =>
  }

  lemma NoRows(lo: nat, hi: nat)
    requires lo <= hi
    ensures InOrder([], lo, hi)
  {
  }

  lemma PayloadStarts(bytes: seq<byte>, n: Node)
    requires n.TagNode? && Describes(bytes, SpanOf(n).offset, n)
    ensures PayloadOf(n).Some? && SpanOf(n).offset <= SpanOf(PayloadOf(n).value).offset
    ensures NodeEnd(PayloadOf(n).value) == NodeEnd(n)
  {
    hide PullHead, TagOddities;
    var from := SpanOf(n).offset + PullHead(bytes, SpanOf(n).offset).h.len;
    assert Describes(bytes, from, n.inner.value);
    DescribedSpan(bytes, from, n.inner.value);
  }

  /** Where the part behind the first `i` items starts. */
  function ItemCut(n: Node, i: nat): (at: nat)
    requires n.ArrayNode? && i <= |ItemsOf(n.len, n.values)|
  {
    if i == |ItemsOf(n.len, n.values)| then NodeEnd(n)
    else if i == 0 then SpanOf(n).offset
    else SpanOf(n.values[i]).offset
  }

  lemma {:induction false} ItemRowsInOrder(bytes: seq<byte>, show: Node -> string, items: seq<Cbor>, n: Node, i: nat,
                                           p: string, q: string)
    requires i <= |items| && SpelledBy(bytes, show, n, Items(items))
    ensures |ItemsOf(n.len, n.values)| == |items|
    ensures InOrder(ItemRows(items, Some(n), i, p, q), ItemCut(n, i), NodeEnd(n))
    decreases items, 0, |items| - i
  {
    hide InOrder, NodeRows, ItemNode, ItemOf, Describes, IndexSegment;
    SameCounts(show, n, items);
    if i < |items| {
      ItemBeside(bytes, show, n, items, i);
      var child, text := ItemOf(n, i).value, IndexSegment(i);
      ItemIs(n, i);
      NodeRowsInOrder(bytes, show, items[i], child, p + text, q + text, None);
      ItemStarts(bytes, n, i);
      if i + 1 < |items| {
        ItemStarts(bytes, n, i + 1);
      }
      var first := NodeRows(items[i], ItemNode(Some(n), i), p + text, q + text, None);
      OrderWidens(first, SpanOf(child).offset, NodeEnd(child), ItemCut(n, i), ItemCut(n, i + 1));
      ItemRowsInOrder(bytes, show, items, n, i + 1, p, q);
      OrderJoins(first, ItemRows(items, Some(n), i + 1, p, q), ItemCut(n, i), ItemCut(n, i + 1), NodeEnd(n));
    } else {
      NoRows(NodeEnd(n), NodeEnd(n));
    }
  }

  lemma SameCounts(show: Node -> string, n: Node, items: seq<Cbor>)
    requires Spells(show, n, Items(items))
    ensures n.ArrayNode? && |ItemsOf(n.len, n.values)| == |items|
  {
    assert SpellItems(show, ItemsOf(n.len, n.values), items);
  }

  lemma ItemIs(n: Node, i: nat)
    requires n.ArrayNode? && i < |ItemsOf(n.len, n.values)|
    ensures ItemOf(n, i) == Some(n.values[i])
  {
  }

  lemma SamePairs(show: Node -> string, n: Node, entries: seq<Assoc>)
    requires Spells(show, n, Entries(entries))
    ensures n.MapNode? && |ItemsOf(n.len, n.entries)| == |entries|
  {
    assert SpellEntries(show, ItemsOf(n.len, n.entries), entries);
  }

  /** Where the part behind the first `i` entries starts. */
  function PairCut(n: Node, i: nat): (at: nat)
    requires n.MapNode? && i <= |ItemsOf(n.len, n.entries)|
  {
    if i == |ItemsOf(n.len, n.entries)| then NodeEnd(n)
    else if i == 0 || !n.entries[i].Pair? then SpanOf(n).offset
    else SpanOf(n.entries[i].key).offset
  }

  /** An entry's bytes lie between its cuts, the key's before the value's. */
  lemma EntryLies(bytes: seq<byte>, show: Node -> string, n: Node, entries: seq<Assoc>, i: nat)
    requires SpelledBy(bytes, show, n, Entries(entries)) && i < |entries|
    ensures n.MapNode? && |ItemsOf(n.len, n.entries)| == |entries| && PairOf(n, i).Some?
    ensures var (key, value) := PairOf(n, i).value;
            PairCut(n, i) <= SpanOf(key).offset <= NodeEnd(key)
              == SpanOf(value).offset <= NodeEnd(value) <= PairCut(n, i + 1)
  {
    hide Describes, PairNode, PairExtent;
    SamePairs(show, n, entries);
    PairBeside(bytes, show, n, entries, i);
    PairStarts(bytes, n, i);
    if i + 1 < |entries| {
      PairStarts(bytes, n, i + 1);
    }
  }

  lemma {:induction false} MemberRowsInOrder(bytes: seq<byte>, show: Node -> string, entries: seq<Assoc>, n: Node,
                                             i: nat,
                                             p: string, q: string)
    requires i <= |entries| && SpelledBy(bytes, show, n, Entries(entries))
    ensures n.MapNode? && |ItemsOf(n.len, n.entries)| == |entries|
    ensures InOrder(MemberRows(entries, Some(n), i, p, q), PairCut(n, i), NodeEnd(n))
    decreases entries, 0, |entries| - i
  {
    hide InOrder, NodeRows, PairNode, PairOf, SpelledBy, CborSegment, DecodedSegment, JsonKey, PairCut, PairExtent;
    CountsOf(bytes, show, n, entries);
    if i < |entries| {
      PairBeside(bytes, show, n, entries, i);
      EntryLies(bytes, show, n, entries, i);
      var value, name := PairOf(n, i).value.1, JsonKey(entries[i].key);
      MemberInOrder(bytes, show, entries[i], value, p, q);
      var first := MemberRow(entries[i], Some(value), p, q);
      OrderWidens(first, SpanOf(value).offset, NodeEnd(value), PairCut(n, i), PairCut(n, i + 1));
      MemberRowsInOrder(bytes, show, entries, n, i + 1, p, q);
      OrderJoins(first, MemberRows(entries, Some(n), i + 1, p, q), PairCut(n, i), PairCut(n, i + 1), NodeEnd(n));
    } else {
      NoRows(NodeEnd(n), NodeEnd(n));
    }
  }

  lemma CountsOf(bytes: seq<byte>, show: Node -> string, n: Node, entries: seq<Assoc>)
    requires SpelledBy(bytes, show, n, Entries(entries))
    ensures n.MapNode? && |ItemsOf(n.len, n.entries)| == |entries| && PairCut(n, |entries|) == NodeEnd(n)
  {
    hide Describes;
    SamePairs(show, n, entries);
  }

  lemma {:induction false} MemberInOrder(bytes: seq<byte>, show: Node -> string, e: Assoc, value: Node, p: string,
                                         q: string)
    requires SpelledBy(bytes, show, value, e.value)
    ensures InOrder(MemberRow(e, Some(value), p, q), SpanOf(value).offset, NodeEnd(value))
    decreases e, 0, 0
  {
    hide InOrder, SpelledBy, NodeRows, CborSegment, DecodedSegment, JsonKey;
    var name := JsonKey(e.key);
    NodeRowsInOrder(bytes, show, e.value, value, p + CborSegment(name), q + DecodedSegment(name), None);
  }

  lemma {:induction false} PairRowsInOrder(bytes: seq<byte>, show: Node -> string, entries: seq<Assoc>, n: Node, i: nat,
                                           p: string, q: string)
    requires i <= |entries| && SpelledBy(bytes, show, n, Entries(entries))
    ensures n.MapNode? && |ItemsOf(n.len, n.entries)| == |entries|
    ensures InOrder(PairRows(entries, Some(n), i, p, q), PairCut(n, i), NodeEnd(n))
    decreases entries, 0, |entries| - i
  {
    hide InOrder, PairRow, PairNode, PairOf, SpelledBy, IndexSegment, PairCut, PairExtent;
    CountsOf(bytes, show, n, entries);
    if i < |entries| {
      PairBeside(bytes, show, n, entries, i);
      EntryLies(bytes, show, n, entries, i);
      var (key, value) := PairOf(n, i).value;
      PairInOrder(bytes, show, entries[i], key, value, p, q + IndexSegment(i));
      var extent := PairExtent(Some(n), i);
      var first := PairRow(entries[i], Some(key), Some(value), extent, p, q + IndexSegment(i));
      OrderWidens(first, SpanOf(key).offset, NodeEnd(value), PairCut(n, i), PairCut(n, i + 1));
      PairRowsInOrder(bytes, show, entries, n, i + 1, p, q);
      OrderJoins(first, PairRows(entries, Some(n), i + 1, p, q), PairCut(n, i), PairCut(n, i + 1), NodeEnd(n));
    } else {
      NoRows(NodeEnd(n), NodeEnd(n));
    }
  }

  lemma {:induction false} PairInOrder(bytes: seq<byte>, show: Node -> string, e: Assoc, key: Node, value: Node,
                                       p: string,
                                       q: string)
    requires SpelledBy(bytes, show, key, e.key) && SpelledBy(bytes, show, value, e.value)
    requires SpanOf(value).offset == NodeEnd(key)
    ensures var extent := Some((SpanOf(key).offset, SpanOf(key).length + SpanOf(value).length));
            InOrder(PairRow(e, Some(key), Some(value), extent, p, q), SpanOf(key).offset, NodeEnd(value))
    decreases e, 0, 0
  {
    hide InOrder, SpelledBy, NodeRows, DecodedSegment;
    var extent := Some((SpanOf(key).offset, SpanOf(key).length + SpanOf(value).length));
    var own := Shown(p, q, PairContent(extent));
    var keys := NodeRows(e.key, Some(key), p, q + DecodedSegment("key"), None);
    var values := NodeRows(e.value, Some(value), p, q + DecodedSegment("value"), None);
    OneRow(own, SpanOf(key).offset);
    NodeRowsInOrder(bytes, show, e.key, key, p, q + DecodedSegment("key"), None);
    NodeRowsInOrder(bytes, show, e.value, value, p, q + DecodedSegment("value"), None);
    OrderJoins([own], keys, SpanOf(key).offset, SpanOf(key).offset, NodeEnd(key));
    OrderJoins([own] + keys, values, SpanOf(key).offset, NodeEnd(key), NodeEnd(value));
  }
}
