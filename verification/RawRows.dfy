/** What the raw walk writes: the value's pre-order rows with their full paths,
    all of them or, when a bound is hit, only the first ones. */
module RawRows {
  import opened Wire
  import opened Decoder
  import opened PathTable
  import opened RawEmission

  // ---------------------------------------------------------------------
  // Rows as their reader sees them
  // ---------------------------------------------------------------------

  ghost predicate Readable(s: Scene) {
    && Valid(s.cbor) && Valid(s.decoded)
    && forall k | 0 <= k < |s.rows| :: s.rows[k].cbor < |s.cbor.rows| && s.rows[k].decoded < |s.decoded.rows|
  }

  ghost function Show(s: Scene, row: Written): (r: Shown)
    requires Valid(s.cbor) && Valid(s.decoded) && row.cbor < |s.cbor.rows| && row.decoded < |s.decoded.rows|
  {
    Shown(Resolve(s.cbor.rows, row.cbor), Resolve(s.decoded.rows, row.decoded), row.content)
  }

  ghost function Seen(s: Scene): (rows: seq<Shown>)
    requires Readable(s)
    ensures |rows| == |s.rows| && forall k | 0 <= k < |rows| :: rows[k] == Show(s, s.rows[k])
  {
    seq(|s.rows|, k requires 0 <= k < |s.rows| && Readable(s) => Show(s, s.rows[k]))
  }

  /** Tables that only grew show the same rows. */
  lemma ShownForever(s: Scene, t: Scene, row: Written)
    requires Valid(s.cbor) && Valid(s.decoded) && Valid(t.cbor) && Valid(t.decoded)
    requires s.cbor.rows <= t.cbor.rows && s.decoded.rows <= t.decoded.rows
    requires row.cbor < |s.cbor.rows| && row.decoded < |s.decoded.rows|
    ensures Show(t, row) == Show(s, row)
  {
    var more, others := t.cbor.rows[|s.cbor.rows|..], t.decoded.rows[|s.decoded.rows|..];
    assert t.cbor.rows == s.cbor.rows + more && t.decoded.rows == s.decoded.rows + others;
    ResolveIsForever(s.cbor.rows, more, row.cbor);
    ResolveIsForever(s.decoded.rows, others, row.decoded);
  }

  lemma SeenForever(s: Scene, t: Scene)
    requires Readable(s) && Valid(t.cbor) && Valid(t.decoded) && t.rows == s.rows
    requires s.cbor.rows <= t.cbor.rows && s.decoded.rows <= t.decoded.rows
    ensures Readable(t) && Seen(t) == Seen(s)
  {
    hide Valid, Show;
    forall k | 0 <= k < |s.rows| ensures Show(t, s.rows[k]) == Show(s, s.rows[k]) {
      ShownForever(s, t, s.rows[k]);
    }
  }

  // ---------------------------------------------------------------------
  // How a walk can end
  // ---------------------------------------------------------------------

  /** From `s`, every row of `rows` was written and nothing else changed. */
  ghost predicate Wrote(s: Scene, t: Scene, rows: seq<Shown>)
    requires Readable(s)
  {
    && Readable(t) && !Stopped(t) && Seen(t) == Seen(s) + rows && t.slots == s.slots - |rows|
    && t.cbor.path == s.cbor.path && t.decoded.path == s.decoded.path
    && t.spent == s.spent && t.limit == s.limit
  }

  /** From `s`, a bound stopped the walk inside `rows`; no charge is kept. */
  ghost predicate Halted(s: Scene, t: Scene, rows: seq<Shown>)
    requires Readable(s)
  {
    && Readable(t) && Stopped(t) && Seen(s) <= Seen(t) <= Seen(s) + rows
    && t.spent == s.spent && t.limit == s.limit
  }

  /** All of `rows` are written when there are slots for them and the descent is
      affordable; otherwise the walk is refused. */
  ghost predicate Ends(s: Scene, t: Scene, rows: seq<Shown>, affordable: bool)
    requires Readable(s)
  {
    if |rows| <= s.slots && affordable then Wrote(s, t, rows) else Halted(s, t, rows)
  }

  lemma InOrder(s: Scene, t: Scene, u: Scene, first: seq<Shown>, second: seq<Shown>, a: bool, b: bool)
    requires Readable(s) && Ends(s, t, first, a)
    requires if Stopped(t) then u == t else Readable(t) && Ends(t, u, second, b)
    ensures Ends(s, u, first + second, a && b)
  {
    hide Readable, Stopped;
    if Stopped(t) {
      assert Seen(s) + first <= Seen(s) + (first + second);
    } else {
      assert (Seen(s) + first) + second == Seen(s) + (first + second);
    }
  }

  lemma Unwritten(s: Scene)
    requires Readable(s) && !Stopped(s)
    ensures Ends(s, s, [], true)
  {
    assert Seen(s) + [] == Seen(s);
  }

  // ---------------------------------------------------------------------
  // The primitives
  // ---------------------------------------------------------------------

  lemma RowWritten(s: Scene, content: Content)
    requires Readable(s) && !Stopped(s)
    ensures Ready(s) && Ends(s, EmitRow(s, content), [Shown(s.cbor.path, s.decoded.path, content)], true)
  {
    hide Valid, Show, Resolve;
    InternKeeps(s.cbor);
    InternKeeps(s.decoded);
    var row := Shown(s.cbor.path, s.decoded.path, content);
    if s.slots == 0 {
      SeenForever(s, s.(slotsOut := true));
      assert Seen(s) <= Seen(s) + [row];
    } else {
      var t := EmitRow(s, content);
      SeenForever(s, t.(rows := s.rows));
      assert Show(t, t.rows[|s.rows|]) == row by { RowShows(s, content); }
      assert Seen(t) == Seen(s) + [row] by {
        assert forall k | 0 <= k < |s.rows| :: Show(t, t.rows[k]) == Show(t.(rows := s.rows), s.rows[k]) by {
          ShowIgnoresRows(t, s.rows);
        }
      }
    }
  }

  lemma ShowIgnoresRows(t: Scene, rows: seq<Written>)
    requires Valid(t.cbor) && Valid(t.decoded)
    ensures forall row: Written | row.cbor < |t.cbor.rows| && row.decoded < |t.decoded.rows| ::
              Show(t, row) == Show(t.(rows := rows), row)
  {
    hide Valid, Resolve;
  }

  lemma RowShows(s: Scene, content: Content)
    requires Readable(s) && !Stopped(s) && s.slots > 0
    ensures Ready(s)
    ensures var t := EmitRow(s, content);
            && Valid(t.cbor) && Valid(t.decoded) && |t.rows| == |s.rows| + 1
            && t.rows[|s.rows|].cbor < |t.cbor.rows| && t.rows[|s.rows|].decoded < |t.decoded.rows|
            && Show(t, t.rows[|s.rows|]) == Shown(s.cbor.path, s.decoded.path, content)
  {
    hide Valid, Resolve;
    InternKeeps(s.cbor);
    InternKeeps(s.decoded);
  }

  lemma IsReady(s: Scene)
    requires Readable(s)
    ensures Ready(s)
  {
  }

  lemma EnterSeen(s: Scene, cborSegment: string, decodedSegment: string, spent: nat)
    requires Readable(s)
    ensures Ready(s)
    ensures var e := EnterBoth(s, cborSegment, decodedSegment).(spent := spent);
            && Readable(e) && Seen(e) == Seen(s) && Stopped(e) == Stopped(s)
            && e.cbor.path == s.cbor.path + cborSegment && e.decoded.path == s.decoded.path + decodedSegment
            && e.slots == s.slots && e.limit == s.limit
  {
    hide Valid, Resolve;
    EnterKeeps(s.cbor, cborSegment);
    EnterKeeps(s.decoded, decodedSegment);
    IsReady(s);
    SeenForever(s, EnterBoth(s, cborSegment, decodedSegment).(spent := spent));
  }

  lemma LeaveSeen(s: Scene, mark: Mark)
    requires Readable(s)
    ensures Ready(s)
    ensures var t := LeaveBoth(s, mark); Readable(t) && Seen(t) == Seen(s)
  {
    hide Valid, Resolve;
    LeaveKeeps(s.cbor, mark.cbor);
    LeaveKeeps(s.decoded, mark.decoded);
    IsReady(s);
    SeenForever(s, LeaveBoth(s, mark));
  }

  /** Entering a segment, writing `rows` below it and going back writes them. */
  lemma Below(s: Scene, cborSegment: string, decodedSegment: string, b: Scene, rows: seq<Shown>, affordable: bool)
    requires Readable(s) && !Stopped(s) && Ready(s) && Readable(EnterBoth(s, cborSegment, decodedSegment))
    requires Ends(EnterBoth(s, cborSegment, decodedSegment), b, rows, affordable)
    ensures Ready(b) && Ends(s, Back(b, MarkOf(s)), rows, affordable)
  {
    hide Valid, Resolve, Seen;
    EnterSeen(s, cborSegment, decodedSegment, s.spent);
    IsReady(b);
    if !Stopped(b) {
      LeaveSeen(b, MarkOf(s));
      assert (s.cbor.path + cborSegment)[..|s.cbor.path|] == s.cbor.path;
      assert (s.decoded.path + decodedSegment)[..|s.decoded.path|] == s.decoded.path;
      if cborSegment == "" { assert s.cbor.path + cborSegment == s.cbor.path; }
      if decodedSegment == "" { assert s.decoded.path + decodedSegment == s.decoded.path; }
    }
  }

  lemma BelowRow(s: Scene, segment: string, content: Content)
    requires Readable(s) && !Stopped(s) && Ready(s)
    ensures Ends(s, EmitBelow(s, segment, content), [Shown(s.cbor.path, s.decoded.path + segment, content)], true)
  {
    hide Valid, Resolve, Seen;
    EnterSeen(s, "", segment, s.spent);
    var e := EnterBoth(s, "", segment);
    assert s.cbor.path + "" == s.cbor.path;
    RowWritten(e, content);
    var b := EmitRow(e, content);
    LeaveSeen(b, MarkOf(s));
    Below(s, "", segment, b, [Shown(s.cbor.path, s.decoded.path + segment, content)], true);
  }

  // ---------------------------------------------------------------------
  // The walk
  // ---------------------------------------------------------------------

  /** Every level of the walk of `c` can be charged. */
  predicate Affordable(c: Cbor, spent: nat, limit: nat)
    decreases c, 1, 0
  {
    spent + RAW_LEVEL <= limit && ChildrenAffordable(c, spent + RAW_LEVEL, limit)
  }

  predicate ChildrenAffordable(c: Cbor, spent: nat, limit: nat)
    decreases c, 0, 0
  {
    match c
    case Items(items) => ItemsAffordable(items, 0, spent, limit)
    case Entries(entries) => EntriesAffordable(entries, 0, NeedsEntries(entries), spent, limit)
    case Tagged(_, inner) => Affordable(inner, spent, limit)
    case SimpleValue(_) => true
    case Scalar(_) => true
  }

  predicate ItemsAffordable(items: seq<Cbor>, i: nat, spent: nat, limit: nat)
    requires i <= |items|
    decreases items, 0, |items| - i
  {
    i == |items| || (Affordable(items[i], spent, limit) && ItemsAffordable(items, i + 1, spent, limit))
  }

  predicate EntriesAffordable(entries: seq<Assoc>, i: nat, pairs: bool, spent: nat, limit: nat)
    requires i <= |entries|
    decreases entries, 0, |entries| - i
  {
    i == |entries|
    || (EntryAffordable(entries[i], pairs, spent, limit) && EntriesAffordable(entries, i + 1, pairs, spent, limit))
  }

  predicate EntryAffordable(e: Assoc, pairs: bool, spent: nat, limit: nat)
    decreases e, 0, 0
  {
    (pairs ==> Affordable(e.key, spent, limit)) && Affordable(e.value, spent, limit)
  }

  lemma {:induction false} StoppedStays(items: seq<Cbor>, n: Option<Node>, i: nat, s: Scene)
    requires i <= |items| && Ready(s) && Stopped(s)
    ensures WalkItems(items, n, i, s) == s
    decreases |items| - i
  {
    if i < |items| {
      StoppedStays(items, n, i + 1, s);
    }
  }

  lemma {:induction false} StoppedMembers(entries: seq<Assoc>, n: Option<Node>, i: nat, s: Scene)
    requires i <= |entries| && Ready(s) && Stopped(s)
    ensures WalkMembers(entries, n, i, s) == s
    decreases |entries| - i
  {
    hide WalkMember;
    if i < |entries| {
      StoppedMember(entries[i], ValueNode(n, i), s);
      StoppedMembers(entries, n, i + 1, s);
    }
  }

  lemma StoppedMember(e: Assoc, n: Option<Node>, s: Scene)
    requires Ready(s) && Stopped(s)
    ensures WalkMember(e, n, s) == s
  {
    hide CborSegment, DecodedSegment, JsonKey;
  }

  lemma {:induction false} StoppedPairs(entries: seq<Assoc>, n: Option<Node>, i: nat, s: Scene)
    requires i <= |entries| && Ready(s) && Stopped(s)
    ensures WalkPairs(entries, n, i, s) == s
    decreases |entries| - i
  {
    if i < |entries| {
      StoppedPairs(entries, n, i + 1, s);
    }
  }

  /** Walking a value writes its pre-order rows, or is refused inside them; the
      level charges always come back, and so do the paths unless it is refused. */
  lemma {:induction false} NodeWritten(c: Cbor, n: Option<Node>, cborSegment: string, decodedSegment: string,
                                       span: Extent, s: Scene)
    requires Readable(s) && !Stopped(s) && Ready(s)
    ensures Ends(s, WalkNode(c, n, cborSegment, decodedSegment, span, s),
                 NodeRows(c, n, s.cbor.path + cborSegment, s.decoded.path + decodedSegment, span),
                 Affordable(c, s.spent, s.limit))
    decreases c, 1, 0
  {
    hide Readable, Seen, WalkChildren, ChildRows, EmitRow, Ends, ChildrenAffordable;
    EnterSeen(s, cborSegment, decodedSegment, s.spent);
    var e := EnterBoth(s, cborSegment, decodedSegment);
    var rows := NodeRows(c, n, e.cbor.path, e.decoded.path, span);
    if e.spent + RAW_LEVEL > e.limit {
      TooDeepSeen(s, e, rows);
    } else {
      var fits := ChildrenAffordable(c, s.spent + RAW_LEVEL, s.limit);
      EnterSeen(e, "", "", s.spent + RAW_LEVEL);
      SameScene(e, s.spent + RAW_LEVEL);
      LevelWritten(c, n, span, e);
      var charged := e.(spent := e.spent + RAW_LEVEL);
      var b := WalkChildren(c, n, EmitRow(charged, NodeContent(n, span)));
      Recharged(e, charged, b, rows, fits);
      Below(s, cborSegment, decodedSegment, Refund(b), rows, fits);
      assert Refund(Back(b, MarkOf(s))) == Back(Refund(b), MarkOf(s));
    }
  }

  lemma SameScene(e: Scene, spent: nat)
    requires Ready(e)
    ensures EnterBoth(e, "", "").(spent := spent) == e.(spent := spent)
  {
    assert e.cbor.path + "" == e.cbor.path && e.decoded.path + "" == e.decoded.path;
  }

  /** A charged level: the value's own row, then its children's. */
  lemma {:induction false} LevelWritten(c: Cbor, n: Option<Node>, span: Extent, e: Scene)
    requires var charged := e.(spent := e.spent + RAW_LEVEL);
             Readable(charged) && Ready(charged) && !Stopped(charged)
    ensures var charged := e.(spent := e.spent + RAW_LEVEL);
            Ends(charged, WalkChildren(c, n, EmitRow(charged, NodeContent(n, span))),
                 NodeRows(c, n, e.cbor.path, e.decoded.path, span), ChildrenAffordable(c, charged.spent, charged.limit))
    decreases c, 0, 1
  {
    hide Readable, Seen, WalkChildren, ChildRows, EmitRow, Ends, ChildrenAffordable;
    var charged := e.(spent := e.spent + RAW_LEVEL);
    var p, q := e.cbor.path, e.decoded.path;
    var own := [Shown(p, q, NodeContent(n, span))];
    RowWritten(charged, NodeContent(n, span));
    var a := EmitRow(charged, NodeContent(n, span));
    EndsReady(charged, a, own, true);
    if Stopped(a) {
      StoppedChildren(c, n, a);
    } else {
      ChildrenWritten(c, n, a);
    }
    InOrder(charged, a, WalkChildren(c, n, a), own, ChildRows(c, n, p, q), true,
            ChildrenAffordable(c, charged.spent, charged.limit));
  }

  lemma TooDeepSeen(s: Scene, e: Scene, rows: seq<Shown>)
    requires Readable(s) && Readable(e) && Seen(e) == Seen(s) && e.spent == s.spent && e.limit == s.limit
    ensures Ends(s, e.(tooDeep := true), rows, false)
  {
    hide Valid, Resolve, Seen;
    SeenForever(e, e.(tooDeep := true));
    assert Seen(s) <= Seen(s) + rows;
  }

  lemma StoppedChildren(c: Cbor, n: Option<Node>, s: Scene)
    requires Ready(s) && Stopped(s)
    ensures WalkChildren(c, n, s) == s
  {
  }

  /** Giving the level's charge back leaves the rows as they are. */
  lemma Recharged(e: Scene, charged: Scene, b: Scene, rows: seq<Shown>, affordable: bool)
    requires Readable(e) && Readable(charged) && charged == e.(spent := e.spent + RAW_LEVEL)
    requires Ends(charged, b, rows, affordable)
    ensures Ready(b) && Ends(e, Refund(b), rows, affordable)
  {
    hide Valid, Resolve;
    IsReady(b);
    SeenForever(e, charged);
    SeenForever(b, Refund(b));
  }

  lemma {:induction false} ChildrenWritten(c: Cbor, n: Option<Node>, s: Scene)
    requires Readable(s) && !Stopped(s) && Ready(s)
    ensures Ends(s, WalkChildren(c, n, s), ChildRows(c, n, s.cbor.path, s.decoded.path),
                 ChildrenAffordable(c, s.spent, s.limit))
    decreases c, 0, 0
  {
    hide Readable, Seen, Ends, EmitRow, WalkNode, NodeRows, Affordable, EmitBelow;
    var p, q := s.cbor.path, s.decoded.path;
    match c
    case Items(items) => ItemsWritten(items, n, 0, s);
    case Entries(entries) =>
      if NeedsEntries(entries) {
        EnterSeen(s, "", ENTRIES, s.spent);
        var e := EnterBoth(s, "", ENTRIES);
        assert p + "" == p;
        RowWritten(e, WrapperContent(NodeExtent(n)));
        var a := EmitRow(e, WrapperContent(NodeExtent(n)));
        EndsReady(e, a, [Shown(p, q + ENTRIES, WrapperContent(NodeExtent(n)))], true);
        var b := WalkPairs(entries, n, 0, a);
        if Stopped(a) {
          StoppedPairs(entries, n, 0, a);
        } else {
          PairsWritten(entries, n, 0, a);
        }
        InOrder(e, a, b, [Shown(p, q + ENTRIES, WrapperContent(NodeExtent(n)))],
                PairRows(entries, n, 0, p, q + ENTRIES), true,
                EntriesAffordable(entries, 0, true, s.spent, s.limit));
        Below(s, "", ENTRIES, b, ChildRows(c, n, p, q), EntriesAffordable(entries, 0, true, s.spent, s.limit));
      } else {
        MembersWritten(entries, n, 0, s);
      }
    case Tagged(_, inner) =>
      BelowRow(s, TAG, TagContent(n));
      var a := EmitBelow(s, TAG, TagContent(n));
      var first := [Shown(p, q + TAG, TagContent(n))];
      EndsReady(s, a, first, true);
      if Stopped(a) {
        StoppedNode(inner, TagPayload(n), "", VALUE, None, a);
      } else {
        NodeWritten(inner, TagPayload(n), "", VALUE, None, a);
        assert p + "" == p;
      }
      InOrder(s, a, WalkNode(inner, TagPayload(n), "", VALUE, None, a), first,
              NodeRows(inner, TagPayload(n), p, q + VALUE, None),
              true, Affordable(inner, s.spent, s.limit));
    case SimpleValue(_) => BelowRow(s, SIMPLE, NodeContent(n, None));
    case Scalar(_) => Unwritten(s);
  }

  /** What is known once rows are written: nothing but the rows has changed. */
  lemma EndsReady(s: Scene, t: Scene, rows: seq<Shown>, affordable: bool)
    requires Readable(s) && Ends(s, t, rows, affordable)
    ensures Readable(t) && Ready(t)
    ensures !Stopped(t) ==>
              && t.cbor.path == s.cbor.path && t.decoded.path == s.decoded.path
              && t.spent == s.spent && t.limit == s.limit
  {
    IsReady(t);
  }

  lemma StoppedNode(c: Cbor, n: Option<Node>, cborSegment: string, decodedSegment: string, span: Extent, s: Scene)
    requires Ready(s) && Stopped(s)
    ensures WalkNode(c, n, cborSegment, decodedSegment, span, s) == s
  {
  }

  lemma {:induction false} ItemsWritten(items: seq<Cbor>, n: Option<Node>, i: nat, s: Scene)
    requires i <= |items| && Readable(s) && !Stopped(s) && Ready(s)
    ensures Ends(s, WalkItems(items, n, i, s), ItemRows(items, n, i, s.cbor.path, s.decoded.path),
                 ItemsAffordable(items, i, s.spent, s.limit))
    decreases items, 0, |items| - i
  {
    hide Readable, Seen, Ends, WalkNode, NodeRows, Affordable;
    if i == |items| {
      Unwritten(s);
    } else {
      var p, q := s.cbor.path, s.decoded.path;
      NodeWritten(items[i], ItemNode(n, i), IndexSegment(i), IndexSegment(i), None, s);
      var t := WalkNode(items[i], ItemNode(n, i), IndexSegment(i), IndexSegment(i), None, s);
      var first := NodeRows(items[i], ItemNode(n, i), p + IndexSegment(i), q + IndexSegment(i), None);
      EndsReady(s, t, first, Affordable(items[i], s.spent, s.limit));
      if Stopped(t) {
        StoppedStays(items, n, i + 1, t);
      } else {
        ItemsWritten(items, n, i + 1, t);
      }
      InOrder(s, t, WalkItems(items, n, i + 1, t), first, ItemRows(items, n, i + 1, p, q),
              Affordable(items[i], s.spent, s.limit), ItemsAffordable(items, i + 1, s.spent, s.limit));
    }
  }

  lemma {:induction false} MembersWritten(entries: seq<Assoc>, n: Option<Node>, i: nat, s: Scene)
    requires i <= |entries| && Readable(s) && !Stopped(s) && Ready(s)
    ensures Ends(s, WalkMembers(entries, n, i, s), MemberRows(entries, n, i, s.cbor.path, s.decoded.path),
                 EntriesAffordable(entries, i, false, s.spent, s.limit))
    decreases entries, 0, |entries| - i
  {
    hide Readable, Seen, Ends, WalkMember, MemberRow, EntryAffordable;
    if i == |entries| {
      Unwritten(s);
    } else {
      var p, q := s.cbor.path, s.decoded.path;
      MemberWritten(entries[i], ValueNode(n, i), s);
      var t := WalkMember(entries[i], ValueNode(n, i), s);
      var first := MemberRow(entries[i], ValueNode(n, i), p, q);
      EndsReady(s, t, first, EntryAffordable(entries[i], false, s.spent, s.limit));
      if Stopped(t) {
        StoppedMembers(entries, n, i + 1, t);
      } else {
        MembersWritten(entries, n, i + 1, t);
      }
      InOrder(s, t, WalkMembers(entries, n, i + 1, t), first, MemberRows(entries, n, i + 1, p, q),
              EntryAffordable(entries[i], false, s.spent, s.limit),
              EntriesAffordable(entries, i + 1, false, s.spent, s.limit));
    }
  }

  lemma {:induction false} MemberWritten(e: Assoc, n: Option<Node>, s: Scene)
    requires Readable(s) && !Stopped(s) && Ready(s)
    ensures Ends(s, WalkMember(e, n, s), MemberRow(e, n, s.cbor.path, s.decoded.path),
                 EntryAffordable(e, false, s.spent, s.limit))
    decreases e, 0, 0
  {
    hide Readable, Seen, Ends, WalkNode, NodeRows, Affordable, CborSegment, DecodedSegment, JsonKey;
    NodeWritten(e.value, n, CborSegment(JsonKey(e.key)), DecodedSegment(JsonKey(e.key)), None, s);
  }

  lemma {:induction false} PairsWritten(entries: seq<Assoc>, n: Option<Node>, i: nat, s: Scene)
    requires i <= |entries| && Readable(s) && !Stopped(s) && Ready(s)
    ensures Ends(s, WalkPairs(entries, n, i, s), PairRows(entries, n, i, s.cbor.path, s.decoded.path),
                 EntriesAffordable(entries, i, true, s.spent, s.limit))
    decreases entries, 0, |entries| - i
  {
    hide Readable, Seen, Ends, WalkPair, PairRow, EntryAffordable, KeyNode, ValueNode, PairExtent;
    if i == |entries| {
      Unwritten(s);
    } else {
      var p, q := s.cbor.path, s.decoded.path;
      PairWritten(i, entries[i], KeyNode(n, i), ValueNode(n, i), PairExtent(n, i), s);
      var t := WalkPair(i, entries[i], KeyNode(n, i), ValueNode(n, i), PairExtent(n, i), s);
      var first := PairRow(entries[i], KeyNode(n, i), ValueNode(n, i), PairExtent(n, i), p, q + IndexSegment(i));
      EndsReady(s, t, first, EntryAffordable(entries[i], true, s.spent, s.limit));
      if Stopped(t) {
        StoppedPairs(entries, n, i + 1, t);
      } else {
        PairsWritten(entries, n, i + 1, t);
      }
      InOrder(s, t, WalkPairs(entries, n, i + 1, t), first, PairRows(entries, n, i + 1, p, q),
              EntryAffordable(entries[i], true, s.spent, s.limit),
              EntriesAffordable(entries, i + 1, true, s.spent, s.limit));
    }
  }

  lemma {:induction false} PairWritten(i: nat, e: Assoc, key: Option<Node>, value: Option<Node>, extent: Extent,
                                       s: Scene)
    requires Readable(s) && !Stopped(s) && Ready(s)
    ensures Ends(s, WalkPair(i, e, key, value, extent, s),
                 PairRow(e, key, value, extent, s.cbor.path, s.decoded.path + IndexSegment(i)),
                 EntryAffordable(e, true, s.spent, s.limit))
    decreases e, 0, 0
  {
    hide Readable, Seen, Ends, EmitRow, WalkNode, NodeRows, Affordable, DecodedSegment, Back;
    EnterSeen(s, "", IndexSegment(i), s.spent);
    var ent := EnterBoth(s, "", IndexSegment(i));
    var p, q := s.cbor.path, ent.decoded.path;
    assert p + "" == p;
    RowWritten(ent, PairContent(extent));
    var a := EmitRow(ent, PairContent(extent));
    var row := [Shown(p, q, PairContent(extent))];
    EndsReady(ent, a, row, true);
    var b := WalkNode(e.key, key, "", DecodedSegment("key"), None, a);
    var keyRows := NodeRows(e.key, key, p, q + DecodedSegment("key"), None);
    var keyFits := Affordable(e.key, s.spent, s.limit);
    if Stopped(a) {
      StoppedNode(e.key, key, "", DecodedSegment("key"), None, a);
    } else {
      NodeWritten(e.key, key, "", DecodedSegment("key"), None, a);
    }
    InOrder(ent, a, b, row, keyRows, true, keyFits);
    EndsReady(ent, b, row + keyRows, keyFits);
    var c := WalkNode(e.value, value, "", DecodedSegment("value"), None, b);
    var valueRows := NodeRows(e.value, value, p, q + DecodedSegment("value"), None);
    if Stopped(b) {
      StoppedNode(e.value, value, "", DecodedSegment("value"), None, b);
    } else {
      NodeWritten(e.value, value, "", DecodedSegment("value"), None, b);
    }
    InOrder(ent, b, c, row + keyRows, valueRows, keyFits, Affordable(e.value, s.spent, s.limit));
    Below(s, "", IndexSegment(i), c, row + keyRows + valueRows, keyFits && Affordable(e.value, s.spent, s.limit));
  }
}
