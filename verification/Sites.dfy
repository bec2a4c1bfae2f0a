/** The routes that lead through a transaction, a block or a part of them to its
    native scripts, and why the ranges found are in document order and never
    overlap. */
module Sites {
  import opened Wire
  import opened WellFormed
  import opened Navigation
  import opened NativeScript

  // ---------------------------------------------------------------------
  // The script reader and the header scan agree
  // ---------------------------------------------------------------------

  /** Two items in a row fill an array of two, or one up to its break. */
  lemma TwoInARow(bytes: seq<byte>, p: nat, q: nat, s: nat)
    requires p <= |bytes| && Lax(bytes, p) == Some(q) && Lax(bytes, q) == Some(s)
    ensures LaxItems(bytes, p, 2) == Some(s)
    ensures IsBreak(bytes, s) ==> LaxToBreak(bytes, p) == Some(s + 1)
  {
    assert LaxItems(bytes, s, 0) == Some(s);
    assert LaxItems(bytes, q, 1) == LaxItems(bytes, s, 0);
    ItemIsNoBreak(bytes, p);
    ItemIsNoBreak(bytes, q);
    if IsBreak(bytes, s) {
      assert LaxToBreak(bytes, s) == Some(s + 1);
      assert LaxToBreak(bytes, q) == LaxToBreak(bytes, s);
    }
  }

  lemma OneMore(bytes: seq<byte>, p: nat, q: nat, n: nat)
    requires p <= |bytes| && Lax(bytes, p) == Some(q)
    ensures LaxItems(bytes, p, n + 1) == LaxItems(bytes, q, n)
    ensures LaxToBreak(bytes, p) == LaxToBreak(bytes, q)
  {
    ItemIsNoBreak(bytes, p);
  }

  lemma TokensAreItems(bytes: seq<byte>, at: nat)
    ensures ReadUnsigned(bytes, at).Some? ==> Lax(bytes, at) == Some(ReadUnsigned(bytes, at).value.1)
    ensures ReadSigned(bytes, at).Some? ==> Lax(bytes, at) == Some(ReadSigned(bytes, at).value.1)
    ensures ReadBytes(bytes, at).Some? ==> Lax(bytes, at) == Some(ReadBytes(bytes, at).value.1)
    ensures ReadTag(bytes, at).Some? ==> Lax(bytes, at) == Lax(bytes, ReadTag(bytes, at).value.1)
  {
  }

  /** An array whose items are read up to `s` ends where its break, if any,
      does. */
  lemma ArrayEnds(bytes: seq<byte>, at: nat)
    requires ReadArray(bytes, at).Some?
    ensures var (size, p) := ReadArray(bytes, at).value;
      Lax(bytes, at) == if size.None? then LaxToBreak(bytes, p) else LaxItems(bytes, p, size.value)
  {
    var h := ReadHead(bytes, at).value;
    assert Lax(bytes, at) == LaxBody(bytes, at + h.len, h);
  }

  /** What a list's items end at is where the list, tagged or not, ends. */
  lemma ListEndsWithItems(bytes: seq<byte>, at: nat)
    requires ReadListHead(bytes, at).Some?
    ensures var (remaining, t) := ReadListHead(bytes, at).value;
      Lax(bytes, at) == if remaining.None? then LaxToBreak(bytes, t) else LaxItems(bytes, t, remaining.value)
  {
    if PeekType(bytes, at) == Some(Tag) {
      TokensAreItems(bytes, at);
      ArrayEnds(bytes, ReadTag(bytes, at).value.1);
    } else {
      ArrayEnds(bytes, at);
    }
  }

  lemma CloseIsBreak(bytes: seq<byte>, at: nat, indefinite: bool)
    requires at <= |bytes| && ReadClose(bytes, at, indefinite).Some?
    ensures indefinite ==> IsBreak(bytes, at) && ReadClose(bytes, at, indefinite) == Some(at + 1)
    ensures !indefinite ==> ReadClose(bytes, at, indefinite) == Some(at)
  {
  }

  /** Whatever the script reader takes for a whole script, the header scan skips
      to the same end. */
  lemma {:induction false} ScriptIsOneItem(bytes: seq<byte>, at: nat)
    requires Parse(bytes, at).Some?
    ensures Lax(bytes, at) == Some(Parse(bytes, at).value.1)
    decreases |bytes| - at, 0
  {
    hide Lax, LaxItems, LaxToBreak, ReadHead, PeekType, ReadClose;
    var (size, p) := ReadArray(bytes, at).value;
    var (kind, q) := ReadUnsigned(bytes, p).value;
    var prefix := ReadPrefix(bytes, at).value;
    var s := ReadNode(bytes, q, kind).value.1;
    ArrayEnds(bytes, at);
    TokensAreItems(bytes, p);
    TokensAreItems(bytes, q);
    var last := if kind == 3 then s else q;
    var end := prefix.pos;
    if prefix.list.Some? {
      ListEndsWithItems(bytes, s);
      ScriptsAreItems(bytes, prefix.pos, prefix.list.value);
      end := ParseSubs(bytes, prefix.pos, prefix.list.value).value.1;
    }
    CloseIsBreak(bytes, end, size.None?);
    TwoInARow(bytes, if kind == 3 then q else p, last, end);
    if kind == 3 {
      OneMore(bytes, p, q, 2);
    }
  }

  lemma {:induction false} ScriptsAreItems(bytes: seq<byte>, at: nat, remaining: Option<nat>)
    requires at <= |bytes| && ParseSubs(bytes, at, remaining).Some?
    ensures var end := ParseSubs(bytes, at, remaining).value.1;
      (if remaining.None? then LaxToBreak(bytes, at) else LaxItems(bytes, at, remaining.value)) == Some(end)
    decreases |bytes| - at, 1
  {
    if remaining == Some(0) {
    } else if remaining.None? && PeekType(bytes, at) == Some(Break) {
    } else {
      ScriptIsOneItem(bytes, at);
      var p := Parse(bytes, at).value.1;
      var left := if remaining.None? then None else Some(remaining.value - 1);
      ScriptsAreItems(bytes, p, left);
      OneMore(bytes, at, p, if remaining.None? then 0 else remaining.value - 1);
    }
  }

  // ---------------------------------------------------------------------
  // Routes
  // ---------------------------------------------------------------------

  /** Native scripts as byte ranges, and where the payloads of script references
      start. */
  datatype Found = Found(scripts: seq<(nat, nat)>, refs: seq<nat>)

  const NOTHING := Found([], [])

  function Join(a: Found, b: Found): (r: Found) {
    Found(a.scripts + b.scripts, a.refs + b.refs)
  }

  /** The places of a document that are followed to native scripts. */
  datatype Route =
    | ScriptAt | ScriptList | WitnessSet | WitnessSets | AuxiliaryData | AuxiliaryMap | AuxiliaryDataSet
    | RefPayload | RefContent | AnyRef | Output | Outputs | UnspentOutput | Body | Bodies
    | Transaction | Block | VersionedBlock | Elsewhere

  /** How far a route is from the scripts it leads to. */
  function Level(route: Route): (n: nat) {
    match route
    case ScriptAt => 0 case RefPayload => 0 case Elsewhere => 0
    case ScriptList => 1 case RefContent => 1 case Output => 1
    case WitnessSet => 2 case AuxiliaryMap => 2 case AnyRef => 2 case Outputs => 2 case UnspentOutput => 2
    case WitnessSets => 3 case AuxiliaryData => 3 case Body => 3
    case AuxiliaryDataSet => 4 case Bodies => 4
    case Transaction => 5 case Block => 5
    case VersionedBlock => 6
  }

  predicate IsUint(bytes: seq<byte>, at: nat, value: nat) {
    var h := ReadHead(bytes, at);
    h.Some? && h.value.major == 0 && h.value.argument == Some(value)
  }

  /** Past up to `n` set tags. */
  function PastSetTags(bytes: seq<byte>, at: nat, n: nat): (r: Option<nat>)
    decreases n
  {
    if n == 0 then Some(at)
    else
      match ReadHead(bytes, at)
      case None => None
      case Some(h) =>
        if h.major == 6 && h.argument == Some(SET_TAG) then PastSetTags(bytes, at + h.len, n - 1) else Some(at)
  }

  /** The end of the script a parse from `at` finds. */
  function WholeScript(bytes: seq<byte>, at: nat): (r: Option<nat>) {
    match Parse(bytes, at)
    case None => None
    case Some((t, e)) => if Size(t) <= U32_MAX then Some(e) else None
  }

  /** The first byte of the definite-length byte string under the tag 24 at
      `at`. */
  function PayloadStart(bytes: seq<byte>, at: nat): (r: Option<nat>) {
    match ReadHead(bytes, at)
    case None => None
    case Some(tag) =>
      if tag.major != 6 || tag.argument != Some(24) then None
      else
        match ReadHead(bytes, at + tag.len)
        case None => None
        case Some(h) => if h.major != 2 || h.argument.None? then None else Some(at + tag.len + h.len)
  }

  predicate IsMapRoute(route: Route) {
    route.WitnessSet? || route.AuxiliaryMap? || route.Output? || route.Body? || route.AuxiliaryDataSet?
  }

  /** The route followed from the entry of a map whose key stands at `key`. */
  function EntryRoute(bytes: seq<byte>, route: Route, key: nat): (r: Route)
    ensures IsMapRoute(route) ==> Level(r) < Level(route)
  {
    match route
    case WitnessSet => if IsUint(bytes, key, 1) then ScriptList else Elsewhere
    case AuxiliaryMap => if IsUint(bytes, key, 1) then ScriptList else Elsewhere
    case Output => if IsUint(bytes, key, 3) then RefPayload else Elsewhere
    case Body => if IsUint(bytes, key, 1) then Outputs else if IsUint(bytes, key, 16) then Output else Elsewhere
    case AuxiliaryDataSet => AuxiliaryData
    case _ => Elsewhere
  }

  function OrNone<T>(s: Option<seq<T>>): (r: seq<T>) {
    if s.None? then [] else s.value
  }

  predicate IsListRoute(route: Route) {
    route.WitnessSets? || route.Outputs? || route.Bodies?
  }

  function ChildOf(route: Route): (r: Route)
    requires IsListRoute(route)
    ensures Level(r) < Level(route)
  {
    if route.WitnessSets? then WitnessSet else if route.Outputs? then Output else Body
  }

  /** What a route finds from `at` on. */
  function FoundAt(bytes: seq<byte>, route: Route, at: nat): (r: Found)
    decreases Level(route), 3, 0
  {
    if IsListRoute(route) then FoundInAll(bytes, ChildOf(route), OrNone(ElementStarts(bytes, at)))
    else if IsMapRoute(route) then FoundInEntries(bytes, route, OrNone(EntryStarts(bytes, at)))
    else if route.Transaction? || route.Block? then FoundInParts(bytes, route, OrNone(ElementStarts(bytes, at)))
    else FoundBelow(bytes, route, at)
  }

  function FoundInParts(bytes: seq<byte>, route: Route, elements: seq<nat>): (r: Found)
    requires route.Transaction? || route.Block?
    decreases Level(route), 2, 1
  {
    if route.Transaction? then FoundInTransaction(bytes, elements) else FoundInBlock(bytes, elements)
  }

  function FoundInTransaction(bytes: seq<byte>, elements: seq<nat>): (r: Found)
    decreases Level(Transaction), 2, 0
  {
    Join(Join(FoundAtIndex(bytes, Body, elements, 0), FoundAtIndex(bytes, WitnessSet, elements, 1)),
         FoundAtIndex(bytes, AuxiliaryData, elements, AuxiliaryIndex(|elements|)))
  }

  /** Where a transaction of `n` elements keeps its auxiliary data. */
  function AuxiliaryIndex(n: nat): (k: nat) {
    if n == 4 then 3 else if n == 3 then 2 else n
  }

  function FoundInBlock(bytes: seq<byte>, elements: seq<nat>): (r: Found)
    decreases Level(Block), 2, 0
  {
    Join(Join(FoundAtIndex(bytes, Bodies, elements, 1), FoundAtIndex(bytes, WitnessSets, elements, 2)),
         FoundAtIndex(bytes, AuxiliaryDataSet, elements, 3))
  }

  function FoundBelow(bytes: seq<byte>, route: Route, at: nat): (r: Found)
    requires !IsListRoute(route) && !IsMapRoute(route) && !route.Transaction? && !route.Block?
    decreases Level(route), 2, 0
  {
    match route
    case Elsewhere => NOTHING
    case ScriptAt =>
      (match WholeScript(bytes, at) case None => NOTHING case Some(e) => Found([(at, e)], []))
    case ScriptList =>
      (match PastSetTags(bytes, at, 2)
       case None => NOTHING
       case Some(p) => FoundInAll(bytes, ScriptAt, OrNone(ElementStarts(bytes, p))))
    case AuxiliaryData =>
      (match ReadHead(bytes, at)
       case None => NOTHING
       case Some(h) =>
         if h.major == 4 then FoundAtIndex(bytes, ScriptList, OrNone(ElementStarts(bytes, at)), 1)
         else if h.major == 6 && h.argument == Some(259) then FoundAt(bytes, AuxiliaryMap, at + h.len)
         else NOTHING)
    case RefPayload =>
      (match PayloadStart(bytes, at) case None => NOTHING case Some(p) => Found([], [p]))
    case RefContent =>
      var elements := OrNone(ElementStarts(bytes, at));
      if |elements| != 2 || !IsUint(bytes, elements[0], 0) then NOTHING
      else FoundAt(bytes, ScriptAt, elements[1])
    case AnyRef =>
      (match ReadHead(bytes, at)
       case None => NOTHING
       case Some(h) => FoundAt(bytes, if h.major == 6 then RefPayload else RefContent, at))
    case UnspentOutput => FoundAtIndex(bytes, Output, OrNone(ElementStarts(bytes, at)), 1)
    case VersionedBlock => FoundAtIndex(bytes, Block, OrNone(ElementStarts(bytes, at)), 1)
  }

  function FoundAtIndex(bytes: seq<byte>, route: Route, starts: seq<nat>, k: nat): (r: Found)
    decreases Level(route), 4, 0
  {
    if k < |starts| then FoundAt(bytes, route, starts[k]) else NOTHING
  }

  function FoundInAll(bytes: seq<byte>, route: Route, starts: seq<nat>): (r: Found)
    decreases Level(route), 4, |starts|
  {
    if starts == [] then NOTHING
    else Join(FoundInAll(bytes, route, starts[..|starts| - 1]), FoundAt(bytes, route, starts[|starts| - 1]))
  }

  function FoundInEntries(bytes: seq<byte>, route: Route, entries: seq<(nat, nat)>): (r: Found)
    requires IsMapRoute(route)
    decreases Level(route), 0, |entries|
  {
    if entries == [] then NOTHING
    else
      var (key, value) := entries[|entries| - 1];
      Join(FoundInEntries(bytes, route, entries[..|entries| - 1]), FoundAt(bytes, EntryRoute(bytes, route, key), value))
  }

  // ---------------------------------------------------------------------
  // Document order
  // ---------------------------------------------------------------------

  /** The ranges lie one after another between `lo` and `hi`. */
  predicate InOrder(scripts: seq<(nat, nat)>, lo: nat, hi: nat) {
    && lo <= hi
    && (forall k | 0 <= k < |scripts| :: lo <= scripts[k].0 < scripts[k].1 <= hi)
    && (forall j, k | 0 <= j < k < |scripts| :: scripts[j].1 <= scripts[k].0)
  }

  predicate RefsInOrder(refs: seq<nat>, lo: nat, hi: nat) {
    && (forall k | 0 <= k < |refs| :: lo < refs[k] <= hi)
    && (forall j, k | 0 <= j < k < |refs| :: refs[j] < refs[k])
  }

  predicate Inside(f: Found, lo: nat, hi: nat) {
    InOrder(f.scripts, lo, hi) && RefsInOrder(f.refs, lo, hi)
  }

  lemma JoinInside(a: Found, b: Found, lo: nat, mid: nat, hi: nat)
    requires Inside(a, lo, mid) && Inside(b, mid, hi)
    ensures Inside(Join(a, b), lo, hi)
  {
  }

  lemma Wider(f: Found, lo: nat, hi: nat, lo': nat, hi': nat)
    requires Inside(f, lo, hi) && lo' <= lo && hi <= hi'
    ensures Inside(f, lo', hi')
  {
  }

  /** Items of a tiling stand one after another within it. */
  lemma {:induction false} TileBounds(bytes: seq<byte>, starts: seq<nat>, from: nat, to: nat)
    requires Tiles(bytes, starts, from, to)
    ensures from <= to && AllItems(bytes, starts)
    ensures forall k | 0 <= k < |starts| :: from <= starts[k] && Lax(bytes, starts[k]).value <= to
    ensures forall j, k | 0 <= j < k < |starts| :: Lax(bytes, starts[j]).value <= starts[k]
  {
    if starts != [] {
      var next := Lax(bytes, from).value;
      TileBounds(bytes, starts[1..], next, to);
      assert forall k | 0 < k < |starts| :: starts[k] == starts[1..][k - 1];
    }
  }

  predicate AllEntries(bytes: seq<byte>, entries: seq<(nat, nat)>) {
    forall k | 0 <= k < |entries| :: Lax(bytes, entries[k].1).Some? && entries[k].0 < entries[k].1
  }

  lemma {:induction false} PairBounds(bytes: seq<byte>, entries: seq<(nat, nat)>, from: nat, to: nat)
    requires PairTiles(bytes, entries, from, to)
    ensures from <= to && AllEntries(bytes, entries)
    ensures forall k | 0 <= k < |entries| :: from <= entries[k].1 && Lax(bytes, entries[k].1).value <= to
    ensures forall j, k | 0 <= j < k < |entries| :: Lax(bytes, entries[j].1).value <= entries[k].1
  {
    if entries != [] {
      var next := Lax(bytes, entries[0].1).value;
      PairBounds(bytes, entries[1..], next, to);
      assert forall k | 0 < k < |entries| :: entries[k] == entries[1..][k - 1];
    }
  }

  predicate Apart(bytes: seq<byte>, starts: seq<nat>, from: nat, to: nat) {
    && from <= to && AllItems(bytes, starts)
    && (forall k | 0 <= k < |starts| :: from <= starts[k] && Lax(bytes, starts[k]).value <= to)
    && (forall j, k | 0 <= j < k < |starts| :: Lax(bytes, starts[j]).value <= starts[k])
  }

  lemma ElementsApart(bytes: seq<byte>, at: nat)
    requires Lax(bytes, at).Some?
    ensures Apart(bytes, OrNone(ElementStarts(bytes, at)), at, Lax(bytes, at).value)
  {
    ElementsTileTheArray(bytes, at);
    if ElementStarts(bytes, at).Some? {
      var body := at + ReadHead(bytes, at).value.len;
      TileBounds(bytes, ElementStarts(bytes, at).value, body, ContentEnd(bytes, at));
    }
  }

  lemma ElementsNeedAnItem(bytes: seq<byte>, at: nat)
    requires Lax(bytes, at).None?
    ensures ElementStarts(bytes, at).None? && EntryStarts(bytes, at).None?
  {
    ElementsTileTheArray(bytes, at);
    EntriesTileTheMap(bytes, at);
  }

  predicate EntriesApart(bytes: seq<byte>, entries: seq<(nat, nat)>, from: nat, to: nat) {
    && from <= to && AllEntries(bytes, entries)
    && (forall k | 0 <= k < |entries| :: from <= entries[k].1 && Lax(bytes, entries[k].1).value <= to)
    && (forall j, k | 0 <= j < k < |entries| :: Lax(bytes, entries[j].1).value <= entries[k].1)
  }

  lemma MapEntriesApart(bytes: seq<byte>, at: nat)
    requires Lax(bytes, at).Some?
    ensures EntriesApart(bytes, OrNone(EntryStarts(bytes, at)), at, Lax(bytes, at).value)
  {
    EntriesTileTheMap(bytes, at);
    if EntryStarts(bytes, at).Some? {
      var body := at + ReadHead(bytes, at).value.len;
      PairBounds(bytes, EntryStarts(bytes, at).value, body, ContentEnd(bytes, at));
    }
  }

  lemma {:induction false} SetTagsAreTransparent(bytes: seq<byte>, at: nat, n: nat)
    requires PastSetTags(bytes, at, n).Some?
    ensures at <= PastSetTags(bytes, at, n).value && Lax(bytes, PastSetTags(bytes, at, n).value) == Lax(bytes, at)
    decreases n
  {
    if n > 0 {
      var h := ReadHead(bytes, at).value;
      if h.major == 6 && h.argument == Some(SET_TAG) {
        SetTagsAreTransparent(bytes, at + h.len, n - 1);
      }
    }
  }

  /** A route finds its scripts and references inside the item it starts at, in
      document order. */
  lemma {:induction false} RouteStaysInside(bytes: seq<byte>, route: Route, at: nat)
    requires Lax(bytes, at).Some?
    ensures Inside(FoundAt(bytes, route, at), at, Lax(bytes, at).value)
    decreases Level(route), 3, 0
  {
    hide Lax, ElementStarts, EntryStarts, Inside, Apart, EntriesApart, EntryRoute, FoundAtIndex, FoundInAll,
         FoundInEntries,
         FoundBelow;
    var end := Lax(bytes, at).value;
    var elements := OrNone(ElementStarts(bytes, at));
    ElementsApart(bytes, at);
    if IsListRoute(route) {
      AllStayInside(bytes, ChildOf(route), elements, at, end);
    } else if IsMapRoute(route) {
      MapEntriesApart(bytes, at);
      EntriesStayInside(bytes, route, OrNone(EntryStarts(bytes, at)), at, end);
    } else if route.Transaction? {
      ThreeInside(bytes, Level(route), Body, 0, WitnessSet, 1, AuxiliaryData,
                  if |elements| == 4 then 3 else if |elements| == 3 then 2 else |elements| + 2, elements, at, end);
      NoElement(bytes, AuxiliaryData, elements, |elements|);
      NoElement(bytes, AuxiliaryData, elements, |elements| + 2);
    } else if route.Block? {
      ThreeInside(bytes, Level(route), Bodies, 1, WitnessSets, 2, AuxiliaryDataSet, 3, elements, at, end);
    } else {
      BelowStaysInside(bytes, route, at);
    }
  }

  lemma NoElement(bytes: seq<byte>, route: Route, starts: seq<nat>, k: nat)
    requires k >= |starts|
    ensures FoundAtIndex(bytes, route, starts, k) == NOTHING
  {
  }

  lemma {:induction false} BelowStaysInside(bytes: seq<byte>, route: Route, at: nat)
    requires Lax(bytes, at).Some?
    requires !IsListRoute(route) && !IsMapRoute(route) && !route.Transaction? && !route.Block?
    ensures Inside(FoundBelow(bytes, route, at), at, Lax(bytes, at).value)
    decreases Level(route), 2, 0
  {
    hide Lax, ElementStarts, EntryStarts, Inside, Apart, FoundAt, FoundAtIndex, FoundInAll;
    var end := Lax(bytes, at).value;
    NothingInside(at, end);
    var elements := OrNone(ElementStarts(bytes, at));
    ElementsApart(bytes, at);
    match route
    case Elsewhere =>
    case ScriptAt => ScriptInside(bytes, at);
    case ScriptList =>
      if PastSetTags(bytes, at, 2).Some? {
        var p := PastSetTags(bytes, at, 2).value;
        SetTagsAreTransparent(bytes, at, 2);
        ElementsApart(bytes, p);
        AllStayInside(bytes, ScriptAt, OrNone(ElementStarts(bytes, p)), p, end);
        Wider(FoundBelow(bytes, route, at), p, end, at, end);
      }
    case AuxiliaryData =>
      IndexStaysInside(bytes, ScriptList, elements, 1, at, end);
      var h := ReadHead(bytes, at);
      if h.Some? && h.value.major == 6 {
        TagIsTransparent(bytes, at);
        RouteStaysInside(bytes, AuxiliaryMap, at + h.value.len);
        Wider(FoundAt(bytes, AuxiliaryMap, at + h.value.len), at + h.value.len, end, at, end);
      }
    case RefPayload => RefInside(bytes, at);
    case RefContent =>
      if |elements| == 2 {
        IndexStaysInside(bytes, ScriptAt, elements, 1, at, end);
        IndexIsElement(bytes, ScriptAt, elements, 1);
      }
    case AnyRef =>
      RouteStaysInside(bytes, RefPayload, at);
      RouteStaysInside(bytes, RefContent, at);
    case UnspentOutput => IndexStaysInside(bytes, Output, elements, 1, at, end);
    case VersionedBlock => IndexStaysInside(bytes, Block, elements, 1, at, end);
  }

  lemma IndexIsElement(bytes: seq<byte>, route: Route, starts: seq<nat>, k: nat)
    requires k < |starts|
    ensures FoundAtIndex(bytes, route, starts, k) == FoundAt(bytes, route, starts[k])
  {
  }

  lemma TagIsTransparent(bytes: seq<byte>, at: nat)
    requires ReadHead(bytes, at).Some? && ReadHead(bytes, at).value.major == 6
    ensures Lax(bytes, at) == Lax(bytes, at + ReadHead(bytes, at).value.len)
  {
  }

  lemma NothingInside(lo: nat, hi: nat)
    requires lo <= hi
    ensures Inside(NOTHING, lo, hi)
  {
  }

  lemma ScriptInside(bytes: seq<byte>, at: nat)
    requires Lax(bytes, at).Some?
    ensures Inside(FoundBelow(bytes, ScriptAt, at), at, Lax(bytes, at).value)
  {
    if Parse(bytes, at).Some? {
      ScriptIsOneItem(bytes, at);
    }
  }

  lemma RefInside(bytes: seq<byte>, at: nat)
    requires Lax(bytes, at).Some?
    ensures Inside(FoundBelow(bytes, RefPayload, at), at, Lax(bytes, at).value)
  {
    var tag := ReadHead(bytes, at).value;
    if tag.major == 6 {
      assert Lax(bytes, at) == Lax(bytes, at + tag.len);
      var h := ReadHead(bytes, at + tag.len);
      if h.Some? {
        assert Lax(bytes, at + tag.len) == LaxBody(bytes, at + tag.len + h.value.len, h.value);
      }
    }
  }

  lemma {:induction false} IndexStaysInside(bytes: seq<byte>, route: Route, starts: seq<nat>, k: nat, lo: nat, hi: nat)
    requires Apart(bytes, starts, lo, hi)
    ensures Inside(FoundAtIndex(bytes, route, starts, k), lo, hi)
    decreases Level(route), 4, 0
  {
    hide Inside, Lax;
    NothingInside(lo, hi);
    if k < |starts| {
      RouteStaysInside(bytes, route, starts[k]);
      Wider(FoundAt(bytes, route, starts[k]), starts[k], Lax(bytes, starts[k]).value, lo, hi);
    }
  }

  /** Three elements in their order. */
  lemma {:induction false} ThreeInside(bytes: seq<byte>, level: nat, a: Route, i: nat, b: Route, j: nat, c: Route,
                                       k: nat, starts: seq<nat>, lo: nat, hi: nat)
    requires Apart(bytes, starts, lo, hi) && i < j < k
    requires Level(a) < level && Level(b) < level && Level(c) < level
    ensures Inside(Join(Join(FoundAtIndex(bytes, a, starts, i), FoundAtIndex(bytes, b, starts, j)),
                        FoundAtIndex(bytes, c, starts, k)), lo, hi)
    decreases level, 2, 0
  {
    hide Inside, Lax, Apart, FoundAtIndex, Level, FoundAt, Join, AllItems, Cut, Fits;
    var x, y := Cut(starts, j, hi), Cut(starts, k, hi);
    CutsInOrder(bytes, starts, i, j, k, lo, hi);
    PieceInside(bytes, a, starts, i, lo, x);
    PieceInside(bytes, b, starts, j, x, y);
    PieceInside(bytes, c, starts, k, y, hi);
    var f, g, h := FoundAtIndex(bytes, a, starts, i), FoundAtIndex(bytes, b, starts, j),
      FoundAtIndex(bytes, c, starts, k);
    JoinInside(f, g, lo, x, y);
    JoinInside(Join(f, g), h, lo, y, hi);
  }

  /** Where element `k` starts, or the end when there is none. */
  function Cut(starts: seq<nat>, k: nat, hi: nat): (x: nat) {
    if k < |starts| then starts[k] else hi
  }

  predicate Fits(bytes: seq<byte>, starts: seq<nat>, k: nat, from: nat, to: nat) {
    && from <= to
    && (k < |starts| ==> from <= starts[k] && Lax(bytes, starts[k]).Some? && Lax(bytes, starts[k]).value <= to)
  }

  lemma CutsInOrder(bytes: seq<byte>, starts: seq<nat>, i: nat, j: nat, k: nat, lo: nat, hi: nat)
    requires Apart(bytes, starts, lo, hi) && i < j < k
    ensures var x, y := Cut(starts, j, hi), Cut(starts, k, hi);
      Fits(bytes, starts, i, lo, x) && Fits(bytes, starts, j, x, y) && Fits(bytes, starts, k, y, hi)
  {
  }

  lemma {:induction false} PieceInside(bytes: seq<byte>, route: Route, starts: seq<nat>, k: nat, from: nat, to: nat)
    requires Fits(bytes, starts, k, from, to)
    ensures Inside(FoundAtIndex(bytes, route, starts, k), from, to)
    decreases Level(route), 4, 0
  {
    hide Inside, Lax;
    NothingInside(from, to);
    if k < |starts| {
      RouteStaysInside(bytes, route, starts[k]);
      Wider(FoundAt(bytes, route, starts[k]), starts[k], Lax(bytes, starts[k]).value, from, to);
    }
  }

  lemma {:induction false} AllStayInside(bytes: seq<byte>, route: Route, starts: seq<nat>, lo: nat, hi: nat)
    requires Apart(bytes, starts, lo, hi)
    ensures Inside(FoundInAll(bytes, route, starts), lo, hi)
    decreases Level(route), 4, |starts|
  {
    hide Inside, Lax;
    NothingInside(lo, hi);
    if starts != [] {
      var k := |starts| - 1;
      var cut := starts[k];
      AllStayInside(bytes, route, starts[..k], lo, cut);
      RouteStaysInside(bytes, route, cut);
      Wider(FoundAt(bytes, route, cut), cut, Lax(bytes, cut).value, cut, hi);
      JoinInside(FoundInAll(bytes, route, starts[..k]), FoundAt(bytes, route, cut), lo, cut, hi);
    }
  }

  lemma {:induction false} EntriesStayInside(bytes: seq<byte>, route: Route, entries: seq<(nat, nat)>, lo: nat, hi: nat)
    requires IsMapRoute(route)
    requires EntriesApart(bytes, entries, lo, hi)
    ensures Inside(FoundInEntries(bytes, route, entries), lo, hi)
    decreases Level(route), 1, |entries|
  {
    hide Inside, Lax;
    NothingInside(lo, hi);
    if entries != [] {
      var k := |entries| - 1;
      var (key, value) := entries[k];
      var next := EntryRoute(bytes, route, key);
      EntriesStayInside(bytes, route, entries[..k], lo, value);
      RouteStaysInside(bytes, next, value);
      Wider(FoundAt(bytes, next, value), value, Lax(bytes, value).value, value, hi);
      JoinInside(FoundInEntries(bytes, route, entries[..k]), FoundAt(bytes, next, value), lo, value, hi);
    }
  }

  // ---------------------------------------------------------------------
  // The finder
  // ---------------------------------------------------------------------

  /** Following one more element of a list adds what it leads to. */
  lemma OneMoreElement(bytes: seq<byte>, route: Route, starts: seq<nat>, k: nat, before: Found)
    requires k < |starts|
    ensures Join(before, FoundInAll(bytes, route, starts[..k + 1]))
         == Join(Join(before, FoundInAll(bytes, route, starts[..k])), FoundAt(bytes, route, starts[k]))
  {
    assert starts[..k + 1][..k] == starts[..k];
    JoinJoin(before, FoundInAll(bytes, route, starts[..k]), FoundAt(bytes, route, starts[k]));
  }

  lemma OneMoreEntry(bytes: seq<byte>, route: Route, entries: seq<(nat, nat)>, k: nat, before: Found)
    requires IsMapRoute(route) && k < |entries|
    ensures var next := EntryRoute(bytes, route, entries[k].0);
      && Join(before, FoundInEntries(bytes, route, entries[..k + 1]))
         == Join(Join(before, FoundInEntries(bytes, route, entries[..k])), FoundAt(bytes, next, entries[k].1))
      && (next == Elsewhere ==>
            Join(before, FoundInEntries(bytes, route, entries[..k + 1]))
              == Join(before, FoundInEntries(bytes, route, entries[..k])))
  {
    hide EntryRoute;
    assert entries[..k + 1][..k] == entries[..k];
    var next := FoundAt(bytes, EntryRoute(bytes, route, entries[k].0), entries[k].1);
    JoinJoin(before, FoundInEntries(bytes, route, entries[..k]), next);
    JoinNothing(Join(before, FoundInEntries(bytes, route, entries[..k])));
  }

  lemma JoinJoin(a: Found, b: Found, c: Found)
    ensures Join(Join(a, b), c) == Join(a, Join(b, c))
  {
  }

  lemma JoinNothing(f: Found)
    ensures Join(f, NOTHING) == f && Join(NOTHING, f) == f
  {
  }

  lemma ListRoute(bytes: seq<byte>, route: Route, at: nat, before: Found)
    requires IsListRoute(route)
    ensures FoundAt(bytes, route, at) == FoundInAll(bytes, ChildOf(route), OrNone(ElementStarts(bytes, at)))
    ensures Join(before, FoundInAll(bytes, ChildOf(route), [])) == before
  {
    JoinNothing(before);
  }

  lemma MapRoute(bytes: seq<byte>, route: Route, at: nat, before: Found)
    requires IsMapRoute(route)
    ensures FoundAt(bytes, route, at) == FoundInEntries(bytes, route, OrNone(EntryStarts(bytes, at)))
    ensures Join(before, FoundInEntries(bytes, route, [])) == before
  {
    JoinNothing(before);
  }

  lemma ScriptListRoute(bytes: seq<byte>, at: nat, before: Found)
    ensures FoundAt(bytes, ScriptList, at)
         == match PastSetTags(bytes, at, 2)
            case None => NOTHING
            case Some(p) => FoundInAll(bytes, ScriptAt, OrNone(ElementStarts(bytes, p)))
    ensures Join(before, NOTHING) == before && FoundInAll(bytes, ScriptAt, []) == NOTHING
  {
    JoinNothing(before);
  }

  lemma PartsRoute(bytes: seq<byte>, route: Route, at: nat, before: Found)
    requires route.Transaction? || route.Block?
    ensures FoundAt(bytes, route, at) == FoundInParts(bytes, route, OrNone(ElementStarts(bytes, at)))
    ensures Join(before, FoundInParts(bytes, route, [])) == before
  {
    JoinNothing(before);
    JoinNothing(NOTHING);
  }

  /** The parts of a transaction or a block, one after the other. */
  lemma ThreeParts(before: Found, a: Found, b: Found, c: Found)
    ensures Join(Join(Join(before, a), b), c) == Join(before, Join(Join(a, b), c))
  {
  }

  /** The sites found so far, appended to as the routes are followed. */
  class Finder {
    const bytes: seq<byte>
    var scripts: seq<(nat, nat)>
    var scriptRefs: seq<nat>

    constructor (bytes: seq<byte>)
      ensures this.bytes == bytes && scripts == [] && scriptRefs == []
    {
      this.bytes := bytes;
      scripts, scriptRefs := [], [];
    }

    ghost function Sofar(): (f: Found)
      reads this
    {
      Found(scripts, scriptRefs)
    }

    /** If the script reader finds its end, the range from `at` to there is noted. */
    method NativeScriptAt(at: nat)
      modifies this
      ensures Sofar() == Join(old(Sofar()), FoundAt(bytes, ScriptAt, at))
    {
      var end := NativeScriptEnd(bytes, at);
      if end.Some? {
        scripts := scripts + [(at, end.value)];
      }
    }

    /** Steps over at most two tags for sets and adds every element of the array
        behind them. */
    method NativeScriptListAt(at: nat)
      requires |bytes| <= ISIZE_MAX
      modifies this
      ensures Sofar() == Join(old(Sofar()), FoundAt(bytes, ScriptList, at))
    {
      hide FoundAt, FoundBelow, FoundInAll, FoundInEntries, FoundInParts, FoundAtIndex, Join, Level, ElementStarts,
           EntryStarts, EntryRoute;
      var start := PastSetTags(bytes, at, 2);
      ScriptListRoute(bytes, at, Sofar());
      if start.None? {
        return;
      }
      var offsets := ArrayElementOffsets(bytes, start.value);
      if offsets.None? {
        return;
      }
      var starts := offsets.value;
      assert starts[..|starts|] == starts;
      for k := 0 to |starts|
        invariant Sofar() == Join(old(Sofar()), FoundInAll(bytes, ScriptAt, starts[..k]))
      {
        NativeScriptAt(starts[k]);
        OneMoreElement(bytes, ScriptAt, starts, k, old(Sofar()));
      }
    }

    /** Witness sets, and auxiliary data as a map, keep their script list under the
        same key. */
    method WitnessSetScriptsAt(at: nat, ghost route: Route)
      requires |bytes| <= ISIZE_MAX && (route == WitnessSet || route == AuxiliaryMap)
      modifies this
      ensures Sofar() == Join(old(Sofar()), FoundAt(bytes, route, at))
    {
      hide FoundAt, FoundBelow, FoundInAll, FoundInEntries, FoundInParts, FoundAtIndex, Join, Level, ElementStarts,
           EntryStarts;
      MapRoute(bytes, route, at, Sofar());
      var offsets := MapEntryOffsets(bytes, at);
      if offsets.None? {
        return;
      }
      var entries := offsets.value;
      assert entries[..|entries|] == entries;
      for k := 0 to |entries|
        invariant Sofar() == Join(old(Sofar()), FoundInEntries(bytes, route, entries[..k]))
      {
        if IsUint(bytes, entries[k].0, 1) {
          NativeScriptListAt(entries[k].1);
        }
        OneMoreEntry(bytes, route, entries, k, old(Sofar()));
      }
    }

    /** The scripts lie at index 1 when the auxiliary data is an array, and under
        key 1 when it is a map with tag 259. */
    method AuxiliaryDataScriptsAt(at: nat)
      requires |bytes| <= ISIZE_MAX
      modifies this
      ensures Sofar() == Join(old(Sofar()), FoundAt(bytes, AuxiliaryData, at))
    {
      var header := ReadHead(bytes, at);
      if header.None? {
        return;
      }
      var h := header.value;
      if h.major == 4 {
        var offsets := ArrayElementOffsets(bytes, at);
        if offsets.Some? && |offsets.value| > 1 {
          NativeScriptListAt(offsets.value[1]);
        }
      } else if h.major == 6 && h.argument == Some(259) {
        WitnessSetScriptsAt(at + h.len, AuxiliaryMap);
      }
    }

    /** `#6.24(bytes)`: where the payload starts. */
    method ScriptRefPayloadAt(at: nat)
      modifies this
      ensures Sofar() == Join(old(Sofar()), FoundAt(bytes, RefPayload, at))
    {
      var tag := ReadHead(bytes, at);
      if tag.None? || tag.value.major != 6 || tag.value.argument != Some(24) {
        return;
      }
      var inner := ReadHead(bytes, at + tag.value.len);
      if inner.None? || inner.value.major != 2 || inner.value.argument.None? {
        return;
      }
      scriptRefs := scriptRefs + [at + tag.value.len + inner.value.len];
    }

    /** `[0, native_script]`. */
    method ScriptRefContentAt(at: nat)
      requires |bytes| <= ISIZE_MAX
      modifies this
      ensures Sofar() == Join(old(Sofar()), FoundAt(bytes, RefContent, at))
    {
      var elements := ArrayElementOffsets(bytes, at);
      if elements.None? || |elements.value| != 2 || !IsUint(bytes, elements.value[0], 0) {
        return;
      }
      NativeScriptAt(elements.value[1]);
    }

    /** Only outputs spelled as maps can refer to a script; key 3 leads to it. */
    method OutputScriptsAt(at: nat)
      requires |bytes| <= ISIZE_MAX
      modifies this
      ensures Sofar() == Join(old(Sofar()), FoundAt(bytes, Output, at))
    {
      hide FoundAt, FoundBelow, FoundInAll, FoundInEntries, FoundInParts, FoundAtIndex, Join, Level, ElementStarts,
           EntryStarts;
      MapRoute(bytes, Output, at, Sofar());
      var offsets := MapEntryOffsets(bytes, at);
      if offsets.None? {
        return;
      }
      var entries := offsets.value;
      assert entries[..|entries|] == entries;
      for k := 0 to |entries|
        invariant Sofar() == Join(old(Sofar()), FoundInEntries(bytes, Output, entries[..k]))
      {
        if IsUint(bytes, entries[k].0, 3) {
          ScriptRefPayloadAt(entries[k].1);
        }
        OneMoreEntry(bytes, Output, entries, k, old(Sofar()));
      }
    }

    method OutputsAt(at: nat)
      requires |bytes| <= ISIZE_MAX
      modifies this
      ensures Sofar() == Join(old(Sofar()), FoundAt(bytes, Outputs, at))
    {
      hide FoundAt, FoundBelow, FoundInAll, FoundInEntries, FoundInParts, FoundAtIndex, Join, Level, ElementStarts,
           EntryStarts, EntryRoute;
      ListRoute(bytes, Outputs, at, Sofar());
      var offsets := ArrayElementOffsets(bytes, at);
      if offsets.None? {
        return;
      }
      var starts := offsets.value;
      assert starts[..|starts|] == starts;
      for k := 0 to |starts|
        invariant Sofar() == Join(old(Sofar()), FoundInAll(bytes, Output, starts[..k]))
      {
        OutputScriptsAt(starts[k]);
        OneMoreElement(bytes, Output, starts, k, old(Sofar()));
      }
    }

    /** Of a transaction body, the output list and the output that returns
        collateral can hold script references. */
    method BodyScriptsAt(at: nat)
      requires |bytes| <= ISIZE_MAX
      modifies this
      ensures Sofar() == Join(old(Sofar()), FoundAt(bytes, Body, at))
    {
      hide FoundAt, FoundBelow, FoundInAll, FoundInEntries, FoundInParts, FoundAtIndex, Join, Level, ElementStarts,
           EntryStarts;
      MapRoute(bytes, Body, at, Sofar());
      var offsets := MapEntryOffsets(bytes, at);
      if offsets.None? {
        return;
      }
      var entries := offsets.value;
      assert entries[..|entries|] == entries;
      for k := 0 to |entries|
        invariant Sofar() == Join(old(Sofar()), FoundInEntries(bytes, Body, entries[..k]))
      {
        if IsUint(bytes, entries[k].0, 1) {
          OutputsAt(entries[k].1);
        } else if IsUint(bytes, entries[k].0, 16) {
          OutputScriptsAt(entries[k].1);
        }
        OneMoreEntry(bytes, Body, entries, k, old(Sofar()));
      }
    }

    method BodiesAt(at: nat)
      requires |bytes| <= ISIZE_MAX
      modifies this
      ensures Sofar() == Join(old(Sofar()), FoundAt(bytes, Bodies, at))
    {
      hide FoundAt, FoundBelow, FoundInAll, FoundInEntries, FoundInParts, FoundAtIndex, Join, Level, ElementStarts,
           EntryStarts, EntryRoute;
      ListRoute(bytes, Bodies, at, Sofar());
      var offsets := ArrayElementOffsets(bytes, at);
      if offsets.None? {
        return;
      }
      var starts := offsets.value;
      assert starts[..|starts|] == starts;
      for k := 0 to |starts|
        invariant Sofar() == Join(old(Sofar()), FoundInAll(bytes, Body, starts[..k]))
      {
        BodyScriptsAt(starts[k]);
        OneMoreElement(bytes, Body, starts, k, old(Sofar()));
      }
    }

    method WitnessSetsAt(at: nat)
      requires |bytes| <= ISIZE_MAX
      modifies this
      ensures Sofar() == Join(old(Sofar()), FoundAt(bytes, WitnessSets, at))
    {
      hide FoundAt, FoundBelow, FoundInAll, FoundInEntries, FoundInParts, FoundAtIndex, Join, Level, ElementStarts,
           EntryStarts, EntryRoute;
      ListRoute(bytes, WitnessSets, at, Sofar());
      var offsets := ArrayElementOffsets(bytes, at);
      if offsets.None? {
        return;
      }
      var starts := offsets.value;
      assert starts[..|starts|] == starts;
      for k := 0 to |starts|
        invariant Sofar() == Join(old(Sofar()), FoundInAll(bytes, WitnessSet, starts[..k]))
      {
        WitnessSetScriptsAt(starts[k], WitnessSet);
        OneMoreElement(bytes, WitnessSet, starts, k, old(Sofar()));
      }
    }

    /** The body, the witness set and the auxiliary data, which is the last of three
        or four elements. */
    method TransactionScriptsAt(at: nat)
      requires |bytes| <= ISIZE_MAX
      modifies this
      ensures Sofar() == Join(old(Sofar()), FoundAt(bytes, Transaction, at))
    {
      hide FoundAt, FoundBelow, FoundInAll, FoundInEntries, Join, Level, ElementStarts, EntryStarts, EntryRoute;
      PartsRoute(bytes, Transaction, at, Sofar());
      var elements := ArrayElementOffsets(bytes, at);
      if elements.None? {
        return;
      }
      var starts := elements.value;
      ghost var auxiliary := if |starts| == 4 then 3 else if |starts| == 3 then 2 else |starts|;
      ThreeParts(Sofar(), FoundAtIndex(bytes, Body, starts, 0), FoundAtIndex(bytes, WitnessSet, starts, 1),
                 FoundAtIndex(bytes, AuxiliaryData, starts, auxiliary));
      if |starts| > 0 {
        BodyScriptsAt(starts[0]);
      } else {
        JoinNothing(Sofar());
      }
      if |starts| > 1 {
        WitnessSetScriptsAt(starts[1], WitnessSet);
      } else {
        JoinNothing(Sofar());
      }
      if |starts| == 4 {
        AuxiliaryDataScriptsAt(starts[3]);
      } else if |starts| == 3 {
        AuxiliaryDataScriptsAt(starts[2]);
      } else {
        JoinNothing(Sofar());
      }
    }

    /** Every transaction body, witness set and auxiliary data of a block, kept in
        the three elements behind its header. */
    method BlockScriptsAt(at: nat)
      requires |bytes| <= ISIZE_MAX
      modifies this
      ensures Sofar() == Join(old(Sofar()), FoundAt(bytes, Block, at))
    {
      hide FoundAt, FoundBelow, FoundInAll, FoundInEntries, Join, Level, ElementStarts, EntryStarts, EntryRoute;
      PartsRoute(bytes, Block, at, Sofar());
      var elements := ArrayElementOffsets(bytes, at);
      if elements.None? {
        return;
      }
      var starts := elements.value;
      ThreeParts(Sofar(), FoundAtIndex(bytes, Bodies, starts, 1), FoundAtIndex(bytes, WitnessSets, starts, 2),
                 FoundAtIndex(bytes, AuxiliaryDataSet, starts, 3));
      if |starts| > 1 {
        BodiesAt(starts[1]);
      } else {
        JoinNothing(Sofar());
      }
      if |starts| > 2 {
        WitnessSetsAt(starts[2]);
      } else {
        JoinNothing(Sofar());
      }
      if |starts| > 3 {
        AuxiliaryDataSetAt(starts[3]);
      } else {
        JoinNothing(Sofar());
      }
    }

    method AuxiliaryDataSetAt(at: nat)
      requires |bytes| <= ISIZE_MAX
      modifies this
      ensures Sofar() == Join(old(Sofar()), FoundAt(bytes, AuxiliaryDataSet, at))
    {
      hide FoundAt, FoundBelow, FoundInAll, FoundInEntries, FoundInParts, FoundAtIndex, Join, Level, ElementStarts,
           EntryStarts;
      MapRoute(bytes, AuxiliaryDataSet, at, Sofar());
      var offsets := MapEntryOffsets(bytes, at);
      if offsets.None? {
        return;
      }
      var entries := offsets.value;
      assert entries[..|entries|] == entries;
      for k := 0 to |entries|
        invariant Sofar() == Join(old(Sofar()), FoundInEntries(bytes, AuxiliaryDataSet, entries[..k]))
      {
        AuxiliaryDataScriptsAt(entries[k].1);
        OneMoreEntry(bytes, AuxiliaryDataSet, entries, k, old(Sofar()));
      }
    }

    /** Follow the routes of one shape of document. */
    method Follow(route: Route, at: nat)
      requires |bytes| <= ISIZE_MAX && route != AuxiliaryMap
      modifies this
      ensures Sofar() == Join(old(Sofar()), FoundAt(bytes, route, at))
    {
      match route
      case ScriptAt => NativeScriptAt(at);
      case ScriptList => NativeScriptListAt(at);
      case WitnessSet => WitnessSetScriptsAt(at, WitnessSet);
      case WitnessSets => WitnessSetsAt(at);
      case AuxiliaryData => AuxiliaryDataScriptsAt(at);
      case AuxiliaryDataSet => AuxiliaryDataSetAt(at);
      case RefPayload => ScriptRefPayloadAt(at);
      case RefContent => ScriptRefContentAt(at);
      case AnyRef =>
        var header := ReadHead(bytes, at);
        if header.None? {
          return;
        }
        if header.value.major == 6 {
          ScriptRefPayloadAt(at);
        } else {
          ScriptRefContentAt(at);
        }
      case Output => OutputScriptsAt(at);
      case Outputs => OutputsAt(at);
      case UnspentOutput =>
        var elements := ArrayElementOffsets(bytes, at);
        if elements.Some? && |elements.value| > 1 {
          OutputScriptsAt(elements.value[1]);
        }
      case Body => BodyScriptsAt(at);
      case Bodies => BodiesAt(at);
      case Transaction => TransactionScriptsAt(at);
      case Block => BlockScriptsAt(at);
      case VersionedBlock =>
        var elements := ArrayElementOffsets(bytes, at);
        if elements.Some? && |elements.value| > 1 {
          BlockScriptsAt(elements.value[1]);
        }
      case Elsewhere =>
    }
  }

  // ---------------------------------------------------------------------
  // The answer
  // ---------------------------------------------------------------------

  predicate Less(a: (nat, nat), b: (nat, nat)) {
    a.0 < b.0 || (a.0 == b.0 && a.1 < b.1)
  }

  /** `x` put in its place among sorted distinct ranges. */
  function Insert(x: (nat, nat), s: seq<(nat, nat)>): (r: seq<(nat, nat)>) {
    if s == [] || Less(x, s[0]) then [x] + s
    else if x == s[0] then s
    else [s[0]] + Insert(x, s[1..])
  }

  /** `s` sorted, without repetitions. */
  function SortedDistinct(s: seq<(nat, nat)>): (r: seq<(nat, nat)>) {
    if s == [] then [] else Insert(s[0], SortedDistinct(s[1..]))
  }

  lemma {:induction false} InOrderIsSorted(s: seq<(nat, nat)>, lo: nat, hi: nat)
    requires InOrder(s, lo, hi)
    ensures SortedDistinct(s) == s
    decreases |s|
  {
    if s != [] {
      assert forall k | 0 <= k < |s[1..]| :: s[1..][k] == s[k + 1];
      InOrderIsSorted(s[1..], lo, hi);
      if |s| > 1 {
        assert s[1..][0] == s[1] && Less(s[0], s[1]);
      }
      assert s == [s[0]] + s[1..];
    }
  }

  function InsertOffset(x: nat, s: seq<nat>): (r: seq<nat>) {
    if s == [] || x < s[0] then [x] + s
    else if x == s[0] then s
    else [s[0]] + InsertOffset(x, s[1..])
  }

  function SortedOffsets(s: seq<nat>): (r: seq<nat>) {
    if s == [] then [] else InsertOffset(s[0], SortedOffsets(s[1..]))
  }

  predicate Increasing(s: seq<nat>) {
    forall j, k | 0 <= j < k < |s| :: s[j] < s[k]
  }

  lemma {:induction false} IncreasingIsSorted(s: seq<nat>)
    requires Increasing(s)
    ensures SortedOffsets(s) == s
    decreases |s|
  {
    if s != [] {
      assert forall k | 0 <= k < |s[1..]| :: s[1..][k] == s[k + 1];
      IncreasingIsSorted(s[1..]);
      if |s| > 1 {
        assert s[1..][0] == s[1] && s[0] < s[1];
      }
      assert s == [s[0]] + s[1..];
    }
  }

  /** The native scripts of a document of any shape: whole scripts, in document
      order, no two overlapping; and the script references, in order. Sorting
      and removing repetitions changes nothing, because the routes already go
      through the document in order. */
  method NativeScriptSites(bytes: seq<byte>, route: Route) returns (scripts: seq<(nat, nat)>, refs: seq<nat>)
    requires |bytes| <= ISIZE_MAX && route != AuxiliaryMap
    ensures Found(scripts, refs) == FoundAt(bytes, route, 0)
    ensures InOrder(scripts, 0, |bytes|) && Increasing(refs)
    ensures forall k | 0 <= k < |scripts| :: WholeScript(bytes, scripts[k].0) == Some(scripts[k].1)
  {
    var finder := new Finder(bytes);
    finder.Follow(route, 0);
    SitesAreInOrder(bytes, route);
    SitesAreScripts(bytes, route, 0);
    InOrderIsSorted(finder.scripts, 0, |bytes|);
    IncreasingIsSorted(finder.scriptRefs);
    scripts := SortedDistinct(finder.scripts);
    refs := SortedOffsets(finder.scriptRefs);
  }

  lemma SitesAreInOrder(bytes: seq<byte>, route: Route)
    ensures InOrder(FoundAt(bytes, route, 0).scripts, 0, |bytes|) && Increasing(FoundAt(bytes, route, 0).refs)
  {
    if Lax(bytes, 0).Some? {
      RouteStaysInside(bytes, route, 0);
      Wider(FoundAt(bytes, route, 0), 0, Lax(bytes, 0).value, 0, |bytes|);
    } else {
      NoItemNoScripts(bytes, route, 0);
    }
  }

  /** Where no item can be skipped, no script is found, and at most one
      reference. */
  lemma {:induction false} NoItemNoScripts(bytes: seq<byte>, route: Route, at: nat)
    requires Lax(bytes, at).None?
    ensures FoundAt(bytes, route, at).scripts == [] && |FoundAt(bytes, route, at).refs| <= 1
  {
    hide Lax, ElementStarts, EntryStarts, EntryRoute, Level, FoundBelow, FoundInAll, FoundInEntries, FoundInParts,
         ChildOf;
    ElementsNeedAnItem(bytes, at);
    if IsListRoute(route) {
      ListRoute(bytes, route, at, NOTHING);
    } else if IsMapRoute(route) {
      MapRoute(bytes, route, at, NOTHING);
    } else if route.Transaction? || route.Block? {
      PartsRoute(bytes, route, at, NOTHING);
    } else {
      NoItemNoneBelow(bytes, route, at);
    }
  }

  lemma {:induction false} NoItemNoneBelow(bytes: seq<byte>, route: Route, at: nat)
    requires Lax(bytes, at).None?
    requires !IsListRoute(route) && !IsMapRoute(route) && !route.Transaction? && !route.Block?
    ensures FoundBelow(bytes, route, at).scripts == [] && |FoundBelow(bytes, route, at).refs| <= 1
  {
    hide Lax, ElementStarts, EntryStarts, EntryRoute, Level, FoundInParts, FoundInEntries, Parse;
    ElementsNeedAnItem(bytes, at);
    if route.ScriptAt? {
      if Parse(bytes, at).Some? {
        ScriptIsOneItem(bytes, at);
      }
    } else if route.ScriptList? {
      if PastSetTags(bytes, at, 2).Some? {
        SetTagsAreTransparent(bytes, at, 2);
        ElementsNeedAnItem(bytes, PastSetTags(bytes, at, 2).value);
      }
    } else if route.AuxiliaryData? {
      var h := ReadHead(bytes, at);
      if h.Some? && h.value.major == 6 {
        TagIsTransparent(bytes, at);
        ElementsNeedAnItem(bytes, at + h.value.len);
        MapRoute(bytes, AuxiliaryMap, at + h.value.len, NOTHING);
      }
    }
  }

  /** Everything found is a whole script. */
  ghost predicate AllWhole(bytes: seq<byte>, scripts: seq<(nat, nat)>) {
    forall k | 0 <= k < |scripts| :: WholeScript(bytes, scripts[k].0) == Some(scripts[k].1)
  }

  lemma {:induction false} SitesAreScripts(bytes: seq<byte>, route: Route, at: nat)
    ensures AllWhole(bytes, FoundAt(bytes, route, at).scripts)
    decreases Level(route), 3, 0
  {
    hide ElementStarts, EntryStarts, EntryRoute, FoundAtIndex, FoundInAll, FoundInEntries, FoundBelow;
    var elements := OrNone(ElementStarts(bytes, at));
    if IsListRoute(route) {
      AllSitesAreScripts(bytes, ChildOf(route), elements);
    } else if IsMapRoute(route) {
      EntrySitesAreScripts(bytes, route, OrNone(EntryStarts(bytes, at)));
    } else if route.Transaction? {
      IndexSitesAreScripts(bytes, Body, elements, 0);
      IndexSitesAreScripts(bytes, WitnessSet, elements, 1);
      IndexSitesAreScripts(bytes, AuxiliaryData, elements,
                           if |elements| == 4 then 3 else if |elements| == 3 then 2 else |elements|);
    } else if route.Block? {
      IndexSitesAreScripts(bytes, Bodies, elements, 1);
      IndexSitesAreScripts(bytes, WitnessSets, elements, 2);
      IndexSitesAreScripts(bytes, AuxiliaryDataSet, elements, 3);
    } else {
      SitesBelowAreScripts(bytes, route, at);
    }
  }

  lemma {:induction false} SitesBelowAreScripts(bytes: seq<byte>, route: Route, at: nat)
    requires !IsListRoute(route) && !IsMapRoute(route) && !route.Transaction? && !route.Block?
    ensures AllWhole(bytes, FoundBelow(bytes, route, at).scripts)
    decreases Level(route), 2, 0
  {
    hide ElementStarts, WholeScript, PastSetTags, PayloadStart, FoundAt, FoundAtIndex, FoundInAll;
    var elements := OrNone(ElementStarts(bytes, at));
    match route
    case Elsewhere =>
    case ScriptAt =>
    case RefPayload =>
    case ScriptList =>
      if PastSetTags(bytes, at, 2).Some? {
        AllSitesAreScripts(bytes, ScriptAt, OrNone(ElementStarts(bytes, PastSetTags(bytes, at, 2).value)));
      }
    case AuxiliaryData =>
      IndexSitesAreScripts(bytes, ScriptList, elements, 1);
      if ReadHead(bytes, at).Some? {
        SitesAreScripts(bytes, AuxiliaryMap, at + ReadHead(bytes, at).value.len);
      }
    case RefContent =>
      if |elements| == 2 {
        SitesAreScripts(bytes, ScriptAt, elements[1]);
      }
    case AnyRef =>
      SitesAreScripts(bytes, RefPayload, at);
      SitesAreScripts(bytes, RefContent, at);
    case UnspentOutput => IndexSitesAreScripts(bytes, Output, elements, 1);
    case VersionedBlock => IndexSitesAreScripts(bytes, Block, elements, 1);
  }

  lemma {:induction false} IndexSitesAreScripts(bytes: seq<byte>, route: Route, starts: seq<nat>, k: nat)
    ensures AllWhole(bytes, FoundAtIndex(bytes, route, starts, k).scripts)
    decreases Level(route), 4, 0
  {
    if k < |starts| {
      SitesAreScripts(bytes, route, starts[k]);
    }
  }

  lemma {:induction false} AllSitesAreScripts(bytes: seq<byte>, route: Route, starts: seq<nat>)
    ensures AllWhole(bytes, FoundInAll(bytes, route, starts).scripts)
    decreases Level(route), 4, |starts|
  {
    if starts != [] {
      AllSitesAreScripts(bytes, route, starts[..|starts| - 1]);
      SitesAreScripts(bytes, route, starts[|starts| - 1]);
    }
  }

  lemma {:induction false} EntrySitesAreScripts(bytes: seq<byte>, route: Route, entries: seq<(nat, nat)>)
    requires IsMapRoute(route)
    ensures AllWhole(bytes, FoundInEntries(bytes, route, entries).scripts)
    decreases Level(route), 1, |entries|
  {
    if entries != [] {
      var (key, value) := entries[|entries| - 1];
      EntrySitesAreScripts(bytes, route, entries[..|entries| - 1]);
      SitesAreScripts(bytes, EntryRoute(bytes, route, key), value);
    }
  }
}
