/** Where a document keeps its native scripts and script references, as data, and that
    following the routes finds exactly what stands there. */
module SitePlaces {
  import opened Wire
  import opened Navigation
  import opened Sites

  // ---------------------------------------------------------------------
  // Places
  // ---------------------------------------------------------------------

  /** One step from an item to an item inside it. */
  datatype Hop =
    | Entry(key: nat)
    | EveryEntry
    | Element(index: nat)
    | ElementOf(size: nat, index: nat)
    | EveryElement
    | AfterZero
    | Tagged(tag: nat)
    | DefiniteBytes

  datatype Kind = OneScript | Reference

  /** The places of a document: at the end of every way through the steps stands a
      thing of the kind named there. */
  datatype Places =
    | Here(kind: Kind)
    | Via(hop: Hop, beyond: Places)
    | Both(left: Places, right: Places)
    | NoPlace

  /** At `at`, `value` is spelled as a key, in whatever width. */
  predicate SpellsUnsigned(bytes: seq<byte>, at: nat, value: nat) {
    var h := ReadHead(bytes, at);
    h.Some? && h.value.major == 0 && h.value.argument == Some(value)
  }

  /** The step leads from the item at `at` to `to`: to the values of a map whose key is
      that integer, to all its values, to an element of an array, of one of that size,
      to all of them, to the second of two behind a zero, past a tag, or to the
      payload of a byte string that has a length. */
  ghost predicate Leads(bytes: seq<byte>, at: nat, hop: Hop, to: nat) {
    match hop
    case Entry(key) =>
      && EntryStarts(bytes, at).Some?
      && var entries := EntryStarts(bytes, at).value;
      exists j | 0 <= j < |entries| :: entries[j].1 == to && SpellsUnsigned(bytes, entries[j].0, key)
    case EveryEntry =>
      && EntryStarts(bytes, at).Some?
      && var entries := EntryStarts(bytes, at).value;
      exists j | 0 <= j < |entries| :: entries[j].1 == to
    case Element(index) =>
      && ElementStarts(bytes, at).Some?
      && var elements := ElementStarts(bytes, at).value;
      index < |elements| && to == elements[index]
    case ElementOf(size, index) =>
      && ElementStarts(bytes, at).Some?
      && var elements := ElementStarts(bytes, at).value;
      index < |elements| == size && to == elements[index]
    case EveryElement => ElementStarts(bytes, at).Some? && to in ElementStarts(bytes, at).value
    case AfterZero =>
      && ElementStarts(bytes, at).Some?
      && var elements := ElementStarts(bytes, at).value;
      |elements| == 2 && SpellsUnsigned(bytes, elements[0], 0) && to == elements[1]
    case Tagged(tag) =>
      && ReadHead(bytes, at).Some?
      && var h := ReadHead(bytes, at).value;
      h.major == 6 && h.argument == Some(tag) && to == at + h.len
    case DefiniteBytes =>
      && ReadHead(bytes, at).Some?
      && var h := ReadHead(bytes, at).value;
      h.major == 2 && h.argument.Some? && to == at + h.len
  }

  /** Some way through the steps leads from `at` to a place for `kind` at `to`. */
  ghost predicate Reaches(bytes: seq<byte>, at: nat, places: Places, kind: Kind, to: nat)
    decreases places
  {
    match places
    case Here(k) => k == kind && at == to
    case Via(hop, beyond) => exists mid :: Leads(bytes, at, hop, mid) && Reaches(bytes, mid, beyond, kind, to)
    case Both(left, right) => Reaches(bytes, at, left, kind, to) || Reaches(bytes, at, right, kind, to)
    case NoPlace => false
  }

  // The shapes the ledger knows (the Conway CDDL).

  /** An array of scripts, alone or as a set, whose tag may be doubled. */
  const SCRIPTS := Via(EveryElement, Here(OneScript))
  const SCRIPT_LIST := Both(SCRIPTS, Both(Via(Tagged(258), SCRIPTS), Via(Tagged(258), Via(Tagged(258), SCRIPTS))))
  const WITNESS_SET := Via(Entry(1), SCRIPT_LIST)
  const AUXILIARY_DATA := Both(Via(Element(1), SCRIPT_LIST), Via(Tagged(259), Via(Entry(1), SCRIPT_LIST)))
  const REFERENCE := Via(Tagged(24), Via(DefiniteBytes, Here(Reference)))
  const OUTPUT := Via(Entry(3), REFERENCE)
  const BODY := Both(Via(Entry(1), Via(EveryElement, OUTPUT)), Via(Entry(16), OUTPUT))
  const TRANSACTION :=
    Both(Via(Element(0), BODY),
         Both(Via(Element(1), WITNESS_SET),
              Both(Via(ElementOf(3, 2), AUXILIARY_DATA), Via(ElementOf(4, 3), AUXILIARY_DATA))))
  const BLOCK :=
    Both(Via(Element(1), Via(EveryElement, BODY)),
         Both(Via(Element(2), Via(EveryElement, WITNESS_SET)), Via(Element(3), Via(EveryEntry, AUXILIARY_DATA))))

  /** The places of a document of each shape. */
  function PlacesOf(route: Route): (places: Places) {
    match route
    case ScriptAt => Here(OneScript)
    case ScriptList => SCRIPT_LIST
    case WitnessSet => WITNESS_SET
    case WitnessSets => Via(EveryElement, WITNESS_SET)
    case AuxiliaryData => AUXILIARY_DATA
    case AuxiliaryMap => Via(Entry(1), SCRIPT_LIST)
    case AuxiliaryDataSet => Via(EveryEntry, AUXILIARY_DATA)
    case RefPayload => REFERENCE
    case RefContent => Via(AfterZero, Here(OneScript))
    case AnyRef => Both(REFERENCE, Via(AfterZero, Here(OneScript)))
    case Output => OUTPUT
    case Outputs => Via(EveryElement, OUTPUT)
    case UnspentOutput => Via(Element(1), OUTPUT)
    case Body => BODY
    case Bodies => Via(EveryElement, BODY)
    case Transaction => TRANSACTION
    case Block => BLOCK
    case VersionedBlock => Via(Element(1), BLOCK)
    case Elsewhere => NoPlace
  }

  // ---------------------------------------------------------------------
  // What is found stands at such a place, and all of it is found
  // ---------------------------------------------------------------------

  /** A range or a payload's start that a route may find. */
  datatype Site = Range(start: nat, end: nat) | Payload(first: nat)

  predicate Has(f: Found, site: Site) {
    match site
    case Range(start, end) => (start, end) in f.scripts
    case Payload(first) => first in f.refs
  }

  /** The site stands at one of the places: a script that is whole, or a payload. */
  ghost predicate Stands(bytes: seq<byte>, at: nat, places: Places, site: Site) {
    match site
    case Range(start, end) =>
      Reaches(bytes, at, places, OneScript, start) && WholeScript(bytes, start) == Some(end)
    case Payload(first) => Reaches(bytes, at, places, Reference, first)
  }

  lemma JoinHas(a: Found, b: Found, site: Site)
    ensures Has(Join(a, b), site) <==> Has(a, site) || Has(b, site)
  {
  }

  lemma BothStand(bytes: seq<byte>, at: nat, left: Places, right: Places, site: Site)
    ensures Stands(bytes, at, Both(left, right), site)
            <==> Stands(bytes, at, left, site) || Stands(bytes, at, right, site)
  {
    hide Leads;
  }

  lemma ViaStands(bytes: seq<byte>, at: nat, hop: Hop, beyond: Places, site: Site)
    ensures Stands(bytes, at, Via(hop, beyond), site)
       <==> exists mid :: Leads(bytes, at, hop, mid) && Stands(bytes, mid, beyond, site)
  {
    hide Leads;
  }

  lemma {:induction false} AllHave(bytes: seq<byte>, route: Route, starts: seq<nat>, site: Site)
    ensures Has(FoundInAll(bytes, route, starts), site)
       <==> exists k | 0 <= k < |starts| :: Has(FoundAt(bytes, route, starts[k]), site)
    decreases |starts|
  {
    hide FoundAt, Has;
    if starts == [] {
      NothingHas(site);
    } else {
      var n := |starts| - 1;
      AllHave(bytes, route, starts[..n], site);
      JoinHas(FoundInAll(bytes, route, starts[..n]), FoundAt(bytes, route, starts[n]), site);
      assert forall k | 0 <= k < n :: starts[..n][k] == starts[k];
    }
  }

  lemma NothingHas(site: Site)
    ensures !Has(NOTHING, site)
  {
  }

  lemma {:induction false} EntriesHave(bytes: seq<byte>, route: Route, entries: seq<(nat, nat)>, site: Site)
    requires IsMapRoute(route)
    ensures Has(FoundInEntries(bytes, route, entries), site)
       <==> exists k | 0 <= k < |entries| ::
              Has(FoundAt(bytes, EntryRoute(bytes, route, entries[k].0), entries[k].1), site)
    decreases |entries|
  {
    hide FoundAt, Has, EntryRoute;
    if entries == [] {
      NothingHas(site);
    } else {
      var n := |entries| - 1;
      EntriesHave(bytes, route, entries[..n], site);
      JoinHas(FoundInEntries(bytes, route, entries[..n]),
              FoundAt(bytes, EntryRoute(bytes, route, entries[n].0), entries[n].1), site);
      assert forall k | 0 <= k < n :: entries[..n][k] == entries[k];
    }
  }

  /** A route finds a site exactly when the site stands at one of the places of its
      shape. */
  lemma {:induction false} FoundExactly(bytes: seq<byte>, route: Route, at: nat, site: Site)
    ensures Has(FoundAt(bytes, route, at), site) <==> Stands(bytes, at, PlacesOf(route), site)
    decreases Level(route), 2
  {
    hide Has, Stands, Reaches, Leads, FoundInAll, FoundInEntries, FoundInParts, FoundBelow, ElementStarts, EntryStarts;
    match route
    case WitnessSets => EachElement(bytes, route, WITNESS_SET, at, site);
    case Outputs => EachElement(bytes, route, OUTPUT, at, site);
    case Bodies => EachElement(bytes, route, BODY, at, site);
    case WitnessSet => KeyedEntry(bytes, route, ScriptList, 1, SCRIPT_LIST, at, site);
    case AuxiliaryMap => KeyedEntry(bytes, route, ScriptList, 1, SCRIPT_LIST, at, site);
    case Output => KeyedEntry(bytes, route, RefPayload, 3, REFERENCE, at, site);
    case Body => BodyEntry(bytes, at, site);
    case AuxiliaryDataSet => AnyEntry(bytes, at, site);
    case Transaction => TransactionParts(bytes, at, site);
    case Block => BlockParts(bytes, at, site);
    case ScriptAt => BelowExactly(bytes, route, at, site);
    case ScriptList => BelowExactly(bytes, route, at, site);
    case AuxiliaryData => BelowExactly(bytes, route, at, site);
    case RefPayload => BelowExactly(bytes, route, at, site);
    case RefContent => BelowExactly(bytes, route, at, site);
    case AnyRef => BelowExactly(bytes, route, at, site);
    case UnspentOutput => BelowExactly(bytes, route, at, site);
    case VersionedBlock => BelowExactly(bytes, route, at, site);
    case Elsewhere => BelowExactly(bytes, route, at, site);
  }

  lemma {:induction false} EachElement(bytes: seq<byte>, route: Route, beyond: Places, at: nat, site: Site)
    requires IsListRoute(route) && PlacesOf(ChildOf(route)) == beyond
    ensures Has(FoundAt(bytes, route, at), site) <==> Stands(bytes, at, Via(EveryElement, beyond), site)
    decreases Level(route), 0
  {
    hide Has, Stands, Reaches, FoundAt, FoundInAll, PlacesOf, ElementStarts, ReadHead;
    var starts := OrNone(ElementStarts(bytes, at));
    AllHave(bytes, ChildOf(route), starts, site);
    forall k | 0 <= k < |starts|
      ensures Has(FoundAt(bytes, ChildOf(route), starts[k]), site) <==> Stands(bytes, starts[k], beyond, site)
    {
      FoundExactly(bytes, ChildOf(route), starts[k], site);
    }
    ViaStands(bytes, at, EveryElement, beyond, site);
    ListRoute(bytes, route, at, NOTHING);
    assert forall k | 0 <= k < |starts| :: Leads(bytes, at, EveryElement, starts[k]);
  }

  /** Through the entries of a map: what each leads to, told by its key. */
  lemma MapHas(bytes: seq<byte>, route: Route, at: nat, site: Site)
    requires IsMapRoute(route)
    ensures var entries := OrNone(EntryStarts(bytes, at));
            Has(FoundAt(bytes, route, at), site)
            <==> exists k | 0 <= k < |entries| ::
                   Has(FoundAt(bytes, EntryRoute(bytes, route, entries[k].0), entries[k].1), site)
  {
    hide Has, EntryRoute, FoundInEntries, FoundInAll, FoundBelow, FoundInParts, EntryStarts, ElementStarts;
    EntriesHave(bytes, route, OrNone(EntryStarts(bytes, at)), site);
    MapRoute(bytes, route, at, NOTHING);
  }

  lemma ElsewhereHas(bytes: seq<byte>, at: nat, site: Site)
    ensures !Has(FoundAt(bytes, Elsewhere, at), site)
  {
  }

  lemma {:induction false} KeyedEntry(bytes: seq<byte>, route: Route, child: Route, key: nat, beyond: Places, at: nat,
                                      site: Site)
    requires route in {WitnessSet, AuxiliaryMap, Output} && PlacesOf(child) == beyond && Level(child) < Level(route)
    requires key == (if route == Output then 3 else 1) && child == (if route == Output then RefPayload else ScriptList)
    ensures Has(FoundAt(bytes, route, at), site) <==> Stands(bytes, at, Via(Entry(key), beyond), site)
    decreases Level(route), 0
  {
    hide Has, Stands, Reaches, FoundAt, EntryStarts, ElementStarts, ReadHead, PlacesOf;
    var entries := OrNone(EntryStarts(bytes, at));
    MapHas(bytes, route, at, site);
    forall k | 0 <= k < |entries|
      ensures Has(FoundAt(bytes, EntryRoute(bytes, route, entries[k].0), entries[k].1), site)
         <==> SpellsUnsigned(bytes, entries[k].0, key) && Stands(bytes, entries[k].1, beyond, site)
    {
      FoundExactly(bytes, child, entries[k].1, site);
      ElsewhereHas(bytes, entries[k].1, site);
    }
    ViaStands(bytes, at, Entry(key), beyond, site);
    assert forall k | 0 <= k < |entries| :: SpellsUnsigned(bytes, entries[k].0, key) ==>
             Leads(bytes, at, Entry(key), entries[k].1);
  }

  lemma {:induction false} BodyEntry(bytes: seq<byte>, at: nat, site: Site)
    ensures Has(FoundAt(bytes, Body, at), site) <==> Stands(bytes, at, BODY, site)
    decreases Level(Body), 0
  {
    hide Has, Stands, Reaches, FoundAt, EntryStarts, ElementStarts, ReadHead;
    var entries := OrNone(EntryStarts(bytes, at));
    var outputs := Via(EveryElement, OUTPUT);
    MapHas(bytes, Body, at, site);
    forall k | 0 <= k < |entries|
      ensures Has(FoundAt(bytes, EntryRoute(bytes, Body, entries[k].0), entries[k].1), site)
         <==> || (SpellsUnsigned(bytes, entries[k].0, 1) && Stands(bytes, entries[k].1, outputs, site))
              || (SpellsUnsigned(bytes, entries[k].0, 16) && Stands(bytes, entries[k].1, OUTPUT, site))
    {
      FoundExactly(bytes, Outputs, entries[k].1, site);
      FoundExactly(bytes, Output, entries[k].1, site);
      ElsewhereHas(bytes, entries[k].1, site);
    }
    BothStand(bytes, at, Via(Entry(1), outputs), Via(Entry(16), OUTPUT), site);
    ViaStands(bytes, at, Entry(1), outputs, site);
    ViaStands(bytes, at, Entry(16), OUTPUT, site);
    assert forall k | 0 <= k < |entries| ::
             && (SpellsUnsigned(bytes, entries[k].0, 1) ==> Leads(bytes, at, Entry(1), entries[k].1))
             && (SpellsUnsigned(bytes, entries[k].0, 16) ==> Leads(bytes, at, Entry(16), entries[k].1));
  }

  lemma {:induction false} AnyEntry(bytes: seq<byte>, at: nat, site: Site)
    ensures Has(FoundAt(bytes, AuxiliaryDataSet, at), site)
            <==> Stands(bytes, at, Via(EveryEntry, AUXILIARY_DATA), site)
    decreases Level(AuxiliaryDataSet), 0
  {
    hide Has, Stands, Reaches, FoundAt, EntryStarts, ElementStarts, ReadHead;
    var entries := OrNone(EntryStarts(bytes, at));
    MapHas(bytes, AuxiliaryDataSet, at, site);
    forall k | 0 <= k < |entries|
      ensures Has(FoundAt(bytes, AuxiliaryData, entries[k].1), site)
              <==> Stands(bytes, entries[k].1, AUXILIARY_DATA, site)
    {
      FoundExactly(bytes, AuxiliaryData, entries[k].1, site);
    }
    ViaStands(bytes, at, EveryEntry, AUXILIARY_DATA, site);
    assert forall k | 0 <= k < |entries| :: Leads(bytes, at, EveryEntry, entries[k].1);
  }

  /** Through one element of an array. */
  lemma {:induction false} OneElement(bytes: seq<byte>, child: Route, index: nat, at: nat, site: Site)
    ensures Has(FoundAtIndex(bytes, child, OrNone(ElementStarts(bytes, at)), index), site)
       <==> Stands(bytes, at, Via(Element(index), PlacesOf(child)), site)
    decreases Level(child), 3
  {
    hide Has, Stands, Reaches, FoundAt, ElementStarts, EntryStarts, ReadHead, PlacesOf;
    var elements := OrNone(ElementStarts(bytes, at));
    ViaStands(bytes, at, Element(index), PlacesOf(child), site);
    NothingHas(site);
    if index < |elements| {
      FoundExactly(bytes, child, elements[index], site);
      assert Leads(bytes, at, Element(index), elements[index]);
    }
  }

  lemma {:induction false} OneElementOf(bytes: seq<byte>, child: Route, size: nat, index: nat, at: nat, site: Site)
    requires index < size
    ensures var elements := OrNone(ElementStarts(bytes, at));
            |elements| == size && Has(FoundAtIndex(bytes, child, elements, index), site)
            <==> Stands(bytes, at, Via(ElementOf(size, index), PlacesOf(child)), site)
    decreases Level(child), 3
  {
    hide Has, Stands, Reaches, FoundAt, ElementStarts, EntryStarts, ReadHead, PlacesOf;
    var elements := OrNone(ElementStarts(bytes, at));
    ViaStands(bytes, at, ElementOf(size, index), PlacesOf(child), site);
    if |elements| == size {
      FoundExactly(bytes, child, elements[index], site);
      assert Leads(bytes, at, ElementOf(size, index), elements[index]);
    }
  }

  lemma {:induction false} TransactionParts(bytes: seq<byte>, at: nat, site: Site)
    ensures Has(FoundAt(bytes, Transaction, at), site) <==> Stands(bytes, at, TRANSACTION, site)
    decreases Level(Transaction), 0
  {
    hide Has, Stands, FoundAt, FoundAtIndex, ElementStarts, EntryStarts, SCRIPT_LIST, BODY, WITNESS_SET, AUXILIARY_DATA;
    var elements := OrNone(ElementStarts(bytes, at));
    PartsRoute(bytes, Transaction, at, NOTHING);
    var body, witnesses := FoundAtIndex(bytes, Body, elements, 0), FoundAtIndex(bytes, WitnessSet, elements, 1);
    var auxiliary := FoundAtIndex(bytes, AuxiliaryData, elements, AuxiliaryIndex(|elements|));
    JoinHas(body, witnesses, site);
    JoinHas(Join(body, witnesses), auxiliary, site);
    OneElement(bytes, Body, 0, at, site);
    OneElement(bytes, WitnessSet, 1, at, site);
    OneElementOf(bytes, AuxiliaryData, 3, 2, at, site);
    OneElementOf(bytes, AuxiliaryData, 4, 3, at, site);
    if |elements| != 3 && |elements| != 4 {
      NoElement(bytes, AuxiliaryData, elements, |elements|);
      NothingHas(site);
    }
    var last := Both(Via(ElementOf(3, 2), AUXILIARY_DATA), Via(ElementOf(4, 3), AUXILIARY_DATA));
    BothStand(bytes, at, Via(ElementOf(3, 2), AUXILIARY_DATA), Via(ElementOf(4, 3), AUXILIARY_DATA), site);
    BothStand(bytes, at, Via(Element(1), WITNESS_SET), last, site);
    BothStand(bytes, at, Via(Element(0), BODY), Both(Via(Element(1), WITNESS_SET), last), site);
  }

  lemma {:induction false} BlockParts(bytes: seq<byte>, at: nat, site: Site)
    ensures Has(FoundAt(bytes, Block, at), site) <==> Stands(bytes, at, BLOCK, site)
    decreases Level(Block), 0
  {
    hide Has, Stands, FoundAt, FoundAtIndex, ElementStarts, EntryStarts, BODY, WITNESS_SET, AUXILIARY_DATA;
    var elements := OrNone(ElementStarts(bytes, at));
    PartsRoute(bytes, Block, at, NOTHING);
    var bodies, witnesses := FoundAtIndex(bytes, Bodies, elements, 1), FoundAtIndex(bytes, WitnessSets, elements, 2);
    JoinHas(bodies, witnesses, site);
    JoinHas(Join(bodies, witnesses), FoundAtIndex(bytes, AuxiliaryDataSet, elements, 3), site);
    OneElement(bytes, Bodies, 1, at, site);
    OneElement(bytes, WitnessSets, 2, at, site);
    OneElement(bytes, AuxiliaryDataSet, 3, at, site);
    var second := Via(Element(2), Via(EveryElement, WITNESS_SET));
    var third := Via(Element(3), Via(EveryEntry, AUXILIARY_DATA));
    BothStand(bytes, at, second, third, site);
    BothStand(bytes, at, Via(Element(1), Via(EveryElement, BODY)), Both(second, third), site);
  }

  lemma {:induction false} BelowExactly(bytes: seq<byte>, route: Route, at: nat, site: Site)
    requires !IsListRoute(route) && !IsMapRoute(route) && !route.Transaction? && !route.Block?
    ensures Has(FoundAt(bytes, route, at), site) <==> Stands(bytes, at, PlacesOf(route), site)
    decreases Level(route), 1
  {
    hide Has, Stands, FoundAt, FoundAtIndex, FoundInAll, ElementStarts, EntryStarts, ReadHead;
    BelowRoute(bytes, route, at);
    match route
    case ScriptAt => ScriptStands(bytes, at, site);
    case Elsewhere => NothingStands(bytes, at, site);
    case RefPayload => ReferenceStands(bytes, at, site);
    case ScriptList => ListStands(bytes, at, site);
    case AuxiliaryData => AuxiliaryStands(bytes, at, site);
    case RefContent => ContentStands(bytes, at, site);
    case AnyRef => AnyReferenceStands(bytes, at, site);
    case UnspentOutput => OneElement(bytes, Output, 1, at, site);
    case VersionedBlock => OneElement(bytes, Block, 1, at, site);
  }

  lemma BelowRoute(bytes: seq<byte>, route: Route, at: nat)
    requires !IsListRoute(route) && !IsMapRoute(route) && !route.Transaction? && !route.Block?
    ensures FoundAt(bytes, route, at) == FoundBelow(bytes, route, at)
  {
    hide FoundBelow, ElementStarts, EntryStarts;
  }

  lemma ScriptStands(bytes: seq<byte>, at: nat, site: Site)
    ensures Has(FoundAt(bytes, ScriptAt, at), site) <==> Stands(bytes, at, Here(OneScript), site)
  {
    hide WholeScript;
  }

  lemma NothingStands(bytes: seq<byte>, at: nat, site: Site)
    ensures !Has(FoundAt(bytes, Elsewhere, at), site) && !Stands(bytes, at, NoPlace, site)
  {
  }

  lemma ReferenceStands(bytes: seq<byte>, at: nat, site: Site)
    ensures Has(FoundAt(bytes, RefPayload, at), site) <==> Stands(bytes, at, REFERENCE, site)
  {
    hide ReadHead, Stands;
    var payload := Via(DefiniteBytes, Here(Reference));
    ViaStands(bytes, at, Tagged(24), payload, site);
    var h := ReadHead(bytes, at);
    if h.Some? {
      var next := at + h.value.len;
      ViaStands(bytes, next, DefiniteBytes, Here(Reference), site);
      assert h.value.major == 6 && h.value.argument == Some(24) ==> Leads(bytes, at, Tagged(24), next);
      var g := ReadHead(bytes, next);
      if g.Some? {
        PayloadStands(bytes, next + g.value.len, site);
        assert g.value.major == 2 && g.value.argument.Some? ==> Leads(bytes, next, DefiniteBytes, next + g.value.len);
      }
    }
  }

  lemma PayloadStands(bytes: seq<byte>, at: nat, site: Site)
    ensures Stands(bytes, at, Here(Reference), site) <==> site == Payload(at)
  {
  }

  lemma TaggedStands(bytes: seq<byte>, at: nat, tag: nat, beyond: Places, site: Site)
    ensures Stands(bytes, at, Via(Tagged(tag), beyond), site)
       <==> && ReadHead(bytes, at).Some?
            && var h := ReadHead(bytes, at).value;
            h.major == 6 && h.argument == Some(tag) && Stands(bytes, at + h.len, beyond, site)
  {
    hide ReadHead, Stands;
    ViaStands(bytes, at, Tagged(tag), beyond, site);
    if ReadHead(bytes, at).Some? {
      var h := ReadHead(bytes, at).value;
      assert h.major == 6 && h.argument == Some(tag) ==> Leads(bytes, at, Tagged(tag), at + h.len);
    }
  }

  /** Scripts in the array at `at`, without a tag. */
  lemma ScriptsStand(bytes: seq<byte>, at: nat, site: Site)
    ensures Has(FoundInAll(bytes, ScriptAt, OrNone(ElementStarts(bytes, at))), site)
            <==> Stands(bytes, at, SCRIPTS, site)
    ensures ReadHead(bytes, at).Some? && ReadHead(bytes, at).value.major == 6 ==> !Stands(bytes, at, SCRIPTS, site)
    ensures ReadHead(bytes, at).None? ==> !Stands(bytes, at, SCRIPTS, site)
  {
    hide Has, Stands, FoundAt, ReadHead;
    var starts := OrNone(ElementStarts(bytes, at));
    AllHave(bytes, ScriptAt, starts, site);
    forall k | 0 <= k < |starts|
      ensures Has(FoundAt(bytes, ScriptAt, starts[k]), site) <==> Stands(bytes, starts[k], Here(OneScript), site)
    {
      ScriptStands(bytes, starts[k], site);
    }
    ViaStands(bytes, at, EveryElement, Here(OneScript), site);
    assert forall k | 0 <= k < |starts| :: Leads(bytes, at, EveryElement, starts[k]);
  }

  lemma ListStands(bytes: seq<byte>, at: nat, site: Site)
    ensures Has(FoundAt(bytes, ScriptList, at), site) <==> Stands(bytes, at, SCRIPT_LIST, site)
  {
    hide Has, Stands, FoundAt, FoundInAll, ReadHead, ElementStarts;
    ScriptListRoute(bytes, at, NOTHING);
    NothingHas(site);
    var once, twice := Via(Tagged(258), SCRIPTS), Via(Tagged(258), Via(Tagged(258), SCRIPTS));
    BothStand(bytes, at, SCRIPTS, Both(once, twice), site);
    BothStand(bytes, at, once, twice, site);
    TaggedStands(bytes, at, 258, SCRIPTS, site);
    TaggedStands(bytes, at, 258, once, site);
    ScriptsStand(bytes, at, site);
    if ReadHead(bytes, at).Some? {
      var next := at + ReadHead(bytes, at).value.len;
      ScriptsStand(bytes, next, site);
      TaggedStands(bytes, next, 258, SCRIPTS, site);
      if ReadHead(bytes, next).Some? {
        ScriptsStand(bytes, next + ReadHead(bytes, next).value.len, site);
      }
    }
  }

  lemma {:induction false} AuxiliaryStands(bytes: seq<byte>, at: nat, site: Site)
    ensures Has(FoundAt(bytes, AuxiliaryData, at), site) <==> Stands(bytes, at, AUXILIARY_DATA, site)
    decreases Level(AuxiliaryData), 0
  {
    hide Has, Stands, FoundAt, FoundAtIndex, FoundInAll, SCRIPT_LIST;
    BelowRoute(bytes, AuxiliaryData, at);
    var tagged := Via(Entry(1), SCRIPT_LIST);
    BothStand(bytes, at, Via(Element(1), SCRIPT_LIST), Via(Tagged(259), tagged), site);
    OneElement(bytes, ScriptList, 1, at, site);
    TaggedStands(bytes, at, 259, tagged, site);
    NothingHas(site);
    var elements := OrNone(ElementStarts(bytes, at));
    if |elements| <= 1 {
      NoElement(bytes, ScriptList, elements, 1);
    }
    if ReadHead(bytes, at).Some? {
      FoundExactly(bytes, AuxiliaryMap, at + ReadHead(bytes, at).value.len, site);
    }
  }

  lemma ContentStands(bytes: seq<byte>, at: nat, site: Site)
    ensures Has(FoundAt(bytes, RefContent, at), site) <==> Stands(bytes, at, Via(AfterZero, Here(OneScript)), site)
    ensures ReadHead(bytes, at).None? || ReadHead(bytes, at).value.major == 6 ==>
              !Stands(bytes, at, Via(AfterZero, Here(OneScript)), site)
  {
    hide Has, Stands, FoundAt;
    BelowRoute(bytes, RefContent, at);
    ViaStands(bytes, at, AfterZero, Here(OneScript), site);
    NothingHas(site);
    var elements := OrNone(ElementStarts(bytes, at));
    if |elements| == 2 {
      ScriptStands(bytes, elements[1], site);
      assert SpellsUnsigned(bytes, elements[0], 0) ==> Leads(bytes, at, AfterZero, elements[1]);
    }
  }

  lemma AnyReferenceStands(bytes: seq<byte>, at: nat, site: Site)
    ensures Has(FoundAt(bytes, AnyRef, at), site) <==> Stands(bytes, at, PlacesOf(AnyRef), site)
  {
    hide Has, Stands, FoundAt, ReadHead;
    BelowRoute(bytes, AnyRef, at);
    BothStand(bytes, at, REFERENCE, Via(AfterZero, Here(OneScript)), site);
    ReferenceStands(bytes, at, site);
    ContentStands(bytes, at, site);
    TaggedStands(bytes, at, 24, Via(DefiniteBytes, Here(Reference)), site);
    NothingHas(site);
  }

  /** The answer for a document: exactly the ranges of the whole scripts, and exactly
      the payloads, that stand at the places of its shape. */
  lemma SitesExactly(bytes: seq<byte>, route: Route, start: nat, end: nat)
    ensures (start, end) in FoundAt(bytes, route, 0).scripts
       <==> Reaches(bytes, 0, PlacesOf(route), OneScript, start) && WholeScript(bytes, start) == Some(end)
    ensures start in FoundAt(bytes, route, 0).refs <==> Reaches(bytes, 0, PlacesOf(route), Reference, start)
  {
    hide FoundAt, Reaches, WholeScript, PlacesOf;
    FoundExactly(bytes, route, 0, Range(start, end));
    FoundExactly(bytes, route, 0, Payload(start));
  }
}
