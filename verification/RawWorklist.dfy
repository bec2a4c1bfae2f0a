/** The worklist that emits raw rows: a loop over pending steps on the heap,
    proved to leave the writer exactly as the recursive walk does. */
module RawWorklist {
  import opened Wire
  import opened Decoder
  import opened RawEmission

  datatype RawStep =
    | NodeStep(c: Cbor, n: Option<Node>, cborSegment: string, decodedSegment: string, span: Extent)
    | ChildrenStep(of: Cbor, node: Option<Node>)
    | PairStep(i: nat, pair: Assoc, keyNode: Option<Node>, valueNode: Option<Node>, extent: Extent)
    | LeaveStep(mark: Mark)
    | UnwindStep(mark: Mark)

  /** What a step stands for in the recursive walk. A leave step holds a level's
      charge and gives it back even when a bound has stopped the walk. */
  function Do(step: RawStep, s: Scene): (t: Scene)
    requires Ready(s)
    ensures Ready(t)
  {
    match step
    case NodeStep(c, n, cborSegment, decodedSegment, span) => WalkNode(c, n, cborSegment, decodedSegment, span, s)
    case ChildrenStep(c, n) => WalkChildren(c, n, s)
    case PairStep(i, pair, keyNode, valueNode, extent) => WalkPair(i, pair, keyNode, valueNode, extent, s)
    case LeaveStep(mark) => Refund(Back(s, mark))
    case UnwindStep(mark) => Back(s, mark)
  }

  /** The scene once all pending steps are done, last pushed first. */
  function Meaning(pending: seq<RawStep>, s: Scene): (t: Scene)
    requires Ready(s)
    ensures Ready(t)
    decreases |pending|
  {
    if pending == [] then s
    else Meaning(pending[..|pending| - 1], Do(pending[|pending| - 1], s))
  }

  lemma Pushed(pending: seq<RawStep>, step: RawStep, s: Scene)
    requires Ready(s)
    ensures Meaning(pending + [step], s) == Meaning(pending, Do(step, s))
  {
    assert (pending + [step])[..|pending|] == pending;
  }

  lemma {:induction false} Pushed2(pending: seq<RawStep>, lower: RawStep, upper: RawStep, s: Scene)
    requires Ready(s)
    ensures Meaning(pending + [lower] + [upper], s) == Meaning(pending, Do(lower, Do(upper, s)))
  {
    hide Do, Meaning;
    Pushed(pending + [lower], upper, s);
    Pushed(pending, lower, Do(upper, s));
  }

  // ---------------------------------------------------------------------
  // The children of a value, queued last first
  // ---------------------------------------------------------------------

  function ItemStep(items: seq<Cbor>, n: Option<Node>, i: nat): (step: RawStep)
    requires i < |items|
  {
    NodeStep(items[i], ItemNode(n, i), IndexSegment(i), IndexSegment(i), None)
  }

  function ItemSteps(items: seq<Cbor>, n: Option<Node>, i: nat): (steps: seq<RawStep>)
    requires i <= |items|
    decreases |items| - i
  {
    if i == |items| then [] else ItemSteps(items, n, i + 1) + [ItemStep(items, n, i)]
  }

  function MemberStep(entries: seq<Assoc>, n: Option<Node>, i: nat): (step: RawStep)
    requires i < |entries|
  {
    var name := JsonKey(entries[i].key);
    NodeStep(entries[i].value, ValueNode(n, i), CborSegment(name), DecodedSegment(name), None)
  }

  function MemberSteps(entries: seq<Assoc>, n: Option<Node>, i: nat): (steps: seq<RawStep>)
    requires i <= |entries|
    decreases |entries| - i
  {
    if i == |entries| then [] else MemberSteps(entries, n, i + 1) + [MemberStep(entries, n, i)]
  }

  function PairStepAt(entries: seq<Assoc>, n: Option<Node>, i: nat): (step: RawStep)
    requires i < |entries|
  {
    PairStep(i, entries[i], KeyNode(n, i), ValueNode(n, i), PairExtent(n, i))
  }

  function PairSteps(entries: seq<Assoc>, n: Option<Node>, i: nat): (steps: seq<RawStep>)
    requires i <= |entries|
    decreases |entries| - i
  {
    if i == |entries| then [] else PairSteps(entries, n, i + 1) + [PairStepAt(entries, n, i)]
  }

  lemma {:induction false} ItemStepsMean(pending: seq<RawStep>, items: seq<Cbor>, n: Option<Node>, i: nat, s: Scene)
    requires i <= |items| && Ready(s)
    ensures Meaning(pending + ItemSteps(items, n, i), s) == Meaning(pending, WalkItems(items, n, i, s))
    decreases |items| - i
  {
    hide Meaning, WalkNode;
    if i == |items| {
      assert pending + ItemSteps(items, n, i) == pending;
    } else {
      var step := ItemStep(items, n, i);
      Grouped(pending, ItemSteps(items, n, i + 1), step);
      Pushed(pending + ItemSteps(items, n, i + 1), step, s);
      ItemStepsMean(pending, items, n, i + 1, Do(step, s));
    }
  }

  lemma Grouped(a: seq<RawStep>, b: seq<RawStep>, step: RawStep)
    ensures a + (b + [step]) == a + b + [step]
  {
  }

  lemma {:induction false} MemberStepsMean(pending: seq<RawStep>, entries: seq<Assoc>, n: Option<Node>, i: nat,
                                           s: Scene)
    requires i <= |entries| && Ready(s)
    ensures Meaning(pending + MemberSteps(entries, n, i), s) == Meaning(pending, WalkMembers(entries, n, i, s))
    decreases |entries| - i
  {
    hide Meaning, WalkNode, CborSegment, DecodedSegment, JsonKey;
    if i == |entries| {
      assert pending + MemberSteps(entries, n, i) == pending;
    } else {
      var step := MemberStep(entries, n, i);
      Grouped(pending, MemberSteps(entries, n, i + 1), step);
      Pushed(pending + MemberSteps(entries, n, i + 1), step, s);
      assert Do(step, s) == WalkMember(entries[i], ValueNode(n, i), s);
      MemberStepsMean(pending, entries, n, i + 1, Do(step, s));
    }
  }

  lemma {:induction false} PairStepsMean(pending: seq<RawStep>, entries: seq<Assoc>, n: Option<Node>, i: nat, s: Scene)
    requires i <= |entries| && Ready(s)
    ensures Meaning(pending + PairSteps(entries, n, i), s) == Meaning(pending, WalkPairs(entries, n, i, s))
    decreases |entries| - i
  {
    hide Meaning, WalkPair, KeyNode, ValueNode, PairExtent;
    if i == |entries| {
      assert pending + PairSteps(entries, n, i) == pending;
    } else {
      var step := PairStepAt(entries, n, i);
      Grouped(pending, PairSteps(entries, n, i + 1), step);
      Pushed(pending + PairSteps(entries, n, i + 1), step, s);
      PairStepsMean(pending, entries, n, i + 1, Do(step, s));
    }
  }

  // ---------------------------------------------------------------------
  // Work left
  // ---------------------------------------------------------------------

  function NodeWork(c: Cbor): (w: nat)
    decreases c, 1
  {
    2 + ChildWork(c)
  }

  function ChildWork(c: Cbor): (w: nat)
    ensures w >= 1
    decreases c, 0
  {
    match c
    case Items(items) => 1 + ItemsWork(items, 0)
    case Entries(entries) => 2 + EntriesWork(entries, 0)
    case Tagged(_, inner) => 1 + NodeWork(inner)
    case SimpleValue(_) => 1
    case Scalar(_) => 1
  }

  function ItemsWork(items: seq<Cbor>, i: nat): (w: nat)
    requires i <= |items|
    decreases items, |items| - i
  {
    if i == |items| then 0 else NodeWork(items[i]) + ItemsWork(items, i + 1)
  }

  function EntriesWork(entries: seq<Assoc>, i: nat): (w: nat)
    requires i <= |entries|
    decreases entries, |entries| - i
  {
    if i == |entries| then 0 else PairWork(entries[i]) + EntriesWork(entries, i + 1)
  }

  function PairWork(e: Assoc): (w: nat)
    decreases e
  {
    2 + NodeWork(e.key) + NodeWork(e.value)
  }

  function StepWork(step: RawStep): (w: nat)
    ensures w >= 1
  {
    match step
    case NodeStep(c, _, _, _, _) => NodeWork(c)
    case ChildrenStep(c, _) => ChildWork(c)
    case PairStep(_, pair, _, _, _) => PairWork(pair)
    case LeaveStep(_) => 1
    case UnwindStep(_) => 1
  }

  function Work(pending: seq<RawStep>): (w: nat) {
    if pending == [] then 0 else Work(pending[..|pending| - 1]) + StepWork(pending[|pending| - 1])
  }

  lemma MoreWork(pending: seq<RawStep>, step: RawStep)
    ensures Work(pending + [step]) == Work(pending) + StepWork(step)
  {
    assert (pending + [step])[..|pending|] == pending;
  }

  lemma NoMoreWork(pending: seq<RawStep>)
    ensures Work([]) <= Work(pending)
  {
  }

  lemma {:induction false} ItemStepsWork(pending: seq<RawStep>, items: seq<Cbor>, n: Option<Node>, i: nat)
    requires i <= |items|
    ensures Work(pending + ItemSteps(items, n, i)) == Work(pending) + ItemsWork(items, i)
    decreases |items| - i
  {
    hide Work;
    if i == |items| {
      assert pending + ItemSteps(items, n, i) == pending;
    } else {
      ItemStepsWork(pending, items, n, i + 1);
      Grouped(pending, ItemSteps(items, n, i + 1), ItemStep(items, n, i));
      MoreWork(pending + ItemSteps(items, n, i + 1), ItemStep(items, n, i));
    }
  }

  lemma {:induction false} MemberStepsWork(pending: seq<RawStep>, entries: seq<Assoc>, n: Option<Node>, i: nat)
    requires i <= |entries|
    ensures Work(pending + MemberSteps(entries, n, i)) <= Work(pending) + EntriesWork(entries, i)
    decreases |entries| - i
  {
    hide Work;
    if i == |entries| {
      assert pending + MemberSteps(entries, n, i) == pending;
    } else {
      MemberStepsWork(pending, entries, n, i + 1);
      Grouped(pending, MemberSteps(entries, n, i + 1), MemberStep(entries, n, i));
      MoreWork(pending + MemberSteps(entries, n, i + 1), MemberStep(entries, n, i));
    }
  }

  lemma {:induction false} PairStepsWork(pending: seq<RawStep>, entries: seq<Assoc>, n: Option<Node>, i: nat)
    requires i <= |entries|
    ensures Work(pending + PairSteps(entries, n, i)) == Work(pending) + EntriesWork(entries, i)
    decreases |entries| - i
  {
    hide Work;
    if i == |entries| {
      assert pending + PairSteps(entries, n, i) == pending;
    } else {
      PairStepsWork(pending, entries, n, i + 1);
      Grouped(pending, PairSteps(entries, n, i + 1), PairStepAt(entries, n, i));
      MoreWork(pending + PairSteps(entries, n, i + 1), PairStepAt(entries, n, i));
    }
  }

  // ---------------------------------------------------------------------
  // The writer as it runs
  // ---------------------------------------------------------------------

  class Writer {
    var scene: Scene
    var pending: seq<RawStep>

    constructor (scene: Scene)
      ensures this.scene == scene && pending == []
    {
      this.scene, pending := scene, [];
    }

    /** Drops the pending steps: the levels they hold are given back. */
    method DropPending()
      requires Ready(scene) && Stopped(scene)
      modifies this
      ensures pending == [] && scene == Meaning(old(pending), old(scene)) == Meaning(pending, scene) && Ready(scene)
    {
      while pending != []
        invariant Ready(scene) && Stopped(scene)
        invariant Meaning(pending, scene) == Meaning(old(pending), old(scene))
        decreases |pending|
      {
        var step := pending[|pending| - 1];
        pending := pending[..|pending| - 1];
        if step.LeaveStep? {
          scene := Refund(scene);
        }
      }
    }

    /** Queues the children of one value, to be taken in order. */
    method ExpandRawChildren(c: Cbor, n: Option<Node>)
      requires Ready(scene) && !Stopped(scene)
      modifies this
      ensures Ready(scene)
      ensures Meaning(pending, scene) == Meaning(old(pending), WalkChildren(c, n, old(scene)))
      ensures Work(pending) < Work(old(pending)) + ChildWork(c)
    {
      hide Meaning, WalkNode, WalkItems, WalkPairs, WalkMembers, Work, NodeWork, Do;
      match c
      case Items(items) =>
        ItemStepsMean(pending, items, n, 0, scene);
        ItemStepsWork(pending, items, n, 0);
        QueueItems(items, n);
      case Entries(entries) =>
        if NeedsEntries(entries) {
          QueueEntries(entries, n);
        } else {
          MemberStepsMean(pending, entries, n, 0, scene);
          MemberStepsWork(pending, entries, n, 0);
          QueueMembers(entries, n);
        }
      case Tagged(_, inner) =>
        scene := EmitBelow(scene, TAG, TagContent(n));
        var step := NodeStep(inner, TagPayload(n), "", VALUE, None);
        Pushed(pending, step, scene);
        MoreWork(pending, step);
        StepIsNode(step, scene);
        pending := pending + [step];
      case SimpleValue(_) =>
        scene := EmitBelow(scene, SIMPLE, NodeContent(n, None));
      case Scalar(_) =>
    }

    method QueueItems(items: seq<Cbor>, n: Option<Node>)
      modifies this`pending
      ensures pending == old(pending) + ItemSteps(items, n, 0)
    {
      var i: nat := |items|;
      while i > 0
        invariant i <= |items| && pending == old(pending) + ItemSteps(items, n, i)
      {
        i := i - 1;
        pending := pending + [ItemStep(items, n, i)];
      }
    }

    method QueueMembers(entries: seq<Assoc>, n: Option<Node>)
      modifies this`pending
      ensures pending == old(pending) + MemberSteps(entries, n, 0)
    {
      hide MemberStep;
      var i: nat := |entries|;
      while i > 0
        invariant i <= |entries| && pending == old(pending) + MemberSteps(entries, n, i)
      {
        i := i - 1;
        Grouped(old(pending), MemberSteps(entries, n, i + 1), MemberStep(entries, n, i));
        pending := pending + [MemberStep(entries, n, i)];
      }
    }

    /** The wrapper's row, then its pairs, then the way back. */
    method QueueEntries(entries: seq<Assoc>, n: Option<Node>)
      requires Ready(scene) && !Stopped(scene) && NeedsEntries(entries)
      modifies this
      ensures Ready(scene)
      ensures Meaning(pending, scene) == Meaning(old(pending), WalkChildren(Entries(entries), n, old(scene)))
      ensures Work(pending) < Work(old(pending)) + ChildWork(Entries(entries))
    {
      hide Meaning, WalkNode, WalkPairs, Work, PairStepAt, Do;
      var mark := MarkOf(scene);
      ghost var start := scene;
      scene := EmitRow(EnterBoth(scene, "", ENTRIES), WrapperContent(NodeExtent(n)));
      ghost var named := scene;
      pending := pending + [UnwindStep(mark)];
      ghost var base := pending;
      Pushed(old(pending), UnwindStep(mark), WalkPairs(entries, n, 0, scene));
      StepIsUnwind(mark, WalkPairs(entries, n, 0, scene));
      MoreWork(old(pending), UnwindStep(mark));
      PairStepsMean(base, entries, n, 0, scene);
      PairStepsWork(base, entries, n, 0);
      var i: nat := |entries|;
      while i > 0
        invariant i <= |entries| && pending == base + PairSteps(entries, n, i) && scene == named
      {
        i := i - 1;
        Grouped(base, PairSteps(entries, n, i + 1), PairStepAt(entries, n, i));
        pending := pending + [PairStepAt(entries, n, i)];
      }
    }

    /** One pair of an `@entries` map: its row, then its key and its value. */
    method ExpandPair(i: nat, pair: Assoc, keyNode: Option<Node>, valueNode: Option<Node>, extent: Extent)
      requires Ready(scene) && !Stopped(scene)
      modifies this
      ensures Ready(scene)
      ensures Meaning(pending, scene)
           == Meaning(old(pending), WalkPair(i, pair, keyNode, valueNode, extent, old(scene)))
      ensures Work(pending) < Work(old(pending)) + PairWork(pair)
    {
      hide Meaning, WalkNode, Work, Do, Back;
      var mark := MarkOf(scene);
      scene := EmitRow(EnterBoth(scene, "", IndexSegment(i)), PairContent(extent));
      var unwind := UnwindStep(mark);
      var value := NodeStep(pair.value, valueNode, "", DecodedSegment("value"), None);
      var key := NodeStep(pair.key, keyNode, "", DecodedSegment("key"), None);
      Pushed(pending + [unwind] + [value], key, scene);
      Pushed2(pending, unwind, value, Do(key, scene));
      StepIsNode(key, scene);
      StepIsNode(value, Do(key, scene));
      StepIsUnwind(mark, Do(value, Do(key, scene)));
      MoreWork(pending, unwind);
      MoreWork(pending + [unwind], value);
      MoreWork(pending + [unwind] + [value], key);
      pending := pending + [unwind] + [value] + [key];
    }

    /** One value: its row below its segment, then its children and the way back.
        A level that cannot be charged leaves no row and stops the walk. */
    method ExpandNode(c: Cbor, n: Option<Node>, cborSegment: string, decodedSegment: string, span: Extent)
      requires Ready(scene) && !Stopped(scene)
      modifies this
      ensures Ready(scene)
      ensures Meaning(pending, scene)
           == Meaning(old(pending), WalkNode(c, n, cborSegment, decodedSegment, span, old(scene)))
      ensures Work(pending) < Work(old(pending)) + NodeWork(c)
    {
      hide Meaning, WalkNode, Work, Do, EmitRow;
      NodeSteps(pending, c, n, cborSegment, decodedSegment, span, scene);
      var mark := MarkOf(scene);
      scene := EnterBoth(scene, cborSegment, decodedSegment);
      if scene.spent + RAW_LEVEL > scene.limit {
        scene := scene.(tooDeep := true);
        NoMoreWork(pending);
        DropPending();
        return;
      }
      scene := EmitRow(scene.(spent := scene.spent + RAW_LEVEL), NodeContent(n, span));
      MoreWork(pending, LeaveStep(mark));
      MoreWork(pending + [LeaveStep(mark)], ChildrenStep(c, n));
      pending := pending + [LeaveStep(mark)] + [ChildrenStep(c, n)];
    }

    /** Takes the pending steps one by one until none is left or a bound is hit. */
    method EmitRawSteps()
      requires Ready(scene)
      modifies this
      ensures pending == [] && scene == Meaning(old(pending), old(scene)) && Ready(scene)
    {
      ghost var goal := Meaning(pending, scene);
      while pending != []
        invariant Ready(scene) && Meaning(pending, scene) == goal
        decreases Work(pending)
      {
        hide WalkNode, WalkChildren, WalkPair, Work, Do;
        ghost var was := pending;
        if Stopped(scene) {
          DropPending();
          return;
        }
        var step := pending[|pending| - 1];
        pending := pending[..|pending| - 1];
        assert was == pending + [step];
        MoreWork(pending, step);
        Pushed(pending, step, scene);
        match step
        case NodeStep(c, n, cborSegment, decodedSegment, span) =>
          StepIsNode(step, scene);
          ExpandNode(c, n, cborSegment, decodedSegment, span);
        case ChildrenStep(c, n) =>
          StepIsChildren(step, scene);
          ExpandRawChildren(c, n);
        case PairStep(i, pair, keyNode, valueNode, extent) =>
          StepIsPair(step, scene);
          ExpandPair(i, pair, keyNode, valueNode, extent);
        case LeaveStep(mark) =>
          StepIsLeave(mark, scene);
          scene := Refund(LeaveBoth(scene, mark));
        case UnwindStep(mark) =>
          StepIsUnwind(mark, scene);
          scene := LeaveBoth(scene, mark);
      }
    }
  }

  // The meaning of each step, one at a time.

  lemma StepIsNode(step: RawStep, s: Scene)
    requires step.NodeStep? && Ready(s)
    ensures Do(step, s) == WalkNode(step.c, step.n, step.cborSegment, step.decodedSegment, step.span, s)
  {
  }

  lemma StepIsChildren(step: RawStep, s: Scene)
    requires step.ChildrenStep? && Ready(s)
    ensures Do(step, s) == WalkChildren(step.of, step.node, s)
  {
  }

  lemma StepIsPair(step: RawStep, s: Scene)
    requires step.PairStep? && Ready(s)
    ensures Do(step, s) == WalkPair(step.i, step.pair, step.keyNode, step.valueNode, step.extent, s)
  {
  }

  lemma StepIsLeave(mark: Mark, s: Scene)
    requires Ready(s)
    ensures Do(LeaveStep(mark), s) == Refund(Back(s, mark))
  {
  }

  lemma StepIsUnwind(mark: Mark, s: Scene)
    requires Ready(s)
    ensures Do(UnwindStep(mark), s) == Back(s, mark)
  {
  }

  /** A node is its row, its children and the way back. */
  lemma NodeSteps(pending: seq<RawStep>, c: Cbor, n: Option<Node>, cborSegment: string, decodedSegment: string,
                  span: Extent, s: Scene)
    requires Ready(s) && !Stopped(s)
    ensures var e := EnterBoth(s, cborSegment, decodedSegment);
            Meaning(pending, WalkNode(c, n, cborSegment, decodedSegment, span, s))
            == if e.spent + RAW_LEVEL > e.limit then Meaning(pending, e.(tooDeep := true))
               else Meaning(pending + [LeaveStep(MarkOf(s))] + [ChildrenStep(c, n)],
                            EmitRow(e.(spent := e.spent + RAW_LEVEL), NodeContent(n, span)))
  {
    hide Meaning, Do, WalkChildren, EmitRow, EnterBoth, Refund, Back;
    var e := EnterBoth(s, cborSegment, decodedSegment);
    if e.spent + RAW_LEVEL <= e.limit {
      var a := EmitRow(e.(spent := e.spent + RAW_LEVEL), NodeContent(n, span));
      Pushed2(pending, LeaveStep(MarkOf(s)), ChildrenStep(c, n), a);
      StepIsChildren(ChildrenStep(c, n), a);
      StepIsLeave(MarkOf(s), WalkChildren(c, n, a));
    }
  }

  /** Emitting a value is the recursive walk of it. */
  method EmitRaw(w: Writer, c: Cbor, n: Option<Node>, span: Extent)
    requires Ready(w.scene) && w.pending == []
    modifies w
    ensures w.scene == WalkNode(c, n, "", "", span, old(w.scene)) && w.pending == [] && Ready(w.scene)
  {
    var step := NodeStep(c, n, "", "", span);
    Pushed([], step, w.scene);
    assert [] + [step] == [step];
    StepIsNode(step, w.scene);
    w.pending := [step];
    w.EmitRawSteps();
  }

  /** The same for its children only, when its own row is already written. */
  method EmitRawChildren(w: Writer, c: Cbor, n: Option<Node>)
    requires Ready(w.scene) && w.pending == []
    modifies w
    ensures w.scene == WalkChildren(c, n, old(w.scene)) && w.pending == [] && Ready(w.scene)
  {
    var step := ChildrenStep(c, n);
    Pushed([], step, w.scene);
    assert [] + [step] == [step];
    StepIsChildren(step, w.scene);
    w.pending := [step];
    w.EmitRawSteps();
  }
}
