/** The questions asked of a native script, answered by loops over its pre-order
    array, against the recursive answers on the script itself. */
module ScriptWalks {
  import opened Wire
  import opened NativeScript

  // ---------------------------------------------------------------------
  // Subtrees of the array
  // ---------------------------------------------------------------------

  /** The script whose node stands at index `i` of the pre-order array of `t`. */
  function SubtreeAt(t: Script, i: nat): (s: Script)
    requires i < Size(t)
    decreases t, 0
  {
    if i == 0 then t else SubtreeIn(t.subs, i - 1)
  }

  function SubtreeIn(ts: seq<Script>, i: nat): (s: Script)
    requires i < SizeAll(ts)
    decreases ts
  {
    if i < Size(ts[0]) then SubtreeAt(ts[0], i) else SubtreeIn(ts[1..], i - Size(ts[0]))
  }

  lemma {:induction false} NodeAndEndAt(t: Script, i: nat, base: nat)
    requires i < Size(t)
    ensures Nodes(t)[i] == SubtreeAt(t, i).node
    ensures Ends(t, base)[i] == base + i + Size(SubtreeAt(t, i))
    decreases t, 0
  {
    if i > 0 {
      NodeAndEndIn(t.subs, i - 1, base + 1);
    }
  }

  lemma {:induction false} NodeAndEndIn(ts: seq<Script>, i: nat, base: nat)
    requires i < SizeAll(ts)
    ensures NodesAll(ts)[i] == SubtreeIn(ts, i).node
    ensures EndsAll(ts, base)[i] == base + i + Size(SubtreeIn(ts, i))
    decreases ts
  {
    if i < Size(ts[0]) {
      NodeAndEndAt(ts[0], i, base);
    } else {
      NodeAndEndIn(ts[1..], i - Size(ts[0]), base + Size(ts[0]));
    }
  }

  /** Subtrees of a subtree are the subtrees that follow it, and they all end
      within it: the array of ends is laminar. */
  lemma {:induction false} SubtreeOfSubtree(t: Script, i: nat, j: nat)
    requires i < Size(t) && j < Size(SubtreeAt(t, i))
    ensures i + Size(SubtreeAt(t, i)) <= Size(t)
    ensures SubtreeAt(t, i + j) == SubtreeAt(SubtreeAt(t, i), j)
    decreases t, 0
  {
    if i > 0 {
      SubtreeOfSubtreeIn(t.subs, i - 1, j);
    }
  }

  lemma {:induction false} SubtreeOfSubtreeIn(ts: seq<Script>, i: nat, j: nat)
    requires i < SizeAll(ts) && j < Size(SubtreeIn(ts, i))
    ensures i + Size(SubtreeIn(ts, i)) <= SizeAll(ts)
    ensures SubtreeIn(ts, i + j) == SubtreeAt(SubtreeIn(ts, i), j)
    decreases ts
  {
    if i < Size(ts[0]) {
      SubtreeOfSubtree(ts[0], i, j);
    } else {
      SubtreeOfSubtreeIn(ts[1..], i - Size(ts[0]), j);
    }
  }

  /** Any two subtrees are nested or apart. */
  lemma EndsAreLaminar(t: Script, i: nat, j: nat)
    requires i < j < Size(t)
    ensures var end := Flatten(t).end;
      j < end[i] ==> end[j] <= end[i]
  {
    NodeAndEndAt(t, i, 0);
    NodeAndEndAt(t, j, 0);
    if j < Flatten(t).end[i] {
      SubtreeOfSubtree(t, i, j - i);
      SubtreeOfSubtree(SubtreeAt(t, i), j - i, 0);
    }
  }

  // ---------------------------------------------------------------------
  // Direct children
  // ---------------------------------------------------------------------

  /** Where each of `ts`, laid out from `base` on, starts. */
  function Offsets(ts: seq<Script>, base: nat): (r: seq<nat>)
    ensures |r| == |ts|
  {
    if ts == [] then [] else [base] + Offsets(ts[1..], base + Size(ts[0]))
  }

  ghost predicate Follows(t: Script, ts: seq<Script>, next: nat) {
    && next + SizeAll(ts) <= Size(t)
    && forall j | 0 <= j < SizeAll(ts) :: SubtreeAt(t, next + j) == SubtreeIn(ts, j)
  }

  lemma ChildrenFollow(t: Script, i: nat)
    requires i < Size(t)
    ensures Follows(t, SubtreeAt(t, i).subs, i + 1)
  {
    var s := SubtreeAt(t, i);
    SubtreeOfSubtree(t, i, 0);
    forall j | 0 <= j < SizeAll(s.subs)
      ensures SubtreeAt(t, i + 1 + j) == SubtreeIn(s.subs, j)
    {
      SubtreeOfSubtree(t, i, 1 + j);
    }
  }

  lemma FirstFollows(t: Script, ts: seq<Script>, next: nat)
    requires Follows(t, ts, next) && ts != []
    ensures next < Size(t) && SubtreeAt(t, next) == ts[0]
    ensures Follows(t, ts[1..], next + Size(ts[0]))
  {
    assert SubtreeAt(t, next + 0) == SubtreeIn(ts, 0) == SubtreeAt(ts[0], 0);
    forall j | 0 <= j < SizeAll(ts[1..])
      ensures SubtreeAt(t, next + Size(ts[0]) + j) == SubtreeIn(ts[1..], j)
    {
      assert SubtreeAt(t, next + (Size(ts[0]) + j)) == SubtreeIn(ts, Size(ts[0]) + j);
    }
  }

  /** The direct children of the script at `i`, stepping from each child's end
      to the next. */
  method Children(f: FlatNativeScript, i: nat, ghost t: Script) returns (cs: seq<nat>)
    requires f == Flatten(t) && i < Size(t)
    ensures cs == Offsets(SubtreeAt(t, i).subs, i + 1)
  {
    ghost var s := SubtreeAt(t, i);
    NodeAndEndAt(t, i, 0);
    SubtreeOfSubtree(t, i, 0);
    ChildrenFollow(t, i);
    var end := f.end[i];
    var next := i + 1;
    cs := [];
    ghost var rest := s.subs;
    while next < end
      invariant next + SizeAll(rest) == end <= Size(t)
      invariant Follows(t, rest, next)
      invariant cs + Offsets(rest, next) == Offsets(s.subs, i + 1)
      decreases end - next
    {
      FirstFollows(t, rest, next);
      NodeAndEndAt(t, next, 0);
      assert cs + ([next] + Offsets(rest[1..], next + Size(rest[0])))
        == cs + [next] + Offsets(rest[1..], next + Size(rest[0]));
      cs := cs + [next];
      next := f.end[next];
      rest := rest[1..];
    }
    assert cs + [] == cs;
  }

  // ---------------------------------------------------------------------
  // Evaluation
  // ---------------------------------------------------------------------

  /** The slots a transaction is valid in; a side that is `None` has no bound. */
  datatype ValidityInterval = ValidityInterval(invalidBefore: Option<nat>, invalidHereafter: Option<nat>)

  /** Whether a script holds, as the ledger reads it. */
  predicate Holds(t: Script, signed: set<seq<byte>>, interval: ValidityInterval)
    decreases t, 0
  {
    match t.node
    case Pubkey(key) => key in signed
    case All => forall k | 0 <= k < |t.subs| :: Holds(t.subs[k], signed, interval)
    case Any => exists k | 0 <= k < |t.subs| :: Holds(t.subs[k], signed, interval)
    case NOfK(n) => CountHolding(t.subs, signed, interval) >= n
    case TimelockStart(s) => interval.invalidBefore.Some? && s <= interval.invalidBefore.value
    case TimelockExpiry(s) => interval.invalidHereafter.Some? && interval.invalidHereafter.value <= s
  }

  /** How many of `ts` hold. */
  function CountHolding(ts: seq<Script>, signed: set<seq<byte>>, interval: ValidityInterval): (n: nat)
    ensures n <= |ts|
    decreases ts
  {
    if ts == [] then 0
    else (if Holds(ts[0], signed, interval) then 1 else 0) + CountHolding(ts[1..], signed, interval)
  }

  lemma {:induction false} EveryAndSome(ts: seq<Script>, signed: set<seq<byte>>, interval: ValidityInterval)
    ensures CountHolding(ts, signed, interval) == |ts| <==> forall k | 0 <= k < |ts| :: Holds(ts[k], signed, interval)
    ensures CountHolding(ts, signed, interval) > 0 <==> exists k | 0 <= k < |ts| :: Holds(ts[k], signed, interval)
  {
    if ts != [] {
      var rest := ts[1..];
      EveryAndSome(rest, signed, interval);
      assert forall k | 0 < k < |ts| :: ts[k] == rest[k - 1];
      assert forall k | 0 <= k < |rest| :: rest[k] == ts[k + 1];
    }
  }

  function CountTrue(cs: seq<nat>, holds: seq<bool>): (n: nat)
    requires forall k | 0 <= k < |cs| :: cs[k] < |holds|
    ensures n <= |cs|
  {
    if cs == [] then 0 else (if holds[cs[0]] then 1 else 0) + CountTrue(cs[1..], holds)
  }

  lemma {:induction false} CountsAgree(t: Script, ts: seq<Script>, next: nat, holds: seq<bool>, signed: set<seq<byte>>,
                                       interval: ValidityInterval)
    requires Follows(t, ts, next) && |holds| == Size(t)
    requires forall j | next <= j < |holds| :: holds[j] == Holds(SubtreeAt(t, j), signed, interval)
    ensures forall k | 0 <= k < |ts| :: next <= Offsets(ts, next)[k] < |holds|
    ensures CountTrue(Offsets(ts, next), holds) == CountHolding(ts, signed, interval)
    decreases |ts|
  {
    if ts != [] {
      FirstFollows(t, ts, next);
      CountsAgree(t, ts[1..], next + Size(ts[0]), holds, signed, interval);
      assert Offsets(ts, next)[1..] == Offsets(ts[1..], next + Size(ts[0]));
    }
  }

  lemma {:induction false} AllAndAny(cs: seq<nat>, holds: seq<bool>)
    requires forall k | 0 <= k < |cs| :: cs[k] < |holds|
    ensures CountTrue(cs, holds) == |cs| <==> forall k | 0 <= k < |cs| :: holds[cs[k]]
    ensures CountTrue(cs, holds) > 0 <==> exists k | 0 <= k < |cs| :: holds[cs[k]]
  {
    if cs != [] {
      AllAndAny(cs[1..], holds);
      assert forall k | 0 <= k < |cs| - 1 :: cs[1..][k] == cs[k + 1];
      if exists k | 0 <= k < |cs[1..]| :: holds[cs[1..][k]] {
        var k :| 0 <= k < |cs[1..]| && holds[cs[1..][k]];
        assert holds[cs[k + 1]];
      }
      if exists k | 0 <= k < |cs| :: holds[cs[k]] {
        var k :| 0 <= k < |cs| && holds[cs[k]];
        assert k > 0 ==> cs[k] == cs[1..][k - 1];
      }
    }
  }

  /** From the array's last node to its first, so that the verdicts a list needs are
      there when it is reached. */
  method Evaluate(f: FlatNativeScript, signed: set<seq<byte>>, interval: ValidityInterval, ghost t: Script)
    returns (r: bool)
    requires f == Flatten(t)
    ensures r == Holds(t, signed, interval)
  {
    hide Holds, Nodes, Ends, SubtreeAt, CountHolding;
    var n := |f.nodes|;
    var holds := new bool[n](_ => false);
    for i := n downto 0
      invariant forall j | i <= j < n :: holds[j] == Holds(SubtreeAt(t, j), signed, interval)
    {
      var judged := JudgeNode(f, i, holds[..], signed, interval, t);
      holds[i] := judged;
    }
    FirstIsRoot(t);
    r := holds[0];
  }

  lemma FirstIsRoot(t: Script)
    ensures SubtreeAt(t, 0) == t
  {
  }

  /** The verdict on one node once its children are judged. */
  method JudgeNode(f: FlatNativeScript, i: nat, holds: seq<bool>, signed: set<seq<byte>>, interval: ValidityInterval,
                   ghost t: Script)
    returns (r: bool)
    requires f == Flatten(t) && |holds| == Size(t) && i < Size(t)
    requires forall j | i + 1 <= j < |holds| :: holds[j] == Holds(SubtreeAt(t, j), signed, interval)
    ensures r == Holds(SubtreeAt(t, i), signed, interval)
  {
    hide SubtreeAt, Offsets, CountHolding;
    NodeAndEndAt(t, i, 0);
    match f.nodes[i]
    case Pubkey(key) => r := key in signed;
    case All =>
      var cs := Children(f, i, t);
      ChildrenAreJudged(t, i, holds, signed, interval);
      r := forall k | 0 <= k < |cs| :: holds[cs[k]];
    case Any =>
      var cs := Children(f, i, t);
      ChildrenAreJudged(t, i, holds, signed, interval);
      r := exists k | 0 <= k < |cs| :: holds[cs[k]];
    case NOfK(n) =>
      var cs := Children(f, i, t);
      ChildrenAreJudged(t, i, holds, signed, interval);
      r := CountTrue(cs, holds) >= n;
    case TimelockStart(slot) => r := interval.invalidBefore.Some? && slot <= interval.invalidBefore.value;
    case TimelockExpiry(slot) => r := interval.invalidHereafter.Some? && interval.invalidHereafter.value <= slot;
  }

  lemma ChildrenAreJudged(t: Script, i: nat, holds: seq<bool>, signed: set<seq<byte>>, interval: ValidityInterval)
    requires |holds| == Size(t) && i < Size(t)
    requires forall j | i + 1 <= j < |holds| :: holds[j] == Holds(SubtreeAt(t, j), signed, interval)
    ensures var cs := Offsets(SubtreeAt(t, i).subs, i + 1);
            var n := CountHolding(SubtreeAt(t, i).subs, signed, interval);
      && (forall k | 0 <= k < |cs| :: cs[k] < |holds|)
      && CountTrue(cs, holds) == n
      && (SubtreeAt(t, i).node.All? ==>
            (Holds(SubtreeAt(t, i), signed, interval) <==> forall k | 0 <= k < |cs| :: holds[cs[k]]))
      && (SubtreeAt(t, i).node.Any? ==>
            (Holds(SubtreeAt(t, i), signed, interval) <==> exists k | 0 <= k < |cs| :: holds[cs[k]]))
  {
    var subs := SubtreeAt(t, i).subs;
    ChildrenFollow(t, i);
    CountsAgree(t, subs, i + 1, holds, signed, interval);
    AllAndAny(Offsets(subs, i + 1), holds);
    EveryAndSome(subs, signed, interval);
  }

  // ---------------------------------------------------------------------
  // What a verdict depends on
  // ---------------------------------------------------------------------

  /** `inner` lies within `outer`. */
  predicate Within(inner: ValidityInterval, outer: ValidityInterval) {
    && (outer.invalidBefore.Some? ==>
          inner.invalidBefore.Some? && outer.invalidBefore.value <= inner.invalidBefore.value)
    && (outer.invalidHereafter.Some? ==>
          inner.invalidHereafter.Some? && inner.invalidHereafter.value <= outer.invalidHereafter.value)
  }

  /** A script that holds still holds with more signers and a narrower
      interval. */
  lemma {:induction false} HoldsIsMonotone(t: Script, signed: set<seq<byte>>, more: set<seq<byte>>,
                                           outer: ValidityInterval, inner: ValidityInterval)
    requires signed <= more && Within(inner, outer) && Holds(t, signed, outer)
    ensures Holds(t, more, inner)
    decreases t, 0
  {
    CountIsMonotone(t.subs, signed, more, outer, inner);
    EveryAndSome(t.subs, signed, outer);
    EveryAndSome(t.subs, more, inner);
  }

  lemma {:induction false} CountIsMonotone(ts: seq<Script>, signed: set<seq<byte>>, more: set<seq<byte>>,
                                           outer: ValidityInterval, inner: ValidityInterval)
    requires signed <= more && Within(inner, outer)
    ensures CountHolding(ts, signed, outer) <= CountHolding(ts, more, inner)
    decreases ts
  {
    if ts != [] {
      if Holds(ts[0], signed, outer) {
        HoldsIsMonotone(ts[0], signed, more, outer, inner);
      }
      CountIsMonotone(ts[1..], signed, more, outer, inner);
    }
  }

  /** The key hashes of the array, in order. */
  function KeyHashes(nodes: seq<Node>): (keys: seq<seq<byte>>) {
    if nodes == [] then []
    else (if nodes[0].Pubkey? then [nodes[0].key] else []) + KeyHashes(nodes[1..])
  }

  lemma {:induction false} KeyHashesOf(nodes: seq<Node>, k: nat)
    requires k < |nodes| && nodes[k].Pubkey?
    ensures nodes[k].key in KeyHashes(nodes)
  {
    if k > 0 {
      KeyHashesOf(nodes[1..], k - 1);
    }
  }

  /** Exactly the keys of the script's key-hash nodes are named. */
  lemma {:induction false} KeyHashesExactly(nodes: seq<Node>, key: seq<byte>)
    ensures key in KeyHashes(nodes) <==> Pubkey(key) in nodes
    decreases |nodes|
  {
    if nodes != [] {
      KeyHashesExactly(nodes[1..], key);
      assert nodes == [nodes[0]] + nodes[1..];
    }
  }

  /** Only the signers the script names count: two signer sets that agree on
      `KeyHashes` give the same verdict. */
  lemma VerdictNeedsOnlyKeyHashes(t: Script, signed: set<seq<byte>>, other: set<seq<byte>>, interval: ValidityInterval)
    requires forall key | key in KeyHashes(Flatten(t).nodes) :: key in signed <==> key in other
    ensures Holds(t, signed, interval) == Holds(t, other, interval)
  {
    forall k | 0 <= k < |Nodes(t)| && Nodes(t)[k].Pubkey?
      ensures Nodes(t)[k].key in signed <==> Nodes(t)[k].key in other
    {
      KeyHashesOf(Nodes(t), k);
    }
    SameVerdict(t, signed, other, interval);
  }

  ghost predicate AgreeOn(nodes: seq<Node>, signed: set<seq<byte>>, other: set<seq<byte>>) {
    forall k | 0 <= k < |nodes| && nodes[k].Pubkey? :: nodes[k].key in signed <==> nodes[k].key in other
  }

  lemma {:induction false} SameVerdict(t: Script, signed: set<seq<byte>>, other: set<seq<byte>>,
                                       interval: ValidityInterval)
    requires AgreeOn(Nodes(t), signed, other)
    ensures Holds(t, signed, interval) == Holds(t, other, interval)
    decreases t, 0
  {
    assert Nodes(t)[0] == t.node;
    assert Nodes(t)[1..] == NodesAll(t.subs);
    SameCount(t.subs, signed, other, interval);
    EveryAndSome(t.subs, signed, interval);
    EveryAndSome(t.subs, other, interval);
  }

  lemma {:induction false} SameCount(ts: seq<Script>, signed: set<seq<byte>>, other: set<seq<byte>>,
                                     interval: ValidityInterval)
    requires AgreeOn(NodesAll(ts), signed, other)
    ensures CountHolding(ts, signed, interval) == CountHolding(ts, other, interval)
    decreases ts
  {
    if ts != [] {
      var n := Size(ts[0]);
      assert NodesAll(ts)[..n] == Nodes(ts[0]) && NodesAll(ts)[n..] == NodesAll(ts[1..]);
      SameVerdict(ts[0], signed, other, interval);
      SameCount(ts[1..], signed, other, interval);
    }
  }
}
