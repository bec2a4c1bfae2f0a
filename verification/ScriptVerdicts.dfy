/** What a verdict means: enough sub-scripts that hold at once, and bounds on every
    slot the transaction may be in. */
module ScriptVerdicts {
  import opened Wire
  import opened NativeScript
  import opened ScriptWalks

  /** The slots, negative ones included, that an interval allows. */
  predicate Allows(interval: ValidityInterval, slot: int) {
    && (interval.invalidBefore.Some? ==> interval.invalidBefore.value <= slot)
    && (interval.invalidHereafter.Some? ==> slot < interval.invalidHereafter.value)
  }

  ghost predicate AllowsSome(interval: ValidityInterval) {
    exists slot: int :: Allows(interval, slot)
  }

  /** How many of a list's `k` sub-scripts have to hold. */
  function Quorum(node: Node, k: nat): (n: int)
    requires node.All? || node.Any? || node.NOfK?
  {
    match node
    case All => k
    case Any => 1
    case NOfK(n) => n
  }

  /** Indices of sub-scripts, all of which hold. */
  ghost predicate Quorate(subs: seq<Script>, chosen: set<nat>, signed: set<seq<byte>>, interval: ValidityInterval) {
    forall k | k in chosen :: k < |subs| && Holds(subs[k], signed, interval)
  }

  function HoldingFrom(subs: seq<Script>, i: nat, signed: set<seq<byte>>, interval: ValidityInterval): (s: set<nat>) {
    set k: nat | i <= k < |subs| && Holds(subs[k], signed, interval)
  }

  lemma {:induction false} HoldingIsCounted(subs: seq<Script>, i: nat, signed: set<seq<byte>>,
                                            interval: ValidityInterval)
    requires i <= |subs|
    ensures |HoldingFrom(subs, i, signed, interval)| == CountHolding(subs[i..], signed, interval)
    decreases |subs| - i
  {
    hide Holds;
    if i < |subs| {
      HoldingIsCounted(subs, i + 1, signed, interval);
      assert subs[i..][1..] == subs[i + 1..];
      var here := if Holds(subs[i], signed, interval) then {i} else {};
      assert HoldingFrom(subs, i, signed, interval) == here + HoldingFrom(subs, i + 1, signed, interval);
    }
  }

  lemma {:induction false} SubsetIsSmaller(a: set<nat>, b: set<nat>)
    requires a <= b
    ensures |a| <= |b|
    decreases |a|
  {
    if a != {} {
      var k :| k in a;
      SubsetIsSmaller(a - {k}, b - {k});
    }
  }

  /** At least `n` sub-scripts hold, as counted, exactly when some `n` or more of
      them hold together. */
  lemma CountIsQuorum(subs: seq<Script>, n: int, signed: set<seq<byte>>, interval: ValidityInterval)
    ensures CountHolding(subs, signed, interval) >= n
       <==> exists chosen: set<nat> :: |chosen| >= n && Quorate(subs, chosen, signed, interval)
  {
    hide Holds, CountHolding;
    var most := HoldingFrom(subs, 0, signed, interval);
    HoldingIsCounted(subs, 0, signed, interval);
    assert subs[0..] == subs;
    assert Quorate(subs, most, signed, interval);
    forall chosen: set<nat> | Quorate(subs, chosen, signed, interval) ensures |chosen| <= |most| {
      SubsetIsSmaller(chosen, most);
    }
  }

  /** A list holds exactly when a quorum of its sub-scripts does. */
  lemma ListHoldsByQuorum(t: Script, signed: set<seq<byte>>, interval: ValidityInterval)
    requires t.node.All? || t.node.Any? || t.node.NOfK?
    ensures Holds(t, signed, interval)
       <==> exists chosen: set<nat> ::
              |chosen| >= Quorum(t.node, |t.subs|) && Quorate(t.subs, chosen, signed, interval)
  {
    EveryAndSome(t.subs, signed, interval);
    CountIsQuorum(t.subs, Quorum(t.node, |t.subs|), signed, interval);
  }

  /** `All` and `Any` are the thresholds of all sub-scripts and of one; outside one to
      all, a threshold is met by everything or by nothing. */
  lemma ListsAreThresholds(subs: seq<Script>, n: int, signed: set<seq<byte>>, interval: ValidityInterval)
    ensures Holds(Script(All, subs), signed, interval) == Holds(Script(NOfK(|subs|), subs), signed, interval)
    ensures Holds(Script(Any, subs), signed, interval) == Holds(Script(NOfK(1), subs), signed, interval)
    ensures n <= 0 ==> Holds(Script(NOfK(n), subs), signed, interval)
    ensures n > |subs| ==> !Holds(Script(NOfK(n), subs), signed, interval)
  {
    EveryAndSome(subs, signed, interval);
  }

  /** A time lock holds exactly when no slot the interval allows breaks it. */
  lemma TimelocksBoundSlots(s: nat, signed: set<seq<byte>>, interval: ValidityInterval)
    requires AllowsSome(interval)
    ensures Holds(Script(TimelockStart(s), []), signed, interval)
       <==> forall slot: int | Allows(interval, slot) :: s <= slot
    ensures Holds(Script(TimelockExpiry(s), []), signed, interval)
       <==> forall slot: int | Allows(interval, slot) :: slot < s
  {
    var slot: int :| Allows(interval, slot);
    var before, hereafter := interval.invalidBefore, interval.invalidHereafter;
    if before.Some? {
      assert Allows(interval, before.value);
    } else {
      assert Allows(interval, if slot < s then slot else s - 1);
    }
    if hereafter.Some? {
      assert Allows(interval, hereafter.value as int - 1);
    } else {
      assert Allows(interval, if slot >= s then slot else s);
    }
  }

  /** The meaning of a script, without counting and without bounds. */
  ghost predicate Satisfied(t: Script, signed: set<seq<byte>>, interval: ValidityInterval)
    decreases t, 0
  {
    match t.node
    case Pubkey(key) => key in signed
    case TimelockStart(s) => forall slot: int | Allows(interval, slot) :: s <= slot
    case TimelockExpiry(s) => forall slot: int | Allows(interval, slot) :: slot < s
    case _ =>
      exists chosen: set<nat> ::
        |chosen| >= Quorum(t.node, |t.subs|) && AllSatisfied(t.subs, chosen, signed, interval)
  }

  ghost predicate AllSatisfied(subs: seq<Script>, chosen: set<nat>, signed: set<seq<byte>>, interval: ValidityInterval)
    decreases subs, 1
  {
    forall k | k in chosen :: k < |subs| && Satisfied(subs[k], signed, interval)
  }

  /** The verdict is that meaning, whenever there is a slot at all. */
  lemma {:induction false} HoldsIsSatisfied(t: Script, signed: set<seq<byte>>, interval: ValidityInterval)
    requires AllowsSome(interval)
    ensures Holds(t, signed, interval) <==> Satisfied(t, signed, interval)
    decreases t
  {
    hide CountHolding, Allows, AllowsSome;
    if t.node.All? || t.node.Any? || t.node.NOfK? {
      ListHoldsByQuorum(t, signed, interval);
      forall k | 0 <= k < |t.subs|
        ensures Holds(t.subs[k], signed, interval) <==> Satisfied(t.subs[k], signed, interval)
      {
        HoldsIsSatisfied(t.subs[k], signed, interval);
      }
      SameQuorums(t, signed, interval);
    } else if t.node.TimelockStart? || t.node.TimelockExpiry? {
      TimelocksBoundSlots(t.node.slot, signed, interval);
    }
  }

  lemma SameQuorums(t: Script, signed: set<seq<byte>>, interval: ValidityInterval)
    requires t.node.All? || t.node.Any? || t.node.NOfK?
    requires forall k | 0 <= k < |t.subs| ::
               Holds(t.subs[k], signed, interval) <==> Satisfied(t.subs[k], signed, interval)
    ensures Satisfied(t, signed, interval)
       <==> exists chosen: set<nat> ::
              |chosen| >= Quorum(t.node, |t.subs|) && Quorate(t.subs, chosen, signed, interval)
  {
    hide Holds, Quorum;
    forall chosen: set<nat>
      ensures Quorate(t.subs, chosen, signed, interval) <==> AllSatisfied(t.subs, chosen, signed, interval)
    {
    }
  }
}
