/** The path table of the position map: paths interned as a shared prefix and a
    suffix while the replay enters and leaves segments. */
module PathTable {
  import opened Wire

  datatype Row = Row(prefix: Option<nat>, suffix: string)

  /** An open entry: a row and how long the path it spells is. */
  datatype Prefix = Prefix(row: nat, len: nat)

  datatype State = State(path: string, rows: seq<Row>, open: seq<Prefix>)

  // ---------------------------------------------------------------------
  // What the rows spell
  // ---------------------------------------------------------------------

  predicate PointBack(rows: seq<Row>) {
    forall i | 0 <= i < |rows| :: rows[i].prefix.Some? ==> rows[i].prefix.value < i
  }

  /** The path row `i` stands for, as a reader of the table rebuilds it. */
  function Resolve(rows: seq<Row>, i: nat): (path: string)
    requires PointBack(rows) && i < |rows|
  {
    match rows[i].prefix
    case None => rows[i].suffix
    case Some(p) => Resolve(rows, p) + rows[i].suffix
  }

  /** A row extends only rows before it, and the entries still open resolve to
      ever longer beginnings of the current path. */
  ghost predicate Valid(s: State) {
    && PointBack(s.rows)
    && (forall k | 0 <= k < |s.open| ::
          && s.open[k].row < |s.rows| && s.open[k].len <= |s.path|
          && Resolve(s.rows, s.open[k].row) == s.path[..s.open[k].len])
    && (forall j, k | 0 <= j < k < |s.open| :: s.open[j].len < s.open[k].len && s.open[j].row < s.open[k].row)
  }

  /** Rows appended later change nothing a row spells. */
  lemma {:induction false} ResolveIsForever(rows: seq<Row>, more: seq<Row>, i: nat)
    requires PointBack(rows) && PointBack(rows + more) && i < |rows|
    ensures Resolve(rows + more, i) == Resolve(rows, i)
  {
    if rows[i].prefix.Some? {
      ResolveIsForever(rows, more, rows[i].prefix.value);
    }
  }

  // ---------------------------------------------------------------------
  // The operations on values
  // ---------------------------------------------------------------------

  /** How much of the current path its innermost open entry spells. */
  function Shared(s: State): (len: nat) {
    if s.open == [] then 0 else s.open[|s.open| - 1].len
  }

  predicate Spellable(s: State) {
    Shared(s) <= |s.path|
  }

  function Entered(s: State, segment: string): (t: State)
    ensures Spellable(s) ==> Spellable(t)
  {
    s.(path := s.path + segment)
  }

  /** The entries no longer than `mark`: the ones above it are closed. */
  function Kept(open: seq<Prefix>, mark: nat): (kept: seq<Prefix>)
    ensures kept <= open
    ensures kept != [] ==> kept[|kept| - 1].len <= mark
    ensures open != [] && open[|open| - 1].len <= mark ==> kept == open
  {
    if open != [] && open[|open| - 1].len > mark then Kept(open[..|open| - 1], mark) else open
  }

  function Left(s: State, mark: nat): (t: State)
    ensures Spellable(s) ==> Spellable(t)
  {
    s.(path := if mark < |s.path| then s.path[..mark] else s.path, open := Kept(s.open, mark))
  }

  /** The innermost open entry spells the whole current path. */
  predicate CaughtUp(s: State) {
    s.open != [] && s.open[|s.open| - 1].len == |s.path|
  }

  function Interned(s: State): (t: State)
    requires Spellable(s)
    ensures Spellable(t) && t.path == s.path
  {
    if CaughtUp(s) then s
    else
      var prefix := if s.open == [] then None else Some(s.open[|s.open| - 1].row);
      s.(rows := s.rows + [Row(prefix, s.path[Shared(s)..])], open := s.open + [Prefix(|s.rows|, |s.path|)])
  }

  function Index(s: State): (i: nat) {
    if CaughtUp(s) then s.open[|s.open| - 1].row else |s.rows|
  }

  // ---------------------------------------------------------------------
  // Each operation keeps the table
  // ---------------------------------------------------------------------

  lemma EnterKeeps(s: State, segment: string)
    requires Valid(s)
    ensures Valid(Entered(s, segment))
  {
    var t := Entered(s, segment);
    forall k | 0 <= k < |t.open| ensures Resolve(t.rows, t.open[k].row) == t.path[..t.open[k].len] {
      assert t.path[..t.open[k].len] == s.path[..t.open[k].len];
    }
  }

  /** What survives a leave is exactly the entries that still fit the path. */
  lemma {:induction false} KeptFits(open: seq<Prefix>, mark: nat)
    requires forall j, k | 0 <= j < k < |open| :: open[j].len < open[k].len
    ensures forall k | 0 <= k < |open| :: open[k].len <= mark <==> k < |Kept(open, mark)|
  {
    if open != [] && open[|open| - 1].len > mark {
      KeptFits(open[..|open| - 1], mark);
    }
  }

  lemma LeaveKeeps(s: State, mark: nat)
    requires Valid(s)
    ensures Valid(Left(s, mark))
  {
    var t := Left(s, mark);
    KeptFits(s.open, mark);
    forall k | 0 <= k < |t.open| ensures t.open[k].len <= |t.path|
                                      && Resolve(t.rows, t.open[k].row) == t.path[..t.open[k].len] {
      assert t.open[k] == s.open[k];
      assert t.path[..t.open[k].len] == s.path[..t.open[k].len];
    }
  }

  /** An intern answers with a row that spells the current path, and only appends. */
  lemma InternKeeps(s: State)
    requires Valid(s)
    ensures Spellable(s) && s.rows <= Interned(s).rows
    ensures Valid(Interned(s)) && CaughtUp(Interned(s))
    ensures Index(s) < |Interned(s).rows| && Resolve(Interned(s).rows, Index(s)) == s.path
  {
    var t := Interned(s);
    if CaughtUp(s) {
      assert s.path[..|s.path|] == s.path;
    } else {
      var row := t.rows[|s.rows|];
      assert t.rows == s.rows + [row];
      forall i | 0 <= i < |s.rows| ensures Resolve(t.rows, i) == Resolve(s.rows, i) {
        ResolveIsForever(s.rows, [row], i);
      }
      assert s.path == s.path[..Shared(s)] + s.path[Shared(s)..];
      assert s.path[..|s.path|] == s.path;
    }
  }

  // ---------------------------------------------------------------------
  // Whole runs
  // ---------------------------------------------------------------------

  datatype Op = Enter(segment: string) | Leave(mark: nat) | Intern

  function Step(s: State, op: Op): (t: State)
    requires Spellable(s)
  {
    match op
    case Enter(segment) => Entered(s, segment)
    case Leave(mark) => Left(s, mark)
    case Intern => Interned(s)
  }

  ghost function Run(s: State, ops: seq<Op>): (t: State)
    requires Valid(s)
    ensures Valid(t) && s.rows <= t.rows
    decreases |ops|
  {
    if ops == [] then s
    else
      EnterLeaveIntern(s, ops[0]);
      Run(Step(s, ops[0]), ops[1..])
  }

  lemma EnterLeaveIntern(s: State, op: Op)
    requires Valid(s)
    ensures Spellable(s) && Valid(Step(s, op)) && s.rows <= Step(s, op).rows
  {
    match op
    case Enter(segment) => EnterKeeps(s, segment);
    case Leave(mark) => LeaveKeeps(s, mark);
    case Intern => InternKeeps(s);
  }

  lemma {:induction false} RunIsOneStepMore(s: State, before: seq<Op>, after: seq<Op>)
    requires Valid(s)
    ensures Run(Run(s, before), after) == Run(s, before + after)
    decreases |before|
  {
    hide Valid, Step, Resolve;
    if before == [] {
      assert before + after == after;
    } else {
      EnterLeaveIntern(s, before[0]);
      RunIsOneStepMore(Step(s, before[0]), before[1..], after);
      assert (before + after)[1..] == before[1..] + after;
    }
  }

  lemma FreshIsValid(root: string)
    ensures Valid(State(root, [], []))
  {
  }

  lemma PointsBack(s: State)
    requires Valid(s)
    ensures PointBack(s.rows)
  {
  }

  /** However a run goes on after an intern, the index it answered still resolves
      to the path of that moment. */
  lemma InternedForever(root: string, before: seq<Op>, after: seq<Op>)
    ensures Valid(State(root, [], []))
    ensures var moment := Run(State(root, [], []), before);
            var end := Run(State(root, [], []), before + [Intern] + after);
            Index(moment) < |end.rows| && Resolve(end.rows, Index(moment)) == moment.path
  {
    hide Valid, Resolve, Interned, Index;
    FreshIsValid(root);
    var start := State(root, [], []);
    var moment := Run(start, before);
    InternKeeps(moment);
    RunIsOneStepMore(start, before, [Intern] + after);
    assert before + ([Intern] + after) == before + [Intern] + after;
    assert ([Intern] + after)[1..] == after;
    var end := Run(Interned(moment), after);
    assert end == Run(moment, [Intern] + after);
    var more := end.rows[|Interned(moment).rows|..];
    assert end.rows == Interned(moment).rows + more;
    PointsBack(Interned(moment));
    PointsBack(end);
    ResolveIsForever(Interned(moment).rows, more, Index(moment));
  }

  // ---------------------------------------------------------------------
  // What a replay stores
  // ---------------------------------------------------------------------

  /** A replay that interns wherever it enters: a segment and what lies below. */
  datatype Visit = Visit(segment: string, below: seq<Visit>)

  function Stored(rows: seq<Row>): (n: nat) {
    if rows == [] then 0 else Stored(rows[..|rows| - 1]) + |rows[|rows| - 1].suffix|
  }

  function Characters(v: Visit): (n: nat)
    decreases v, 0
  {
    |v.segment| + CharactersBelow(v.below)
  }

  function CharactersBelow(vs: seq<Visit>): (n: nat)
    decreases vs, 1
  {
    if vs == [] then 0 else Characters(vs[0]) + CharactersBelow(vs[1..])
  }

  /** The state after entering, interning, visiting what lies below and leaving. */
  ghost function Visited(s: State, v: Visit): (t: State)
    requires Valid(s)
    ensures Valid(t)
    decreases v, 0
  {
    EnterKeeps(s, v.segment);
    var inside := Entered(s, v.segment);
    InternKeeps(inside);
    var after := VisitedAll(Interned(inside), v.below);
    LeaveKeeps(after, |s.path|);
    Left(after, |s.path|)
  }

  ghost function VisitedAll(s: State, vs: seq<Visit>): (t: State)
    requires Valid(s)
    ensures Valid(t)
    decreases vs, 1
  {
    if vs == [] then s else VisitedAll(Visited(s, vs[0]), vs[1..])
  }

  /** Interning what was just entered stores the segment. */
  lemma InternStoresSegment(s: State, segment: string)
    requires CaughtUp(s)
    ensures var inside := Entered(s, segment);
            Stored(Interned(inside).rows) == Stored(s.rows) + |segment|
  {
    var inside := Entered(s, segment);
    if !CaughtUp(inside) {
      assert Interned(inside).rows[..|s.rows|] == s.rows;
      assert inside.path[|s.path|..] == segment;
    }
  }

  /** Leaving undoes the enter and the intern before it. */
  lemma LeaveUndoes(s: State, segment: string, after: State)
    requires CaughtUp(s)
    requires after.path == s.path + segment && after.open == Interned(Entered(s, segment)).open
    ensures Left(after, |s.path|) == State(s.path, after.rows, s.open)
  {
    assert after.path[..|s.path|] == s.path;
    if segment == "" {
      assert after.path == s.path;
    } else {
      assert after.open[..|s.open|] == s.open;
      assert Kept(s.open, |s.path|) == s.open;
    }
  }

  /** A visit gives the path and the open entries back, and has stored each
      segment it entered once, and nothing else. */
  lemma {:induction false} VisitStoresSegments(s: State, v: Visit)
    requires Valid(s) && CaughtUp(s)
    ensures var t := Visited(s, v);
            t.path == s.path && t.open == s.open && Stored(t.rows) == Stored(s.rows) + Characters(v)
    decreases v, 0
  {
    hide Valid, Stored, Left, Resolve;
    EnterKeeps(s, v.segment);
    var inside := Entered(s, v.segment);
    InternKeeps(inside);
    InternStoresSegment(s, v.segment);
    VisitsStoreSegments(Interned(inside), v.below);
    LeaveUndoes(s, v.segment, VisitedAll(Interned(inside), v.below));
  }

  lemma {:induction false} VisitsStoreSegments(s: State, vs: seq<Visit>)
    requires Valid(s) && CaughtUp(s)
    ensures var t := VisitedAll(s, vs);
            t.path == s.path && t.open == s.open && Stored(t.rows) == Stored(s.rows) + CharactersBelow(vs)
    decreases vs, 1
  {
    hide Stored, Resolve, Visited, Characters;
    if vs != [] {
      VisitStoresSegments(s, vs[0]);
      VisitsStoreSegments(Visited(s, vs[0]), vs[1..]);
    }
  }

  lemma RootStored(root: string)
    ensures var named := Interned(State(root, [], []));
            Stored(named.rows) == |root| && CaughtUp(named)
  {
    var named := Interned(State(root, [], []));
    assert named.rows == [Row(None, root)] by { assert root[0..] == root; }
    assert named.rows[..0] == [];
  }

  /** A whole replay under the root: the table holds as many characters as were
      entered, the root's included, however long the paths it spells are. */
  lemma ReplayStoresSegments(root: string, vs: seq<Visit>)
    ensures var named := Interned(State(root, [], []));
            Valid(named) && Stored(VisitedAll(named, vs).rows) == |root| + CharactersBelow(vs)
  {
    hide Valid, Visited, VisitedAll, Stored, Interned, CaughtUp;
    FreshIsValid(root);
    InternKeeps(State(root, [], []));
    RootStored(root);
    VisitsStoreSegments(Interned(State(root, [], [])), vs);
  }

  // ---------------------------------------------------------------------
  // The table as it runs
  // ---------------------------------------------------------------------

  class Paths {
    var path: string
    var rows: seq<Row>
    var open: seq<Prefix>

    ghost function Now(): (s: State)
      reads this
    {
      State(path, rows, open)
    }

    constructor (root: string)
      ensures Now() == State(root, [], []) && Valid(Now())
    {
      path, rows, open := root, [], [];
    }

    /** Appends `segment`; answers with the length to go back to. */
    method EnterSegment(segment: string) returns (mark: nat)
      requires Valid(Now())
      modifies this
      ensures Now() == Entered(old(Now()), segment) && Valid(Now())
      ensures mark == |old(path)|
    {
      EnterKeeps(Now(), segment);
      mark := |path|;
      path := path + segment;
    }

    /** Goes back to `mark` and closes the entries longer than that. */
    method LeaveTo(mark: nat)
      requires Valid(Now())
      modifies this
      ensures Now() == Left(old(Now()), mark) && Valid(Now())
    {
      LeaveKeeps(Now(), mark);
      if mark < |path| {
        path := path[..mark];
      }
      while open != [] && open[|open| - 1].len > mark
        invariant Kept(open, mark) == Kept(old(open), mark) && rows == old(rows)
        invariant path == if mark < |old(path)| then old(path)[..mark] else old(path)
        decreases |open|
      {
        open := open[..|open| - 1];
      }
    }

    /** The row of the current path; a new one unless it is open already. */
    method InternPath() returns (index: nat)
      requires Valid(Now())
      modifies this
      ensures Spellable(old(Now()))
      ensures Now() == Interned(old(Now())) && index == Index(old(Now())) && Valid(Now())
      ensures old(rows) <= rows && index < |rows| && Resolve(rows, index) == path == old(path)
    {
      InternKeeps(Now());
      var prefix: Option<nat>, shared: nat := None, 0;
      if open != [] {
        prefix, shared := Some(open[|open| - 1].row), open[|open| - 1].len;
      }
      if shared == |path| && prefix.Some? {
        return prefix.value;
      }
      index := |rows|;
      rows := rows + [Row(prefix, path[shared..])];
      open := open + [Prefix(index, |path|)];
    }
  }
}
