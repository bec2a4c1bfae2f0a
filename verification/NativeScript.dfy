/** Native scripts read without recursion: the grammar as a recursive reader of
    trees, and the loop that reads the same bytes into a pre-order array. */
module NativeScript {
  import opened Wire

  const U32_MAX: nat := 0xFFFF_FFFF
  const I64_MAX: nat := 0x7FFF_FFFF_FFFF_FFFF
  const SET_TAG: nat := 258
  const KEY_HASH_LEN: nat := 28

  datatype Node =
    | Pubkey(key: seq<byte>)
    | All
    | Any
    | NOfK(n: int)
    | TimelockStart(slot: nat)
    | TimelockExpiry(slot: nat)

  predicate HasList(node: Node) {
    node.All? || node.Any? || node.NOfK?
  }

  /** A script as the ledger nests it; only `All`, `Any` and `NOfK` have
      sub-scripts. */
  datatype Script = Script(node: Node, subs: seq<Script>)

  // ---------------------------------------------------------------------
  // The pre-order array
  // ---------------------------------------------------------------------

  function Nodes(t: Script): (r: seq<Node>)
    ensures |r| == Size(t)
    decreases t, 0
  {
    [t.node] + NodesAll(t.subs)
  }

  function NodesAll(ts: seq<Script>): (r: seq<Node>)
    ensures |r| == SizeAll(ts)
    decreases ts
  {
    if ts == [] then [] else Nodes(ts[0]) + NodesAll(ts[1..])
  }

  function Size(t: Script): (n: nat)
    ensures n > 0
    decreases t, 0
  {
    1 + SizeAll(t.subs)
  }

  function SizeAll(ts: seq<Script>): (n: nat)
    decreases ts
  {
    if ts == [] then 0 else Size(ts[0]) + SizeAll(ts[1..])
  }

  /** For each node of `t`, laid out from index `base` on, the index just past
      its subtree. */
  function Ends(t: Script, base: nat): (r: seq<nat>)
    ensures |r| == Size(t)
    decreases t, 0
  {
    [base + Size(t)] + EndsAll(t.subs, base + 1)
  }

  function EndsAll(ts: seq<Script>, base: nat): (r: seq<nat>)
    ensures |r| == SizeAll(ts)
    decreases ts
  {
    if ts == [] then [] else Ends(ts[0], base) + EndsAll(ts[1..], base + Size(ts[0]))
  }

  datatype FlatNativeScript = FlatNativeScript(nodes: seq<Node>, end: seq<nat>)

  function Flatten(t: Script): (f: FlatNativeScript) {
    FlatNativeScript(Nodes(t), Ends(t, 0))
  }

  // ---------------------------------------------------------------------
  // Tokens
  // ---------------------------------------------------------------------

  function ReadArray(bytes: seq<byte>, at: nat): (r: Option<(Option<nat>, nat)>)
    ensures r.Some? ==> at < r.value.1 <= |bytes|
  {
    var h := ReadHead(bytes, at);
    if h.None? || h.value.major != 4 then None else Some((h.value.argument, at + h.value.len))
  }

  function ReadUnsigned(bytes: seq<byte>, at: nat): (r: Option<(nat, nat)>)
    ensures r.Some? ==> at < r.value.1 <= |bytes|
  {
    var h := ReadHead(bytes, at);
    if h.None? || h.value.major != 0 || h.value.argument.None? then None
    else Some((h.value.argument.value, at + h.value.len))
  }

  /** An integer of 64 signed bits. */
  function ReadSigned(bytes: seq<byte>, at: nat): (r: Option<(int, nat)>)
    ensures r.Some? ==> at < r.value.1 <= |bytes|
  {
    var h := ReadHead(bytes, at);
    if h.None? || h.value.major > 1 || h.value.argument.None? || h.value.argument.value > I64_MAX then None
    else
      var v := h.value.argument.value;
      Some((if h.value.major == 0 then v else -1 - v, at + h.value.len))
  }

  function ReadBytes(bytes: seq<byte>, at: nat): (r: Option<(seq<byte>, nat)>)
    ensures r.Some? ==> at < r.value.1 <= |bytes|
  {
    var h := ReadHead(bytes, at);
    if h.None? || h.value.major != 2 || h.value.argument.None? then None
    else
      var from := at + h.value.len;
      var n := h.value.argument.value;
      if from + n > |bytes| then None else Some((bytes[from..from + n], from + n))
  }

  function ReadTag(bytes: seq<byte>, at: nat): (r: Option<(nat, nat)>)
    ensures r.Some? ==> at < r.value.1 <= |bytes|
  {
    var h := ReadHead(bytes, at);
    if h.None? || h.value.major != 6 || h.value.argument.None? then None
    else Some((h.value.argument.value, at + h.value.len))
  }

  datatype TypeAhead = Tag | Break | Other

  /** The type of the next item, told from its first byte (two for a negative
      integer with an argument of its own); `None` when they are missing. */
  function PeekType(bytes: seq<byte>, at: nat): (r: Option<TypeAhead>)
    ensures r.Some? ==> at < |bytes|
  {
    if at >= |bytes| then None
    else if 0x38 <= bytes[at] <= 0x3b && at + 1 >= |bytes| then None
    else if 0xc0 <= bytes[at] <= 0xdb then Some(Tag)
    else if bytes[at] == BREAK then Some(Break)
    else Some(Other)
  }

  // ---------------------------------------------------------------------
  // The grammar
  // ---------------------------------------------------------------------

  /** What precedes a script's sub-scripts: its node, whether its own array is
      indefinite, and for a script with a list how many it announces. */
  datatype Prefix = Prefix(node: Node, indefinite: bool, list: Option<Option<nat>>, pos: nat)

  function ReadNode(bytes: seq<byte>, at: nat, kind: nat): (r: Option<(Node, nat)>)
    requires at <= |bytes|
    ensures r.Some? ==> at <= r.value.1 <= |bytes|
  {
    match kind
    case 0 =>
      (match ReadBytes(bytes, at)
       case None => None
       case Some((key, p)) => if |key| == KEY_HASH_LEN then Some((Pubkey(key), p)) else None)
    case 1 => Some((All, at))
    case 2 => Some((Any, at))
    case 3 => (match ReadSigned(bytes, at) case None => None case Some((n, p)) => Some((NOfK(n), p)))
    case 4 => (match ReadUnsigned(bytes, at) case None => None case Some((s, p)) => Some((TimelockStart(s), p)))
    case 5 => (match ReadUnsigned(bytes, at) case None => None case Some((s, p)) => Some((TimelockExpiry(s), p)))
    case _ => None
  }

  /** The header of a sub-script list, with its optional set tag. */
  function ReadListHead(bytes: seq<byte>, at: nat): (r: Option<(Option<nat>, nat)>)
    ensures r.Some? ==> at < r.value.1 <= |bytes|
  {
    match PeekType(bytes, at)
    case None => None
    case Some(Tag) =>
      (match ReadTag(bytes, at)
       case None => None
       case Some((tag, p)) => if tag != SET_TAG then None else ReadArray(bytes, p))
    case Some(_) => ReadArray(bytes, at)
  }

  function ReadPrefix(bytes: seq<byte>, at: nat): (r: Option<Prefix>)
    ensures r.Some? ==> at < r.value.pos <= |bytes|
    ensures r.Some? ==> (r.value.list.Some? <==> HasList(r.value.node))
  {
    match ReadArray(bytes, at)
    case None => None
    case Some((size, p)) =>
      match ReadUnsigned(bytes, p)
      case None => None
      case Some((kind, q)) =>
        var expected := if kind == 3 then 3 else 2;
        if size.Some? && size.value != expected then None
        else
          match ReadNode(bytes, q, kind)
          case None => None
          case Some((node, s)) =>
            if !HasList(node) then Some(Prefix(node, size.None?, None, s))
            else
              match ReadListHead(bytes, s)
              case None => None
              case Some((remaining, t)) => Some(Prefix(node, size.None?, Some(remaining), t))
  }

  /** Past an array's last item: one byte further, on a break, if the array had no
      length. */
  function ReadClose(bytes: seq<byte>, at: nat, indefinite: bool): (r: Option<nat>)
    requires at <= |bytes|
    ensures r.Some? ==> at <= r.value <= |bytes|
  {
    if !indefinite then Some(at)
    else if PeekType(bytes, at) == Some(Break) then Some(at + 1)
    else None
  }

  /** One native script at `at` and where it ends. */
  function Parse(bytes: seq<byte>, at: nat): (r: Option<(Script, nat)>)
    ensures r.Some? ==> at < r.value.1 <= |bytes|
    decreases |bytes| - at, 0
  {
    match ReadPrefix(bytes, at)
    case None => None
    case Some(p) =>
      if p.list.None? then
        match ReadClose(bytes, p.pos, p.indefinite)
        case None => None
        case Some(e) => Some((Script(p.node, []), e))
      else
        match ParseSubs(bytes, p.pos, p.list.value)
        case None => None
        case Some((subs, s)) =>
          match ReadClose(bytes, s, p.indefinite)
          case None => None
          case Some(e) => Some((Script(p.node, subs), e))
  }

  /** `remaining` scripts in a row, or scripts up to and with a break. */
  function ParseSubs(bytes: seq<byte>, at: nat, remaining: Option<nat>): (r: Option<(seq<Script>, nat)>)
    requires at <= |bytes|
    ensures r.Some? ==> at <= r.value.1 <= |bytes|
    decreases |bytes| - at, 1
  {
    if remaining == Some(0) then Some(([], at))
    else if remaining.None? && PeekType(bytes, at).None? then None
    else if remaining.None? && PeekType(bytes, at) == Some(Break) then Some(([], at + 1))
    else
      match Parse(bytes, at)
      case None => None
      case Some((t, p)) =>
        var left := if remaining.None? then None else Some(remaining.value - 1);
        match ParseSubs(bytes, p, left)
        case None => None
        case Some((ts, e)) => Some(([t] + ts, e))
  }

  // ---------------------------------------------------------------------
  // The loop that reads the array
  // ---------------------------------------------------------------------

  /** A list of sub-scripts not yet closed: where its script stands in the flat
      array, and how many items are still to come, if that is known. */
  datatype OpenList = OpenList(index: nat, remaining: Option<nat>, indefinite: bool)

  datatype Reading = Reading(flat: FlatNativeScript, pos: nat)

  predicate Indexed(open: seq<OpenList>, n: nat) {
    forall k | 0 <= k < |open| :: open[k].index < n
  }

  /** Read the rest of the open lists, innermost last, into the array. */
  function Resume(bytes: seq<byte>, pos: nat, f: FlatNativeScript, open: seq<OpenList>): (r: Option<Reading>)
    requires pos <= |bytes| && |f.nodes| == |f.end| && Indexed(open, |f.nodes|)
    decreases |open|
  {
    if open == [] then Some(Reading(f, pos))
    else
      var top := open[|open| - 1];
      match ParseSubs(bytes, pos, top.remaining)
      case None => None
      case Some((ts, p)) => CloseList(bytes, p, Extend(f, ts), open)
  }

  /** `ts` appended to the array. */
  function Extend(f: FlatNativeScript, ts: seq<Script>): (r: FlatNativeScript)
    ensures |f.nodes| == |f.end| ==> |r.nodes| == |r.end| == |f.nodes| + SizeAll(ts)
  {
    FlatNativeScript(f.nodes + NodesAll(ts), f.end + EndsAll(ts, |f.nodes|))
  }

  /** A list without any item to come is closed: its end goes into the array, the
      break of its script is consumed, and reading goes on in the list around it. */
  function CloseList(bytes: seq<byte>, pos: nat, f: FlatNativeScript, open: seq<OpenList>): (r: Option<Reading>)
    requires pos <= |bytes| && |f.nodes| == |f.end| && Indexed(open, |f.nodes|) && open != []
    decreases |open|, 0
  {
    var top := open[|open| - 1];
    match ReadClose(bytes, pos, top.indefinite)
    case None => None
    case Some(q) => Resume(bytes, q, f.(end := f.end[top.index := |f.nodes|]), open[..|open| - 1])
  }

  /** Go on with one more script read. */
  function Feed(bytes: seq<byte>, script: Option<(Script, nat)>, f: FlatNativeScript,
                open: seq<OpenList>): (r: Option<Reading>)
    requires script.Some? ==> script.value.1 <= |bytes|
    requires |f.nodes| == |f.end| && Indexed(open, |f.nodes|)
  {
    if script.None? then None
    else Resume(bytes, script.value.1, Extend(f, [script.value.0]), open)
  }

  function Push(f: FlatNativeScript, node: Node): (r: FlatNativeScript) {
    FlatNativeScript(f.nodes + [node], f.end + [|f.nodes| + 1])
  }

  lemma OneTree(t: Script, base: nat)
    ensures NodesAll([t]) == Nodes(t) && EndsAll([t], base) == Ends(t, base) && SizeAll([t]) == Size(t)
  {
    assert [t][1..] == [];
  }

  lemma ConsTree(t: Script, ts: seq<Script>, base: nat)
    ensures NodesAll([t] + ts) == Nodes(t) + NodesAll(ts)
    ensures EndsAll([t] + ts, base) == Ends(t, base) + EndsAll(ts, base + Size(t))
    ensures SizeAll([t] + ts) == Size(t) + SizeAll(ts)
  {
    assert ([t] + ts)[1..] == ts;
  }

  lemma ExtendNothing(f: FlatNativeScript)
    ensures Extend(f, []) == f
  {
    assert f.nodes + [] == f.nodes && f.end + [] == f.end;
  }

  lemma ExtendTwice(f: FlatNativeScript, t: Script, ts: seq<Script>)
    requires |f.nodes| == |f.end|
    ensures Extend(Extend(f, [t]), ts) == Extend(f, [t] + ts)
  {
    var base := |f.nodes|;
    OneTree(t, base);
    ConsTree(t, ts, base);
    assert f.nodes + (Nodes(t) + NodesAll(ts)) == f.nodes + Nodes(t) + NodesAll(ts);
    assert f.end + (Ends(t, base) + EndsAll(ts, base + Size(t))) == f.end + Ends(t, base) + EndsAll(ts, base + Size(t));
  }

  /** A script laid out in two steps, its node and then its sub-scripts, with
      its end noted last, is laid out as a whole. */
  lemma PushThenExtend(f: FlatNativeScript, node: Node, ts: seq<Script>)
    requires |f.nodes| == |f.end|
    ensures var g := Extend(Push(f, node), ts);
      g.(end := g.end[|f.nodes| := |g.nodes|]) == Extend(f, [Script(node, ts)])
  {
    var base := |f.nodes|;
    var t := Script(node, ts);
    OneTree(t, base);
    var g := Extend(Push(f, node), ts);
    assert g.nodes == f.nodes + Nodes(t);
    assert g.end == f.end + ([base + 1] + EndsAll(ts, base + 1));
    assert g.end[base := |g.nodes|] == f.end + Ends(t, base);
  }

  /** What a leaf adds. */
  lemma PushLeaf(f: FlatNativeScript, node: Node)
    requires |f.nodes| == |f.end|
    ensures Push(f, node) == Extend(f, [Script(node, [])])
  {
    OneTree(Script(node, []), |f.nodes|);
  }

  lemma LeafRead(bytes: seq<byte>, at: nat, f: FlatNativeScript, open: seq<OpenList>)
    requires at <= |bytes| && |f.nodes| == |f.end| && Indexed(open, |f.nodes|)
    requires ReadPrefix(bytes, at).Some? && ReadPrefix(bytes, at).value.list.None?
    ensures var p := ReadPrefix(bytes, at).value;
      Feed(bytes, Parse(bytes, at), f, open)
      == match ReadClose(bytes, p.pos, p.indefinite)
         case None => None
         case Some(e) => Resume(bytes, e, Push(f, p.node), open)
  {
    PushLeaf(f, ReadPrefix(bytes, at).value.node);
  }

  lemma ListOpened(bytes: seq<byte>, at: nat, f: FlatNativeScript, open: seq<OpenList>)
    requires at <= |bytes| && |f.nodes| == |f.end| && Indexed(open, |f.nodes|)
    requires ReadPrefix(bytes, at).Some? && ReadPrefix(bytes, at).value.list.Some?
    ensures var p := ReadPrefix(bytes, at).value;
      Feed(bytes, Parse(bytes, at), f, open)
      == Resume(bytes, p.pos, Push(f, p.node), open + [OpenList(|f.nodes|, p.list.value, p.indefinite)])
  {
    var p := ReadPrefix(bytes, at).value;
    var grown := open + [OpenList(|f.nodes|, p.list.value, p.indefinite)];
    assert grown[..|grown| - 1] == open;
    match ParseSubs(bytes, p.pos, p.list.value)
    case None =>
    case Some((ts, s)) =>
      PushThenExtend(f, p.node, ts);
  }

  lemma ListContinues(bytes: seq<byte>, pos: nat, f: FlatNativeScript, open: seq<OpenList>)
    requires pos <= |bytes| && |f.nodes| == |f.end| && Indexed(open, |f.nodes|) && open != []
    requires var left := open[|open| - 1].remaining;
      if left.None? then PeekType(bytes, pos).Some? && PeekType(bytes, pos) != Some(Break) else left.value > 0
    ensures Resume(bytes, pos, f, open) == Feed(bytes, Parse(bytes, pos), f, Counted(open))
  {
    var rest := Counted(open);
    assert rest[..|open| - 1] == open[..|open| - 1];
    match Parse(bytes, pos)
    case None =>
    case Some((t, p)) =>
      match ParseSubs(bytes, p, rest[|open| - 1].remaining)
      case None =>
      case Some((ts, s)) =>
        ExtendTwice(f, t, ts);
        var g := Extend(f, [t] + ts);
        assert CloseList(bytes, s, g, open) == CloseList(bytes, s, g, rest);
  }

  /** One script fewer expected by the innermost list. */
  function Counted(open: seq<OpenList>): (r: seq<OpenList>)
    requires open != [] && open[|open| - 1].remaining != Some(0)
    ensures |r| == |open| && forall k | 0 <= k < |open| :: r[k].index == open[k].index
  {
    var top := open[|open| - 1];
    if top.remaining.None? then open
    else open[|open| - 1 := top.(remaining := Some(top.remaining.value - 1))]
  }

  lemma ListEnds(bytes: seq<byte>, pos: nat, f: FlatNativeScript, open: seq<OpenList>)
    requires pos <= |bytes| && |f.nodes| == |f.end| && Indexed(open, |f.nodes|) && open != []
    ensures open[|open| - 1].remaining == Some(0) ==>
              Resume(bytes, pos, f, open) == CloseList(bytes, pos, f, open)
    ensures open[|open| - 1].remaining.None? && PeekType(bytes, pos) == Some(Break) ==>
              Resume(bytes, pos, f, open) == CloseList(bytes, pos + 1, f, open)
    ensures open[|open| - 1].remaining.None? && PeekType(bytes, pos).None? ==>
              Resume(bytes, pos, f, open).None?
  {
    ExtendNothing(f);
  }

  lemma {:induction false} ResumeGrows(bytes: seq<byte>, pos: nat, f: FlatNativeScript, open: seq<OpenList>)
    requires pos <= |bytes| && |f.nodes| == |f.end| && Indexed(open, |f.nodes|)
    requires Resume(bytes, pos, f, open).Some?
    ensures |Resume(bytes, pos, f, open).value.flat.nodes| >= |f.nodes|
    decreases |open|
  {
    if open != [] {
      var top := open[|open| - 1];
      var (ts, p) := ParseSubs(bytes, pos, top.remaining).value;
      var g := Extend(f, ts);
      var q := ReadClose(bytes, p, top.indefinite).value;
      ResumeGrows(bytes, q, g.(end := g.end[top.index := |g.nodes|]), open[..|open| - 1]);
    }
  }

  /** What reading one script at `at` must give: its pre-order array and where
      it ends. */
  function Expected(bytes: seq<byte>, at: nat): (r: Option<Reading>) {
    match Parse(bytes, at)
    case None => None
    case Some((t, e)) => Some(Reading(Flatten(t), e))
  }

  lemma ExpectedIsFed(bytes: seq<byte>, at: nat)
    ensures Feed(bytes, Parse(bytes, at), FlatNativeScript([], []), []) == Expected(bytes, at)
  {
    if Parse(bytes, at).Some? {
      var t := Parse(bytes, at).value.0;
      OneTree(t, 0);
      assert [] + Nodes(t) == Nodes(t) && [] + Ends(t, 0) == Ends(t, 0);
    }
  }

  /** One native script from `at` on. The loop succeeds exactly on the grammar
      (up to the cap of a 32-bit node count), consumes the same bytes, and its
      array is the pre-order layout of the script. */
  method ReadScript(bytes: seq<byte>, at: nat) returns (r: Option<Reading>)
    ensures r == if Expected(bytes, at).Some? && |Expected(bytes, at).value.flat.nodes| <= U32_MAX
                 then Expected(bytes, at) else None
  {
    hide Resume, Parse, CloseList, Extend, Feed, ReadPrefix, Expected;
    var nodes: seq<Node> := [];
    var end: seq<nat> := [];
    var open: seq<OpenList> := [];
    var pos := at;
    ExpectedIsFed(bytes, at);
    if at > |bytes| {
      NoScript(bytes, at, FlatNativeScript([], []), []);
      return None;
    }
    while true
      invariant pos <= |bytes| && |nodes| == |end| <= U32_MAX && Indexed(open, |nodes|)
      invariant Expected(bytes, at) == Feed(bytes, Parse(bytes, pos), FlatNativeScript(nodes, end), open)
      decreases |bytes| - pos
    {
      var index := |nodes|;
      ghost var f := FlatNativeScript(nodes, end);
      if index >= U32_MAX {
        FeedGrows(bytes, pos, f, open);
        return None;
      }
      var prefix := ReadPrefixTokens(bytes, pos);
      if prefix.None? {
        NoScript(bytes, pos, f, open);
        return None;
      }
      var p := prefix.value;
      nodes := nodes + [p.node];
      end := end + [index + 1];
      ghost var start := pos;
      pos := p.pos;
      if p.list.Some? {
        ListOpened(bytes, start, f, open);
        open := open + [OpenList(index, p.list.value, p.indefinite)];
      } else {
        LeafRead(bytes, start, f, open);
        var closed := ReadClose(bytes, pos, p.indefinite);
        if closed.None? {
          return None;
        }
        pos := closed.value;
      }
      var more := false;
      while !more
        invariant start < pos <= |bytes| && |nodes| == |end| <= U32_MAX && Indexed(open, |nodes|)
        invariant Expected(bytes, at)
               == if more then Feed(bytes, Parse(bytes, pos), FlatNativeScript(nodes, end), open)
                  else Resume(bytes, pos, FlatNativeScript(nodes, end), open)
        decreases !more, |open|
      {
        f := FlatNativeScript(nodes, end);
        if open == [] {
          AllClosed(bytes, pos, f);
          return Some(Reading(FlatNativeScript(nodes, end), pos));
        }
        var top := open[|open| - 1];
        ListEnds(bytes, pos, f, open);
        if top.remaining.None? {
          var ahead := PeekType(bytes, pos);
          if ahead.None? {
            return None;
          }
          if ahead.value == Break {
            pos := pos + 1;
          } else {
            more := true;
          }
        } else {
          more := top.remaining.value > 0;
        }
        if more {
          ListContinues(bytes, pos, f, open);
          open := Counted(open);
        } else {
          ListClosed(bytes, pos, f, open);
          open := open[..|open| - 1];
          end := end[top.index := |nodes|];
          var closed := ReadClose(bytes, pos, top.indefinite);
          if closed.None? {
            return None;
          }
          pos := closed.value;
        }
      }
    }
  }

  lemma AllClosed(bytes: seq<byte>, pos: nat, f: FlatNativeScript)
    requires pos <= |bytes| && |f.nodes| == |f.end|
    ensures Resume(bytes, pos, f, []) == Some(Reading(f, pos))
  {
  }

  lemma ListClosed(bytes: seq<byte>, pos: nat, f: FlatNativeScript, open: seq<OpenList>)
    requires pos <= |bytes| && |f.nodes| == |f.end| && Indexed(open, |f.nodes|) && open != []
    ensures var top := open[|open| - 1];
      CloseList(bytes, pos, f, open)
      == match ReadClose(bytes, pos, top.indefinite)
         case None => None
         case Some(q) => Resume(bytes, q, f.(end := f.end[top.index := |f.nodes|]), open[..|open| - 1])
  {
  }

  lemma NoScript(bytes: seq<byte>, at: nat, f: FlatNativeScript, open: seq<OpenList>)
    requires ReadPrefix(bytes, at).None? && |f.nodes| == |f.end| && Indexed(open, |f.nodes|)
    ensures Parse(bytes, at).None? && Feed(bytes, Parse(bytes, at), f, open).None?
  {
  }

  lemma FeedGrows(bytes: seq<byte>, pos: nat, f: FlatNativeScript, open: seq<OpenList>)
    requires pos <= |bytes| && |f.nodes| == |f.end| && Indexed(open, |f.nodes|)
    ensures var r := Feed(bytes, Parse(bytes, pos), f, open); r.Some? ==> |r.value.flat.nodes| > |f.nodes|
  {
    if Feed(bytes, Parse(bytes, pos), f, open).Some? {
      var (t, p) := Parse(bytes, pos).value;
      OneTree(t, |f.nodes|);
      ResumeGrows(bytes, p, Extend(f, [t]), open);
    }
  }

  /** The tokens read for one script before its sub-scripts, in the reader's own
      order. */
  method ReadPrefixTokens(bytes: seq<byte>, at: nat) returns (r: Option<Prefix>)
    ensures r == ReadPrefix(bytes, at)
  {
    var header := ReadArray(bytes, at);
    if header.None? { return None; }
    var (size, p) := header.value;
    var number := ReadUnsigned(bytes, p);
    if number.None? { return None; }
    var (kind, q) := number.value;
    var expected := if kind == 3 then 3 else 2;
    if size.Some? && size.value != expected { return None; }
    var list := false;
    var node := All;
    var pos := q;
    if kind == 0 {
      var key := ReadBytes(bytes, pos);
      if key.None? || |key.value.0| != KEY_HASH_LEN { return None; }
      node, pos := Pubkey(key.value.0), key.value.1;
    } else if kind == 1 {
      node, list := All, true;
    } else if kind == 2 {
      node, list := Any, true;
    } else if kind == 3 {
      var n := ReadSigned(bytes, pos);
      if n.None? { return None; }
      node, pos, list := NOfK(n.value.0), n.value.1, true;
    } else if kind == 4 || kind == 5 {
      var slot := ReadUnsigned(bytes, pos);
      if slot.None? { return None; }
      node := if kind == 4 then TimelockStart(slot.value.0) else TimelockExpiry(slot.value.0);
      pos := slot.value.1;
    } else {
      return None;
    }
    if !list {
      return Some(Prefix(node, size.None?, None, pos));
    }
    var ahead := PeekType(bytes, pos);
    if ahead.None? { return None; }
    if ahead.value == Tag {
      var tag := ReadTag(bytes, pos);
      if tag.None? || tag.value.0 != SET_TAG { return None; }
      pos := tag.value.1;
    }
    header := ReadArray(bytes, pos);
    if header.None? { return None; }
    return Some(Prefix(node, size.None?, Some(header.value.0), header.value.1));
  }

  /** `bytes` as exactly one native script. */
  method FromCbor(bytes: seq<byte>) returns (r: Option<FlatNativeScript>)
    ensures r.Some?
       <==> && Parse(bytes, 0).Some? && Parse(bytes, 0).value.1 == |bytes|
            && Size(Parse(bytes, 0).value.0) <= U32_MAX
    ensures r.Some? ==> r.value == Flatten(Parse(bytes, 0).value.0)
  {
    var read := ReadScript(bytes, 0);
    if read.None? || read.value.pos != |bytes| {
      return None;
    }
    return Some(read.value.flat);
  }

  /** Where the native script at `at` ends, when a whole one starts there. */
  method NativeScriptEnd(bytes: seq<byte>, at: nat) returns (r: Option<nat>)
    ensures r.Some? <==> Parse(bytes, at).Some? && Size(Parse(bytes, at).value.0) <= U32_MAX
    ensures r.Some? ==> r.value == Parse(bytes, at).value.1
  {
    if at >= |bytes| {
      return None;
    }
    var read := ReadScript(bytes, at);
    if read.None? {
      return None;
    }
    return Some(read.value.pos);
  }
}
