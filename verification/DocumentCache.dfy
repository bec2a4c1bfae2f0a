/** The cache of parsed schema documents: a few entries, most recently used first. */
module DocumentCache {
  import opened Wire

  const CAPACITY: nat := 4

  // ---------------------------------------------------------------------
  // Entries
  // ---------------------------------------------------------------------

  datatype ErrorKind = NestingTooDeep | Parse | Unresolved

  datatype SchemaError = SchemaError(kind: ErrorKind, span: Option<(nat, nat)>)

  /** What the nesting scan and the parser answer for a text; the parser's tree is
      the text it was made from. */
  datatype Parser = Parser(overflow: string -> Option<nat>, complaint: string -> Option<SchemaError>,
                           parses: string -> bool)

  datatype Outcome = Ast(text: string) | Rejected(error: SchemaError)

  /** What one source text builds: a parse if there is one, which can stand beside
      an error about the whole. */
  datatype Entry = Entry(parsed: Option<string>, error: Option<SchemaError>)

  function Build(p: Parser, src: string): (e: Entry)
    ensures e.parsed.Some? || e.error.Some?
  {
    if p.overflow(src).Some? then
      var at := p.overflow(src).value;
      Entry(None, Some(SchemaError(NestingTooDeep, Some((at, at + 1)))))
    else
      match p.complaint(src)
      case None => Entry(Some(src), None)
      case Some(error) =>
        Entry(if error.kind == Unresolved && p.parses(src) then Some(src) else None, Some(error))
  }

  function Unchecked(e: Entry): (o: Outcome)
    requires e.parsed.Some? || e.error.Some?
  {
    if e.parsed.Some? then Ast(e.parsed.value) else Rejected(e.error.value)
  }

  function Checked(e: Entry): (o: Outcome)
    requires e.parsed.Some? || e.error.Some?
  {
    if e.error.Some? then Rejected(e.error.value) else Ast(e.parsed.value)
  }

  /** What a caller may rely on: the tree is of the text asked for, a document that
      passes the checked question passes the unchecked one, the two differ only for
      a text that parses with unresolved references, and a rejection names the byte
      where the nesting overflows, or what the parser complains of. */
  lemma BuiltEntry(p: Parser, src: string)
    ensures var e := Build(p, src);
            && (Unchecked(e).Ast? ==> Unchecked(e).text == src)
            && (Checked(e).Ast? <==> p.overflow(src).None? && p.complaint(src).None?)
            && (Checked(e).Ast? ==> Unchecked(e) == Checked(e))
            && (Unchecked(e).Ast? && Checked(e).Rejected? <==>
                  p.overflow(src).None? && p.complaint(src).Some? && p.complaint(src).value.kind == Unresolved
                  && p.parses(src))
            && (Checked(e).Rejected? ==>
                  if p.overflow(src).Some? then
                    && Checked(e).error.kind == NestingTooDeep
                    && Checked(e).error.span == Some((p.overflow(src).value, p.overflow(src).value + 1))
                  else Some(Checked(e).error) == p.complaint(src))
            && (Unchecked(e).Rejected? ==> Unchecked(e) == Checked(e))
            && (Unchecked(e).Rejected? <==>
                  || p.overflow(src).Some?
                  || (p.complaint(src).Some? && !(p.complaint(src).value.kind == Unresolved && p.parses(src))))
  {
  }

  // ---------------------------------------------------------------------
  // Recency
  // ---------------------------------------------------------------------

  function Without(keys: seq<string>, src: string): (r: seq<string>) {
    if keys == [] then []
    else (if keys[0] == src then [] else [keys[0]]) + Without(keys[1..], src)
  }

  predicate Distinct(keys: seq<string>) {
    forall j, k | 0 <= j < k < |keys| :: keys[j] != keys[k]
  }

  /** The distinct sources of `history`, last used first. */
  function MostRecent(history: seq<string>): (r: seq<string>) {
    if history == [] then []
    else
      var last := history[|history| - 1];
      [last] + Without(MostRecent(history[..|history| - 1]), last)
  }

  lemma {:induction false} WithoutMembers(keys: seq<string>, src: string, k: string)
    ensures k in Without(keys, src) <==> k in keys && k != src
  {
    if keys != [] {
      WithoutMembers(keys[1..], src, k);
      assert keys == [keys[0]] + keys[1..];
    }
  }

  lemma {:induction false} MostRecentMembers(history: seq<string>, k: string)
    ensures k in MostRecent(history) <==> k in history
    decreases |history|
  {
    if history != [] {
      var before, last := history[..|history| - 1], history[|history| - 1];
      assert history == before + [last];
      MostRecentMembers(before, k);
      WithoutMembers(MostRecent(before), last, k);
    }
  }

  function Capped(keys: seq<string>): (r: seq<string>)
    ensures |r| <= CAPACITY && r <= keys
  {
    if |keys| > CAPACITY then keys[..CAPACITY] else keys
  }

  /** The keys of the cache after a lookup of `src`. */
  function Touched(keys: seq<string>, src: string): (r: seq<string>) {
    Capped([src] + Without(keys, src))
  }

  function KeysAfter(history: seq<string>): (r: seq<string>) {
    if history == [] then [] else Touched(KeysAfter(history[..|history| - 1]), history[|history| - 1])
  }

  lemma {:induction false} WithoutAbsent(keys: seq<string>, src: string)
    requires src !in keys
    ensures Without(keys, src) == keys
  {
    if keys != [] {
      WithoutAbsent(keys[1..], src);
      assert keys == [keys[0]] + keys[1..];
    }
  }

  lemma {:induction false} WithoutSplit(a: seq<string>, b: seq<string>, src: string)
    ensures Without(a + b, src) == Without(a, src) + Without(b, src)
  {
    if a == [] {
      assert a + b == b;
    } else {
      WithoutSplit(a[1..], b, src);
      assert (a + b)[1..] == a[1..] + b && (a + b)[0] == a[0];
    }
  }

  /** Taking one key out of distinct keys takes out its one place. */
  lemma {:induction false} WithoutAt(keys: seq<string>, i: nat)
    requires Distinct(keys) && i < |keys|
    ensures Without(keys, keys[i]) == keys[..i] + keys[i + 1..]
  {
    var a, b := keys[..i], keys[i + 1..];
    assert keys == a + [keys[i]] + b;
    assert Without([keys[i]], keys[i]) == [];
    hide Without;
    WithoutSplit(a + [keys[i]], b, keys[i]);
    WithoutSplit(a, [keys[i]], keys[i]);
    assert keys[i] !in a && keys[i] !in b;
    WithoutAbsent(a, keys[i]);
    WithoutAbsent(b, keys[i]);
  }

  lemma {:induction false} StaysDistinct(keys: seq<string>, src: string)
    requires Distinct(keys)
    ensures Distinct([src] + Without(keys, src))
  {
    if src in keys {
      var i :| 0 <= i < |keys| && keys[i] == src;
      WithoutAt(keys, i);
    } else {
      WithoutAbsent(keys, src);
    }
  }

  lemma {:induction false} MostRecentIsDistinct(history: seq<string>)
    ensures Distinct(MostRecent(history))
    decreases |history|
  {
    if history != [] {
      MostRecentIsDistinct(history[..|history| - 1]);
      StaysDistinct(MostRecent(history[..|history| - 1]), history[|history| - 1]);
    }
  }

  lemma NotInFront(keys: seq<string>, n: nat, i: nat)
    requires n <= |keys| && i < |keys| && keys[i] !in keys[..n]
    ensures i >= n
  {
    assert forall k | 0 <= k < n :: keys[k] == keys[..n][k] && keys[k] in keys[..n];
  }

  /** Forgetting the tail early loses nothing that the cap would have kept. */
  lemma CapCommutes(keys: seq<string>, src: string)
    requires Distinct(keys)
    ensures Touched(Capped(keys), src) == Touched(keys, src)
  {
    hide Without;
    if |keys| > CAPACITY {
      var kept := keys[..CAPACITY];
      if src in kept {
        var i :| 0 <= i < CAPACITY && kept[i] == src;
        WithoutAt(kept, i);
        WithoutAt(keys, i);
        assert ([src] + (keys[..i] + keys[i + 1..]))[..CAPACITY] == [src] + (kept[..i] + kept[i + 1..]);
      } else if src in keys {
        var i :| 0 <= i < |keys| && keys[i] == src;
        WithoutAt(keys, i);
        WithoutAbsent(kept, src);
        NotInFront(keys, CAPACITY, i);
        assert ([src] + (keys[..i] + keys[i + 1..]))[..CAPACITY] == ([src] + kept)[..CAPACITY];
      } else {
        WithoutAbsent(kept, src);
        WithoutAbsent(keys, src);
        assert ([src] + keys)[..CAPACITY] == ([src] + kept)[..CAPACITY];
      }
    }
  }

  /** After any history the cache holds its at most four last distinct sources,
      the last used first. */
  lemma {:induction false} HoldsMostRecent(history: seq<string>)
    ensures KeysAfter(history) == Capped(MostRecent(history))
    decreases |history|
  {
    if history != [] {
      var before, src := history[..|history| - 1], history[|history| - 1];
      HoldsMostRecent(before);
      MostRecentIsDistinct(before);
      CapCommutes(MostRecent(before), src);
    }
  }

  // ---------------------------------------------------------------------
  // Hits
  // ---------------------------------------------------------------------

  /** The other sources looked up since `src` last was. */
  function OthersSince(history: seq<string>, src: string): (r: set<string>) {
    if history == [] || history[|history| - 1] == src then {}
    else OthersSince(history[..|history| - 1], src) + {history[|history| - 1]}
  }

  function SetOf(keys: seq<string>): (r: set<string>) {
    set k | k in keys
  }

  lemma {:induction false} DistinctCount(keys: seq<string>)
    requires Distinct(keys)
    ensures |SetOf(keys)| == |keys|
  {
    if keys != [] {
      DistinctCount(keys[1..]);
      assert SetOf(keys) == {keys[0]} + SetOf(keys[1..]);
    }
  }

  /** Where a key stands once another is moved to the front. */
  function Moved(keys: seq<string>, j: nat, last: string): (i: nat) {
    if last in keys[..if j < |keys| then j else |keys|] then j else j + 1
  }

  lemma MovedPlace(keys: seq<string>, j: nat, last: string)
    requires Distinct(keys) && j < |keys| && keys[j] != last
    ensures var all, i := [last] + Without(keys, last), Moved(keys, j, last);
            && i < |all| && all[i] == keys[j]
            && SetOf(all[..i]) == SetOf(keys[..j]) + {last}
  {
    hide Without;
    if last in keys {
      var k :| 0 <= k < |keys| && keys[k] == last;
      WithoutAt(keys, k);
      if k < j {
        assert keys[..j][k] == last;
        assert ([last] + (keys[..k] + keys[k + 1..]))[..j] == [last] + (keys[..k] + keys[k + 1..j]);
        assert keys[..j] == keys[..k] + [last] + keys[k + 1..j];
      } else {
        assert last !in keys[..j];
        assert ([last] + (keys[..k] + keys[k + 1..]))[..j + 1] == [last] + keys[..j];
      }
    } else {
      WithoutAbsent(keys, last);
      assert last !in keys[..j];
      assert ([last] + keys)[..j + 1] == [last] + keys[..j];
    }
  }

  /** `src` stands behind exactly the other sources used since it was. */
  lemma {:induction false} PlaceOf(history: seq<string>, src: string) returns (i: nat)
    requires src in history
    ensures i < |MostRecent(history)| && MostRecent(history)[i] == src
    ensures SetOf(MostRecent(history)[..i]) == OthersSince(history, src)
    decreases |history|
  {
    hide Without, SetOf;
    var before, last := history[..|history| - 1], history[|history| - 1];
    assert history == before + [last];
    if last == src {
      i := 0;
      assert SetOf(MostRecent(history)[..0]) == {} by { NoKeys(MostRecent(history)); }
    } else {
      var j := PlaceOf(before, src);
      MostRecentIsDistinct(before);
      MovedPlace(MostRecent(before), j, last);
      i := Moved(MostRecent(before), j, last);
    }
  }

  lemma NoKeys(keys: seq<string>)
    ensures SetOf(keys[..0]) == {}
  {
  }

  lemma CappedPlace(keys: seq<string>, i: nat)
    requires Distinct(keys) && i < |keys|
    ensures keys[i] in Capped(keys) <==> i < CAPACITY
  {
    if i < CAPACITY {
      assert Capped(keys)[i] == keys[i];
    } else {
      assert forall j | 0 <= j < CAPACITY :: keys[j] != keys[i];
    }
  }

  /** A lookup hits exactly when the source was looked up before and fewer than
      four other sources were since. */
  lemma HitsExactly(history: seq<string>, src: string)
    ensures src in KeysAfter(history) <==> src in history && |OthersSince(history, src)| < 4
  {
    hide MostRecent, OthersSince, KeysAfter, Capped;
    HoldsMostRecent(history);
    var keys := MostRecent(history);
    if src in history {
      var i := PlaceOf(history, src);
      MostRecentIsDistinct(history);
      DistinctCount(keys[..i]);
      CappedPlace(keys, i);
    } else {
      MostRecentMembers(history, src);
      assert Capped(keys) <= keys;
    }
  }

  // ---------------------------------------------------------------------
  // The cache as it runs
  // ---------------------------------------------------------------------

  function Keys(entries: seq<(string, Entry)>): (keys: seq<string>)
    ensures |keys| == |entries|
    ensures forall k | 0 <= k < |keys| :: keys[k] == entries[k].0
  {
    seq(|entries|, k requires 0 <= k < |entries| => entries[k].0)
  }

  class Cache {
    const parser: Parser
    var entries: seq<(string, Entry)>
    ghost var history: seq<string>

    /** Every entry is what its text builds, and the keys are the recent ones. */
    ghost predicate Valid()
      reads this
    {
      && (forall k | 0 <= k < |entries| :: entries[k].1 == Build(parser, entries[k].0))
      && Keys(entries) == KeysAfter(history)
    }

    constructor (parser: Parser)
      ensures Valid() && this.parser == parser && history == []
    {
      this.parser := parser;
      entries, history := [], [];
    }

    /** The entry of `src`: the one held, or a fresh one. */
    method Lookup(src: string) returns (entry: Entry, hit: bool)
      requires Valid()
      modifies this
      ensures Valid() && history == old(history) + [src]
      ensures entry == Build(parser, src)
      ensures hit <==> src in old(history) && |OthersSince(old(history), src)| < 4
    {
      hide Build, KeysAfter, Without, OthersSince, Capped, Touched, Distinct;
      ghost var keys := Keys(entries);
      HitsExactly(history, src);
      KeysAreDistinct(history);
      OneMore(history, src);
      var found: nat := 0;
      while found < |entries| && entries[found].0 != src
        invariant found <= |entries| && forall k | 0 <= k < found :: keys[k] != src
      {
        found := found + 1;
      }
      history := history + [src];
      if found < |entries| {
        TouchHeld(keys, found);
        var held := entries[found];
        assert held.0 == keys[found];
        entries := [held] + entries[..found] + entries[found + 1..];
        assert Keys(entries) == [src] + (keys[..found] + keys[found + 1..]);
        return held.1, true;
      }
      TouchNew(keys, src);
      entry := Build(parser, src);
      entries := [(src, entry)] + entries;
      assert Keys(entries) == [src] + keys;
      if |entries| > CAPACITY {
        entries := entries[..CAPACITY];
        assert Keys(entries) == ([src] + keys)[..CAPACITY];
      }
      return entry, false;
    }
  }

  lemma KeysAreDistinct(history: seq<string>)
    ensures Distinct(KeysAfter(history)) && |KeysAfter(history)| <= CAPACITY
  {
    HoldsMostRecent(history);
    MostRecentIsDistinct(history);
  }

  lemma TouchHeld(keys: seq<string>, i: nat)
    requires Distinct(keys) && i < |keys| <= CAPACITY
    ensures Touched(keys, keys[i]) == [keys[i]] + (keys[..i] + keys[i + 1..])
  {
    hide Without;
    WithoutAt(keys, i);
  }

  lemma TouchNew(keys: seq<string>, src: string)
    requires |keys| <= CAPACITY && src !in keys
    ensures Touched(keys, src) == if |keys| < CAPACITY then [src] + keys else ([src] + keys)[..CAPACITY]
  {
    hide Without;
    WithoutAbsent(keys, src);
  }

  lemma OneMore(history: seq<string>, src: string)
    ensures KeysAfter(history + [src]) == Touched(KeysAfter(history), src)
  {
    assert (history + [src])[..|history|] == history;
  }
}
