/** Reading the text of a path back into its segments. */
module PathText {
  import opened Wire
  import opened Text
  import opened RawEmission

  /** A segment stands in brackets as it is, or it is a name, behind a dot or quoted. */
  datatype Seg = Bare(text: string) | Name(text: string)

  function WordRun(s: string): (n: nat)
    ensures n <= |s|
  {
    if s == "" || !IsWordChar(s[0]) then 0 else 1 + WordRun(s[1..])
  }

  /** The text up to a quote, backslashes taken away, and what follows the quote. */
  function ReadQuoted(s: string): (r: Option<(string, string)>)
    ensures r.Some? ==> |r.value.1| < |s|
    decreases |s|
  {
    if s == "" then None
    else if s[0] == '"' then Some(("", s[1..]))
    else
      var escaped := s[0] == '\\';
      if escaped && |s| < 2 then None
      else
        var c, rest := if escaped then s[1] else s[0], if escaped then s[2..] else s[1..];
        match ReadQuoted(rest)
        case None => None
        case Some((t, after)) => Some(([c] + t, after))
  }

  /** The text up to a closing bracket and what follows it. */
  function ReadBracket(s: string): (r: Option<(string, string)>)
    ensures r.Some? ==> |r.value.1| < |s|
    decreases |s|
  {
    if s == "" then None
    else if s[0] == ']' then Some(("", s[1..]))
    else
      match ReadBracket(s[1..])
      case None => None
      case Some((t, after)) => Some(([s[0]] + t, after))
  }

  function ReadSeg(s: string): (r: Option<(Seg, string)>)
    ensures r.Some? ==> |r.value.1| < |s|
  {
    if s == "" then None
    else if s[0] == '.' then
      var n := WordRun(s[1..]);
      if n == 0 then None else Some((Name(s[1..1 + n]), s[1 + n..]))
    else if s[0] == '[' && |s| > 1 && s[1] == '"' then
      match ReadQuoted(s[2..])
      case None => None
      case Some((t, after)) => if after != "" && after[0] == ']' then Some((Name(t), after[1..])) else None
    else if s[0] == '[' then
      match ReadBracket(s[1..])
      case None => None
      case Some((t, after)) => Some((Bare(t), after))
    else None
  }

  function ReadPath(s: string): (r: Option<seq<Seg>>)
    decreases |s|
  {
    if s == "" then Some([])
    else
      match ReadSeg(s)
      case None => None
      case Some((seg, after)) =>
        match ReadPath(after)
        case None => None
        case Some(segs) => Some([seg] + segs)
  }

  /** A segment's text can end here. */
  predicate Boundary(s: string) {
    s == "" || s[0] == '.' || s[0] == '['
  }

  lemma PathBegins(s: string)
    requires ReadPath(s).Some?
    ensures Boundary(s)
  {
  }

  /** `text` spells `seg` wherever a segment's text can end behind it. */
  ghost predicate SpellsSeg(text: string, seg: Seg) {
    text != "" && forall rest | Boundary(rest) :: ReadSeg(text + rest) == Some((seg, rest))
  }

  lemma PathGrows(text: string, seg: Seg, rest: string)
    requires SpellsSeg(text, seg) && ReadPath(rest).Some?
    ensures ReadPath(text + rest) == Some([seg] + ReadPath(rest).value)
  {
    hide ReadSeg;
    PathBegins(rest);
    assert text + rest != "";
  }

  // ---------------------------------------------------------------------
  // The segments that are written
  // ---------------------------------------------------------------------

  lemma {:induction false} BracketIsRead(t: string, rest: string)
    requires forall i | 0 <= i < |t| :: t[i] != ']'
    ensures ReadBracket(t + ("]" + rest)) == Some((t, rest))
    decreases |t|
  {
    var s := t + ("]" + rest);
    if t == "" {
      assert s == "]" + rest && s[1..] == rest;
    } else {
      assert s[1..] == t[1..] + ("]" + rest);
      assert forall i | 0 <= i < |t[1..]| :: t[1..][i] == t[i + 1];
      BracketIsRead(t[1..], rest);
      assert [t[0]] + t[1..] == t;
    }
  }

  lemma OneQuoted(c: char, tail: string)
    ensures var first := if c == '"' || c == '\\' then ['\\', c] else [c];
            ReadQuoted(first + tail)
            == match ReadQuoted(tail) case None => None case Some((t, after)) => Some(([c] + t, after))
  {
    if c == '"' || c == '\\' {
      assert (['\\', c] + tail)[2..] == tail;
    } else {
      assert ([c] + tail)[1..] == tail;
    }
  }

  lemma {:induction false} QuotedIsRead(t: string, rest: string)
    ensures ReadQuoted(Backslashed(t) + ("\"" + rest)) == Some((t, rest))
    decreases |t|
  {
    hide ReadQuoted;
    var tail := "\"" + rest;
    if t == "" {
      assert Backslashed(t) + tail == tail;
      QuoteEnds(rest);
    } else {
      QuotedIsRead(t[1..], rest);
      OneQuoted(t[0], Backslashed(t[1..]) + tail);
      assert [t[0]] + t[1..] == t;
      var first := if t[0] == '"' || t[0] == '\\' then ['\\', t[0]] else [t[0]];
      assert Backslashed(t) + tail == first + (Backslashed(t[1..]) + tail);
    }
  }

  lemma QuoteEnds(rest: string)
    ensures ReadQuoted("\"" + rest) == Some(("", rest))
  {
    assert ("\"" + rest)[1..] == rest;
  }

  lemma {:induction false} RunIsTaken(t: string, rest: string)
    requires (forall i | 0 <= i < |t| :: IsWordChar(t[i])) && Boundary(rest)
    ensures WordRun(t + rest) == |t|
    decreases |t|
  {
    if t == "" {
      assert t + rest == rest;
    } else {
      assert (t + rest)[1..] == t[1..] + rest;
      RunIsTaken(t[1..], rest);
    }
  }

  /** A bracket without a quote right behind it. */
  lemma BareIsRead(t: string)
    requires t != "" && t[0] != '"' && forall i | 0 <= i < |t| :: t[i] != ']'
    ensures SpellsSeg("[" + t + "]", Bare(t))
  {
    forall rest | Boundary(rest) ensures ReadSeg("[" + t + "]" + rest) == Some((Bare(t), rest)) {
      var s := "[" + t + "]" + rest;
      assert s[1..] == t + ("]" + rest);
      BracketIsRead(t, rest);
    }
  }

  lemma QuotedParts(b: string, rest: string)
    ensures var s := "[\"" + b + "\"]" + rest;
            |s| > 1 && s[0] == '[' && s[1] == '"' && s[2..] == b + ("\"" + ("]" + rest))
    ensures ("]" + rest)[1..] == rest
  {
  }

  lemma QuotedNameIsRead(t: string)
    ensures SpellsSeg("[\"" + Backslashed(t) + "\"]", Name(t))
  {
    hide ReadQuoted, Backslashed;
    forall rest | Boundary(rest) ensures ReadSeg("[\"" + Backslashed(t) + "\"]" + rest) == Some((Name(t), rest)) {
      QuotedParts(Backslashed(t), rest);
      QuotedIsRead(t, "]" + rest);
    }
  }

  lemma WordIsRead(t: string)
    requires IsWord(t)
    ensures SpellsSeg("." + t, Name(t))
  {
    forall rest | Boundary(rest) ensures ReadSeg("." + t + rest) == Some((Name(t), rest)) {
      var s := "." + t + rest;
      assert s[1..] == t + rest;
      RunIsTaken(t, rest);
      assert s[1..1 + |t|] == t && s[1 + |t|..] == rest;
    }
  }

  lemma IndexIsRead(i: nat)
    ensures SpellsSeg(IndexSegment(i), Bare(Digits(i)))
  {
    hide SpellsSeg;
    BareIsRead(Digits(i));
  }

  lemma DecodedIsRead(name: string)
    ensures SpellsSeg(DecodedSegment(name), Name(name))
  {
    hide SpellsSeg;
    if IsWord(name) && !IsDigit(name[0]) {
      WordIsRead(name);
    } else {
      QuotedNameIsRead(name);
    }
  }

  /** A name in the other path: one that reads as an integer stands bare. */
  function CborSeg(name: string): (seg: Seg) {
    if IsSigned(name) then Bare(name) else Name(name)
  }

  lemma CborIsRead(name: string)
    ensures SpellsSeg(CborSegment(name), CborSeg(name))
  {
    hide SpellsSeg;
    if IsSigned(name) {
      assert name[0] == '-' ==> forall i | 0 <= i < |name[1..]| :: name[1..][i] == name[i + 1];
      BareIsRead(name);
    } else if IsWord(name) {
      WordIsRead(name);
    } else {
      QuotedNameIsRead(name);
    }
  }

  lemma {:induction false} PlainStays(t: string)
    requires forall i | 0 <= i < |t| :: t[i] != '"' && t[i] != '\\'
    ensures Backslashed(t) == t
    decreases |t|
  {
    if t != "" {
      assert forall i | 0 <= i < |t[1..]| :: t[1..][i] == t[i + 1];
      PlainStays(t[1..]);
      assert [t[0]] + t[1..] == t;
    }
  }

  /** The segments of the views that wrap a value. */
  lemma WrappersAreRead()
    ensures SpellsSeg(ENTRIES, Name("@entries")) && SpellsSeg(TAG, Name("@tag"))
    ensures SpellsSeg(VALUE, Name("@value")) && SpellsSeg(SIMPLE, Name("@simple"))
  {
    hide SpellsSeg;
    WrapperIsRead("@entries");
    WrapperIsRead("@tag");
    WrapperIsRead("@value");
    WrapperIsRead("@simple");
    assert ENTRIES == "[\"" + "@entries" + "\"]" && TAG == "[\"" + "@tag" + "\"]";
    assert VALUE == "[\"" + "@value" + "\"]" && SIMPLE == "[\"" + "@simple" + "\"]";
  }

  lemma WrapperIsRead(name: string)
    requires forall i | 0 <= i < |name| :: name[i] != '"' && name[i] != '\\'
    ensures SpellsSeg("[\"" + name + "\"]", Name(name))
  {
    hide SpellsSeg;
    PlainStays(name);
    QuotedNameIsRead(name);
  }
}
