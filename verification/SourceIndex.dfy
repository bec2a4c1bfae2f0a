/** Byte offsets of UTF-8 text as UTF-16 offsets and lines. */
module SourceIndex {
  import opened Wire
  import opened Utf8
  import Utf8Scalars

  const NEWLINE: byte := 0x0A

  // ---------------------------------------------------------------------
  // Text, character by character
  // ---------------------------------------------------------------------

  /** UTF-16 code units of a character of `len` bytes: a surrogate pair past the
      basic plane. */
  function Units(len: nat): (n: nat) {
    if len == 4 then 2 else 1
  }

  /** How many UTF-16 code units `s` is. */
  function Utf16Length(s: seq<byte>): (n: nat)
    requires ValidUtf8(s)
  {
    if s == [] then 0 else Units(CharLen(s)) + Utf16Length(s[CharLen(s)..])
  }

  /** A character starts at byte `i`, or the text ends there. */
  predicate Boundary(s: seq<byte>, i: nat)
    requires ValidUtf8(s)
    decreases |s|
  {
    i == 0 || (s != [] && i >= CharLen(s) && Boundary(s[CharLen(s)..], i - CharLen(s)))
  }

  /** Where the character around byte `i` starts; the end of the text for an
      offset at or past it. */
  function Floor(s: seq<byte>, i: nat): (p: nat)
    requires ValidUtf8(s)
    ensures p <= i && p <= |s|
    decreases |s|
  {
    if s == [] || i < CharLen(s) then 0 else CharLen(s) + Floor(s[CharLen(s)..], i - CharLen(s))
  }

  /** The first character boundary at or after byte `i`. */
  function Ceil(s: seq<byte>, i: nat): (p: nat)
    requires ValidUtf8(s)
    ensures p <= |s|
    decreases |s|
  {
    if s == [] || i == 0 then 0
    else CharLen(s) + Ceil(s[CharLen(s)..], if i >= CharLen(s) then i - CharLen(s) else 0)
  }

  /** UTF-16 units before the character around byte `i`. */
  function UnitsBefore(s: seq<byte>, i: nat): (n: nat)
    requires ValidUtf8(s)
    decreases |s|
  {
    if s == [] || i < CharLen(s) then 0 else Units(CharLen(s)) + UnitsBefore(s[CharLen(s)..], i - CharLen(s))
  }

  function Newlines(s: seq<byte>): (n: nat) {
    if s == [] then 0 else Newlines(s[..|s| - 1]) + (if s[|s| - 1] == 0x0A then 1 else 0)
  }

  /** The floor of `i` is the last boundary not after it. */
  lemma {:induction false} FloorIsGreatest(s: seq<byte>, i: nat)
    requires ValidUtf8(s)
    ensures Boundary(s, Floor(s, i)) && UnitsBefore(s, i) == UnitsBefore(s, Floor(s, i))
    ensures forall b: nat | Boundary(s, b) && b <= i :: b <= Floor(s, i)
    decreases |s|
  {
    if s != [] && i >= CharLen(s) {
      var c := CharLen(s);
      FloorIsGreatest(s[c..], i - c);
      forall b: nat | Boundary(s, b) && b <= i ensures b <= Floor(s, i) {
        if b > 0 {
          assert Boundary(s[c..], b - c);
        }
      }
    }
  }

  /** The ceiling of `i` is the first boundary not before it. */
  lemma {:induction false} CeilIsLeast(s: seq<byte>, i: nat)
    requires ValidUtf8(s) && i <= |s|
    ensures Boundary(s, Ceil(s, i)) && i <= Ceil(s, i)
    ensures forall b: nat | Boundary(s, b) && b >= i :: b >= Ceil(s, i)
    decreases |s|
  {
    if s != [] && i > 0 {
      var c := CharLen(s);
      var rest := if i >= c then i - c else 0;
      CeilIsLeast(s[c..], rest);
      forall b: nat | Boundary(s, b) && b >= i ensures b >= Ceil(s, i) {
        assert Boundary(s[c..], b - c);
      }
    }
  }

  /** A boundary between `a` and `b` adds units: the count rises with the text. */
  lemma {:induction false} UnitsRise(s: seq<byte>, a: nat, b: nat)
    requires ValidUtf8(s) && Boundary(s, a) && Boundary(s, b) && a <= b <= |s|
    ensures UnitsBefore(s, a) <= UnitsBefore(s, b)
    ensures a < b ==> UnitsBefore(s, a) < UnitsBefore(s, b)
    decreases |s|
  {
    if s != [] && a > 0 {
      UnitsRise(s[CharLen(s)..], a - CharLen(s), b - CharLen(s));
    }
  }

  lemma {:induction false} WithinText(s: seq<byte>, i: nat)
    requires ValidUtf8(s) && Boundary(s, i)
    ensures i <= |s| && Floor(s, i) == i && Ceil(s, i) == i
    decreases |s|
  {
    if i > 0 {
      WithinText(s[CharLen(s)..], i - CharLen(s));
    }
  }

  /** One character on from a boundary. */
  lemma {:induction false} NextCharacter(s: seq<byte>, p: nat)
    requires ValidUtf8(s) && Boundary(s, p) && p < |s|
    ensures ValidUtf8(s[p..]) && CharLen(s[p..]) >= 1
    ensures var c := CharLen(s[p..]);
            && p + c <= |s| && Boundary(s, p + c)
            && UnitsBefore(s, p + c) == UnitsBefore(s, p) + Units(c)
            && (forall j | p <= j < p + c :: UnitsBefore(s, j) == UnitsBefore(s, p))
            && (forall j | p < j < p + c :: !Boundary(s, j))
    decreases |s|
  {
    hide CharLen;
    var d := CharLen(s);
    if p == 0 {
      assert s[0..] == s;
    } else {
      NextCharacter(s[d..], p - d);
      assert s[d..][p - d..] == s[p..];
      var c := CharLen(s[p..]);
      forall j | p <= j < p + c ensures UnitsBefore(s, j) == UnitsBefore(s, p) && (p < j ==> !Boundary(s, j)) {
        assert UnitsBefore(s[d..], j - d) == UnitsBefore(s[d..], p - d);
        assert p < j ==> !Boundary(s[d..], j - d);
      }
    }
  }

  /** The text's end is a boundary, and nothing past it is. */
  lemma {:induction false} EndIsBoundary(s: seq<byte>)
    requires ValidUtf8(s)
    ensures Boundary(s, |s|) && UnitsBefore(s, |s|) == Utf16Length(s)
    decreases |s|
  {
    if s != [] {
      EndIsBoundary(s[CharLen(s)..]);
    }
  }

  // ---------------------------------------------------------------------
  // Lines
  // ---------------------------------------------------------------------

  /** Where each line starts: at 0 and after every newline. */
  function LineStarts(s: seq<byte>): (starts: seq<nat>)
    ensures |starts| == 1 + Newlines(s)
    ensures forall k | 0 <= k < |starts| :: starts[k] <= |s|
  {
    if s == [] then [0]
    else LineStarts(s[..|s| - 1]) + (if s[|s| - 1] == NEWLINE then [|s|] else [])
  }

  predicate Ascending(a: seq<nat>) {
    forall j, k | 0 <= j < k < |a| :: a[j] < a[k]
  }

  lemma {:induction false} LineStartsAscend(s: seq<byte>)
    ensures Ascending(LineStarts(s))
    decreases |s|
  {
    if s != [] {
      LineStartsAscend(s[..|s| - 1]);
    }
  }

  function Clamp(offset: nat, len: nat): (n: nat) {
    if offset <= len then offset else len
  }

  /** The lines that start at or before an offset are the first line and one for
      every newline before it. */
  lemma {:induction false} LinesUpTo(s: seq<byte>, offset: nat)
    ensures var n := 1 + Newlines(s[..Clamp(offset, |s|)]);
            && n <= |LineStarts(s)|
            && (forall k | 0 <= k < n :: LineStarts(s)[k] <= offset)
            && (forall k | n <= k < |LineStarts(s)| :: LineStarts(s)[k] > offset)
    decreases |s|
  {
    if offset >= |s| {
      assert s[..|s|] == s;
    } else {
      var init := s[..|s| - 1];
      LinesUpTo(init, offset);
      assert s[..offset] == init[..offset];
    }
  }

  lemma {:induction false} NoNewlines(s: seq<byte>, p: nat, q: nat)
    requires p <= q <= |s| && forall k | p <= k < q :: s[k] != NEWLINE
    ensures LineStarts(s[..q]) == LineStarts(s[..p])
    decreases q
  {
    if p < q {
      NoNewlines(s, p, q - 1);
      assert s[..q][..q - 1] == s[..q - 1];
    }
  }

  /** A newline byte is always a character of its own. */
  lemma OneCharacterLines(s: seq<byte>, p: nat)
    requires p < |s| && CharLen(s[p..]) >= 1
    ensures var c := CharLen(s[p..]);
            && p + c <= |s|
            && LineStarts(s[..p + c]) == LineStarts(s[..p]) + (if s[p] == NEWLINE then [p + c] else [])
  {
    var c := CharLen(s[p..]);
    if s[p] == NEWLINE {
      assert s[..p + 1][..p] == s[..p];
    } else {
      assert forall k | 0 <= k < c :: s[p..][k] == s[p + k];
      assert forall k | p <= k < p + c :: s[k] == s[p..][k - p];
      NoNewlines(s, p, p + c);
    }
  }

  // ---------------------------------------------------------------------
  // The index
  // ---------------------------------------------------------------------

  /** For every byte offset, the UTF-16 units before the character around it; and
      the line starts. */
  datatype Utf16Index = Utf16Index(byteToUtf16: seq<nat>, lineStarts: seq<nat>)

  predicate Indexes(idx: Utf16Index, s: seq<byte>)
    requires ValidUtf8(s)
  {
    && |idx.byteToUtf16| == |s| + 1
    && (forall i | 0 <= i <= |s| :: idx.byteToUtf16[i] == UnitsBefore(s, i))
    && idx.lineStarts == LineStarts(s)
  }

  /** Fills the table character by character, every byte of a character with the
      count before it. */
  method BuildIndex(source: seq<byte>) returns (idx: Utf16Index)
    requires ValidUtf8(source)
    ensures Indexes(idx, source)
  {
    hide CharLen, LineStarts, UnitsBefore, Boundary, ValidUtf8;
    Beginning(source);
    var table := new nat[|source| + 1](_ => 0);
    var lineStarts: seq<nat> := [0];
    var count: nat := 0;
    var at: nat := 0;
    while at < |source|
      invariant at <= |source| && Boundary(source, at) && count == UnitsBefore(source, at)
      invariant forall j | 0 <= j < at :: table[j] == UnitsBefore(source, j)
      invariant lineStarts == LineStarts(source[..at])
    {
      NextCharacter(source, at);
      OneCharacterLines(source, at);
      var next := at + CharLen(source[at..]);
      var j := at;
      while j < next
        invariant at <= j <= next
        invariant forall k | 0 <= k < j :: table[k] == UnitsBefore(source, k)
      {
        table[j] := count;
        j := j + 1;
      }
      count := count + Units(CharLen(source[at..]));
      if source[at] == NEWLINE {
        lineStarts := lineStarts + [next];
      }
      at := next;
    }
    table[|source|] := count;
    assert source[..at] == source;
    return Utf16Index(table[..], lineStarts);
  }

  lemma Beginning(s: seq<byte>)
    requires ValidUtf8(s)
    ensures Boundary(s, 0) && UnitsBefore(s, 0) == 0 && LineStarts(s[..0]) == [0]
  {
    if s != [] { assert CharLen(s) > 0; }
  }

  /** Where `x` is in an ascending sequence, or where it would go. */
  method BinarySearch(a: seq<nat>, x: nat) returns (found: bool, i: nat)
    requires Ascending(a)
    ensures i <= |a| && (forall k | 0 <= k < i :: a[k] < x)
    ensures if found then i < |a| && a[i] == x else forall k | i <= k < |a| :: a[k] > x
  {
    var lo: nat, hi: nat := 0, |a|;
    while lo < hi
      invariant lo <= hi <= |a|
      invariant forall k | 0 <= k < lo :: a[k] < x
      invariant forall k | hi <= k < |a| :: a[k] > x
    {
      var mid := (lo + hi) / 2;
      if a[mid] == x {
        return true, mid;
      } else if a[mid] < x {
        lo := mid + 1;
      } else {
        hi := mid;
      }
    }
    return false, lo;
  }

  /** There is one place where a sequence goes past `x`. */
  lemma SplitPoint(a: seq<nat>, x: nat, n: nat, i: nat)
    requires n <= |a| && (forall k | 0 <= k < n :: a[k] <= x) && (forall k | n <= k < |a| :: a[k] > x)
    requires i <= |a| && (forall k | 0 <= k < i :: a[k] <= x) && (forall k | i <= k < |a| :: a[k] > x)
    ensures n == i
  {
    var k := if n < i then n else i;
    assert k < |a| ==> (a[k] <= x) == (k < n) == (k < i);
  }

  /** The 1-based line of an offset: one more than the newlines before it. */
  method LineAt(idx: Utf16Index, offset: nat, ghost source: seq<byte>) returns (line: nat)
    requires ValidUtf8(source) && Indexes(idx, source)
    ensures line == 1 + Newlines(source[..Clamp(offset, |source|)])
  {
    hide LineStarts, Newlines, ValidUtf8, UnitsBefore;
    LineStartsAscend(source);
    LinesUpTo(source, offset);
    ghost var n := 1 + Newlines(source[..Clamp(offset, |source|)]);
    var found, i := BinarySearch(idx.lineStarts, offset);
    if found {
      SplitPoint(idx.lineStarts, offset, n, i + 1);
      return i + 1;
    }
    SplitPoint(idx.lineStarts, offset, n, i);
    return i;
  }

  function CharOffset(idx: Utf16Index, offset: nat): (n: nat) {
    if offset < |idx.byteToUtf16| then idx.byteToUtf16[offset]
    else if idx.byteToUtf16 != [] then idx.byteToUtf16[|idx.byteToUtf16| - 1]
    else 0
  }

  predicate IsCharBoundary(idx: Utf16Index, offset: nat) {
    offset == 0 || offset >= |idx.byteToUtf16| || idx.byteToUtf16[offset] != idx.byteToUtf16[offset - 1]
  }

  /** The table tells boundaries apart by the step between two of its cells. */
  lemma BoundariesStep(idx: Utf16Index, source: seq<byte>, i: nat)
    requires ValidUtf8(source) && Indexes(idx, source) && i <= |source|
    ensures IsCharBoundary(idx, i) <==> Boundary(source, i)
  {
    hide Floor, Boundary, UnitsBefore, ValidUtf8, CharLen, LineStarts;
    Beginning(source);
    if i > 0 {
      FloorIsGreatest(source, i);
      FloorIsGreatest(source, i - 1);
      if Boundary(source, i) {
        WithinText(source, i);
        UnitsRise(source, Floor(source, i - 1), i);
      } else {
        assert Floor(source, i) <= i - 1;
      }
    }
  }

  /** UTF-16 offset of the first boundary at or after an offset. */
  method CharOffsetCeil(idx: Utf16Index, offset: nat, ghost source: seq<byte>) returns (n: nat)
    requires ValidUtf8(source) && Indexes(idx, source)
    ensures n == UnitsBefore(source, Ceil(source, Clamp(offset, |source|)))
  {
    hide UnitsBefore, ValidUtf8, LineStarts, Boundary, Floor, Ceil;
    ghost var here := Clamp(offset, |source|);
    BoundariesStep(idx, source, here);
    CeilIsLeast(source, here);
    if IsCharBoundary(idx, offset) {
      EndIsBoundary(source);
      WithinText(source, here);
      return CharOffset(idx, offset);
    }
    var inside := idx.byteToUtf16[offset];
    var i := offset + 1;
    ghost var end := Ceil(source, offset);
    CeilIsNext(source, offset);
    while i < |idx.byteToUtf16| && idx.byteToUtf16[i] == inside
      invariant offset < i <= end && end <= |source|
    {
      assert i != end;
      i := i + 1;
    }
    ghost var reached := UnitsBefore(source, i);
    assert i == end;
    return idx.byteToUtf16[i];
  }

  /** Between an offset inside a character and the character's end the count stays,
      and at its end it steps. */
  lemma CeilIsNext(source: seq<byte>, i: nat)
    requires ValidUtf8(source) && i <= |source| && !Boundary(source, i)
    ensures i < Ceil(source, i) <= |source|
    ensures forall j | i <= j < Ceil(source, i) :: UnitsBefore(source, j) == UnitsBefore(source, i)
    ensures UnitsBefore(source, Ceil(source, i)) > UnitsBefore(source, i)
  {
    var end := Ceil(source, i);
    CeilIsLeast(source, i);
    FloorIsGreatest(source, i);
    UnitsRise(source, Floor(source, i), end);
    forall j | i <= j < end ensures UnitsBefore(source, j) == UnitsBefore(source, i) {
      FloorIsGreatest(source, j);
      assert Floor(source, j) <= j < end;
      assert Floor(source, j) == Floor(source, i);
    }
  }

  // ---------------------------------------------------------------------
  // Spans
  // ---------------------------------------------------------------------

  datatype SourceSpan = SourceSpan(offset: nat, length: nat, charOffset: nat, charLength: nat, line: nat)

  /** The span of `start..end`, rounded outward to whole characters; an empty one
      stays empty. */
  method MakeSpan(idx: Utf16Index, start: nat, end: nat, line: nat, ghost source: seq<byte>) returns (span: SourceSpan)
    requires ValidUtf8(source) && Indexes(idx, source)
    ensures start <= end <= |source| ==> span == SpanOf(source, start, end, line)
  {
    hide UnitsBefore, ValidUtf8, LineStarts, Boundary, Floor, Ceil;
    var length := if end >= start then end - start else 0;
    var charStart := CharOffset(idx, start);
    var charEnd := charStart;
    if length != 0 {
      charEnd := CharOffsetCeil(idx, end, source);
    }
    if start <= end <= |source| {
      SpanWidens(source, start, end);
    }
    return SourceSpan(start, length, charStart, if charEnd >= charStart then charEnd - charStart else 0, line);
  }

  /** From the start of the first character touched to the end of the last one. */
  function SpanOf(source: seq<byte>, start: nat, end: nat, line: nat): (span: SourceSpan)
    requires ValidUtf8(source) && start <= end <= |source|
  {
    var from := UnitsBefore(source, Floor(source, start));
    var to := if start == end then from else UnitsBefore(source, Ceil(source, end));
    SourceSpan(start, end - start, from, if to >= from then to - from else 0, line)
  }

  lemma SpanWidens(source: seq<byte>, start: nat, end: nat)
    requires ValidUtf8(source) && start <= end <= |source|
    ensures UnitsBefore(source, start) == UnitsBefore(source, Floor(source, start))
    ensures UnitsBefore(source, Floor(source, start)) <= UnitsBefore(source, Ceil(source, end))
    ensures start < end ==> UnitsBefore(source, Floor(source, start)) < UnitsBefore(source, Ceil(source, end))
  {
    FloorIsGreatest(source, start);
    CeilIsLeast(source, end);
    UnitsRise(source, Floor(source, start), Ceil(source, end));
  }

  /** The reported range is the smallest whole-character range that covers the
      bytes: it starts and ends on boundaries around them, any such range contains
      it, and it is empty exactly when the byte range is. */
  lemma SpanIsSmallestCover(source: seq<byte>, start: nat, end: nat, line: nat)
    requires ValidUtf8(source) && start <= end <= |source|
    ensures var span := SpanOf(source, start, end, line);
            var a, b := Floor(source, start), Ceil(source, end);
            && Boundary(source, a) && Boundary(source, b) && a <= start <= end <= b
            && (span.charLength == 0 <==> start == end)
            && span.charOffset == UnitsBefore(source, a)
            && (start < end ==> span.charOffset + span.charLength == UnitsBefore(source, b))
    ensures forall a: nat, b: nat | Boundary(source, a) && Boundary(source, b) && a <= start && end <= b <= |source| ::
              && UnitsBefore(source, a) <= SpanOf(source, start, end, line).charOffset
              && SpanOf(source, start, end, line).charOffset + SpanOf(source, start, end, line).charLength
                 <= UnitsBefore(source, b)
  {
    hide UnitsBefore, ValidUtf8, Boundary, Floor, Ceil;
    FloorIsGreatest(source, start);
    CeilIsLeast(source, end);
    SpanWidens(source, start, end);
    forall a: nat, b: nat | Boundary(source, a) && Boundary(source, b) && a <= start && end <= b <= |source|
      ensures UnitsBefore(source, a) <= UnitsBefore(source, Floor(source, start))
      ensures UnitsBefore(source, Ceil(source, end)) <= UnitsBefore(source, b)
      ensures UnitsBefore(source, Floor(source, start)) <= UnitsBefore(source, b)
    {
      UnitsRise(source, a, Floor(source, start));
      UnitsRise(source, Ceil(source, end), b);
      UnitsRise(source, Floor(source, start), b);
    }
  }

  /** The table counts what it says: at a boundary, the length in UTF-16 of the
      text before it. */
  lemma {:induction false} UnitsMeasureText(s: seq<byte>, p: nat)
    requires ValidUtf8(s) && Boundary(s, p)
    ensures p <= |s| && ValidUtf8(s[..p]) && UnitsBefore(s, p) == Utf16Length(s[..p])
    decreases |s|
  {
    if p > 0 {
      var c := CharLen(s);
      UnitsMeasureText(s[c..], p - c);
      FirstCharacterStays(s, p);
      assert s[..p][c..] == s[c..][..p - c];
    } else {
      assert s[..0] == [];
    }
  }

  /** The code units of some scalar values: two for each past the basic plane. */
  function UnitsOf(cs: seq<nat>): (n: nat) {
    if cs == [] then 0 else (if cs[0] > 0xFFFF then 2 else 1) + UnitsOf(cs[1..])
  }

  /** That length is the one of the scalar values the text encodes. */
  lemma {:induction false} LengthIsOfScalars(cs: seq<nat>)
    requires forall k | 0 <= k < |cs| :: Utf8Scalars.IsScalar(cs[k])
    ensures var s := Utf8Scalars.EncodeAll(cs); ValidUtf8(s) && Utf16Length(s) == UnitsOf(cs)
    decreases |cs|
  {
    Utf8Scalars.EncodedIsValid(cs);
    if cs != [] {
      var rest := Utf8Scalars.EncodeAll(cs[1..]);
      LengthIsOfScalars(cs[1..]);
      Utf8Scalars.EncodedIsFront(cs[0], rest);
      assert (Utf8Scalars.Encode(cs[0]) + rest)[|Utf8Scalars.Encode(cs[0])|..] == rest;
    }
  }

  lemma FirstCharacterStays(s: seq<byte>, p: nat)
    requires s != [] && CharLen(s) <= p <= |s| && CharLen(s) > 0
    ensures CharLen(s[..p]) == CharLen(s)
  {
  }
}
