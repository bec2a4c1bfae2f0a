/** Conditions on an item that only its headers and payloads decide, checked by one
    walk over the headers: when lenient framing is well-formedness, when lenient
    well-formedness is that of Appendix C, and what the decoder can show. */
module HeaderRules {
  import opened Wire
  import opened WellFormed
  import opened Utf8
  import opened Oddities
  import opened Navigation
  import Decoder

  /** `Framed`: additional information 31 only where it means something, chunks of
      their string's own type, an even number of items in a map. `Reserved`: no
      simple value below 32 in two bytes. `Shown`: valid UTF-8, finite floats and
      nesting within the decoder's limit. */
  datatype Rule = Framed | Reserved | Shown

  /** What a rule asks of the header `h` of an item at `level`; its content starts
      at `at`. */
  predicate HeadObeys(rule: Rule, bytes: seq<byte>, at: nat, h: Head, level: nat) {
    match rule
    case Framed =>
      h.argument.None? ==>
        && h.major !in {0, 1, 6}
        && (h.major in {2, 3} ==> ChunksOnly(bytes, at, h.major))
        && (h.major == 5 ==> EvenToBreak(bytes, at))
    case Reserved =>
      !(h.major == 7 && h.len == 2 && h.argument.Some? && h.argument.value < 32)
    case Shown =>
      && level <= Decoder.MAX_DEPTH
      && (h.argument.Some? ==>
           && (h.major == 3 && at + h.argument.value <= |bytes| ==> ValidUtf8(bytes[at..at + h.argument.value]))
           && (h.major == 7 && h.len > 2 ==> IsFinite(WidthOf(h.len), h.argument.value)))
  }

  /** Up to the break stand definite strings of type `major` only. */
  predicate ChunksOnly(bytes: seq<byte>, at: nat, major: nat)
    decreases |bytes| - at
  {
    IsBreak(bytes, at)
    || (var h := ReadHead(bytes, at);
        && h.Some? && h.value.major == major && h.value.argument.Some?
        && (Lax(bytes, at).Some? ==> ChunksOnly(bytes, Lax(bytes, at).value, major)))
  }

  /** Every header of the item at `at` obeys the rule. The items of a container lie
      one level below it, the chunks of a string at its own level. */
  predicate Obeys(bytes: seq<byte>, at: nat, level: nat, rule: Rule)
    decreases |bytes| - at, 0
  {
    var h := ReadHead(bytes, at);
    h.Some? ==>
      HeadObeys(rule, bytes, at + h.value.len, h.value, level)
      && BodyObeys(bytes, at + h.value.len, h.value, level, rule)
  }

  predicate BodyObeys(bytes: seq<byte>, at: nat, h: Head, level: nat, rule: Rule)
    decreases |bytes| - at, 2
  {
    if h.major == 6 then Obeys(bytes, at, level + 1, rule)
    else
      match h.argument
      case None =>
        if h.major in {2, 3} then ToBreakObeys(bytes, at, level, rule)
        else if h.major in {4, 5} then ToBreakObeys(bytes, at, level + 1, rule)
        else true
      case Some(v) =>
        if h.major == 4 then ItemsObey(bytes, at, v, level + 1, rule)
        else if h.major == 5 then ItemsObey(bytes, at, 2 * v, level + 1, rule)
        else true
  }

  predicate ItemsObey(bytes: seq<byte>, at: nat, n: nat, level: nat, rule: Rule)
    decreases |bytes| - at, 1
  {
    n == 0
    || (&& Obeys(bytes, at, level, rule)
        && (Lax(bytes, at).Some? ==> ItemsObey(bytes, Lax(bytes, at).value, n - 1, level, rule)))
  }

  predicate ToBreakObeys(bytes: seq<byte>, at: nat, level: nat, rule: Rule)
    decreases |bytes| - at, 1
  {
    IsBreak(bytes, at)
    || (&& Obeys(bytes, at, level, rule)
        && (Lax(bytes, at).Some? ==> ToBreakObeys(bytes, Lax(bytes, at).value, level, rule)))
  }
}
