/** The header layer of CBOR that every reader in the repository shares: the
    initial byte of a data item, the argument that follows it, and the exact
    correspondence between a header and the bytes that spell it (section 3 of
    RFC 8949). */
module Wire {
  datatype Option<+T> = None | Some(value: T)

  type byte = x: int | 0 <= x < 256

  /** The byte that ends an indefinite-length item. */
  const BREAK: byte := 0xff

  /** The target is wasm32: lengths are 32 bits wide and no slice is longer than
      `isize::MAX` bytes. */
  const USIZE_MAX: nat := 0xFFFF_FFFF
  const ISIZE_MAX: nat := 0x7FFF_FFFF
  const U64_MAX: nat := 0xFFFF_FFFF_FFFF_FFFF

  function Pow256(w: nat): (p: nat)
    ensures p >= 1
  {
    if w == 0 then 1 else 256 * Pow256(w - 1)
  }

  /** The unsigned integer `s` spells, most significant byte first. */
  function BigEndian(s: seq<byte>): (n: nat)
    ensures n < Pow256(|s|)
  {
    if s == [] then 0 else 256 * BigEndian(s[..|s| - 1]) + s[|s| - 1]
  }

  /** `n` in exactly `w` bytes, most significant byte first. */
  function ToBigEndian(n: nat, w: nat): (s: seq<byte>)
    requires n < Pow256(w)
    ensures |s| == w
  {
    if w == 0 then [] else ToBigEndian(n / 256, w - 1) + [n % 256]
  }

  lemma {:induction false} BigEndianRoundTrip(n: nat, w: nat)
    requires n < Pow256(w)
    ensures BigEndian(ToBigEndian(n, w)) == n
  {
    if w > 0 {
      BigEndianRoundTrip(n / 256, w - 1);
      var s := ToBigEndian(n, w);
      assert s[..w - 1] == ToBigEndian(n / 256, w - 1);
    }
  }

  lemma {:induction false} ToBigEndianRoundTrip(s: seq<byte>)
    ensures ToBigEndian(BigEndian(s), |s|) == s
  {
    if s != [] {
      var init := s[..|s| - 1];
      ToBigEndianRoundTrip(init);
      assert BigEndian(s) / 256 == BigEndian(init) && BigEndian(s) % 256 == s[|s| - 1];
      assert s == init + [s[|s| - 1]];
    }
  }

  /** One decoded header: `argument` is `None` for additional information 31
      (indefinite length, or the break). */
  datatype Head = Head(major: nat, argument: Option<nat>, len: nat)

  /** How many bytes follow the initial byte for additional information 24..27. */
  function ArgumentWidth(info: nat): (w: nat)
    requires 24 <= info <= 27
  {
    if info == 24 then 1 else if info == 25 then 2 else if info == 26 then 4 else 8
  }

  lemma ArgumentFitsWord()
    ensures Pow256(0) == 1 && Pow256(1) == 0x100 && Pow256(2) == 0x1_0000
    ensures Pow256(4) == 0x1_0000_0000 && Pow256(8) == U64_MAX + 1
  {
    assert Pow256(3) == 0x100_0000;
    assert Pow256(5) == 0x100_0000_0000;
    assert Pow256(6) == 0x1_0000_0000_0000;
    assert Pow256(7) == 0x100_0000_0000_0000;
  }

  /** The initial byte at `at` with the argument it announces. There is no header
      where bytes are missing or additional information is 28, 29 or 30. */
  function ReadHead(bytes: seq<byte>, at: nat): (r: Option<Head>)
    ensures r.Some? ==> 1 <= r.value.len <= 9 && at + r.value.len <= |bytes|
    ensures r.Some? ==> r.value.major < 8 && r.value.major == bytes[at] / 32
    ensures r.Some? && r.value.argument.Some? ==> r.value.argument.value <= U64_MAX
  {
    if at >= |bytes| then
      None
    else
      var major, info := bytes[at] / 32, bytes[at] % 32;
      if info < 24 then
        Some(Head(major, Some(info), 1))
      else if info == 31 then
        Some(Head(major, None, 1))
      else if info > 27 then
        None
      else
        var w := ArgumentWidth(info);
        if at + 1 + w > |bytes| then
          None
        else
          ArgumentFitsWord();
          Some(Head(major, Some(BigEndian(bytes[at + 1..at + 1 + w])), 1 + w))
  }

  /** The additional information that announces a header of `len` bytes. */
  function WidthInfo(len: nat): (info: nat)
    requires len in {2, 3, 5, 9}
    ensures 24 <= info <= 27 && ArgumentWidth(info) == len - 1
  {
    if len == 2 then 24 else if len == 3 then 25 else if len == 5 then 26 else 27
  }

  /** The headers that exist on the wire. */
  predicate HeadFits(h: Head) {
    && h.major < 8
    && match h.argument
       case None => h.len == 1
       case Some(v) =>
         if h.len == 1 then v < 24
         else h.len in {2, 3, 5, 9} && v < Pow256(h.len - 1)
  }

  /** The bytes that spell `h`. */
  function WriteHead(h: Head): (s: seq<byte>)
    requires HeadFits(h)
    ensures |s| == h.len
  {
    match h.argument
    case None => [32 * h.major + 31]
    case Some(v) =>
      if h.len == 1 then [32 * h.major + v]
      else
        [32 * h.major + WidthInfo(h.len)] + ToBigEndian(v, h.len - 1)
  }

  /** A header that was read is spelled by the bytes it was read from. */
  lemma HeadReadIsWritten(bytes: seq<byte>, at: nat, h: Head)
    requires ReadHead(bytes, at) == Some(h)
    ensures HeadFits(h) && at + h.len <= |bytes| && bytes[at..at + h.len] == WriteHead(h)
  {
    if h.len == 1 {
      assert bytes[at..at + 1] == [bytes[at]];
    } else {
      var argument := bytes[at + 1..at + h.len];
      ToBigEndianRoundTrip(argument);
      assert bytes[at..at + h.len] == [bytes[at]] + argument;
    }
  }

  lemma InitialByte(major: nat, info: nat)
    requires info < 32
    ensures (32 * major + info) / 32 == major && (32 * major + info) % 32 == info
  {
  }

  /** A header that was written is read back, its width included. */
  lemma HeadWrittenIsRead(bytes: seq<byte>, at: nat, h: Head)
    requires HeadFits(h) && at + h.len <= |bytes| && bytes[at..at + h.len] == WriteHead(h)
    ensures ReadHead(bytes, at) == Some(h)
  {
    var s := WriteHead(h);
    assert bytes[at] == s[0] by { assert bytes[at] == bytes[at..at + h.len][0]; }
    if h.len == 1 {
      InitialByte(h.major, if h.argument.None? then 31 else h.argument.value);
    } else {
      var v := h.argument.value;
      InitialByte(h.major, WidthInfo(h.len));
      var argument := bytes[at + 1..at + h.len];
      assert argument == ToBigEndian(v, h.len - 1) by {
        assert argument == bytes[at..at + h.len][1..];
        assert s[1..] == ToBigEndian(v, h.len - 1);
      }
      BigEndianRoundTrip(v, h.len - 1);
    }
  }

  /** Reading a header only looks at the header's own bytes. */
  lemma HeadLocal(bytes: seq<byte>, at: nat, other: seq<byte>, there: nat)
    requires ReadHead(bytes, at).Some?
    requires there + ReadHead(bytes, at).value.len <= |other|
    requires bytes[at..at + ReadHead(bytes, at).value.len] == other[there..there + ReadHead(bytes, at).value.len]
    ensures ReadHead(other, there) == ReadHead(bytes, at)
  {
    var h := ReadHead(bytes, at).value;
    HeadReadIsWritten(bytes, at, h);
    HeadWrittenIsRead(other, there, h);
  }
}
