/** Comparing a decoded string, whole or in chunks, with a wanted payload without
    splicing the chunks together. */
module StringPayload {
  import opened Wire
  import opened Decoder

  predicate IsMark(node: Node) {
    node.Token? && node.name.Break?
  }

  function TokenPayload(node: Node): (r: Option<seq<byte>>) {
    if node.Token? && node.value.Payload? then Some(node.value.content) else None
  }

  /** The payloads of the chunks spliced together, the break left out; `None` when
      a chunk has none. */
  function Spliced(chunks: seq<Node>): (r: Option<seq<byte>>) {
    if chunks == [] then Some([])
    else if IsMark(chunks[0]) then Spliced(chunks[1..])
    else
      match TokenPayload(chunks[0])
      case None => None
      case Some(part) =>
        match Spliced(chunks[1..])
        case None => None
        case Some(rest) => Some(part + rest)
  }

  /** The payload of a string node of the wanted kind. */
  function PayloadOf(node: Node, text: bool): (r: Option<seq<byte>>) {
    match node
    case Token(name, _, _, _) => if name == (if text then String else Bytes) then TokenPayload(node) else None
    case ChunkedNode(kind, _, _, chunks, _, _) => if kind == text then Spliced(chunks) else None
    case ArrayNode(_, _, _, _, _, _) => None
    case MapNode(_, _, _, _, _, _) => None
    case TagNode(_, _, _, _, _, _) => None
  }

  lemma Peeled(part: seq<byte>, rest: Option<seq<byte>>, want: seq<byte>)
    ensures (match rest case None => None case Some(r) => Some(part + r)) == Some(want)
       <==> part <= want && rest == Some(want[|part|..])
  {
    if part <= want {
      assert part + want[|part|..] == want;
    }
    if rest.Some? {
      assert (part + rest.value)[|part|..] == rest.value;
    }
  }

  /** The node spells `want`, chunk by chunk: exactly when its payload is `want`. */
  method StringPayloadIs(node: Node, text: bool, want: seq<byte>) returns (r: bool)
    ensures r <==> PayloadOf(node, text) == Some(want)
  {
    if node.Token? {
      return node.name == (if text then String else Bytes) && TokenPayload(node) == Some(want);
    }
    if !node.ChunkedNode? || node.text != text {
      return false;
    }
    var rest := want;
    var i: nat := 0;
    assert node.chunks[0..] == node.chunks;
    while i < |node.chunks|
      invariant i <= |node.chunks|
      invariant Spliced(node.chunks) == Some(want) <==> Spliced(node.chunks[i..]) == Some(rest)
    {
      var chunk := node.chunks[i];
      assert node.chunks[i..][1..] == node.chunks[i + 1..];
      i := i + 1;
      if IsMark(chunk) {
        continue;
      }
      var part := TokenPayload(chunk);
      if part.None? {
        return false;
      }
      Peeled(part.value, Spliced(node.chunks[i..]), rest);
      if !(part.value <= rest) {
        return false;
      }
      rest := rest[|part.value|..];
    }
    return rest == [];
  }
}
