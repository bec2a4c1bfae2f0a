/** The decoder as it runs: a heap stack of open containers, a path and a cursor,
    with every failure folded into a partial tree. Each step is proved against
    the recursive definition in `Decoder`. */
module DecoderMachine {
  import opened Wire
  import opened Utf8
  import opened Decoder

  datatype Result<+T> = Ok(value: T) | Err(error: DecodeError, part: Option<Node>)

  /** A header either finishes an item or leaves a frame pushed, the path leading
      into it. */
  datatype Header = ItemRead(node: Node) | ContainerOpened

  // ---------------------------------------------------------------------
  // What is left of a run
  // ---------------------------------------------------------------------

  /** The outcome of the whole item once its innermost open item comes out as
      `o`; `path` has one segment for each open container. */
  function Finish(bytes: seq<byte>, open: seq<Open>, path: seq<PathSeg>, o: Outcome): (r: Outcome)
    requires |open| == |path|
    requires o.Done? ==> o.end <= |bytes|
    requires o.Fail? ==> o.stop <= |bytes|
    ensures open == [] ==> r == o
    decreases |open|
  {
    if open == [] then o
    else
      var n := |open| - 1;
      Finish(bytes, open[..n], path[..n], Takes(bytes, open[n], o, path[..n]))
  }

  /** The partial tree of `open` around `part`; the innermost container was taking
      an item if `inside`, the others all were. */
  function Unwound(open: seq<Open>, part: Option<Node>, stop: nat, inside: bool): (r: Option<Node>)
    decreases |open|
  {
    if open == [] then part
    else Unwound(open[..|open| - 1], Some(Cut(open[|open| - 1], part, stop, inside)), stop, true)
  }

  lemma {:induction false} FailureUnwinds(bytes: seq<byte>, open: seq<Open>, path: seq<PathSeg>, o: Outcome)
    requires |open| == |path| && o.Fail? && o.stop <= |bytes|
    ensures Finish(bytes, open, path, o) == Fail(o.error, Unwound(open, o.part, o.stop, true), o.stop)
    decreases |open|
  {
    if open != [] {
      var n := |open| - 1;
      FailureUnwinds(bytes, open[..n], path[..n], Takes(bytes, open[n], o, path[..n]));
    }
  }

  // ---------------------------------------------------------------------
  // The machine
  // ---------------------------------------------------------------------

  class Cursor {
    const bytes: seq<byte>
    var offset: nat
    var path: seq<PathSeg>
    var open: seq<Open>

    constructor (bytes: seq<byte>)
      ensures this.bytes == bytes && offset == 0 && path == [] && open == []
    {
      this.bytes, offset, path, open := bytes, 0, [], [];
    }

    method PullHeader() returns (r: Result<Head>)
      requires offset <= |bytes|
      modifies this`offset
      ensures match PullHead(bytes, old(offset))
              case Pulled(h) => r == Ok(h) && offset == old(offset) + h.len
              case Refused(kind, at, stop) => r == Err(DecodeError(kind, at, None, path), None) && offset == stop
    {
      match PullHead(bytes, offset)
      case Pulled(h) =>
        offset := offset + h.len;
        return Ok(h);
      case Refused(kind, at, stop) =>
        offset := stop;
        return Err(DecodeError(kind, at, None, path), None);
    }

    /** Reads a payload chunk by chunk, so that a declared length never sizes a
        buffer by itself. */
    method ReadExact(len: nat) returns (r: Result<seq<byte>>)
      requires offset <= |bytes|
      modifies this`offset
      ensures offset == PayloadStop(bytes, old(offset), len)
      ensures r == if old(offset) + len <= |bytes| then Ok(bytes[old(offset)..old(offset) + len])
                   else Err(DecodeError(UnexpectedEof, old(offset), None, path), None)
    {
      var before := offset;
      var buf: seq<byte> := [];
      while |buf| < len
        invariant before == old(offset) && offset == before + |buf| <= |bytes|
        invariant |buf| <= len && (|buf| < len ==> |buf| % READ_CHUNK == 0)
        invariant buf == bytes[before..offset]
      {
        var step := if len - |buf| < READ_CHUNK then len - |buf| else READ_CHUNK;
        if offset + step > |bytes| {
          ShortRead(|bytes| - before, |buf|, len, step);
          return Err(DecodeError(UnexpectedEof, before, None, path), None);
        }
        buf := buf + bytes[offset..offset + step];
        offset := offset + step;
      }
      return Ok(buf);
    }

    /** A following break, if there is one. */
    method ConsumeBreak() returns (r: Result<Option<Pos>>)
      requires offset <= |bytes|
      modifies this`offset
      ensures old(offset) == |bytes| ==>
                r == Err(DecodeError(UnexpectedEof, |bytes|, None, path), None) && offset == |bytes|
      ensures old(offset) < |bytes| && bytes[old(offset)] == BREAK ==>
                r == Ok(Some(Pos(old(offset), 1))) && offset == old(offset) + 1
      ensures old(offset) < |bytes| && bytes[old(offset)] != BREAK ==> r == Ok(None) && offset == old(offset)
    {
      var before := offset;
      if before < |bytes| && bytes[before] != BREAK {
        return Ok(None);
      }
      var pulled := PullHeader();
      match pulled
      case Err(error, part) =>
        return Err(error, part);
      case Ok(_) =>
        return Ok(if before < |bytes| then Some(Pos(before, offset - before)) else None);
    }

    /** Between two items of `frame`: `path` gains the segment of the one it is due
        next, or the finished container is returned when none is. */
    method StepFrame(frame: Open) returns (r: Result<Option<Node>>, stepped: Open)
      requires offset <= |bytes|
      modifies this`offset, this`path
      ensures match Advance(bytes, frame, old(offset))
              case Next(g, seg) =>
                r == Ok(None) && stepped == g && path == old(path) + [seg] && offset == old(offset)
              case Closed(node, end) => r == Ok(Some(node)) && path == old(path) && offset == end
              case Short =>
                && r == Err(DecodeError(UnexpectedEof, old(offset), None, old(path)), None)
                && stepped == frame && path == old(path) && offset == old(offset)
    {
      stepped := frame;
      if frame.OpenTag? {
        path := path + [TagInner];
        return Ok(None), stepped;
      }
      var next := Count(frame);
      var closing: Option<Pos> := None;
      if frame.len.None? {
        var broken := ConsumeBreak();
        if broken.Err? {
          return Err(broken.error, broken.part), stepped;
        }
        closing := broken.value;
      }
      if closing.None? && (frame.len.Some? ==> next < frame.len.value) {
        if frame.OpenArray? {
          path := path + [ArrayIdx(next)];
        } else {
          stepped := frame.(keyStart := offset);
          path := path + [MapEntry(next, KeySide)];
        }
        return Ok(None), stepped;
      }
      if frame.OpenArray? {
        var values := if closing.Some? then frame.values + [Token(Break, closing.value, Nothing, [])] else frame.values;
        return Ok(Some(ArrayClosed(frame, values, offset))), stepped;
      }
      var entries :=
        if closing.Some? then frame.entries + [Closing(Token(Break, closing.value, Nothing, []))] else frame.entries;
      return Ok(Some(MapClosed(bytes, frame, entries, offset))), stepped;
    }

    /** A new container: without items it is a finished item, otherwise its frame
        waits on the stack. One that fails here is left there for `Unwind`. */
    method OpenFrame(frame: Open) returns (r: Result<Header>)
      requires offset <= |bytes|
      modifies this
      ensures old(offset) <= offset <= |bytes|
      ensures Continues(Steps(bytes, frame, old(offset), old(path)), r, old(path), old(open))
    {
      var stepped, g := StepFrame(frame);
      match stepped
      case Ok(None) =>
        open := open + [g];
        return Ok(ContainerOpened);
      case Ok(Some(node)) =>
        return Ok(ItemRead(node));
      case Err(error, part) =>
        open := open + [g];
        return Err(error, part);
    }

    /** How a step that should come out as `spec` left the machine, from path
        `was` and stack `below`. */
    ghost predicate Continues(spec: Outcome, r: Result<Header>, was: seq<PathSeg>, below: seq<Open>)
      reads this
      requires offset <= |bytes|
    {
      match r
      case Ok(ItemRead(node)) => spec == Done(node, offset) && path == was && open == below
      case Ok(ContainerOpened) =>
        && |open| == |below| + 1 && open[..|below|] == below
        && |path| == |was| + 1 && path[..|was|] == was
        && spec == Takes(bytes, open[|below|], Item(bytes, offset, path), was)
      case Err(error, part) =>
        && path == was
        && ((open == below && spec == Fail(error, part, offset))
            || (|open| == |below| + 1 && open[..|below|] == below
                && spec == Fail(error, Some(Cut(open[|below|], part, offset, false)), offset)))
    }

    method DecodeIndefiniteChunks(start: nat, text: bool) returns (r: Result<Node>)
      requires start < offset <= |bytes|
      modifies this`offset, this`path
      ensures path == old(path) && offset <= |bytes|
      ensures Chunks(bytes, start, old(offset), text, [], old(offset), path)
           == if r.Ok? then Done(r.value, offset) else Fail(r.error, r.part, offset)
    {
      var headerEnd := offset;
      var chunks: seq<Node> := [];
      while true
        invariant headerEnd <= offset <= |bytes| && path == old(path)
        invariant Chunks(bytes, start, headerEnd, text, [], headerEnd, path)
               == Chunks(bytes, start, headerEnd, text, chunks, offset, path)
        decreases |bytes| - offset
      {
        var chunkStart := offset;
        path := path + [ChunkIdx(|chunks|)];
        var chunk := ReadChunk(text);
        path := path[..|path| - 1];
        match chunk
        case Err(error, _) =>
          return Err(error, Some(ChunksSoFar(start, headerEnd, chunks, text, offset)));
        case Ok(node) =>
          chunks := chunks + [node];
          if node.name == Break {
            return Ok(ChunksClosed(start, headerEnd, chunks, text, offset));
          }
      }
    }

    /** One round of the chunk loop: a definite string of the right type, or the
        break. */
    method ReadChunk(text: bool) returns (r: Result<Node>)
      requires offset <= |bytes|
      modifies this`offset
      ensures offset <= |bytes|
      ensures Chunk(bytes, old(offset), text, path)
           == if r.Ok? then Done(r.value, offset) else Fail(r.error, r.part, offset)
      ensures r.Ok? ==> r.value.Token? && (r.value.name == Break <==> r.value == BreakToken(old(offset)))
    {
      var start := offset;
      var pulled := PullHeader();
      if pulled.Err? {
        return Err(pulled.error, pulled.part);
      }
      var h := pulled.value;
      if h.major == 7 && h.argument.None? {
        return Ok(Token(Break, Pos(start, offset - start), Nothing, []));
      }
      if h.major == (if text then 3 else 2) && h.argument.Some? {
        r := ReadString(start, h.argument.value, text);
      } else {
        r := Err(DecodeError(InvalidChunk, start, None, path), None);
      }
    }

    /** A definite-length string whose header starts at `start`. */
    method ReadString(start: nat, len: nat, text: bool) returns (r: Result<Node>)
      requires start <= offset <= |bytes|
      modifies this`offset
      ensures offset <= |bytes|
      ensures StringItem(bytes, start, old(offset), len, text, path)
           == if r.Ok? then Done(r.value, offset) else Fail(r.error, r.part, offset)
      ensures r.Ok? ==> r.value.Token? && r.value.name != Break
    {
      var body := ReadExact(len);
      if body.Err? {
        return Err(body.error, body.part);
      }
      if text && !ValidUtf8(body.value) {
        return Err(DecodeError(InvalidUtf8, start, Some((start, offset - start)), path), None);
      }
      return Ok(Token(if text then String else Bytes, Span(start, offset), Payload(body.value), []));
    }

    method DecodeHeader(h: Head, start: nat) returns (r: Result<Header>)
      requires start + h.len == offset <= |bytes| && h.len >= 1 && h.major < 8 && HeadIsReadable(h)
      modifies this
      ensures old(offset) <= offset <= |bytes|
      ensures Continues(Content(bytes, start, h, old(path)), r, old(path), old(open))
    {
      var headerEnd := offset;
      if h.major in {4, 5, 6} {
        r := OpenFrame(Opened(start, h));
      } else if h.major in {2, 3} {
        var node;
        if h.argument.Some? {
          node := ReadString(start, h.argument.value, h.major == 3);
        } else {
          node := DecodeIndefiniteChunks(start, h.major == 3);
        }
        r := if node.Ok? then Ok(ItemRead(node.value)) else Err(node.error, node.part);
      } else {
        match Leaf(bytes, start, h, path)
        case Done(node, _) => return Ok(ItemRead(node));
        case Fail(error, _, _) => return Err(error, None);
      }
    }

    /** Wraps what was decoded of the failed item in every container still open,
        from the top of the stack down. */
    method Unwind(part: Option<Node>) returns (partial: Option<Node>)
      requires |open| == |path| || |open| == |path| + 1
      ensures partial == Unwound(open, part, offset, |open| == |path|)
    {
      partial := part;
      var level: nat := |open|;
      assert open[..level] == open;
      while level > 0
        invariant level <= |open|
        invariant Unwound(open, part, offset, |open| == |path|)
               == Unwound(open[..level], partial, offset, level < |open| || |open| == |path|)
      {
        level := level - 1;
        assert open[..level + 1][..level] == open[..level];
        partial := Some(Cut(open[level], partial, offset, |path| > level));
      }
    }

    /** Hands the finished item `node` to its container, closing completed
        containers outward: until one takes another item, or none is open. */
    method Attach(node: Node, ghost whole: Outcome) returns (r: Result<Option<Node>>)
      requires offset <= |bytes| && |path| == |open|
      requires whole == Finish(bytes, open, path, Done(node, offset))
      modifies this
      ensures old(offset) <= offset <= |bytes|
      ensures match r
              case Ok(None) => |path| == |open| && whole == Finish(bytes, open, path, Item(bytes, offset, path))
              case Ok(Some(root)) => whole == Done(root, offset)
              case Err(error, part) => whole == Fail(error, part, offset)
    {
      hide Takes, Steps, Item, Finish, Advance, Unwound;
      var done := node;
      while true
        invariant old(offset) <= offset <= |bytes| && |path| == |open|
        invariant whole == Finish(bytes, open, path, Done(done, offset))
        decreases |open|
      {
        if open == [] {
          return Ok(Some(done));
        }
        var n := |open| - 1;
        var top := open[n];
        TopTakes(bytes, open, path, done, offset);
        ghost var below, was := open[..n], path[..n];
        path := path[..n];
        if top.OpenTag? {
          done := TagClosed(top, done, offset);
          open := open[..n];
          continue;
        }
        if top.OpenMap? && top.key.None? {
          open := open[n := top.(key := Some((done, offset)))];
          path := path + [MapEntry(|top.entries|, ValueSide)];
          PushedFrame(bytes, below, was, open, path, Item(bytes, offset, path));
          return Ok(None);
        }
        if top.OpenArray? {
          top := top.(values := top.values + [done]);
        } else {
          var (key, keyEnd) := top.key.value;
          top := top.(entries := top.entries + [Pair(key, done)], keySpans := top.keySpans + [(top.keyStart, keyEnd)],
                      key := None);
        }
        ghost var here := offset;
        StepsAre(bytes, top, here, was);
        var stepped, g := StepFrame(top);
        open := open[n := g];
        match stepped {
          case Ok(None) =>
            PushedFrame(bytes, below, was, open, path, Item(bytes, offset, path));
            return Ok(None);
          case Ok(Some(value)) =>
            open := open[..n];
            done := value;
          case Err(error, part) =>
            UnwoundHeader(bytes, below, was, open, error, part, offset);
            var partial := Unwind(part);
            return Err(error, partial);
        }
      }
    }

    /** The item at the cursor: header by header, attaching each finished item to
        its container and closing the containers it completes. */
    method DecodeItem() returns (r: Result<Node>)
      requires offset <= |bytes| && path == [] && open == []
      modifies this
      ensures offset <= |bytes|
      ensures Item(bytes, old(offset), []) == if r.Ok? then Done(r.value, offset) else Fail(r.error, r.part, offset)
    {
      ghost var whole := Item(bytes, offset, []);
      while true
        invariant offset <= |bytes| && |path| == |open|
        invariant whole == Finish(bytes, open, path, Item(bytes, offset, path))
        decreases |bytes| - offset
      {
        label head:
        var start := offset;
        if |path| > MAX_DEPTH {
          var error := DecodeError(NestingTooDeep, start, Some((start, 1)), path);
          FailureUnwinds(bytes, open, path, Fail(error, None, offset));
          var partial := Unwind(None);
          return Err(error, partial);
        }
        var pulled := PullHeader();
        if pulled.Err? {
          FailureUnwinds(bytes, open, path, Fail(pulled.error, None, offset));
          var partial := Unwind(None);
          return Err(pulled.error, partial);
        }
        var decoded := DecodeHeader(pulled.value, start);
        match decoded
        case Ok(ContainerOpened) =>
          PushedFrame(bytes, old@head(open), old@head(path), open, path, Item(bytes, offset, path));
        case Ok(ItemRead(node)) =>
          var attached := Attach(node, whole);
          match attached {
            case Ok(None) =>
            case Ok(Some(root)) => return Ok(root);
            case Err(error, part) => return Err(error, part);
          }
        case Err(error, part) =>
          UnwoundHeader(bytes, old@head(open), path, open, error, part, offset);
          var partial := Unwind(part);
          return Err(error, partial);
      }
    }
  }

  /** The decoder's entry point. */
  method DecodeCborToValue(bytes: seq<byte>) returns (r: Decoded)
    ensures r == Document(bytes)
  {
    var cursor := new Cursor(bytes);
    var item := cursor.DecodeItem();
    match item
    case Err(error, part) =>
      return Failed(error, part);
    case Ok(node) =>
      var trailing := cursor.offset;
      if trailing != |bytes| {
        return Failed(DecodeError(TrailingData, trailing, Some((trailing, |bytes| - trailing)), []), Some(node));
      }
      return Whole(node);
  }

  // ---------------------------------------------------------------------
  // One step of the machine is one step of the definition
  // ---------------------------------------------------------------------

  /** The innermost container takes the finished item. */
  lemma TopTakes(bytes: seq<byte>, open: seq<Open>, path: seq<PathSeg>, node: Node, end: nat)
    requires |open| == |path| > 0 && end <= |bytes|
    ensures var n := |open| - 1;
            var f, was := open[n], path[..n];
            Finish(bytes, open, path, Done(node, end))
            == Finish(bytes, open[..n], was,
                      if f.OpenTag? then Done(TagClosed(f, node, end), end)
                      else if f.OpenMap? && f.key.None? then
                        Takes(bytes, Took(f, node, end),
                              Item(bytes, end, was + [MapEntry(|f.entries|, ValueSide)]), was)
                      else Steps(bytes, Took(f, node, end), end, was))
  {
  }

  lemma StepsAre(bytes: seq<byte>, f: Open, at: nat, path: seq<PathSeg>)
    requires at <= |bytes|
    ensures var step := Advance(bytes, f, at);
            Steps(bytes, f, at, path)
            == if step.Short? then Fail(DecodeError(UnexpectedEof, at, None, path), Some(Cut(f, None, at, false)), at)
               else if step.Closed? then Done(step.node, step.end)
               else Takes(bytes, step.frame, Item(bytes, at, path + [step.seg]), path)
  {
  }

  /** A frame pushed with the first segment it names stands for its container. */
  lemma PushedFrame(bytes: seq<byte>, below: seq<Open>, was: seq<PathSeg>, open: seq<Open>, path: seq<PathSeg>,
                    o: Outcome)
    requires |below| == |was| && |open| == |below| + 1 && |path| == |was| + 1
    requires open[..|below|] == below && path[..|was|] == was
    requires o.Done? ==> o.end <= |bytes|
    requires o.Fail? ==> o.stop <= |bytes|
    ensures Finish(bytes, open, path, o) == Finish(bytes, below, was, Takes(bytes, open[|below|], o, was))
  {
    hide Takes, Item, Steps;
  }

  /** A header that fails leaves the stack as it was, or one frame higher. */
  lemma UnwoundHeader(bytes: seq<byte>, below: seq<Open>, path: seq<PathSeg>, open: seq<Open>,
                      error: DecodeError, part: Option<Node>, stop: nat)
    requires |below| == |path| && stop <= |bytes|
    requires open == below || (|open| == |below| + 1 && open[..|below|] == below)
    ensures var o := if open == below then Fail(error, part, stop)
                     else Fail(error, Some(Cut(open[|below|], part, stop, false)), stop);
            Finish(bytes, below, path, o) == Fail(error, Unwound(open, part, stop, |open| == |path|), stop)
  {
    var o := if open == below then Fail(error, part, stop)
             else Fail(error, Some(Cut(open[|below|], part, stop, false)), stop);
    FailureUnwinds(bytes, below, path, o);
  }

  lemma ShortRead(available: nat, filled: nat, len: nat, step: nat)
    requires filled % READ_CHUNK == 0 && filled <= available && filled < len
    requires step == (if len - filled < READ_CHUNK then len - filled else READ_CHUNK)
    requires filled + step > available
    ensures available < len && available / READ_CHUNK * READ_CHUNK == filled
  {
    assert available == filled + (available - filled) && 0 <= available - filled < READ_CHUNK;
    assert filled == filled / READ_CHUNK * READ_CHUNK;
  }
}
