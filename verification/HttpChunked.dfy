/** Chunked bodies (section 3.6.1 of RFC 2616): decoding undoes encoding. */
module HttpChunked {
  import opened HttpTypes
  import opened HttpSwitch
  import opened HttpFeed
  import opened HttpLengths
  import opened HttpMarks

  // size: any hexadecimal spelling; ext: nothing, or ';' or ' ' and whatever holds no CR
  datatype Chunk = Chunk(size: seq<Byte>, ext: seq<Byte>, data: seq<Byte>)

  predicate ValidSize(size: seq<Byte>, ext: seq<Byte>, value: nat) {
    && size != [] && AllHex(size) && Number(size, 16) == value < ULLONG_MAX
    && (ext == [] || ext[0] == ';' || ext[0] == ' ') && CR !in ext
    && |size| + |ext| + 2 <= HTTP_MAX_HEADER_SIZE
  }

  predicate ValidChunk(c: Chunk) { c.data != [] && ValidSize(c.size, c.ext, |c.data|) }

  function EncodeChunk(c: Chunk): seq<Byte> { (c.size + c.ext + CRLF) + c.data + CRLF }

  function Encode(cs: seq<Chunk>, last: seq<Byte>, ext: seq<Byte>): seq<Byte> {
    if cs == [] then (last + ext + CRLF) + CRLF else EncodeChunk(cs[0]) + Encode(cs[1..], last, ext)
  }

  function Payload(cs: seq<Chunk>): seq<Byte> {
    if cs == [] then [] else cs[0].data + Payload(cs[1..])
  }

  predicate AtChunk(p: Parser) {
    p.errno.Ok? && p.state.ChunkSizeStart? && p.flags.chunked && p.nread == 0
  }

  lemma FeedCrlf(hc: HeadersCallback, p: Parser, bs: seq<Byte>)
    ensures var r := Feed(hc, p, 0, bs);
            var s := Then(r, Step(hc, r.p, r.pend, CR));
            Feed(hc, p, 0, bs + CRLF) == Then(s, Step(hc, s.p, s.pend, LF))
  {
    hide Feed, Step;
    assert bs + CRLF == (bs + [CR]) + [LF];
    FeedSnoc(hc, p, 0, bs, CR);
    FeedSnoc(hc, p, 0, bs + [CR], LF);
  }

  lemma StepSizeEnd(hc: HeadersCallback, p: Parser, pend: nat)
    requires p.errno.Ok? && (p.state.ChunkSize? || p.state.ChunkParameters?) && p.flags.chunked
    requires p.nread < HTTP_MAX_HEADER_SIZE
    ensures Step(hc, p, pend, CR) == Fed(p.(nread := p.nread + 1, state := ChunkSizeAlmostDone), [], pend, Running, 1)
  {
  }

  lemma StepSizeDone(hc: HeadersCallback, p: Parser, pend: nat)
    requires p.errno.Ok? && p.state.ChunkSizeAlmostDone? && p.flags.chunked && p.nread < HTTP_MAX_HEADER_SIZE
    ensures Step(hc, p, pend, LF)
         == Fed(if p.contentLength == 0
                then p.(nread := 0, flags := p.flags.(trailing := true), state := HeaderFieldStart)
                else p.(nread := 0, state := ChunkData), [], pend, Running, 1)
  {
  }

  lemma StepExtension(hc: HeadersCallback, p: Parser, pend: nat, ch: Byte)
    requires p.errno.Ok? && p.flags.chunked && p.nread < HTTP_MAX_HEADER_SIZE
    requires (p.state.ChunkSize? && (ch == ';' || ch == ' ')) || (p.state.ChunkParameters? && ch != CR)
    ensures Step(hc, p, pend, ch) == Fed(p.(nread := p.nread + 1, state := ChunkParameters), [], pend, Running, 1)
  {
  }

  lemma {:induction false} FeedExtension(hc: HeadersCallback, p: Parser, pend: nat, ext: seq<Byte>)
    requires p.errno.Ok? && p.state.ChunkSize? && p.flags.chunked && p.nread + |ext| <= HTTP_MAX_HEADER_SIZE
    requires (ext == [] || ext[0] == ';' || ext[0] == ' ') && CR !in ext
    ensures Feed(hc, p, pend, ext)
         == Fed(if ext == [] then p else p.(nread := p.nread + |ext|, state := ChunkParameters),
                [], pend, Running, |ext|)
    decreases |ext|
  {
    hide Step;
    if ext != [] {
      var r := Feed(hc, p, pend, ext[..|ext| - 1]);
      FeedExtension(hc, p, pend, ext[..|ext| - 1]);
      StepExtension(hc, r.p, r.pend, ext[|ext| - 1]);
    }
  }

  lemma FeedSize(hc: HeadersCallback, p: Parser, size: seq<Byte>, ext: seq<Byte>, value: nat)
    requires AtChunk(p) && ValidSize(size, ext, value)
    ensures Feed(hc, p, 0, size)
         == Fed(p.(nread := |size|, contentLength := value, state := ChunkSize), [], 0, Running, |size|)
  {
    hide Feed, IsHex, Number;
    ChunkSizeIsExact(hc, p, 0, size);
  }

  lemma FeedSizeText(hc: HeadersCallback, p: Parser, size: seq<Byte>, ext: seq<Byte>, value: nat)
    requires AtChunk(p) && ValidSize(size, ext, value)
    ensures Feed(hc, p, 0, size + ext)
         == Fed(p.(nread := |size| + |ext|, contentLength := value,
                   state := if ext == [] then ChunkSize else ChunkParameters), [], 0, Running, |size| + |ext|)
  {
    hide Feed, ValidSize, Number;
    FeedSize(hc, p, size, ext, value);
    var r := Feed(hc, p, 0, size);
    FeedConcat(hc, p, 0, size, ext);
    var q := if ext == [] then r.p else r.p.(nread := |size| + |ext|, state := ChunkParameters);
    assert Feed(hc, r.p, 0, ext) == Fed(q, [], 0, Running, |ext|) by {
      ValidExtension(size, ext, value);
      FeedExtension(hc, r.p, 0, ext);
    }
  }

  lemma ValidExtension(size: seq<Byte>, ext: seq<Byte>, value: nat)
    requires ValidSize(size, ext, value)
    ensures (ext == [] || ext[0] == ';' || ext[0] == ' ') && CR !in ext
    ensures |size| + |ext| + 2 <= HTTP_MAX_HEADER_SIZE
  {
  }

  // A chunk-size line: to the data if the size is not zero, else to the trailer.
  lemma FeedSizeLine(hc: HeadersCallback, p: Parser, size: seq<Byte>, ext: seq<Byte>, value: nat)
    requires AtChunk(p) && ValidSize(size, ext, value)
    ensures Feed(hc, p, 0, size + ext + CRLF)
         == Fed(if value == 0
                then p.(contentLength := 0, flags := p.flags.(trailing := true), state := HeaderFieldStart)
                else p.(contentLength := value, state := ChunkData), [], 0, Running, |size| + |ext| + 2)
  {
    hide Feed, Step, ValidSize;
    FeedSizeText(hc, p, size, ext, value);
    ValidSizeBound(size, ext, value);
    var s := Feed(hc, p, 0, size + ext);
    var t := Step(hc, s.p, 0, CR);
    FeedCrlf(hc, p, size + ext);
    StepSizeEnd(hc, s.p, 0);
    StepSizeDone(hc, t.p, 0);
  }

  lemma StepDataEnd(hc: HeadersCallback, p: Parser, pend: nat)
    requires p.errno.Ok? && p.state.ChunkDataAlmostDone? && p.flags.chunked && p.contentLength == 0
    ensures Step(hc, p, pend, CR) == Fed(p.(state := ChunkDataDone), [], 0, Running, 1)
  {
  }

  lemma StepDataDone(hc: HeadersCallback, p: Parser)
    requires p.errno.Ok? && p.state.ChunkDataDone? && p.flags.chunked
    ensures Step(hc, p, 0, LF) == Fed(p.(nread := 0, state := ChunkSizeStart), [], 0, Running, 1)
  {
  }

  lemma FeedData(hc: HeadersCallback, p: Parser, data: seq<Byte>)
    requires p.errno.Ok? && p.state.ChunkData? && p.flags.chunked && 0 < p.contentLength == |data| < ULLONG_MAX
    ensures Feed(hc, p, 0, data + CRLF)
         == Fed(p.(contentLength := 0, nread := 0, state := ChunkSizeStart), Bytes(Body, data), 0, Running, |data| + 2)
  {
    hide Feed, Step;
    FeedSized(hc, p, 0, data);
    var s := Feed(hc, p, 0, data);
    FeedCrlf(hc, p, data);
    StepDataEnd(hc, s.p, s.pend);
    StepDataDone(hc, Step(hc, s.p, s.pend, CR).p);
    assert Bytes(Body, data) + [] == Bytes(Body, data);
  }

  lemma FeedChunk(hc: HeadersCallback, p: Parser, c: Chunk)
    requires AtChunk(p) && ValidChunk(c)
    ensures Feed(hc, p, 0, EncodeChunk(c))
         == Fed(p.(contentLength := 0), Bytes(Body, c.data), 0, Running, |EncodeChunk(c)|)
  {
    hide Feed, ValidSize;
    var line := c.size + c.ext + CRLF;
    ValidSizeBound(c.size, c.ext, |c.data|);
    FeedSizeLine(hc, p, c.size, c.ext, |c.data|);
    var r := Feed(hc, p, 0, line);
    FeedData(hc, r.p, c.data);
    FeedConcat(hc, p, 0, line, c.data + CRLF);
    assert EncodeChunk(c) == line + (c.data + CRLF);
    assert [] + Bytes(Body, c.data) == Bytes(Body, c.data);
  }

  lemma ValidSizeBound(size: seq<Byte>, ext: seq<Byte>, value: nat)
    requires ValidSize(size, ext, value)
    ensures value < ULLONG_MAX && |size| + |ext| + 2 <= HTTP_MAX_HEADER_SIZE
  {
  }

  lemma StepTrailerEnd(hc: HeadersCallback, p: Parser)
    requires p.errno.Ok? && p.state.HeaderFieldStart? && p.nread == 0
    ensures Step(hc, p, 0, CR) == Fed(p.(nread := 1, state := HeadersAlmostDone), [], 0, Running, 1)
  {
  }

  lemma StepMessageEnd(hc: HeadersCallback, p: Parser)
    requires p.errno.Ok? && p.state.HeadersAlmostDone? && p.nread == 1 && p.flags.trailing
    ensures Step(hc, p, 0, LF)
         == Fed(p.(nread := 2, state := NewMessage(p)), [Noted(MessageComplete)], 0, Running, 1)
  {
  }

  // Behind a chunked message; what comes next is decided by what its header lines have said.
  function ChunksRead(p: Parser): Parser {
    p.(nread := 2, contentLength := 0, flags := p.flags.(trailing := true), state := NewMessage(p))
  }

  lemma SameEnd(p: Parser, q: Parser)
    requires p.flags.chunked
    requires q == p.(nread := q.nread, contentLength := q.contentLength, state := q.state,
                     flags := p.flags.(trailing := q.flags.trailing))
    ensures NewMessage(q) == NewMessage(p)
  {
  }

  // The zero-size chunk and the empty trailer.
  lemma FeedLast(hc: HeadersCallback, p: Parser, size: seq<Byte>, ext: seq<Byte>)
    requires AtChunk(p) && ValidSize(size, ext, 0)
    ensures var r := Feed(hc, p, 0, (size + ext + CRLF) + CRLF);
            && r.status.Running? && r.events == [Noted(MessageComplete)] && r.pend == 0 && r.p == ChunksRead(p)
  {
    hide Feed, Step, ValidSize, NewMessage;
    var line := size + ext + CRLF;
    FeedSizeLine(hc, p, size, ext, 0);
    var s := Feed(hc, p, 0, line);
    FeedCrlf(hc, p, line);
    StepTrailerEnd(hc, s.p);
    StepMessageEnd(hc, Step(hc, s.p, 0, CR).p);
    SameEnd(p, Step(hc, s.p, 0, CR).p);
  }

  lemma BytesConcat(a: seq<Byte>, b: seq<Byte>)
    ensures Bytes(Body, a + b) == Bytes(Body, a) + Bytes(Body, b)
  {
  }

  // Decoding undoes encoding: whatever pieces, spellings of the sizes and extensions are chosen,
  // the body is the concatenation of the pieces and the message completes once.
  lemma {:induction false} ChunkedRoundTrip(hc: HeadersCallback, p: Parser, cs: seq<Chunk>, last: seq<Byte>,
      ext: seq<Byte>)
    requires AtChunk(p) && (forall c <- cs :: ValidChunk(c)) && ValidSize(last, ext, 0)
    ensures var r := Feed(hc, p, 0, Encode(cs, last, ext));
            && r.status.Running? && r.events == Bytes(Body, Payload(cs)) + [Noted(MessageComplete)] && r.pend == 0
            && r.p == ChunksRead(p)
    decreases |cs|
  {
    hide Feed, ValidSize, ValidChunk, EncodeChunk, NewMessage;
    if cs == [] {
      FeedLast(hc, p, last, ext);
      assert Bytes(Body, []) + [Noted(MessageComplete)] == [Noted(MessageComplete)];
    } else {
      assert cs[0] in cs && forall c <- cs[1..] :: c in cs;
      var rest := Encode(cs[1..], last, ext);
      FeedChunk(hc, p, cs[0]);
      var r := Feed(hc, p, 0, EncodeChunk(cs[0]));
      ChunkedRoundTrip(hc, r.p, cs[1..], last, ext);
      SameEnd(p, r.p);
      FeedConcat(hc, p, 0, EncodeChunk(cs[0]), rest);
      BytesConcat(cs[0].data, Payload(cs[1..]));
      assert Bytes(Body, cs[0].data) + (Bytes(Body, Payload(cs[1..])) + [Noted(MessageComplete)])
          == Bytes(Body, Payload(cs)) + [Noted(MessageComplete)];
    }
  }
}
