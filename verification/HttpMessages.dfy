/** Whole messages, from the first line to the last byte of the body, one after the other. */
module HttpMessages {
  import opened HttpTypes
  import opened HttpFeed
  import opened HttpChunked
  import opened HttpValues
  import opened HttpLines
  import opened HttpBodies

  // The body as it is sent, and as it is meant: none, so many bytes, or chunks.
  datatype MessageBody = Empty | Sized(bytes: seq<Byte>) | Chunks(cs: seq<Chunk>, last: seq<Byte>, ext: seq<Byte>)

  function BodyText(b: MessageBody): seq<Byte> {
    match b case Empty => [] case Sized(bytes) => bytes case Chunks(cs, last, ext) => Encode(cs, last, ext)
  }

  function BodyBytes(b: MessageBody): seq<Byte> {
    match b case Empty => [] case Sized(bytes) => bytes case Chunks(cs, _, _) => Payload(cs)
  }

  // What the header lines say of the length, section 4.4 of RFC 2616: chunks come before a length.
  predicate Framed(b: MessageBody, f: Flags, length: nat) {
    match b
    case Empty => !f.chunked && (length == 0 || length == ULLONG_MAX)
    case Sized(bytes) => !f.chunked && 0 < |bytes| == length < ULLONG_MAX
    case Chunks(cs, last, ext) => f.chunked && (forall c <- cs :: ValidChunk(c)) && ValidSize(last, ext, 0)
  }

  datatype RequestMessage = RequestMessage(line: RequestLine, headers: seq<HeaderLine>, body: MessageBody)

  function RequestHead(m: RequestMessage): seq<Byte> { RequestLineText(m.line) + LinesText(m.headers) }

  function RequestText(m: RequestMessage): seq<Byte> { RequestHead(m) + (CRLF + BodyText(m.body)) }

  predicate ValidRequest(m: RequestMessage) {
    && ValidRequestLine(m.line) && (forall h <- m.headers :: ValidLine(h)) && !m.line.meth.CONNECT?
    && !Flagged(NO_FLAGS, m.headers).upgrade
    && Framed(m.body, Flagged(NO_FLAGS, m.headers), Length(ULLONG_MAX, m.headers))
    && |RequestHead(m)| + 4 <= HTTP_MAX_HEADER_SIZE
  }

  // What the application is told of a request.
  function RequestEvents(m: RequestMessage): seq<Event> {
    [Noted(MessageBegin)] + Bytes(Url, TargetText(m.line.target)) + LinesEvents(m.headers)
    + ([Noted(HeadersComplete)] + Bytes(Body, BodyBytes(m.body)) + [Noted(MessageComplete)])
  }

  // Whether another request may follow on the connection.
  predicate KeepsOpen(m: RequestMessage) {
    var f := Flagged(NO_FLAGS, m.headers);
    if Major(m.line.version) >= 1 && Minor(m.line.version) >= 1 then !f.close else f.keepAlive
  }

  lemma {:induction false} NoSkipOrTrailer(f: Flags, hs: seq<HeaderLine>)
    ensures Flagged(f, hs).trailing == f.trailing && Flagged(f, hs).skipBody == f.skipBody
    decreases |hs|
  {
    hide IsWord, SameWord;
    if hs != [] { NoSkipOrTrailer(f, hs[..|hs| - 1]); }
  }

  // The body of a message, whichever way its length is told.
  lemma BodyIsRead(hc: HeadersCallback, p: Parser, b: MessageBody)
    requires AtBody(hc, p) && Framed(b, p.flags, p.contentLength)
    requires b.Empty? && p.contentLength == ULLONG_MAX ==>
               p.ptype.Request? || 100 <= p.status < 200 || p.status == 204 || p.status == 304
    ensures var r := Feed(hc, p, 0, CRLF + BodyText(b));
            && r.status.Running? && r.pend == 0 && Ended(p, r.p)
            && r.events == [Noted(HeadersComplete)] + Bytes(Body, BodyBytes(b)) + [Noted(MessageComplete)]
  {
    hide Feed, AtBody, Ended, Encode, Payload, ValidSize, ValidChunk;
    match b
    case Empty =>
      assert CRLF + [] == CRLF;
      assert [Noted(HeadersComplete)] + Bytes(Body, []) + [Noted(MessageComplete)]
          == [Noted(HeadersComplete), Noted(MessageComplete)];
      NoBodyIsRead(hc, p);
    case Sized(bytes) => SizedBodyIsRead(hc, p, bytes);
    case Chunks(cs, last, ext) => ChunkedBodyIsRead(hc, p, cs, last, ext);
  }

  // The request line and the header lines.
  lemma HeadIsRead(hc: HeadersCallback, p: Parser, m: RequestMessage)
    requires p.errno.Ok? && p.state.StartReq? && p.nread <= 2 && ValidRequest(m)
    ensures var r := Feed(hc, p, 0, RequestHead(m));
            && r == Fed(r.p, [Noted(MessageBegin)] + Bytes(Url, TargetText(m.line.target)) + LinesEvents(m.headers), 0,
                        Running, |RequestHead(m)|)
            && r.p == p.(nread := p.nread + |RequestHead(m)|, state := r.p.state, headerState := r.p.headerState,
                         index := r.p.index, flags := Flagged(NO_FLAGS, m.headers),
                         contentLength := Length(ULLONG_MAX, m.headers), meth := m.line.meth,
                         major := Major(m.line.version), minor := Minor(m.line.version))
            && Between(r.p)
  {
    hide Feed, ValidRequestLine, ValidLine, Flagged, Length, RequestLineText, LinesText, LinesEvents, TargetText,
        Framed;
    RequestLineIsRead(hc, p, m.line);
    var r := Feed(hc, p, 0, RequestLineText(m.line));
    LinesAreRead(hc, r.p, m.headers);
    FeedConcat(hc, p, 0, RequestLineText(m.line), LinesText(m.headers));
  }

  // A request that does not upgrade: the target, the header lines and the body are reported as they were
  // sent, the body without its chunk sizes, with the notices in their places, and then the parser is ready
  // for another request, or refuses all that follows.
  lemma RequestIsRead(hc: HeadersCallback, p: Parser, m: RequestMessage)
    requires p.errno.Ok? && p.state.StartReq? && p.nread <= 2 && p.ptype.Request? && ValidRequest(m)
    requires forall q: Parser :: hc(q) == 0
    ensures var r := Feed(hc, p, 0, RequestText(m));
            && r.status.Running? && r.pend == 0 && r.events == RequestEvents(m)
            && r.p.errno.Ok? && r.p.nread <= 2 && r.p.ptype.Request?
            && r.p.state == if KeepsOpen(m) then StartReq else Dead
  {
    hide Feed, Flagged, Length, RequestHead, LinesEvents, TargetText, Framed, BodyText, BodyBytes, Between;
    HeadIsRead(hc, p, m);
    var r := Feed(hc, p, 0, RequestHead(m));
    NoSkipOrTrailer(NO_FLAGS, m.headers);
    ValidBody(m);
    BodyIsRead(hc, r.p, m.body);
    FeedConcat(hc, p, 0, RequestHead(m), CRLF + BodyText(m.body));
  }

  lemma ValidBody(m: RequestMessage)
    requires ValidRequest(m)
    ensures Framed(m.body, Flagged(NO_FLAGS, m.headers), Length(ULLONG_MAX, m.headers))
    ensures m.body.Empty? ==> BodyText(m.body) == [] && BodyBytes(m.body) == []
  {
  }

  function RequestsText(ms: seq<RequestMessage>): seq<Byte> {
    if ms == [] then [] else RequestText(ms[0]) + RequestsText(ms[1..])
  }

  function RequestsEvents(ms: seq<RequestMessage>): seq<Event> {
    if ms == [] then [] else RequestEvents(ms[0]) + RequestsEvents(ms[1..])
  }

  // Requests one behind the other on one connection, all but perhaps the last keeping it open.
  lemma {:induction false} RequestsAreRead(hc: HeadersCallback, p: Parser, ms: seq<RequestMessage>)
    requires p.errno.Ok? && p.state.StartReq? && p.nread <= 2 && p.ptype.Request?
    requires (forall m <- ms :: ValidRequest(m)) && forall i :: 0 <= i < |ms| - 1 ==> KeepsOpen(ms[i])
    requires forall q: Parser :: hc(q) == 0
    ensures var r := Feed(hc, p, 0, RequestsText(ms));
            && r.status.Running? && r.pend == 0 && r.events == RequestsEvents(ms) && r.p.errno.Ok?
            && (ms != [] ==> r.p.state == if KeepsOpen(ms[|ms| - 1]) then StartReq else Dead)
    decreases |ms|
  {
    hide Feed, ValidRequest, KeepsOpen, RequestText, RequestEvents;
    if ms == [] {
      FeedNothing(hc, p);
    } else {
      assert ms[0] in ms && forall m <- ms[1..] :: m in ms;
      RequestIsRead(hc, p, ms[0]);
      var r := Feed(hc, p, 0, RequestText(ms[0]));
      FeedConcat(hc, p, 0, RequestText(ms[0]), RequestsText(ms[1..]));
      if |ms| > 1 {
        RequestsAreRead(hc, r.p, ms[1..]);
      } else {
        FeedNothing(hc, r.p);
        assert RequestEvents(ms[0]) + [] == RequestEvents(ms[0]);
      }
    }
  }

  lemma FeedNothing(hc: HeadersCallback, p: Parser)
    ensures Feed(hc, p, 0, []) == Fed(p, [], 0, Running, 0)
  {
  }

  datatype ResponseMessage = ResponseMessage(line: StatusLine, headers: seq<HeaderLine>, body: MessageBody)

  function ResponseHead(m: ResponseMessage): seq<Byte> { StatusLineText(m.line) + LinesText(m.headers) }

  predicate ValidResponseHead(m: ResponseMessage) {
    && ValidStatusLine(m.line) && (forall h <- m.headers :: ValidLine(h)) && !Flagged(NO_FLAGS, m.headers).upgrade
    && |ResponseHead(m)| + 4 <= HTTP_MAX_HEADER_SIZE
  }

  // Responses that never have a body.
  predicate Bodiless(m: ResponseMessage) { 100 <= Code(m.line) < 200 || Code(m.line) == 204 || Code(m.line) == 304 }

  function ResponseEvents(m: ResponseMessage): seq<Event> {
    [Noted(MessageBegin), Noted(StatusComplete)] + LinesEvents(m.headers)
    + ([Noted(HeadersComplete)] + Bytes(Body, BodyBytes(m.body)))
  }

  predicate ResponseKeepsOpen(m: ResponseMessage) {
    var f := Flagged(NO_FLAGS, m.headers);
    if Major(m.line.version) >= 1 && Minor(m.line.version) >= 1 then !f.close else f.keepAlive
  }

  predicate AtResponse(p: Parser) {
    p.errno.Ok? && p.state.StartRes? && p.nread <= 2 && !p.ptype.Request? && !p.meth.CONNECT?
  }

  lemma ResponseHeadIsRead(hc: HeadersCallback, p: Parser, m: ResponseMessage)
    requires AtResponse(p) && ValidResponseHead(m)
    ensures var r := Feed(hc, p, 0, ResponseHead(m));
            && r == Fed(r.p, [Noted(MessageBegin), Noted(StatusComplete)] + LinesEvents(m.headers), 0, Running,
                        |ResponseHead(m)|)
            && r.p == p.(nread := p.nread + |ResponseHead(m)|, state := r.p.state, headerState := r.p.headerState,
                         index := r.p.index, flags := Flagged(NO_FLAGS, m.headers), status := Code(m.line),
                         contentLength := Length(ULLONG_MAX, m.headers),
                         major := Major(m.line.version), minor := Minor(m.line.version))
            && Between(r.p)
  {
    hide Feed, ValidStatusLine, ValidLine, Flagged, Length, StatusLineText, LinesText, LinesEvents;
    StatusLineIsRead(hc, p, m.line);
    var r := Feed(hc, p, 0, StatusLineText(m.line));
    LinesAreRead(hc, r.p, m.headers);
    FeedConcat(hc, p, 0, StatusLineText(m.line), LinesText(m.headers));
  }

  // A response whose end is told by its length, its chunks or its status.
  lemma ResponseIsRead(hc: HeadersCallback, p: Parser, m: ResponseMessage)
    requires AtResponse(p) && ValidResponseHead(m) && (forall q: Parser :: hc(q) == 0)
    requires Framed(m.body, Flagged(NO_FLAGS, m.headers), Length(ULLONG_MAX, m.headers))
    requires m.body.Empty? && Length(ULLONG_MAX, m.headers) == ULLONG_MAX ==> Bodiless(m)
    ensures var r := Feed(hc, p, 0, ResponseHead(m) + (CRLF + BodyText(m.body)));
            && r.status.Running? && r.pend == 0 && r.events == ResponseEvents(m) + [Noted(MessageComplete)]
            && r.p.errno.Ok? && r.p.nread <= 2 && r.p.state == if ResponseKeepsOpen(m) then StartRes else Dead
  {
    hide Feed, Flagged, Length, ResponseHead, LinesEvents, Framed, BodyText, BodyBytes, Between;
    ResponseHeadIsRead(hc, p, m);
    var r := Feed(hc, p, 0, ResponseHead(m));
    NoSkipOrTrailer(NO_FLAGS, m.headers);
    BodyIsRead(hc, r.p, m.body);
    FeedConcat(hc, p, 0, ResponseHead(m), CRLF + BodyText(m.body));
  }

  // A response without any of these lasts until the connection ends.
  lemma EndlessResponseIsRead(hc: HeadersCallback, p: Parser, m: ResponseMessage, b: seq<Byte>)
    requires AtResponse(p) && ValidResponseHead(m) && (forall q: Parser :: hc(q) == 0) && m.body == Sized(b)
    requires !Flagged(NO_FLAGS, m.headers).chunked && Length(ULLONG_MAX, m.headers) == ULLONG_MAX && !Bodiless(m)
    ensures var r := Feed(hc, p, 0, ResponseHead(m) + (CRLF + b));
            && r.status.Running? && r.events == ResponseEvents(m) && r.p.errno.Ok?
            && Call(hc, r.p, []) == Called(r.p, 0, [Noted(MessageComplete)])
  {
    hide Feed, Flagged, Length, ResponseHead, LinesEvents, Between, Call;
    ResponseHeadIsRead(hc, p, m);
    var r := Feed(hc, p, 0, ResponseHead(m));
    NoSkipOrTrailer(NO_FLAGS, m.headers);
    EndlessBodyIsRead(hc, r.p, b);
    FeedConcat(hc, p, 0, ResponseHead(m), CRLF + b);
  }

  const POST_LINE: seq<Byte> := "POST /a HTTP/1.1\r\n"
  const LENGTH_LINE: seq<Byte> := "Content-Length: 5\r\n"
  const POST_HELLO: seq<Byte> := POST_LINE + LENGTH_LINE + ("\r\n" + "hello")

  function PostHello(): RequestMessage {
    RequestMessage(RequestLine(POST, Path("/a"), Version("1", "1")), [HeaderLine("Content-Length", " ", "5")],
                   Sized("hello"))
  }

  lemma PostLineText()
    ensures RequestLineText(PostHello().line) == POST_LINE
  {
  }

  lemma LengthLineText()
    ensures LineText(PostHello().headers[0]) == LENGTH_LINE
  {
  }

  lemma PostHelloText()
    ensures RequestText(PostHello()) == POST_HELLO
  {
    hide RequestLineText, LineText;
    var h := HeaderLine("Content-Length", " ", "5");
    PostLineText();
    LengthLineText();
    assert [h][..0] == [];
    assert LinesText([]) == [] && [] + LineText(h) == LineText(h);
    assert LinesText([h]) == LineText(h);
  }

  // An example, byte by byte.
  lemma HelloIsRead(hc: HeadersCallback)
    requires forall q: Parser :: hc(q) == 0
    ensures var r := Feed(hc, Init(Request), 0, POST_HELLO);
            && r.status.Running? && r.p.state.StartReq?
            && r.events == [Noted(MessageBegin)] + Bytes(Url, "/a")
                 + (Bytes(Field, "Content-Length") + Bytes(Value, "5"))
                           + ([Noted(HeadersComplete)] + Bytes(Body, "hello") + [Noted(MessageComplete)])
  {
    hide Feed, ValidRequest, RequestText, RequestEvents, KeepsOpen;
    PostHelloText();
    PostHelloIsValid();
    PostHelloEvents();
    RequestIsRead(hc, Init(Request), PostHello());
  }

  lemma PostHelloIsValid()
    ensures ValidRequest(PostHello()) && KeepsOpen(PostHello())
  {
    PostLineText();
    LengthLineText();
    PostLineIsValid();
    hide ValidRequestLine, RequestLineText, LineText;
  }

  lemma PostLineIsValid()
    ensures ValidRequestLine(PostHello().line)
  {
  }

  lemma PostHelloEvents()
    ensures RequestEvents(PostHello())
         == [Noted(MessageBegin)] + Bytes(Url, "/a") + (Bytes(Field, "Content-Length") + Bytes(Value, "5"))
            + ([Noted(HeadersComplete)] + Bytes(Body, "hello") + [Noted(MessageComplete)])
  {
  }
}
