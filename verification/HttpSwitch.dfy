/** One pass through the big `switch (parser->state)` of http_parser_execute. */
module HttpSwitch {
  import opened Wrappers
  import opened HttpTypes

  // How a pass ends: `break` out of the switch, `goto reexecute_byte`, an error return,
  // the early return of an upgrade, or a failed assert.
  datatype Flow = Next | Again | Fail | Exit | Crash

  // mark: MARK(kind); skip: how far `p` is advanced inside the pass; flush: CALLBACK_DATA(kind),
  // `extra` bytes beyond p; note: CALLBACK_NOTIFY. They happen in this order.
  datatype Outcome = Outcome(next: Parser, flow: Flow, mark: Option<Kind>, skip: nat,
                             flush: Option<Kind>, extra: nat, note: Option<Note>)

  function Plain(p: Parser, flow: Flow): Outcome { Outcome(p, flow, None, 0, None, 0, None) }

  function Go(p: Parser, s: State): Outcome { Plain(p.(state := s), Next) }

  function Stay(p: Parser): Outcome { Plain(p, Next) }

  function Redo(p: Parser): Outcome { Plain(p, Again) }

  function Err(p: Parser, e: Errno): Outcome { Plain(p.(errno := e), Fail) }

  function Notifying(p: Parser, n: Note): Outcome { Plain(p, Next).(note := Some(n)) }

  function Flushing(p: Parser, k: Kind): Outcome { Plain(p, Next).(flush := Some(k)) }

  // STRICT_CHECK(ch != want); parser->state = s
  function Expect(p: Parser, ch: Byte, want: Byte, s: State): Outcome {
    if ch != want then Err(p, Strict) else Go(p, s)
  }

  function Min(a: nat, b: nat): nat { if a < b then a else b }

  predicate MessageNeedsEof(p: Parser) {
    if p.ptype.Request? then false
    else if p.status / 100 == 1 || p.status == 204 || p.status == 304 || p.flags.skipBody then false
    else !(p.flags.chunked || p.contentLength != ULLONG_MAX)
  }

  predicate ShouldKeepAlive(p: Parser) {
    if p.major > 0 && p.minor > 0 then !p.flags.close && !MessageNeedsEof(p)
    else p.flags.keepAlive && !MessageNeedsEof(p)
  }

  // NEW_MESSAGE()
  function NewMessage(p: Parser): (s: State)
    ensures s.StartReq? || s.StartRes? || s.Dead?
  {
    if ShouldKeepAlive(p) then (if p.ptype.Request? then StartReq else StartRes) else Dead
  }

  function Complete(p: Parser): Outcome {
    Notifying(p.(state := NewMessage(p)), MessageComplete)
  }

  predicate IsUrlState(s: State) {
    || s.ReqSchema? || s.ReqSchemaSlash? || s.ReqSchemaSlashSlash? || s.ReqServerStart? || s.ReqServer?
    || s.ReqServerWithAt? || s.ReqPath? || s.ReqQueryStringStart? || s.ReqQueryString?
    || s.ReqFragmentStart? || s.ReqFragment?
  }

  // parse_url_char, strict
  function ParseUrlChar(s: State, ch: Byte): (r: State)
    ensures r.Dead? || IsUrlState(r)
  {
    if ch == ' ' || ch == CR || ch == LF || ch == '\t' || ch == '\U{0c}' then Dead else
    match s
    case ReqSpacesBeforeUrl =>
      if ch == '/' || ch == '*' then ReqPath else if IsAlpha(ch) then ReqSchema else Dead
    case ReqSchema =>
      if IsAlpha(ch) then s else if ch == ':' then ReqSchemaSlash else Dead
    case ReqSchemaSlash => if ch == '/' then ReqSchemaSlashSlash else Dead
    case ReqSchemaSlashSlash => if ch == '/' then ReqServerStart else Dead
    case ReqServerWithAt => if ch == '@' then Dead else ParseServerChar(ch)
    case ReqServerStart => ParseServerChar(ch)
    case ReqServer => ParseServerChar(ch)
    case ReqPath =>
      if IsUrlChar(ch) then s else if ch == '?' then ReqQueryStringStart
      else if ch == '#' then ReqFragmentStart else Dead
    case ReqQueryStringStart => ParseQueryChar(ch)
    case ReqQueryString => ParseQueryChar(ch)
    case ReqFragmentStart =>
      if IsUrlChar(ch) then ReqFragment else if ch == '?' then ReqFragment
      else if ch == '#' then s else Dead
    case ReqFragment =>
      if IsUrlChar(ch) || ch == '?' || ch == '#' then s else Dead
    case _ => Dead
  }

  function ParseServerChar(ch: Byte): State {
    if ch == '/' then ReqPath
    else if ch == '?' then ReqQueryStringStart
    else if ch == '@' then ReqServerWithAt
    else if IsUserinfoChar(ch) || ch == '[' || ch == ']' then ReqServer
    else Dead
  }

  function ParseQueryChar(ch: Byte): State {
    if IsUrlChar(ch) || ch == '?' then ReqQueryString
    else if ch == '#' then ReqFragmentStart else Dead
  }

  // s_start_req: the first letter picks a candidate method.
  function FirstMethod(ch: Byte): (r: Option<Method>)
    ensures r.Some? ==> |MethodString(r.value)| > 1 && MethodString(r.value)[0] == ch
  {
    match ch
    case 'C' => Some(CONNECT) case 'D' => Some(DELETE) case 'G' => Some(GET) case 'H' => Some(HEAD)
    case 'L' => Some(LOCK) case 'M' => Some(MKCOL) case 'N' => Some(NOTIFY) case 'O' => Some(OPTIONS)
    case 'P' => Some(POST) case 'R' => Some(REPORT) case 'S' => Some(SUBSCRIBE) case 'T' => Some(TRACE)
    case 'U' => Some(UNLOCK)
    case _ => None
  }

  // s_req_method: keep the candidate, change it, or give up.
  function NextMethod(m: Method, index: nat, ch: Byte): (r: Option<Method>)
    requires index <= |MethodString(m)|
    ensures r.Some? ==> index < |MethodString(r.value)| && MethodString(r.value)[index] == ch
  {
    if index < |MethodString(m)| && ch == MethodString(m)[index] then Some(m)
    else if m.CONNECT? then
      if index == 1 && ch == 'H' then Some(CHECKOUT)
      else if index == 2 && ch == 'P' then Some(COPY) else None
    else if m.MKCOL? then
      if index == 1 && ch == 'O' then Some(MOVE)
      else if index == 1 && ch == 'E' then Some(MERGE)
      else if index == 1 && ch == '-' then Some(MSEARCH)
      else if index == 2 && ch == 'A' then Some(MKACTIVITY) else None
    else if m.SUBSCRIBE? then
      if index == 1 && ch == 'E' then Some(SEARCH) else None
    else if index == 1 && m.POST? then
      if ch == 'R' then Some(PROPFIND)
      else if ch == 'U' then Some(PUT)
      else if ch == 'A' then Some(PATCH) else None
    else if index == 2 then
      if m.PUT? then (if ch == 'R' then Some(PURGE) else None)
      else if m.UNLOCK? then (if ch == 'S' then Some(UNSUBSCRIBE) else None)
      else None
    else if index == 4 && m.PROPFIND? && ch == 'P' then Some(PROPPATCH)
    else None
  }

  function OnReqMethod(p: Parser, ch: Byte): Outcome {
    if ch == NUL then Err(p, InvalidMethod)
    else if p.index > |MethodString(p.meth)| then Plain(p, Crash)
    else if ch == ' ' && p.index == |MethodString(p.meth)| then
      Go(p.(index := p.index + 1), ReqSpacesBeforeUrl)
    else match NextMethod(p.meth, p.index, ch)
      case Some(m) => Stay(p.(meth := m, index := p.index + 1))
      case None => Err(p, InvalidMethod)
  }

  function OnStartReq(p: Parser, ch: Byte): Outcome {
    if ch == CR || ch == LF then Stay(p) else
    var q := p.(flags := NO_FLAGS, contentLength := ULLONG_MAX);
    if !IsAlpha(ch) then Err(q, InvalidMethod) else
    var q := q.(meth := DELETE, index := 1);
    match FirstMethod(ch)
    case None => Err(q, InvalidMethod)
    case Some(m) => Notifying(q.(meth := m, state := ReqMethod), MessageBegin)
  }

  function OnStartRes(p: Parser, ch: Byte): Outcome {
    var q := p.(flags := NO_FLAGS, contentLength := ULLONG_MAX);
    if ch == 'H' then Notifying(q.(state := ResH), MessageBegin)
    else if ch == CR || ch == LF then Notifying(q, MessageBegin)
    else Err(q, InvalidConstant)
  }

  function OnSpacesBeforeUrl(p: Parser, ch: Byte): Outcome {
    if ch == ' ' then Stay(p) else
    var s := ParseUrlChar(if p.meth.CONNECT? then ReqServerStart else p.state, ch);
    if s == Dead then Err(p.(state := s), InvalidUrl).(mark := Some(Url))
    else Go(p, s).(mark := Some(Url))
  }

  function OnUrl(p: Parser, ch: Byte): Outcome {
    if ch == ' ' || ch == CR || ch == LF then
      if p.state.ReqSchema? || p.state.ReqSchemaSlash? || p.state.ReqSchemaSlashSlash? || p.state.ReqServerStart? then
        Err(p, InvalidUrl)
      else if ch == ' ' then Flushing(p.(state := ReqHttpStart), Url)
      else Flushing(p.(major := 0, minor := 9, state := if ch == CR then ReqLineAlmostDone else HeaderFieldStart), Url)
    else
      var s := ParseUrlChar(p.state, ch);
      if s == Dead then Err(p.(state := s), InvalidUrl) else Go(p, s)
  }

  function OnMajor(p: Parser, ch: Byte, minor: State): Outcome {
    if ch == '.' then Go(p, minor)
    else if !IsNum(ch) then Err(p, InvalidVersion)
    else var q := p.(major := p.major * 10 + Digit(ch));
      if q.major > 999 then Err(q, InvalidVersion) else Stay(q)
  }

  function OnMinorDigit(p: Parser, ch: Byte): Outcome {
    if !IsNum(ch) then Err(p, InvalidVersion)
    else var q := p.(minor := p.minor * 10 + Digit(ch));
      if q.minor > 999 then Err(q, InvalidVersion) else Stay(q)
  }

  function OnStatusCode(p: Parser, ch: Byte): Outcome {
    if !IsNum(ch) then
      if ch == ' ' then Go(p, ResStatus)
      else if ch == CR then Go(p, ResLineAlmostDone)
      else if ch == LF then Go(p, HeaderFieldStart)
      else Err(p, InvalidStatus)
    else var q := p.(status := p.status * 10 + Digit(ch));
      if q.status > 999 then Err(q, InvalidStatus) else Stay(q)
  }

  function OnHeaderFieldStart(p: Parser, ch: Byte): Outcome {
    if ch == CR then Go(p, HeadersAlmostDone)
    else if ch == LF then Redo(p.(state := HeadersAlmostDone))
    else
      var c := Token(ch);
      if c == NUL then Err(p, InvalidHeaderToken) else
      var hs := match c
        case 'c' => HC
        case 'p' => MatchingProxyConnection
        case 't' => MatchingTransferEncoding
        case 'u' => MatchingUpgrade
        case _ => General;
      Go(p.(index := 0, headerState := hs), HeaderField).(mark := Some(Field))
  }

  // One step of a matcher: parser->index++, then compare with the pattern.
  function Matching(p: Parser, c: char, pattern: string, done: HeaderState): Parser {
    var i := p.index + 1;
    if i >= |pattern| || c != pattern[i] then p.(index := i, headerState := General)
    else if i == |pattern| - 1 then p.(index := i, headerState := done)
    else p.(index := i)
  }

  // The switch over header_state for one more byte of a field name.
  function FieldByte(p: Parser, c: Byte): Option<Parser> {
    match p.headerState
    case General => Some(p)
    case HC => Some(p.(index := p.index + 1, headerState := if c == 'o' then HCO else General))
    case HCO => Some(p.(index := p.index + 1, headerState := if c == 'n' then HCON else General))
    case HCON => Some(p.(index := p.index + 1,
                         headerState := if c == 'n' then MatchingConnection
                                        else if c == 't' then MatchingContentLength else General))
    case MatchingConnection => Some(Matching(p, c, CONNECTION, Connection))
    case MatchingProxyConnection => Some(Matching(p, c, PROXY_CONNECTION, Connection))
    case MatchingContentLength => Some(Matching(p, c, CONTENT_LENGTH, ContentLength))
    case MatchingTransferEncoding => Some(Matching(p, c, TRANSFER_ENCODING, TransferEncoding))
    case MatchingUpgrade => Some(Matching(p, c, UPGRADE, Upgrade))
    case Connection | ContentLength | TransferEncoding | Upgrade =>
      Some(if c != ' ' then p.(headerState := General) else p)
    case _ => None
  }

  function OnHeaderField(p: Parser, ch: Byte): Outcome {
    var c := Token(ch);
    if c != NUL then
      match FieldByte(p, c)
      case Some(q) => Stay(q)
      case None => Plain(p, Crash)
    else if ch == ':' then Flushing(p.(state := HeaderValueStart), Field)
    else if ch == CR then Flushing(p.(state := HeaderAlmostDone), Field)
    else if ch == LF then Flushing(p.(state := HeaderFieldStart), Field)
    else Err(p, InvalidHeaderToken)
  }

  function OnHeaderValueStart(p: Parser, ch: Byte): Outcome {
    if ch == ' ' || ch == '\t' then Stay(p) else
    var q := p.(state := HeaderValue, index := 0);
    var o :=
      if ch == CR then Flushing(q.(headerState := General, state := HeaderAlmostDone), Value)
      else if ch == LF then Flushing(q.(state := HeaderFieldStart), Value)
      else
        var c := Lower(ch);
        match q.headerState
        case Upgrade => Stay(q.(flags := q.flags.(upgrade := true), headerState := General))
        case TransferEncoding => Stay(q.(headerState := if c == 'c' then MatchingChunked else General))
        case ContentLength =>
          if !IsNum(ch) then Err(q, InvalidContentLength) else Stay(q.(contentLength := Digit(ch)))
        case Connection =>
          Stay(q.(headerState := if c == 'k' then MatchingKeepAlive
                                 else if c == 'c' then MatchingClose else General))
        case _ => Stay(q.(headerState := General));
    o.(mark := Some(Value))
  }

  // t = content_length * base + digit, in 64 bits; the overflow test of the source
  function Accumulate(cl: nat, base: nat, digit: nat): Option<nat> {
    var t := (cl * base + digit) % 0x1_0000_0000_0000_0000;
    if t < cl || t == ULLONG_MAX then None else Some(t)
  }

  function OnHeaderValue(p: Parser, ch: Byte): Outcome {
    if ch == CR then Flushing(p.(state := HeaderAlmostDone), Value)
    else if ch == LF then Flushing(p.(state := HeaderAlmostDone), Value).(flow := Again)
    else
      var c := Lower(ch);
      match p.headerState
      case General => Stay(p)
      case Connection | TransferEncoding => Plain(p, Crash)
      case ContentLength =>
        if ch == ' ' then Stay(p)
        else if !IsNum(ch) then Err(p, InvalidContentLength)
        else (match Accumulate(p.contentLength, 10, Digit(ch))
          case None => Err(p, InvalidContentLength)
          case Some(t) => Stay(p.(contentLength := t)))
      case MatchingChunked => Stay(Matching(p, c, CHUNKED, ChunkedValue))
      case MatchingKeepAlive => Stay(Matching(p, c, KEEP_ALIVE, KeepAliveValue))
      case MatchingClose => Stay(Matching(p, c, CLOSE, CloseValue))
      case ChunkedValue | KeepAliveValue | CloseValue =>
        Stay(if ch != ' ' then p.(headerState := General) else p)
      case _ => Stay(p.(headerState := General))
  }

  function OnHeaderAlmostDone(p: Parser, ch: Byte): Outcome {
    if ch != LF then Err(p, Strict) else
    var f := match p.headerState
      case KeepAliveValue => p.flags.(keepAlive := true)
      case CloseValue => p.flags.(close := true)
      case ChunkedValue => p.flags.(chunked := true)
      case _ => p.flags;
    Go(p.(flags := f), HeaderValueLws)
  }

  function OnHeadersAlmostDone(hc: HeadersCallback, p: Parser, ch: Byte): Outcome {
    if ch != LF then Err(p, Strict)
    else if p.flags.trailing then Complete(p)
    else
      var q := p.(state := HeadersDone, upgrade := p.flags.upgrade || p.meth.CONNECT?);
      var o := match hc(q)
        case 0 => Redo(q)
        case 1 => Redo(q.(flags := q.flags.(skipBody := true)))
        case _ => Err(q, CbHeadersComplete);
      o.(note := Some(HeadersComplete))
  }

  function OnHeadersDone(p: Parser, ch: Byte): Outcome {
    if ch != LF then Err(p, Strict) else
    var q := p.(nread := 0);
    if q.upgrade then Complete(q).(flow := Exit)
    else if q.flags.skipBody then Complete(q)
    else if q.flags.chunked then Go(q, ChunkSizeStart)
    else if q.contentLength == 0 then Complete(q)
    else if q.contentLength != ULLONG_MAX then Go(q, BodyIdentity)
    else if q.ptype.Request? || !MessageNeedsEof(q) then Complete(q)
    else Go(q, BodyIdentityEof)
  }

  // s_body_identity and s_chunk_data take as many of the available bytes as they can.
  function OnSizedBody(p: Parser, avail: nat): Outcome
    requires avail > 0
  {
    var n := Min(p.contentLength, avail);
    if n == 0 || p.contentLength == ULLONG_MAX then Plain(p, Crash) else
    var q := p.(contentLength := p.contentLength - n);
    if p.state.BodyIdentity? then
      if q.contentLength == 0 then
        Outcome(q.(state := MessageDone), Again, Some(Body), n - 1, Some(Body), 1, None)
      else Outcome(q, Next, Some(Body), n - 1, None, 0, None)
    else
      Outcome(if q.contentLength == 0 then q.(state := ChunkDataAlmostDone) else q,
              Next, Some(Body), n - 1, None, 0, None)
  }

  function OnChunkSizeStart(p: Parser, ch: Byte): Outcome {
    if p.nread != 1 then Plain(p, Crash)
    else if Unhex(ch) == -1 then Err(p, InvalidChunkSize)
    else Go(p.(contentLength := Unhex(ch)), ChunkSize)
  }

  function OnChunkSize(p: Parser, ch: Byte): Outcome {
    if ch == CR then Go(p, ChunkSizeAlmostDone)
    else if Unhex(ch) == -1 then
      if ch == ';' || ch == ' ' then Go(p, ChunkParameters) else Err(p, InvalidChunkSize)
    else match Accumulate(p.contentLength, 16, Unhex(ch))
      case None => Err(p, InvalidContentLength)
      case Some(t) => Stay(p.(contentLength := t))
  }

  function OnChunkSizeAlmostDone(p: Parser, ch: Byte): Outcome {
    if ch != LF then Err(p, Strict)
    else if p.contentLength == 0 then Go(p.(nread := 0, flags := p.flags.(trailing := true)), HeaderFieldStart)
    else Go(p.(nread := 0), ChunkData)
  }

  function OnChunkDataAlmostDone(p: Parser, ch: Byte): Outcome {
    if p.contentLength != 0 then Plain(p, Crash)
    else if ch != CR then Err(p, Strict)
    else Flushing(p.(state := ChunkDataDone), Body)
  }

  // assert(parser->flags & F_CHUNKED) opens every chunk state
  function Chunked(p: Parser, o: Outcome): Outcome {
    if p.flags.chunked then o else Plain(p, Crash)
  }

  // The switch in parts: start and status line, request method and URL, request version,
  // header lines, body.
  predicate IsRequestPart(s: State) { s.StartReq? || s.ReqMethod? || s.ReqSpacesBeforeUrl? || IsUrlState(s) }

  predicate IsVersionPart(s: State) {
    || s.ReqHttpStart? || s.ReqHttpH? || s.ReqHttpHT? || s.ReqHttpHTT? || s.ReqHttpHTTP?
    || s.ReqFirstHttpMajor? || s.ReqHttpMajor? || s.ReqFirstHttpMinor? || s.ReqHttpMinor? || s.ReqLineAlmostDone?
  }

  predicate IsHeaderPart(s: State) {
    || s.HeaderFieldStart? || s.HeaderField? || s.HeaderValueStart? || s.HeaderValue?
    || s.HeaderAlmostDone? || s.HeaderValueLws? || s.HeadersAlmostDone? || s.HeadersDone?
  }

  predicate IsBodyPart(s: State) {
    || s.BodyIdentity? || s.BodyIdentityEof? || s.MessageDone? || s.ChunkSizeStart? || s.ChunkSize?
    || s.ChunkParameters? || s.ChunkSizeAlmostDone? || s.ChunkData? || s.ChunkDataAlmostDone? || s.ChunkDataDone?
  }

  function SwitchResponse(p: Parser, ch: Byte): (o: Outcome)
    ensures o.flow.Again? ==> Rank(o.next.state) < Rank(p.state)
    ensures o.skip == 0 && o.extra == 0
  {
    match p.state
    case Dead => if ch == CR || ch == LF then Stay(p) else Err(p, ClosedConnection)
    case StartReqOrRes =>
      if ch == CR || ch == LF then Stay(p) else
      var q := p.(flags := NO_FLAGS, contentLength := ULLONG_MAX);
      if ch == 'H' then Notifying(q.(state := ResOrRespH), MessageBegin)
      else Redo(q.(ptype := Request, state := StartReq))
    case ResOrRespH =>
      if ch == 'T' then Go(p.(ptype := Response), ResHT)
      else if ch != 'E' then Err(p, InvalidConstant)
      else Go(p.(ptype := Request, meth := HEAD, index := 2), ReqMethod)
    case StartRes => OnStartRes(p, ch)
    case ResH => Expect(p, ch, 'T', ResHT)
    case ResHT => Expect(p, ch, 'T', ResHTT)
    case ResHTT => Expect(p, ch, 'P', ResHTTP)
    case ResHTTP => Expect(p, ch, '/', ResFirstHttpMajor)
    case ResFirstHttpMajor =>
      if !IsNum(ch) then Err(p, InvalidVersion) else Go(p.(major := Digit(ch)), ResHttpMajor)
    case ResHttpMajor => OnMajor(p, ch, ResFirstHttpMinor)
    case ResFirstHttpMinor =>
      if !IsNum(ch) then Err(p, InvalidVersion) else Go(p.(minor := Digit(ch)), ResHttpMinor)
    case ResHttpMinor => if ch == ' ' then Go(p, ResFirstStatusCode) else OnMinorDigit(p, ch)
    case ResFirstStatusCode =>
      if IsNum(ch) then Go(p.(status := Digit(ch)), ResStatusCode)
      else if ch == ' ' then Stay(p) else Err(p, InvalidStatus)
    case ResStatusCode => OnStatusCode(p, ch)
    case ResStatus =>
      if ch == CR then Go(p, ResLineAlmostDone) else if ch == LF then Go(p, HeaderFieldStart) else Stay(p)
    case ResLineAlmostDone =>
      if ch != LF then Err(p, Strict) else Notifying(p.(state := HeaderFieldStart), StatusComplete)
    case _ => Plain(p, Crash)
  }

  function SwitchRequest(p: Parser, ch: Byte): (o: Outcome)
    ensures o.flow.Again? ==> Rank(o.next.state) < Rank(p.state)
    ensures o.skip == 0 && o.extra == 0
  {
    match p.state
    case StartReq => OnStartReq(p, ch)
    case ReqMethod => OnReqMethod(p, ch)
    case ReqSpacesBeforeUrl => OnSpacesBeforeUrl(p, ch)
    case ReqSchema | ReqSchemaSlash | ReqSchemaSlashSlash | ReqServerStart | ReqServer | ReqServerWithAt
       | ReqPath | ReqQueryStringStart | ReqQueryString | ReqFragmentStart | ReqFragment => OnUrl(p, ch)
    case _ => Plain(p, Crash)
  }

  function SwitchVersion(p: Parser, ch: Byte): (o: Outcome)
    ensures o.flow.Again? ==> Rank(o.next.state) < Rank(p.state)
    ensures o.skip == 0 && o.extra == 0
  {
    match p.state
    case ReqHttpStart =>
      if ch == 'H' then Go(p, ReqHttpH) else if ch == ' ' then Stay(p) else Err(p, InvalidConstant)
    case ReqHttpH => Expect(p, ch, 'T', ReqHttpHT)
    case ReqHttpHT => Expect(p, ch, 'T', ReqHttpHTT)
    case ReqHttpHTT => Expect(p, ch, 'P', ReqHttpHTTP)
    case ReqHttpHTTP => Expect(p, ch, '/', ReqFirstHttpMajor)
    case ReqFirstHttpMajor =>
      if !IsNum(ch) || ch == '0' then Err(p, InvalidVersion) else Go(p.(major := Digit(ch)), ReqHttpMajor)
    case ReqHttpMajor => OnMajor(p, ch, ReqFirstHttpMinor)
    case ReqFirstHttpMinor =>
      if !IsNum(ch) then Err(p, InvalidVersion) else Go(p.(minor := Digit(ch)), ReqHttpMinor)
    case ReqHttpMinor =>
      if ch == CR then Go(p, ReqLineAlmostDone)
      else if ch == LF then Go(p, HeaderFieldStart) else OnMinorDigit(p, ch)
    case ReqLineAlmostDone => if ch != LF then Err(p, LfExpected) else Go(p, HeaderFieldStart)
    case _ => Plain(p, Crash)
  }

  function SwitchHeader(hc: HeadersCallback, p: Parser, ch: Byte): (o: Outcome)
    ensures o.flow.Again? ==> Rank(o.next.state) < Rank(p.state)
    ensures o.skip == 0 && o.extra == 0
  {
    match p.state
    case HeaderFieldStart => OnHeaderFieldStart(p, ch)
    case HeaderField => OnHeaderField(p, ch)
    case HeaderValueStart => OnHeaderValueStart(p, ch)
    case HeaderValue => OnHeaderValue(p, ch)
    case HeaderAlmostDone => OnHeaderAlmostDone(p, ch)
    case HeaderValueLws =>
      if ch == ' ' || ch == '\t' then Go(p, HeaderValueStart) else Redo(p.(state := HeaderFieldStart))
    case HeadersAlmostDone => OnHeadersAlmostDone(hc, p, ch)
    case HeadersDone => OnHeadersDone(p, ch)
    case _ => Plain(p, Crash)
  }

  function SwitchBody(p: Parser, ch: Byte, avail: nat): (o: Outcome)
    requires avail > 0
    ensures o.flow.Again? ==> Rank(o.next.state) < Rank(p.state)
    ensures o.skip < avail && o.skip + o.extra <= avail
  {
    match p.state
    case BodyIdentity => OnSizedBody(p, avail)
    case BodyIdentityEof => Outcome(p, Next, Some(Body), avail - 1, None, 0, None)
    case MessageDone => Complete(p)
    case ChunkSizeStart => Chunked(p, OnChunkSizeStart(p, ch))
    case ChunkSize => Chunked(p, OnChunkSize(p, ch))
    case ChunkParameters => Chunked(p, if ch == CR then Go(p, ChunkSizeAlmostDone) else Stay(p))
    case ChunkSizeAlmostDone => Chunked(p, OnChunkSizeAlmostDone(p, ch))
    case ChunkData => Chunked(p, OnSizedBody(p, avail))
    case ChunkDataAlmostDone => Chunked(p, OnChunkDataAlmostDone(p, ch))
    case ChunkDataDone =>
      Chunked(p, if ch != LF then Err(p, Strict) else Go(p.(nread := 0), ChunkSizeStart))
    case _ => Plain(p, Crash)
  }

  // `avail` is (data + len) - p. The default branches of the parts stand for the source's
  // "unhandled state" assertion.
  function Switch(hc: HeadersCallback, p: Parser, ch: Byte, avail: nat): (o: Outcome)
    requires avail > 0
    ensures o.flow.Again? ==> Rank(o.next.state) < Rank(p.state)
    ensures o.skip < avail && o.skip + o.extra <= avail
  {
    if IsHeaderPart(p.state) then SwitchHeader(hc, p, ch)
    else if IsBodyPart(p.state) then SwitchBody(p, ch, avail)
    else if IsRequestPart(p.state) then SwitchRequest(p, ch)
    else if IsVersionPart(p.state) then SwitchVersion(p, ch)
    else SwitchResponse(p, ch)
  }

  // A byte is reexecuted at most as often as this rank falls.
  function Rank(s: State): nat {
    match s
    case HeaderValue => 5
    case HeaderAlmostDone => 4
    case HeaderValueLws => 3
    case HeaderFieldStart => 2
    case HeadersAlmostDone => 1
    case StartReqOrRes => 1
    case BodyIdentity => 1
    case _ => 0
  }
}
