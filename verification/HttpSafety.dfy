/** No input, over any number of calls, trips an assertion or runs off a table. */
module HttpSafety {
  import opened HttpTypes
  import opened HttpSwitch
  import opened HttpFeed

  predicate FieldSafe(hs: HeaderState, index: nat) {
    match hs
    case General | Connection | ContentLength | TransferEncoding | Upgrade => true
    case HC => index == 0
    case HCO => index == 1
    case HCON => index == 2
    case MatchingConnection => index < |CONNECTION| - 1
    case MatchingProxyConnection => index < |PROXY_CONNECTION| - 1
    case MatchingContentLength => index < |CONTENT_LENGTH| - 1
    case MatchingTransferEncoding => index < |TRANSFER_ENCODING| - 1
    case MatchingUpgrade => index < |UPGRADE| - 1
    case _ => false
  }

  predicate ValueSafe(hs: HeaderState, index: nat) {
    match hs
    case General | ContentLength | ChunkedValue | KeepAliveValue | CloseValue => true
    case MatchingChunked => index < |CHUNKED| - 1
    case MatchingKeepAlive => index < |KEEP_ALIVE| - 1
    case MatchingClose => index < |CLOSE| - 1
    case _ => false
  }

  // `seen` is 1 while a byte is being processed, 0 between bytes.
  predicate SafeState(p: Parser, seen: nat) {
    match p.state
    case ReqMethod => 1 <= p.index <= |MethodString(p.meth)|
    case HeaderField => FieldSafe(p.headerState, p.index)
    case HeaderValue => ValueSafe(p.headerState, p.index)
    case ChunkSizeStart => p.flags.chunked && p.nread == seen
    case ChunkSize | ChunkParameters | ChunkSizeAlmostDone => p.flags.chunked && p.contentLength < ULLONG_MAX
    case ChunkData => p.flags.chunked && 0 < p.contentLength < ULLONG_MAX
    case ChunkDataAlmostDone => p.flags.chunked && p.contentLength == 0
    case ChunkDataDone => p.flags.chunked
    case BodyIdentity => 0 < p.contentLength < ULLONG_MAX
    case HeadersDone | MessageDone => seen == 1
    case _ => true
  }

  predicate Safe(p: Parser, seen: nat) {
    && p.errno.Ok?
    && p.contentLength <= ULLONG_MAX && p.nread <= HTTP_MAX_HEADER_SIZE
    && p.major <= 999 && p.minor <= 999 && p.status <= 999
    && SafeState(p, seen)
  }

  // What one pass keeps: no crash, and an error code exactly on failure.
  predicate SafePass(o: Outcome) {
    match o.flow
    case Next | Exit => Safe(o.next, 0)
    case Again => Safe(o.next, 1)
    case Fail => !o.next.errno.Ok?
    case Crash => false
  }

  lemma SafeResponse(p: Parser, ch: Byte)
    requires Safe(p, 1) && !IsHeaderPart(p.state) && !IsBodyPart(p.state)
    requires !IsRequestPart(p.state) && !IsVersionPart(p.state)
    ensures SafePass(SwitchResponse(p, ch))
  {
    hide Digit;
  }

  lemma SafeUrl(p: Parser, ch: Byte)
    requires Safe(p, 1) && (p.state.ReqSpacesBeforeUrl? || IsUrlState(p.state))
    ensures SafePass(OnUrl(p, ch)) && SafePass(OnSpacesBeforeUrl(p, ch))
  {
    hide ParseUrlChar, IsAlpha, MethodString;
  }

  lemma SafeRequest(p: Parser, ch: Byte)
    requires Safe(p, 1) && IsRequestPart(p.state)
    ensures SafePass(SwitchRequest(p, ch))
  {
    hide OnUrl, OnSpacesBeforeUrl, IsAlpha, NextMethod, FirstMethod, MethodString;
    if p.state.ReqSpacesBeforeUrl? || IsUrlState(p.state) {
      SafeUrl(p, ch);
    }
  }

  lemma SafeVersion(p: Parser, ch: Byte)
    requires Safe(p, 1) && IsVersionPart(p.state)
    ensures SafePass(SwitchVersion(p, ch))
  {
    hide Digit;
  }

  lemma MatchingStep(p: Parser, c: char, pattern: string, done: HeaderState)
    requires p.index < |pattern| - 1
    ensures var q := Matching(p, c, pattern, done);
            && q == p.(index := p.index + 1, headerState := q.headerState)
            && (q.headerState == p.headerState ==> p.headerState in {General, done} || q.index < |pattern| - 1)
            && q.headerState in {p.headerState, General, done}
  {
  }

  lemma SafeFieldByte(p: Parser, c: Byte)
    requires FieldSafe(p.headerState, p.index)
    ensures var o := FieldByte(p, c);
            && o.Some?
            && o.value == p.(index := o.value.index, headerState := o.value.headerState)
            && FieldSafe(o.value.headerState, o.value.index)
  {
    hide Matching;
    match p.headerState
    case MatchingConnection => MatchingStep(p, c, CONNECTION, Connection);
    case MatchingProxyConnection => MatchingStep(p, c, PROXY_CONNECTION, Connection);
    case MatchingContentLength => MatchingStep(p, c, CONTENT_LENGTH, ContentLength);
    case MatchingTransferEncoding => MatchingStep(p, c, TRANSFER_ENCODING, TransferEncoding);
    case MatchingUpgrade => MatchingStep(p, c, UPGRADE, Upgrade);
    case _ =>
  }

  lemma SafeField(p: Parser, ch: Byte)
    requires Safe(p, 1) && p.state.HeaderField?
    ensures SafePass(OnHeaderField(p, ch))
  {
    hide Token, FieldByte, FieldSafe;
    if Token(ch) != NUL { SafeFieldByte(p, Token(ch)); }
  }

  lemma SafeFieldStart(p: Parser, ch: Byte)
    requires Safe(p, 1) && p.state.HeaderFieldStart?
    ensures SafePass(OnHeaderFieldStart(p, ch))
  {
    hide Token;
  }

  lemma SafeValueStart(p: Parser, ch: Byte)
    requires Safe(p, 1) && p.state.HeaderValueStart?
    ensures SafePass(OnHeaderValueStart(p, ch))
  {
    hide Lower;
  }

  lemma SafeValue(p: Parser, ch: Byte)
    requires Safe(p, 1) && p.state.HeaderValue?
    ensures SafePass(OnHeaderValue(p, ch))
  {
    hide Lower, Matching, Digit;
    match p.headerState
    case MatchingChunked => MatchingStep(p, Lower(ch), CHUNKED, ChunkedValue);
    case MatchingKeepAlive => MatchingStep(p, Lower(ch), KEEP_ALIVE, KeepAliveValue);
    case MatchingClose => MatchingStep(p, Lower(ch), CLOSE, CloseValue);
    case _ =>
  }

  lemma SafeHeader(hc: HeadersCallback, p: Parser, ch: Byte)
    requires Safe(p, 1) && IsHeaderPart(p.state)
    ensures SafePass(SwitchHeader(hc, p, ch))
  {
    hide OnHeaderField, OnHeaderFieldStart, OnHeaderValueStart, OnHeaderValue;
    match p.state
    case HeaderFieldStart => SafeFieldStart(p, ch);
    case HeaderField => SafeField(p, ch);
    case HeaderValueStart => SafeValueStart(p, ch);
    case HeaderValue => SafeValue(p, ch);
    case _ =>
  }

  lemma SafeBody(p: Parser, ch: Byte, avail: nat)
    requires Safe(p, 1) && IsBodyPart(p.state) && avail > 0
    ensures SafePass(SwitchBody(p, ch, avail))
  {
    hide Unhex, ShouldKeepAlive;
  }

  lemma SafeSwitch(hc: HeadersCallback, p: Parser, ch: Byte, avail: nat)
    requires Safe(p, 1) && avail > 0
    ensures SafePass(Switch(hc, p, ch, avail))
  {
    hide SwitchRequest, SwitchVersion, SwitchResponse, SwitchHeader, SwitchBody, Safe, SafePass;
    if IsHeaderPart(p.state) {
      SafeHeader(hc, p, ch);
    } else if IsBodyPart(p.state) {
      SafeBody(p, ch, avail);
    } else if IsRequestPart(p.state) {
      SafeRequest(p, ch);
    } else if IsVersionPart(p.state) {
      SafeVersion(p, ch);
    } else {
      SafeResponse(p, ch);
    }
  }

  // One byte: every pass it takes is safe, and it ends running, failed or exited.
  predicate SafeFed(r: Fed) {
    && !r.status.Crashed?
    && (r.status.Failed? <==> !r.p.errno.Ok?)
    && (!r.status.Failed? ==> Safe(r.p, 0))
  }

  lemma {:induction false} SafeExec(hc: HeadersCallback, p: Parser, pend: nat, ch: Byte)
    requires Safe(p, 1)
    ensures SafeFed(Exec(hc, p, pend, ch))
    decreases Rank(p.state)
  {
    hide Switch, Safe, EventsOf, PendOf, Rank;
    SafeSwitch(hc, p, ch, 1);
    var o := Switch(hc, p, ch, 1);
    SafeImpliesOk(o.next);
    if o.flow.Again? {
      SafeExec(hc, o.next, PendOf(p, o, pend), ch);
    }
  }

  lemma SafeImpliesOk(p: Parser)
    ensures Safe(p, 0) || Safe(p, 1) ==> p.errno.Ok?
  {
  }

  lemma SafeTick(p: Parser)
    requires Safe(p, 0)
    ensures Tick(p).errno.Ok? ==> Safe(Tick(p), 1)
  {
    hide FieldSafe, ValueSafe, MethodString;
  }

  lemma SafeStep(hc: HeadersCallback, p: Parser, pend: nat, ch: Byte)
    requires Safe(p, 0)
    ensures SafeFed(Step(hc, p, pend, ch))
  {
    hide Exec, Safe, Tick;
    SafeTick(p);
    if Tick(p).errno.Ok? {
      SafeExec(hc, Tick(p), pend, ch);
    }
  }

  lemma {:induction false} SafeFeed(hc: HeadersCallback, p: Parser, pend: nat, bs: seq<Byte>)
    requires Safe(p, 0)
    ensures SafeFed(Feed(hc, p, pend, bs))
    decreases |bs|
  {
    hide Step, Safe;
    SafeImpliesOk(p);
    if bs != [] {
      SafeFeed(hc, p, pend, bs[..|bs| - 1]);
      var r := Feed(hc, p, pend, bs[..|bs| - 1]);
      if r.status.Running? {
        SafeStep(hc, r.p, r.pend, bs[|bs| - 1]);
      }
    }
  }

  lemma SafeInit(t: ParserType)
    ensures Safe(Init(t), 0)
  {
  }
}
