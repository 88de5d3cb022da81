/** What else the parser lets through, and what it refuses. */
module HttpVariants {
  import opened HttpTypes
  import opened HttpSwitch
  import opened HttpFeed
  import opened HttpChunked
  import opened HttpValues
  import opened HttpLines
  import opened HttpBodies

  predicate LineBreaks(s: seq<Byte>) { forall i :: 0 <= i < |s| ==> s[i] == CR || s[i] == LF }

  function Repeated(n: nat, e: Event): (es: seq<Event>) { seq(n, _ => e) }

  lemma StepBreak(hc: HeadersCallback, p: Parser, pend: nat, ch: Byte)
    requires p.errno.Ok? && p.nread < HTTP_MAX_HEADER_SIZE && (ch == CR || ch == LF)
    requires p.state.StartReq? || p.state.StartReqOrRes? || p.state.StartRes?
    ensures Step(hc, p, pend, ch)
         == if p.state.StartRes?
            then Fed(p.(nread := p.nread + 1, flags := NO_FLAGS, contentLength := ULLONG_MAX),
                     [Noted(MessageBegin)], pend, Running, 1)
            else Fed(p.(nread := p.nread + 1), [], pend, Running, 1)
  {
    hide Switch;
    BreakSwitch(hc, p.(nread := p.nread + 1), ch);
  }

  lemma BreakSwitch(hc: HeadersCallback, q: Parser, ch: Byte)
    requires (ch == CR || ch == LF) && (q.state.StartReq? || q.state.StartReqOrRes? || q.state.StartRes?)
    ensures Switch(hc, q, ch, 1)
         == if q.state.StartRes? then Notifying(q.(flags := NO_FLAGS, contentLength := ULLONG_MAX), MessageBegin)
            else Stay(q)
  {
  }

  // Line breaks in front of a message are passed over; a parser of responses alone reports the begin of a
  // message at each of them.
  lemma {:induction false} BreaksBefore(hc: HeadersCallback, p: Parser, pend: nat, s: seq<Byte>)
    requires p.errno.Ok? && LineBreaks(s) && p.nread + |s| <= HTTP_MAX_HEADER_SIZE
    requires p.state.StartReq? || p.state.StartReqOrRes? || p.state.StartRes?
    ensures Feed(hc, p, pend, s)
         == if p.state.StartRes? && s != []
            then Fed(p.(nread := p.nread + |s|, flags := NO_FLAGS, contentLength := ULLONG_MAX),
                     Repeated(|s|, Noted(MessageBegin)), pend, Running, |s|)
            else Fed(p.(nread := p.nread + |s|), [], pend, Running, |s|)
    decreases |s|
  {
    hide Step;
    if s != [] {
      var front := s[..|s| - 1];
      BreaksBefore(hc, p, pend, front);
      StepBreak(hc, Feed(hc, p, pend, front).p, pend, s[|s| - 1]);
      assert Repeated(|front|, Noted(MessageBegin)) + [Noted(MessageBegin)] == Repeated(|s|, Noted(MessageBegin));
    }
  }

  lemma StepDead(hc: HeadersCallback, p: Parser, ch: Byte)
    requires p.errno.Ok? && p.state.Dead? && p.nread < HTTP_MAX_HEADER_SIZE
    ensures Step(hc, p, 0, ch)
         == if ch == CR || ch == LF then Fed(p.(nread := p.nread + 1), [], 0, Running, 1)
            else Fed(p.(nread := p.nread + 1, errno := ClosedConnection), [], 0, Failed, 0)
  {
  }

  // Behind the last message of a connection only line breaks are let through.
  lemma {:induction false} NothingFollows(hc: HeadersCallback, p: Parser, s: seq<Byte>)
    requires p.errno.Ok? && p.state.Dead? && p.nread + |s| <= HTTP_MAX_HEADER_SIZE
    ensures var r := Feed(hc, p, 0, s);
            && r.events == [] && (LineBreaks(s) ==> r == Fed(p.(nread := p.nread + |s|), [], 0, Running, |s|))
            && (!LineBreaks(s) ==> r.status.Failed? && r.p.errno.ClosedConnection? && r.p.state.Dead?)
    decreases |s|
  {
    hide Step;
    if s != [] {
      var front, r := s[..|s| - 1], Feed(hc, p, 0, s[..|s| - 1]);
      NothingFollows(hc, p, front);
      if LineBreaks(front) { StepDead(hc, r.p, s[|s| - 1]); }
      assert LineBreaks(s) <==> LineBreaks(front) && (s[|s| - 1] == CR || s[|s| - 1] == LF);
    }
  }

  // In the data of a body, and behind a chunk's data.
  predicate InData(s: State) {
    || s.ChunkData? || s.ChunkDataAlmostDone? || s.ChunkDataDone? || s.BodyIdentity? || s.BodyIdentityEof?
    || s.MessageDone?
  }

  // 80 KiB is the limit of what is read anywhere else, whatever the byte beyond it.
  lemma TooLong(hc: HeadersCallback, p: Parser, ch: Byte)
    requires p.errno.Ok? && !InData(p.state) && p.nread >= 80 * 1024
    ensures Step(hc, p, 0, ch) == Fed(p.(nread := p.nread + 1, errno := HeaderOverflow), [], 0, Failed, 0)
  {
    hide Switch;
  }

  // Behind a CR nothing but a LF is let through.
  predicate BehindReturn(s: State) {
    || s.ReqLineAlmostDone? || s.ResLineAlmostDone? || s.HeaderAlmostDone? || s.HeadersAlmostDone?
    || s.ChunkSizeAlmostDone? || s.ChunkDataDone?
  }

  lemma OnlyLineFeed(hc: HeadersCallback, p: Parser, pend: nat, ch: Byte)
    requires p.errno.Ok? && BehindReturn(p.state) && p.nread < HTTP_MAX_HEADER_SIZE && ch != LF
    requires p.state.ChunkSizeAlmostDone? || p.state.ChunkDataDone? ==> p.flags.chunked
    ensures var r := Step(hc, p, pend, ch);
            r.status.Failed? && r.events == [] && r.count == 0
            && r.p.errno == if p.state.ReqLineAlmostDone? then LfExpected else Strict
  {
    if p.state.ReqLineAlmostDone? || p.state.ResLineAlmostDone? { FirstLineFeed(hc, p, pend, ch); }
    hide Switch;
    if p.state.HeaderAlmostDone? || p.state.HeadersAlmostDone? { HeaderFeed(hc, p.(nread := p.nread + 1), ch); }
    if p.state.ChunkSizeAlmostDone? { ChunkFeed(hc, p.(nread := p.nread + 1), ch); }
    if p.state.ChunkDataDone? { ChunkFeed(hc, p, ch); }
  }

  lemma FirstLineFeed(hc: HeadersCallback, p: Parser, pend: nat, ch: Byte)
    requires p.errno.Ok? && (p.state.ReqLineAlmostDone? || p.state.ResLineAlmostDone?) && ch != LF
    requires p.nread < HTTP_MAX_HEADER_SIZE
    ensures Step(hc, p, pend, ch)
         == Fed(p.(nread := p.nread + 1, errno := if p.state.ReqLineAlmostDone? then LfExpected else Strict),
                [], pend, Failed, 0)
  {
  }

  lemma HeaderFeed(hc: HeadersCallback, p: Parser, ch: Byte)
    requires (p.state.HeaderAlmostDone? || p.state.HeadersAlmostDone?) && ch != LF
    ensures Switch(hc, p, ch, 1) == Err(p, Strict)
  {
  }

  lemma ChunkFeed(hc: HeadersCallback, p: Parser, ch: Byte)
    requires (p.state.ChunkSizeAlmostDone? || p.state.ChunkDataDone?) && ch != LF && p.flags.chunked
    ensures Switch(hc, p, ch, 1) == Err(p, Strict)
  {
  }

  // A LF alone ends a line like CR LF, but for the count of bytes read.
  function Shorter(r: Fed, n: nat): Fed { r.(p := r.p.(nread := n), count := 1) }

  lemma VersionFeed(hc: HeadersCallback, p: Parser)
    requires p.errno.Ok? && p.state.ReqHttpMinor? && p.nread < HTTP_MAX_HEADER_SIZE
    ensures Step(hc, p, 0, LF) == Fed(p.(nread := p.nread + 1, state := HeaderFieldStart), [], 0, Running, 1)
  {
  }

  lemma VersionLineFeed(hc: HeadersCallback, p: Parser)
    requires p.errno.Ok? && p.state.ReqHttpMinor? && p.nread + 2 <= HTTP_MAX_HEADER_SIZE
    ensures Feed(hc, p, 0, [LF]) == Shorter(Feed(hc, p, 0, CRLF), p.nread + 1)
  {
    hide Step, Feed;
    FeedOne(hc, p, 0, LF);
    VersionFeed(hc, p);
    FeedTwo(hc, p, 0, CR, LF);
    StepMinorEnd(hc, p);
    StepRequestLineEnd(hc, Step(hc, p, 0, CR).p);
  }

  lemma ValueFeed(hc: HeadersCallback, p: Parser, pend: nat)
    requires p.errno.Ok? && p.state.HeaderValue? && p.nread < HTTP_MAX_HEADER_SIZE
    ensures Step(hc, p, pend, LF)
         == Fed(p.(nread := p.nread + 1, state := HeaderValueLws, flags := Marked(p.flags, p.headerState)),
                [], 0, Running, 1)
  {
    hide Switch;
    var q := p.(nread := p.nread + 1);
    ValueFeedPasses(hc, q);
    var t := q.(state := HeaderAlmostDone);
    assert Exec(hc, t, 0, LF) == Fed(Switch(hc, t, LF, 1).next, [], 0, Running, 1);
  }

  lemma ValueFeedPasses(hc: HeadersCallback, q: Parser)
    requires q.state.HeaderValue?
    ensures var t := q.(state := HeaderAlmostDone);
            && Switch(hc, q, LF, 1) == Flushing(t, Value).(flow := Again)
            && Switch(hc, t, LF, 1) == Go(t.(flags := Marked(t.flags, t.headerState)), HeaderValueLws)
  {
  }

  lemma ValueLineFeed(hc: HeadersCallback, p: Parser, pend: nat)
    requires p.errno.Ok? && p.state.HeaderValue? && p.nread + 2 <= HTTP_MAX_HEADER_SIZE
    ensures Feed(hc, p, pend, [LF]) == Shorter(Feed(hc, p, pend, CRLF), p.nread + 1)
  {
    hide Step, Feed;
    FeedOne(hc, p, pend, LF);
    ValueFeed(hc, p, pend);
    FeedLineEnd(hc, p, pend);
  }

  // The line of a status ends the same way, but is then not reported as complete.
  lemma StatusFeed(hc: HeadersCallback, p: Parser)
    requires p.errno.Ok? && (p.state.ResStatus? || p.state.ResStatusCode?) && p.nread < HTTP_MAX_HEADER_SIZE
    ensures Step(hc, p, 0, LF) == Fed(p.(nread := p.nread + 1, state := HeaderFieldStart), [], 0, Running, 1)
    ensures Step(hc, p, 0, CR) == Fed(p.(nread := p.nread + 1, state := ResLineAlmostDone), [], 0, Running, 1)
  {
    hide Switch;
    StatusSwitch(hc, p.(nread := p.nread + 1));
  }

  lemma StatusSwitch(hc: HeadersCallback, q: Parser)
    requires q.state.ResStatus? || q.state.ResStatusCode?
    ensures Switch(hc, q, LF, 1) == Go(q, HeaderFieldStart) && Switch(hc, q, CR, 1) == Go(q, ResLineAlmostDone)
  {
  }

  lemma StatusLineFeed(hc: HeadersCallback, p: Parser)
    requires p.errno.Ok? && (p.state.ResStatus? || p.state.ResStatusCode?) && p.nread + 2 <= HTTP_MAX_HEADER_SIZE
    ensures Feed(hc, p, 0, CRLF)
         == Fed(p.(nread := p.nread + 2, state := HeaderFieldStart), [Noted(StatusComplete)], 0, Running, 2)
    ensures Feed(hc, p, 0, [LF]) == Shorter(Feed(hc, p, 0, CRLF), p.nread + 1).(events := [])
  {
    hide Step, Feed;
    FeedOne(hc, p, 0, LF);
    StatusFeed(hc, p);
    FeedTwo(hc, p, 0, CR, LF);
    StepStatusLineEnd(hc, Step(hc, p, 0, CR).p);
  }

  // A line that begins with a blank goes on with the value of the line before it: its bytes are reported as
  // more of the value, and mean nothing else where the value of that line meant nothing.
  lemma ContinuationIsRead(hc: HeadersCallback, p: Parser, blank: seq<Byte>, value: seq<Byte>)
    requires p.errno.Ok? && p.state.HeaderValueLws? && p.headerState.General?
    requires blank != [] && Blank(blank) && value != [] && IsValue(value)
    requires p.nread + |blank| + |value| + 2 <= HTTP_MAX_HEADER_SIZE
    ensures var text := blank + value + CRLF;
            var r := Feed(hc, p, 0, text);
            && r == Fed(r.p, Bytes(Value, value), 0, Running, |text|)
            && r.p == p.(nread := p.nread + |text|, index := r.p.index)
  {
    hide Feed, Step, IsValue, Blank;
    BlankParts(blank);
    StepContinues(hc, p, blank[0]);
    FeedFront(hc, p, 0, blank);
    var q := Step(hc, p, 0, blank[0]).p;
    FeedBlank(hc, q, 0, blank[1..]);
    var s := Feed(hc, p, 0, blank);
    FeedValue(hc, s.p, 0, value);
    GeneralValue(s.p, value, Feed(hc, s.p, 0, value).p);
    FeedConcat(hc, p, 0, blank, value);
    var t := Feed(hc, p, 0, blank + value);
    FeedLineEnd(hc, t.p, t.pend);
    FeedConcat(hc, p, 0, blank + value, CRLF);
    assert [] + Bytes(Value, value) + [] == Bytes(Value, value);
  }

  lemma BlankParts(s: seq<Byte>)
    requires s != [] && Blank(s)
    ensures Blank(s[1..]) && (s[0] == ' ' || s[0] == '\t')
  {
  }

  lemma StepContinues(hc: HeadersCallback, p: Parser, ch: Byte)
    requires p.errno.Ok? && p.state.HeaderValueLws? && p.nread < HTTP_MAX_HEADER_SIZE && (ch == ' ' || ch == '\t')
    ensures Step(hc, p, 0, ch) == Fed(p.(nread := p.nread + 1, state := HeaderValueStart), [], 0, Running, 1)
  {
  }

  lemma GeneralValue(p: Parser, value: seq<Byte>, q: Parser)
    requires p.headerState.General? && AfterValue(p, value, q)
    ensures q.headerState.General? && Marked(p.flags, General) == p.flags
    ensures q == p.(nread := p.nread + |value|, state := HeaderValue, index := q.index)
  {
  }

  // A request line without a version is one of HTTP/0.9.
  lemma ShortLineIsRead(hc: HeadersCallback, p: Parser, m: Method, path: seq<Byte>)
    requires p.errno.Ok? && p.state.StartReq? && ValidTarget(Path(path), false) && !m.CONNECT?
    requires p.nread + |MethodText(m)| + 1 + |path| + 2 <= HTTP_MAX_HEADER_SIZE
    ensures var text := MethodText(m) + [' '] + path + CRLF;
            var r := Feed(hc, p, 0, text);
            && r == Fed(r.p, [Noted(MessageBegin)] + Bytes(Url, path), 0, Running, |text|)
            && r.p == p.(nread := p.nread + |text|, state := HeaderFieldStart, flags := NO_FLAGS,
                         contentLength := ULLONG_MAX, meth := m, major := 0, minor := 9, index := r.p.index)
  {
    hide Feed, Step, ValidTarget, MethodText, AtTargetEnd, TargetText;
    var w := MethodText(m) + [' '];
    PathText(path);
    MethodIsRead(hc, p, m);
    var r := Feed(hc, p, 0, w);
    TargetIsRead(hc, r.p, Path(path));
    FeedConcat(hc, p, 0, w, path);
    var q := Feed(hc, p, 0, w + path);
    StepShortEnd(hc, q.p, q.pend);
    FeedTwo(hc, q.p, q.pend, CR, LF);
    StepRequestLineEnd(hc, Step(hc, q.p, q.pend, CR).p);
    FeedConcat(hc, p, 0, w + path, CRLF);
  }

  lemma PathText(path: seq<Byte>)
    ensures TargetText(Path(path)) == path
  {
  }

  lemma StepShortEnd(hc: HeadersCallback, p: Parser, pend: nat)
    requires p.errno.Ok? && AtTargetEnd(p.state) && p.nread < HTTP_MAX_HEADER_SIZE
    ensures Step(hc, p, pend, CR)
         == Fed(p.(nread := p.nread + 1, state := ReqLineAlmostDone, major := 0, minor := 9), [], 0, Running, 1)
  {
    hide Switch;
    ShortEndSwitch(hc, p.(nread := p.nread + 1));
  }

  lemma ShortEndSwitch(hc: HeadersCallback, q: Parser)
    requires AtTargetEnd(q.state)
    ensures Switch(hc, q, CR, 1) == Flushing(q.(major := 0, minor := 9, state := ReqLineAlmostDone), Url)
  {
  }

  // Header lines behind the last chunk; those that speak of the connection still decide what comes next.
  lemma TrailerIsRead(hc: HeadersCallback, p: Parser, last: seq<Byte>, ext: seq<Byte>, hs: seq<HeaderLine>)
    requires AtChunk(p) && ValidSize(last, ext, 0) && forall h <- hs :: ValidLine(h)
    requires |LinesText(hs)| + 2 <= HTTP_MAX_HEADER_SIZE
    ensures var f := Flagged(p.flags.(trailing := true), hs);
            var r := Feed(hc, p, 0, (last + ext + CRLF) + (LinesText(hs) + CRLF));
            && r.status.Running? && r.pend == 0 && r.p.errno.Ok?
            && r.events == LinesEvents(hs) + [Noted(MessageComplete)]
            && r.p.state == NextStart(p.(flags := f))
  {
    hide Feed, Step, ValidSize, ValidLine, Flagged, Length, LinesText, LinesEvents, NewMessage;
    var line := last + ext + CRLF;
    FeedSizeLine(hc, p, last, ext, 0);
    var s := Feed(hc, p, 0, line).p;
    LinesAreRead(hc, s, hs);
    var t := Feed(hc, s, 0, LinesText(hs)).p;
    TrailingStays(s.flags, hs);
    TrailerEnds(hc, t);
    FeedConcat(hc, s, 0, LinesText(hs), CRLF);
    FeedConcat(hc, p, 0, line, LinesText(hs) + CRLF);
    assert [] + (LinesEvents(hs) + [Noted(MessageComplete)]) == LinesEvents(hs) + [Noted(MessageComplete)];
    ChunkedNext(t);
  }

  lemma ChunkedNext(p: Parser)
    requires p.flags.chunked
    ensures NewMessage(p) == NextStart(p)
  {
  }

  lemma {:induction false} TrailingStays(f: Flags, hs: seq<HeaderLine>)
    ensures Flagged(f, hs).trailing == f.trailing && (f.chunked ==> Flagged(f, hs).chunked)
    decreases |hs|
  {
    hide IsWord, SameWord;
    if hs != [] { TrailingStays(f, hs[..|hs| - 1]); }
  }

  lemma TrailerEnds(hc: HeadersCallback, p: Parser)
    requires Between(p) && p.flags.trailing && p.flags.chunked && p.nread + 2 <= HTTP_MAX_HEADER_SIZE
    ensures Feed(hc, p, 0, CRLF)
         == Fed(p.(nread := p.nread + 2, state := NewMessage(p)), [Noted(MessageComplete)], 0, Running, 2)
  {
    hide Feed, Step, NewMessage;
    var q := p.(state := HeaderFieldStart);
    if p.state.HeaderValueLws? { LineBegins(hc, p, 0, CRLF); } else { assert q == p; }
    FeedTwo(hc, q, 0, CR, LF);
    StepBlankLine(hc, q);
    StepTrailed(hc, Step(hc, q, 0, CR).p);
    SameEnd(p, Step(hc, q, 0, CR).p);
  }

  lemma StepTrailed(hc: HeadersCallback, p: Parser)
    requires p.errno.Ok? && p.state.HeadersAlmostDone? && p.nread < HTTP_MAX_HEADER_SIZE && p.flags.trailing
    ensures Step(hc, p, 0, LF)
         == Fed(p.(nread := p.nread + 1, state := NewMessage(p)), [Noted(MessageComplete)], 0, Running, 1)
  {
  }

  // A parser of both kinds takes what begins with "HTTP/" for a response, like a parser of responses.
  lemma ResponseForBoth(hc: HeadersCallback, p: Parser)
    requires p.errno.Ok? && p.state.StartReqOrRes? && p.nread + 5 <= HTTP_MAX_HEADER_SIZE
    ensures Feed(hc, p, 0, ['H'] + TTP_SLASH)
         == Fed(p.(nread := p.nread + 5, state := ResFirstHttpMajor, flags := NO_FLAGS, contentLength := ULLONG_MAX,
                   ptype := Response), [Noted(MessageBegin)], 0, Running, 5)
  {
    hide Feed, Step;
    var h: seq<Byte> := ['H'];
    var t: seq<Byte> := ['T'];
    var tp: seq<Byte> := ['T', 'P', '/'];
    StepBothH(hc, p);
    FeedOne(hc, p, 0, 'H');
    var r := Step(hc, p, 0, 'H');
    StepBothT(hc, r.p);
    FeedOne(hc, r.p, 0, 'T');
    var s := Step(hc, r.p, 0, 'T');
    FeedTp(hc, s.p);
    FeedConcat(hc, r.p, 0, t, tp);
    FeedConcat(hc, p, 0, h, TTP_SLASH);
    assert t + tp == TTP_SLASH;
    assert [Noted(MessageBegin)] + ([] + []) == [Noted(MessageBegin)];
  }

  lemma StepBothH(hc: HeadersCallback, p: Parser)
    requires p.errno.Ok? && p.state.StartReqOrRes? && p.nread < HTTP_MAX_HEADER_SIZE
    ensures Step(hc, p, 0, 'H')
         == Fed(p.(nread := p.nread + 1, state := ResOrRespH, flags := NO_FLAGS, contentLength := ULLONG_MAX),
                [Noted(MessageBegin)], 0, Running, 1)
  {
  }

  lemma StepBothT(hc: HeadersCallback, p: Parser)
    requires p.errno.Ok? && p.state.ResOrRespH? && p.nread < HTTP_MAX_HEADER_SIZE
    ensures Step(hc, p, 0, 'T') == Fed(p.(nread := p.nread + 1, state := ResHT, ptype := Response), [], 0, Running, 1)
  {
  }

  lemma FeedTp(hc: HeadersCallback, p: Parser)
    requires p.errno.Ok? && p.state.ResHT? && p.nread + 3 <= HTTP_MAX_HEADER_SIZE
    ensures Feed(hc, p, 0, ['T', 'P', '/'])
         == Fed(p.(nread := p.nread + 3, state := ResFirstHttpMajor), [], 0, Running, 3)
  {
    hide Feed, Step, HttpLetter;
    HttpLetters();
    StepHttp(hc, p, 0, 'T');
    var q := p.(nread := p.nread + 1, state := ResHTT);
    StepHttp(hc, q, 0, 'P');
    StepHttp(hc, q.(nread := q.nread + 1, state := ResHTTP), 0, '/');
    FeedOne(hc, p, 0, 'T');
    FeedTwo(hc, q, 0, 'P', '/');
    var t: seq<Byte>, ps: seq<Byte> := ['T'], ['P', '/'];
    FeedConcat(hc, p, 0, t, ps);
    assert t + ps == ['T', 'P', '/'];
  }

  // Where the letters of "HTTP/" are expected, no other byte is let through.
  function Wanted(s: State): (c: Byte) {
    match s
    case ReqHttpStart => 'H' case ReqHttpH | ReqHttpHT | ResH | ResHT => 'T'
    case ReqHttpHTT | ResHTT => 'P' case _ => '/'
  }

  predicate InHttp(s: State) {
    || s.ReqHttpStart? || s.ReqHttpH? || s.ReqHttpHT? || s.ReqHttpHTT? || s.ReqHttpHTTP?
    || s.ResH? || s.ResHT? || s.ResHTT? || s.ResHTTP?
  }

  lemma OtherLetter(hc: HeadersCallback, p: Parser, ch: Byte)
    requires p.errno.Ok? && InHttp(p.state) && p.nread < HTTP_MAX_HEADER_SIZE
    requires ch != Wanted(p.state) && !(p.state.ReqHttpStart? && ch == ' ')
    ensures Step(hc, p, 0, ch).status.Failed?
  {
    if IsVersionPart(p.state) { OtherRequestLetter(hc, p, ch); } else { OtherResponseLetter(hc, p, ch); }
  }

  lemma OtherRequestLetter(hc: HeadersCallback, p: Parser, ch: Byte)
    requires p.errno.Ok? && InHttp(p.state) && p.nread < HTTP_MAX_HEADER_SIZE && IsVersionPart(p.state)
    requires ch != Wanted(p.state) && !(p.state.ReqHttpStart? && ch == ' ')
    ensures Step(hc, p, 0, ch).status.Failed?
  {
    hide Switch;
    OtherRequestSwitch(hc, p.(nread := p.nread + 1), ch);
  }

  lemma OtherRequestSwitch(hc: HeadersCallback, q: Parser, ch: Byte)
    requires InHttp(q.state) && IsVersionPart(q.state)
    requires ch != Wanted(q.state) && !(q.state.ReqHttpStart? && ch == ' ')
    ensures Switch(hc, q, ch, 1).flow.Fail?
  {
  }

  lemma OtherResponseLetter(hc: HeadersCallback, p: Parser, ch: Byte)
    requires p.errno.Ok? && InHttp(p.state) && p.nread < HTTP_MAX_HEADER_SIZE && !IsVersionPart(p.state)
    requires ch != Wanted(p.state)
    ensures Step(hc, p, 0, ch).status.Failed?
  {
  }
}
