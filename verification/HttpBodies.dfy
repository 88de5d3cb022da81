/** From the header lines over the blank line to the end of the body: how the length of a body is told. */
module HttpBodies {
  import opened Wrappers
  import opened HttpTypes
  import opened HttpSwitch
  import opened HttpFeed
  import opened HttpMarks
  import opened HttpValues
  import opened HttpChunked

  // After a header line the parser waits for a continuation; anything else begins the next line.
  lemma LineBegins(hc: HeadersCallback, p: Parser, pend: nat, s: seq<Byte>)
    requires p.errno.Ok? && p.state.HeaderValueLws? && s != [] && s[0] != ' ' && s[0] != '\t'
    requires p.nread < HTTP_MAX_HEADER_SIZE
    ensures Feed(hc, p, pend, s) == Feed(hc, p.(state := HeaderFieldStart), pend, s)
  {
    hide Feed, Step;
    FeedFront(hc, p, pend, s);
    FeedFront(hc, p.(state := HeaderFieldStart), pend, s);
    StepBegins(hc, p, pend, s[0]);
  }

  lemma StepBegins(hc: HeadersCallback, p: Parser, pend: nat, ch: Byte)
    requires p.errno.Ok? && p.state.HeaderValueLws? && ch != ' ' && ch != '\t' && p.nread < HTTP_MAX_HEADER_SIZE
    ensures Step(hc, p, pend, ch) == Step(hc, p.(state := HeaderFieldStart), pend, ch)
  {
    hide SwitchHeader, Switch;
    var q := p.(nread := p.nread + 1);
    LwsSwitch(hc, q, ch);
    var s := Exec(hc, q.(state := HeaderFieldStart), pend, ch);
    assert [] + s.events == s.events;
  }

  lemma LwsSwitch(hc: HeadersCallback, q: Parser, ch: Byte)
    requires q.state.HeaderValueLws? && ch != ' ' && ch != '\t'
    ensures Switch(hc, q, ch, 1) == Redo(q.(state := HeaderFieldStart))
  {
  }

  function LinesText(hs: seq<HeaderLine>): seq<Byte> {
    if hs == [] then [] else LinesText(hs[..|hs| - 1]) + LineText(hs[|hs| - 1])
  }

  function LinesEvents(hs: seq<HeaderLine>): seq<Event> {
    if hs == [] then []
    else var h := hs[|hs| - 1]; LinesEvents(hs[..|hs| - 1]) + (Bytes(Field, h.name) + Bytes(Value, h.value))
  }

  // What all lines together mean; a later length replaces an earlier one.
  function Flagged(f: Flags, hs: seq<HeaderLine>): Flags {
    if hs == [] then f else FlagsWith(Flagged(f, hs[..|hs| - 1]), hs[|hs| - 1])
  }

  function Length(n: nat, hs: seq<HeaderLine>): nat {
    if hs == [] then n else LengthWith(Length(n, hs[..|hs| - 1]), hs[|hs| - 1])
  }

  // Behind the first line of a message, or behind a header line.
  predicate Between(p: Parser) { p.errno.Ok? && (p.state.HeaderFieldStart? || p.state.HeaderValueLws?) }

  predicate LinesRead(p: Parser, hs: seq<HeaderLine>, q: Parser) {
    && q == p.(nread := p.nread + |LinesText(hs)|, state := q.state, headerState := q.headerState, index := q.index,
               flags := Flagged(p.flags, hs), contentLength := Length(p.contentLength, hs))
    && Between(q)
  }

  lemma NameBegins(h: HeaderLine)
    requires ValidLine(h)
    ensures LineText(h) != [] && LineText(h)[0] != ' ' && LineText(h)[0] != '\t'
  {
    assert LineText(h)[0] == h.name[0];
  }

  lemma {:induction false} LinesAreRead(hc: HeadersCallback, p: Parser, hs: seq<HeaderLine>)
    requires AtLine(p) && (forall h <- hs :: ValidLine(h)) && p.nread + |LinesText(hs)| <= HTTP_MAX_HEADER_SIZE
    ensures var r := Feed(hc, p, 0, LinesText(hs));
            r == Fed(r.p, LinesEvents(hs), 0, Running, |LinesText(hs)|) && LinesRead(p, hs, r.p)
    decreases |hs|
  {
    hide Step, ValidLine, LineText, FlagsWith, LengthWith;
    if hs != [] {
      var front, h := hs[..|hs| - 1], hs[|hs| - 1];
      assert h in hs && forall g <- front :: g in hs;
      LinesAreRead(hc, p, front);
      var r := Feed(hc, p, 0, LinesText(front));
      FeedConcat(hc, p, 0, LinesText(front), LineText(h));
      NameBegins(h);
      hide Feed;
      if r.p.state.HeaderValueLws? {
        LineBegins(hc, r.p, 0, LineText(h));
      }
      LineIsRead(hc, r.p.(state := HeaderFieldStart), h);
    }
  }

  lemma StepBlankLine(hc: HeadersCallback, p: Parser)
    requires AtLine(p) && p.nread < HTTP_MAX_HEADER_SIZE
    ensures Step(hc, p, 0, CR) == Fed(p.(nread := p.nread + 1, state := HeadersAlmostDone), [], 0, Running, 1)
  {
  }

  // What on_headers_complete is shown.
  function Shown(p: Parser, n: nat): Parser {
    p.(nread := p.nread + n, state := HeadersDone, upgrade := p.flags.upgrade || p.meth.CONNECT?)
  }

  // How the parser goes on behind the blank line, with the callback's answer in q.
  function Goes(q: Parser): Fed {
    var none := Fed(q.(state := NewMessage(q)), [Noted(HeadersComplete), Noted(MessageComplete)], 0, Running, 1);
    var body := Fed(q, [Noted(HeadersComplete)], 0, Running, 1);
    if q.upgrade then none.(status := Exited)
    else if q.flags.skipBody then none
    else if q.flags.chunked then body.(p := q.(state := ChunkSizeStart))
    else if q.contentLength == 0 then none
    else if q.contentLength != ULLONG_MAX then body.(p := q.(state := BodyIdentity))
    else if q.ptype.Request? || !MessageNeedsEof(q) then none
    else body.(p := q.(state := BodyIdentityEof))
  }

  lemma AlmostDoneSwitch(hc: HeadersCallback, p: Parser)
    requires p.state.HeadersAlmostDone? && !p.flags.trailing
    ensures var q := Shown(p, 0);
            Switch(hc, p, LF, 1).note == Some(HeadersComplete) && Switch(hc, p, LF, 1).flush.None?
            && (hc(q) == 0 ==> Switch(hc, p, LF, 1) == Redo(q).(note := Some(HeadersComplete)))
            && (hc(q) == 1 ==> Switch(hc, p, LF, 1)
                               == Redo(q.(flags := q.flags.(skipBody := true))).(note := Some(HeadersComplete)))
            && (hc(q) != 0 && hc(q) != 1 ==>
                 Switch(hc, p, LF, 1) == Err(q, CbHeadersComplete).(note := Some(HeadersComplete)))
  {
  }

  lemma DoneSwitch(hc: HeadersCallback, q: Parser)
    requires q.state.HeadersDone?
    ensures Switch(hc, q, LF, 1) == OnHeadersDone(q, LF)
  {
    hide OnHeadersDone;
  }

  lemma DoneOutcome(q: Parser)
    ensures var g := Goes(q.(nread := 0));
            && OnHeadersDone(q, LF) == Outcome(g.p, if g.status.Exited? then Exit else Next, None, 0, None, 0,
                                               if |g.events| == 2 then Some(MessageComplete) else None)
            && g == Fed(g.p, g.events, 0, if g.status.Exited? then Exited else Running, 1)
            && g.events == [Noted(HeadersComplete)] + (if |g.events| == 2 then [Noted(MessageComplete)] else [])
            && MarkOf(g.p.state).None?
  {
    hide MessageNeedsEof, ShouldKeepAlive;
  }

  lemma DoneExec(hc: HeadersCallback, q: Parser)
    requires q.state.HeadersDone?
    ensures var g := Goes(q.(nread := 0));
            Exec(hc, q, 0, LF) == g.(events := g.events[1..])
  {
    hide Goes, OnHeadersDone, Switch, MarkOf;
    DoneSwitch(hc, q);
    DoneOutcome(q);
  }

  lemma StepHeadersEnd(hc: HeadersCallback, p: Parser)
    requires p.errno.Ok? && p.state.HeadersAlmostDone? && !p.flags.trailing && p.nread < HTTP_MAX_HEADER_SIZE
    ensures var q := Shown(p, 1);
            var r := Step(hc, p, 0, LF);
            && (hc(q) == 0 ==> r == Goes(q.(nread := 0)))
            && (hc(q) == 1 ==> r == Goes(q.(nread := 0, flags := q.flags.(skipBody := true))))
            && (hc(q) != 0 && hc(q) != 1 ==>
                 r == Fed(q.(errno := CbHeadersComplete), [Noted(HeadersComplete)], 0, Failed, 0))
  {
    hide Switch, Goes, Exec;
    var t := p.(nread := p.nread + 1);
    AlmostDoneSwitch(hc, t);
    var q := Shown(p, 1);
    assert Shown(t, 0) == q;
    if hc(q) == 0 {
      HeadersExec(hc, t, q);
    } else if hc(q) == 1 {
      HeadersExec(hc, t, q.(flags := q.flags.(skipBody := true)));
    } else {
      FailsExec(hc, t, q);
    }
  }

  lemma HeadersExec(hc: HeadersCallback, t: Parser, q: Parser)
    requires t.state.HeadersAlmostDone? && q.state.HeadersDone?
    requires Switch(hc, t, LF, 1) == Redo(q).(note := Some(HeadersComplete))
    ensures Exec(hc, t, 0, LF) == Goes(q.(nread := 0))
  {
    hide Switch, Goes;
    DoneExec(hc, q);
    GoesNoted(q.(nread := 0));
  }

  lemma FailsExec(hc: HeadersCallback, t: Parser, q: Parser)
    requires t.state.HeadersAlmostDone?
    requires Switch(hc, t, LF, 1) == Err(q, CbHeadersComplete).(note := Some(HeadersComplete))
    ensures Exec(hc, t, 0, LF) == Fed(q.(errno := CbHeadersComplete), [Noted(HeadersComplete)], 0, Failed, 0)
  {
    hide Switch;
  }

  lemma GoesNoted(q: Parser)
    ensures Goes(q).count == 1 && Goes(q).events != []
    ensures Goes(q).events == [Noted(HeadersComplete)] + Goes(q).events[1..]
  {
  }

  // The parser at the blank line, as the callback is shown it and with its answer.
  function Answered(p: Parser, answer: int): Parser {
    var q := Shown(p, 2);
    q.(nread := 0, flags := if answer == 1 then q.flags.(skipBody := true) else q.flags)
  }

  lemma BlankLineAtLine(hc: HeadersCallback, p: Parser)
    requires AtLine(p) && !p.flags.trailing && p.nread + 2 <= HTTP_MAX_HEADER_SIZE
    ensures var answer := hc(Shown(p, 2));
            var r := Feed(hc, p, 0, CRLF);
            && (answer == 0 || answer == 1 ==> r == Goes(Answered(p, answer)).(count := 2))
            && (answer != 0 && answer != 1 ==>
                  r == Fed(Shown(p, 2).(errno := CbHeadersComplete), [Noted(HeadersComplete)], 0, Failed, 1))
  {
    hide Feed, Step, Goes;
    FeedTwo(hc, p, 0, CR, LF);
    StepBlankLine(hc, p);
    var r := Step(hc, p, 0, CR);
    assert Shown(r.p, 1) == Shown(p, 2);
    StepHeadersEnd(hc, r.p);
    hide Shown;
    GoesNoted(Answered(p, 0));
    GoesNoted(Answered(p, 1));
    var s := Step(hc, r.p, 0, LF);
    assert [] + s.events == s.events;
  }

  lemma BlankLine(hc: HeadersCallback, p: Parser)
    requires Between(p) && !p.flags.trailing && p.nread + 2 <= HTTP_MAX_HEADER_SIZE
    ensures var answer := hc(Shown(p, 2));
            var r := Feed(hc, p, 0, CRLF);
            && (answer == 0 || answer == 1 ==> r == Goes(Answered(p, answer)).(count := 2))
            && (answer != 0 && answer != 1 ==>
                  r == Fed(Shown(p, 2).(errno := CbHeadersComplete), [Noted(HeadersComplete)], 0, Failed, 1))
  {
    hide Feed, Goes, Step;
    if p.state.HeaderValueLws? {
      LineBegins(hc, p, 0, CRLF);
      var q := p.(state := HeaderFieldStart);
      assert Shown(q, 2) == Shown(p, 2) && forall a :: Answered(q, a) == Answered(p, a);
      hide Shown, Answered;
      BlankLineAtLine(hc, q);
    } else {
      BlankLineAtLine(hc, p);
    }
  }

  // Whether another message may follow: the version and the Connection header decide.
  predicate Persists(p: Parser) { if p.major >= 1 && p.minor >= 1 then !p.flags.close else p.flags.keepAlive }

  // Where a parser goes on behind a message whose end is known.
  function NextStart(p: Parser): State {
    if !Persists(p) then Dead else if p.ptype.Request? then StartReq else StartRes
  }

  // Behind a message with these header lines.
  predicate Ended(p: Parser, q: Parser) {
    && q.errno.Ok? && q.state == NextStart(p) && q.nread <= 2 && q.ptype == p.ptype
  }

  // The header lines are over; the message has a body in the usual way, and on_headers_complete agrees.
  predicate AtBody(hc: HeadersCallback, p: Parser) {
    && Between(p) && !p.flags.trailing && !p.flags.upgrade && !p.flags.skipBody && !p.meth.CONNECT?
    && p.nread + 2 <= HTTP_MAX_HEADER_SIZE && hc(Shown(p, 2)) == 0
  }

  // A body whose length is given comes through as it is, and the message ends with its last byte.
  lemma SizedBodyIsRead(hc: HeadersCallback, p: Parser, b: seq<Byte>)
    requires AtBody(hc, p) && !p.flags.chunked && 0 < |b| == p.contentLength < ULLONG_MAX
    ensures var r := Feed(hc, p, 0, CRLF + b);
            && r == Fed(r.p, [Noted(HeadersComplete)] + Bytes(Body, b) + [Noted(MessageComplete)], 0, Running, |b| + 2)
            && Ended(p, r.p)
  {
    hide Feed, Between, Bytes;
    BlankLine(hc, p);
    BetweenIsOk(p);
    var q := Answered(p, 0).(state := BodyIdentity);
    FeedSized(hc, q, 0, b);
    FeedConcat(hc, p, 0, CRLF, b);
    assert [Noted(HeadersComplete)] + (Bytes(Body, b) + [Noted(MessageComplete)])
        == [Noted(HeadersComplete)] + Bytes(Body, b) + [Noted(MessageComplete)];
  }

  lemma BetweenIsOk(p: Parser)
    requires Between(p)
    ensures p.errno.Ok?
  {
  }

  // Without a body: the length is 0; or there is none, and the message is a request, or a response that
  // never has a body.
  lemma NoBodyIsRead(hc: HeadersCallback, p: Parser)
    requires AtBody(hc, p) && !p.flags.chunked
    requires || p.contentLength == 0
             || (p.contentLength == ULLONG_MAX
                 && (p.ptype.Request? || 100 <= p.status < 200 || p.status == 204 || p.status == 304))
    ensures var r := Feed(hc, p, 0, CRLF);
            && r == Fed(r.p, [Noted(HeadersComplete), Noted(MessageComplete)], 0, Running, 2) && Ended(p, r.p)
  {
    hide Feed, Between;
    BlankLine(hc, p);
    BetweenIsOk(p);
  }

  // A chunked body, whatever length is given beside it.
  lemma ChunkedBodyIsRead(hc: HeadersCallback, p: Parser, cs: seq<Chunk>, last: seq<Byte>, ext: seq<Byte>)
    requires AtBody(hc, p) && p.flags.chunked && (forall c <- cs :: ValidChunk(c)) && ValidSize(last, ext, 0)
    ensures var text := CRLF + Encode(cs, last, ext);
            var r := Feed(hc, p, 0, text);
            && r.status.Running? && r.pend == 0 && Ended(p, r.p)
            && r.events == [Noted(HeadersComplete)] + Bytes(Body, Payload(cs)) + [Noted(MessageComplete)]
  {
    hide Feed, Between, Bytes, Encode, Payload, ValidSize, ValidChunk;
    BlankLine(hc, p);
    var q := Answered(p, 0).(state := ChunkSizeStart);
    BetweenIsOk(p);
    ChunkedRoundTrip(hc, q, cs, last, ext);
    FeedConcat(hc, p, 0, CRLF, Encode(cs, last, ext));
    assert [Noted(HeadersComplete)] + (Bytes(Body, Payload(cs)) + [Noted(MessageComplete)])
        == [Noted(HeadersComplete)] + Bytes(Body, Payload(cs)) + [Noted(MessageComplete)];
  }

  // A response without a length lasts until the connection ends, which the empty call tells.
  lemma EndlessBodyIsRead(hc: HeadersCallback, p: Parser, b: seq<Byte>)
    requires AtBody(hc, p) && !p.flags.chunked && p.contentLength == ULLONG_MAX && !p.ptype.Request?
    requires !(100 <= p.status < 200 || p.status == 204 || p.status == 304)
    ensures var r := Feed(hc, p, 0, CRLF + b);
            && r == Fed(r.p, [Noted(HeadersComplete)] + Bytes(Body, b), |b|, Running, |b| + 2)
            && r.p.errno.Ok? && Call(hc, r.p, []) == Called(r.p, 0, [Noted(MessageComplete)])
  {
    hide Feed, Between, Bytes, Call, Answered, Shown, Goes;
    BlankLine(hc, p);
    BetweenIsOk(p);
    GoesUntilEof(p);
    var q := Answered(p, 0).(state := BodyIdentityEof);
    FeedUntilEof(hc, q, 0, b);
    FeedConcat(hc, p, 0, CRLF, b);
    EofEnds(hc, q);
  }

  lemma GoesUntilEof(p: Parser)
    requires p.errno.Ok? && !p.flags.upgrade && !p.flags.skipBody && !p.meth.CONNECT?
    requires !p.flags.chunked && p.contentLength == ULLONG_MAX && !p.ptype.Request?
    requires !(100 <= p.status < 200 || p.status == 204 || p.status == 304)
    ensures var q := Answered(p, 0);
            q.errno.Ok? && Goes(q) == Fed(q.(state := BodyIdentityEof), [Noted(HeadersComplete)], 0, Running, 1)
  {
  }

  lemma EofEnds(hc: HeadersCallback, q: Parser)
    requires q.errno.Ok? && q.state.BodyIdentityEof?
    ensures Call(hc, q, []) == Called(q, 0, [Noted(MessageComplete)])
  {
  }

  // The callback may say that there is no body, as for an answer to HEAD; any other answer is an error.
  lemma CallbackDecides(hc: HeadersCallback, p: Parser)
    requires Between(p) && !p.flags.trailing && p.nread + 2 <= HTTP_MAX_HEADER_SIZE
    ensures var answer := hc(Shown(p, 2));
            var r := Feed(hc, p, 0, CRLF);
            && (answer == 1 && !p.flags.upgrade && !p.meth.CONNECT? ==>
                  r == Fed(r.p, [Noted(HeadersComplete), Noted(MessageComplete)], 0, Running, 2) && Ended(p, r.p))
            && (answer != 0 && answer != 1 ==>
                  r == Fed(r.p, [Noted(HeadersComplete)], 0, Failed, 1) && r.p.errno == CbHeadersComplete)
  {
    hide Feed, Between;
    BlankLine(hc, p);
    BetweenIsOk(p);
  }

  // Behind the headers of an upgrade or of CONNECT the call returns, and nothing more is read.
  lemma UpgradeStops(hc: HeadersCallback, p: Parser, rest: seq<Byte>)
    requires Between(p) && !p.flags.trailing && p.nread + 2 <= HTTP_MAX_HEADER_SIZE
    requires (p.flags.upgrade || p.meth.CONNECT?) && (hc(Shown(p, 2)) == 0 || hc(Shown(p, 2)) == 1)
    ensures var r := Feed(hc, p, 0, CRLF + rest);
            && r == Fed(r.p, [Noted(HeadersComplete), Noted(MessageComplete)], 0, Exited, 2)
            && r.p.errno.Ok? && r.p.upgrade && (p.ptype.Request? ==> r.p.state == NextStart(p))
  {
    hide Feed, Between;
    BlankLine(hc, p);
    BetweenIsOk(p);
    FeedConcat(hc, p, 0, CRLF, rest);
  }
}
