/** The method automaton accepts the 26 method names and nothing else. */
module HttpMethods {
  import opened Wrappers
  import opened HttpTypes
  import opened HttpSwitch
  import opened HttpFeed

  // The candidate after the letters w, if the automaton has not given up on them.
  function Track(w: string): (r: Option<Method>)
    ensures r.Some? ==> |w| <= |MethodString(r.value)|
    decreases |w|
  {
    if w == [] then None
    else if |w| == 1 then (if w[0] as int < 256 then FirstMethod(w[0]) else None)
    else
      var i := |w| - 1;
      match Track(w[..i])
      case None => None
      case Some(m) => if w[i] as int < 256 then NextMethod(m, i, w[i]) else None
  }

  // The candidate on the way to m, after i of its letters.
  function Candidate(m: Method, i: nat): Method {
    match m
    case CHECKOUT => if i < 2 then CONNECT else m
    case COPY => if i < 3 then CONNECT else m
    case MOVE => if i < 2 then MKCOL else m
    case MERGE => if i < 2 then MKCOL else m
    case MSEARCH => if i < 2 then MKCOL else m
    case MKACTIVITY => if i < 3 then MKCOL else m
    case SEARCH => if i < 2 then SUBSCRIBE else m
    case PROPFIND => if i < 2 then POST else m
    case PUT => if i < 2 then POST else m
    case PATCH => if i < 2 then POST else m
    case PURGE => if i < 2 then POST else if i < 3 then PUT else m
    case UNSUBSCRIBE => if i < 3 then UNLOCK else m
    case PROPPATCH => if i < 2 then POST else if i < 5 then PROPFIND else m
    case _ => m
  }

  lemma CandidateStep(m: Method, i: nat)
    requires 1 <= i < |MethodString(m)|
    ensures i <= |MethodString(Candidate(m, i))|
    ensures NextMethod(Candidate(m, i), i, MethodString(m)[i]) == Some(Candidate(m, i + 1))
  {
  }

  lemma CandidateEnds(m: Method)
    ensures |MethodString(m)| > 1 && Candidate(m, |MethodString(m)|) == m
    ensures FirstMethod(MethodString(m)[0]) == Some(Candidate(m, 1))
  {
  }

  lemma NamesAreBytes(m: Method)
    ensures forall c <- MethodString(m) :: 'A' <= c <= 'Z' || c == '-'
  {
  }

  // A candidate is only changed into one that starts with the same letters.
  lemma ChangeKeepsPrefix(m: Method, i: nat, ch: Byte)
    requires i <= |MethodString(m)|
    ensures match NextMethod(m, i, ch)
            case Some(n) => i < |MethodString(n)| && MethodString(n)[..i] == MethodString(m)[..i]
            case None => true
  {
  }

  // The letters consumed so far are a prefix of the current candidate.
  lemma {:induction false} TrackIsPrefix(w: string)
    ensures Track(w).Some? ==> w != [] && w <= MethodString(Track(w).value)
    decreases |w|
  {
    hide MethodString, FirstMethod, NextMethod;
    if |w| > 1 {
      TrackIsPrefix(w[..|w| - 1]);
      if Track(w).Some? {
        ChangeKeepsPrefix(Track(w[..|w| - 1]).value, |w| - 1, w[|w| - 1]);
      }
      assert w == w[..|w| - 1] + [w[|w| - 1]];
    }
  }

  lemma {:induction false} TrackFollows(m: Method, i: nat)
    requires 1 <= i <= |MethodString(m)|
    ensures Track(MethodString(m)[..i]) == Some(Candidate(m, i))
    decreases i
  {
    hide MethodString, FirstMethod, NextMethod, Candidate;
    var w := MethodString(m);
    CandidateEnds(m);
    NamesAreBytes(m);
    assert w[i - 1] in w;
    if i > 1 {
      TrackFollows(m, i - 1);
      CandidateStep(m, i - 1);
      assert w[..i][..i - 1] == w[..i - 1];
    }
  }

  // A name is a full match exactly for the words the automaton ends on.
  lemma TrackIsExact(w: string, m: Method)
    ensures Track(w) == Some(m) && |w| == |MethodString(m)| <==> w == MethodString(m)
  {
    hide MethodString, FirstMethod, NextMethod, Candidate;
    TrackIsPrefix(w);
    CandidateEnds(m);
    TrackFollows(m, |MethodString(m)|);
    assert MethodString(m)[..|MethodString(m)|] == MethodString(m);
  }

  // What the parser does with one byte of a method.
  function MethodByte(p: Parser, ch: Byte): Option<Parser>
    requires p.index <= |MethodString(p.meth)|
  {
    if ch == ' ' && p.index == |MethodString(p.meth)| then
      Some(p.(nread := p.nread + 1, index := p.index + 1, state := ReqSpacesBeforeUrl))
    else if ch == NUL then None
    else match NextMethod(p.meth, p.index, ch)
      case Some(m) => Some(p.(nread := p.nread + 1, meth := m, index := p.index + 1))
      case None => None
  }

  predicate InMethod(p: Parser) {
    p.errno.Ok? && p.state.ReqMethod? && p.index <= |MethodString(p.meth)| && p.nread < HTTP_MAX_HEADER_SIZE
  }

  lemma StepMethod(hc: HeadersCallback, p: Parser, pend: nat, ch: Byte)
    requires InMethod(p)
    ensures match MethodByte(p, ch)
            case Some(q) => Step(hc, p, pend, ch) == Fed(q, [], pend, Running, 1)
            case None => Step(hc, p, pend, ch).status.Failed?
  {
    hide NextMethod, MethodString, SwitchHeader, SwitchBody, SwitchVersion, SwitchResponse;
  }

  lemma StepFirst(hc: HeadersCallback, p: Parser, pend: nat, ch: Byte)
    requires p.errno.Ok? && p.state.StartReq? && p.nread < HTTP_MAX_HEADER_SIZE && ch != CR && ch != LF
    ensures var r := Step(hc, p, pend, ch);
            match FirstMethod(ch)
            case Some(m) =>
              && r.status.Running? && r.p.errno.Ok? && r.p.state.ReqMethod? && r.p.nread == p.nread + 1
              && r.p.meth == m && r.p.index == 1 && r.events == [Noted(MessageBegin)] && r.pend == pend && Begun(p, r.p)
            case None => r.status.Failed?
  {
    hide MethodString;
  }

  // A new request: nothing of an earlier one is left but the version and the status.
  predicate Begun(p: Parser, q: Parser) {
    q == p.(nread := q.nread, state := q.state, meth := q.meth, index := q.index, flags := NO_FLAGS,
            contentLength := ULLONG_MAX)
  }

  // The parser's candidate and index are Track's.
  lemma {:induction false} FeedMethod(hc: HeadersCallback, p: Parser, pend: nat, w: seq<Byte>)
    requires p.errno.Ok? && p.state.StartReq? && p.nread + |w| <= HTTP_MAX_HEADER_SIZE
    requires w != [] && w[0] != CR && w[0] != LF && ' ' !in w
    ensures var r := Feed(hc, p, pend, w);
            match Track(w)
            case Some(m) =>
              && r.status.Running? && r.p.errno.Ok? && r.p.state.ReqMethod? && r.p.nread == p.nread + |w|
              && r.p.meth == m && r.p.index == |w| && r.events == [Noted(MessageBegin)] && r.pend == pend
              && Begun(p, r.p)
            case None => r.status.Failed?
    decreases |w|
  {
    hide Step, MethodString, FirstMethod, NextMethod;
    var i := |w| - 1;
    if i == 0 {
      FeedOne(hc, p, pend, w[0]);
      StepFirst(hc, p, pend, w[0]);
      assert w == [w[0]];
    } else {
      FeedMethod(hc, p, pend, w[..i]);
      if Track(w[..i]).Some? {
        var r := Feed(hc, p, pend, w[..i]);
        StepMethod(hc, r.p, r.pend, w[i]);
        NulIsNoLetter(Track(w[..i]).value, i, w[i]);
      }
    }
  }

  lemma NulIsNoLetter(m: Method, i: nat, ch: Byte)
    requires i <= |MethodString(m)|
    ensures ch == NUL || ch == ' ' ==> NextMethod(m, i, ch).None?
  {
    hide MethodString;
    match NextMethod(m, i, ch)
    case Some(n) => NamesAreBytes(n); assert ch in MethodString(n);
    case None =>
  }

  // The word before the first space is accepted if and only if it is one of the 26 names, and
  // the method stored is the one of that name.
  lemma MethodIsExact(hc: HeadersCallback, p: Parser, pend: nat, w: seq<Byte>)
    requires p.errno.Ok? && p.state.StartReq? && p.nread + |w| + 1 <= HTTP_MAX_HEADER_SIZE
    requires w != [] && w[0] != CR && w[0] != LF && ' ' !in w
    ensures var r := Feed(hc, p, pend, w + [' ']);
            && (r.status.Running? <==> exists m: Method :: MethodString(m) == w)
            && (r.status.Running? ==>
                  && r.p.state.ReqSpacesBeforeUrl? && MethodString(r.p.meth) == w && r.p.nread == p.nread + |w| + 1
                  && Begun(p, r.p) && r.events == [Noted(MessageBegin)] && r.pend == pend)
  {
    hide Step, MethodString, FirstMethod, NextMethod, Track;
    var sp: Byte := ' ';
    var r := Feed(hc, p, pend, w);
    FeedMethod(hc, p, pend, w);
    assert (w + [sp])[..|w|] == w;
    TrackIsPrefix(w);
    forall m: Method {
      TrackIsExact(w, m);
    }
    if Track(w).Some? {
      StepMethod(hc, r.p, r.pend, sp);
      NulIsNoLetter(r.p.meth, r.p.index, sp);
    }
  }

  // A parser for both kinds of message decides by the first letter, and after an H by the second.
  lemma StepEither(hc: HeadersCallback, p: Parser, pend: nat, ch: Byte)
    requires p.errno.Ok? && p.state.StartReqOrRes? && p.nread < HTTP_MAX_HEADER_SIZE && ch != CR && ch != LF
    ensures var r := Step(hc, p, pend, ch);
            if ch == 'H' then
              r.status.Running? && r.p.errno.Ok? && r.p.state.ResOrRespH? && r.p.nread == p.nread + 1
                  && r.events == [Noted(MessageBegin)]
            else match FirstMethod(ch)
              case Some(m) =>
                && r.status.Running? && r.p.errno.Ok? && r.p.state.ReqMethod? && r.p.nread == p.nread + 1
                && r.p.meth == m && r.p.index == 1 && r.events == [Noted(MessageBegin)]
              case None => r.status.Failed?
  {
    hide MethodString, Switch;
    var q := Tick(p);
    EitherSwitch(hc, q, ch);
    if ch != 'H' {
      var s := q.(flags := NO_FLAGS, contentLength := ULLONG_MAX, ptype := Request, state := StartReq);
      StartSwitch(hc, s, ch);
      assert Exec(hc, q, pend, ch) == Exec(hc, s, pend, ch).(events := [] + Exec(hc, s, pend, ch).events);
    }
  }

  lemma EitherSwitch(hc: HeadersCallback, q: Parser, ch: Byte)
    requires q.state.StartReqOrRes? && ch != CR && ch != LF
    ensures var s := q.(flags := NO_FLAGS, contentLength := ULLONG_MAX);
            Switch(hc, q, ch, 1) == if ch == 'H' then Notifying(s.(state := ResOrRespH), MessageBegin)
                                    else Redo(s.(ptype := Request, state := StartReq))
  {
  }

  lemma StartSwitch(hc: HeadersCallback, s: Parser, ch: Byte)
    requires s.state.StartReq?
    ensures Switch(hc, s, ch, 1) == OnStartReq(s, ch)
  {
    hide OnStartReq;
  }

  lemma StepAfterH(hc: HeadersCallback, p: Parser, pend: nat, ch: Byte)
    requires p.errno.Ok? && p.state.ResOrRespH? && p.nread < HTTP_MAX_HEADER_SIZE
    ensures var r := Step(hc, p, pend, ch);
            && (ch == 'E' || ch == 'T' ==>
                 r.status.Running? && r.p.errno.Ok? && r.p.nread == p.nread + 1 && r.events == [])
            && (ch == 'E' ==> r.p.state.ReqMethod? && r.p.meth == HEAD && r.p.index == 2)
            && (ch == 'T' ==> r.p.state.ResHT?)
            && (ch != 'E' && ch != 'T' ==> r.status.Failed?)
  {
  }

  // In the version of a status line, before the first space.
  predicate InStatusVersion(s: State) {
    || s.ResHT? || s.ResHTT? || s.ResHTTP? || s.ResFirstHttpMajor? || s.ResHttpMajor? || s.ResFirstHttpMinor?
    || s.ResHttpMinor?
  }

  lemma StepStatusVersion(hc: HeadersCallback, p: Parser, pend: nat, ch: Byte)
    requires InStatusVersion(p.state)
    ensures var r := Step(hc, p, pend, ch);
            r.status.Running? ==> !r.p.state.ReqSpacesBeforeUrl? && (ch != ' ' ==> InStatusVersion(r.p.state))
  {
    hide Digit, Switch, SwitchResponse;
    if Tick(p).errno.Ok? {
      StatusVersionSwitch(hc, Tick(p), ch);
      StatusVersionPass(Tick(p), ch);
    }
  }

  lemma StatusVersionSwitch(hc: HeadersCallback, p: Parser, ch: Byte)
    requires InStatusVersion(p.state)
    ensures Switch(hc, p, ch, 1) == SwitchResponse(p, ch)
  {
    hide SwitchResponse;
  }

  lemma StatusVersionPass(p: Parser, ch: Byte)
    requires InStatusVersion(p.state)
    ensures var o := SwitchResponse(p, ch);
            && !o.flow.Again?
            && (o.flow.Next? ==> !o.next.state.ReqSpacesBeforeUrl? && (ch != ' ' ==> InStatusVersion(o.next.state)))
  {
    hide Digit;
  }

  lemma OnlyHead(m: Method)
    ensures |MethodString(m)| > 1 && (MethodString(m)[0] == 'H' ==> m == HEAD)
    ensures MethodString(HEAD) == "HEAD"
  {
  }

  lemma TrackHead()
    ensures FirstMethod('H') == Some(HEAD) && NextMethod(HEAD, 1, 'E') == Some(HEAD)
  {
  }

  // Where such a parser is after the letters w.
  lemma {:induction false} FeedEither(hc: HeadersCallback, p: Parser, pend: nat, w: seq<Byte>)
    requires p.errno.Ok? && p.state.StartReqOrRes? && p.nread + |w| <= HTTP_MAX_HEADER_SIZE
    requires w != [] && w[0] != CR && w[0] != LF && ' ' !in w
    ensures var r := Feed(hc, p, pend, w);
            if w[0] == 'H' && |w| == 1 then r.status.Running? && r.p.errno.Ok? && r.p.state.ResOrRespH?
                && r.p.nread == p.nread + 1
            else if w[0] == 'H' && w[1] != 'E' then r.status.Running? ==> w[1] == 'T' && InStatusVersion(r.p.state)
            else match Track(w)
              case Some(m) =>
                && r.status.Running? && r.p.errno.Ok? && r.p.state.ReqMethod? && r.p.nread == p.nread + |w|
                && r.p.meth == m && r.p.index == |w|
              case None => r.status.Failed?
    decreases |w|
  {
    hide Step, MethodString, FirstMethod, NextMethod, InStatusVersion;
    var i := |w| - 1;
    TrackHead();
    if i == 0 {
      FeedOne(hc, p, pend, w[0]);
      StepEither(hc, p, pend, w[0]);
      assert w == [w[0]];
    } else {
      FeedEither(hc, p, pend, w[..i]);
      var r := Feed(hc, p, pend, w[..i]);
      if w[0] == 'H' && i == 1 {
        StepAfterH(hc, r.p, r.pend, w[1]);
        StartsStatus();
        assert Track(w[..1]) == Some(HEAD);
      } else if w[0] == 'H' && w[1] != 'E' {
        if r.status.Running? { StepStatusVersion(hc, r.p, r.pend, w[i]); }
      } else if Track(w[..i]).Some? {
        StepMethod(hc, r.p, r.pend, w[i]);
        NulIsNoLetter(Track(w[..i]).value, i, w[i]);
      }
    }
  }

  lemma StartsStatus()
    ensures InStatusVersion(ResHT)
  {
  }

  // It, too, takes the word before the first space for a method if and only if it is one of the 26
  // names; a word that starts a status line instead does not lead to a URL.
  lemma MethodIsExactForBoth(hc: HeadersCallback, p: Parser, pend: nat, w: seq<Byte>)
    requires p.errno.Ok? && p.state.StartReqOrRes? && p.nread + |w| + 1 <= HTTP_MAX_HEADER_SIZE
    requires w != [] && w[0] != CR && w[0] != LF && ' ' !in w
    ensures var r := Feed(hc, p, pend, w + [' ']);
            && (r.status.Running? && r.p.state.ReqSpacesBeforeUrl? <==> exists m: Method :: MethodString(m) == w)
            && (r.status.Running? && r.p.state.ReqSpacesBeforeUrl? ==> MethodString(r.p.meth) == w)
  {
    hide Step, MethodString, FirstMethod, NextMethod, Track, InStatusVersion;
    var sp: Byte := ' ';
    var r := Feed(hc, p, pend, w);
    FeedEither(hc, p, pend, w);
    FeedSnoc(hc, p, pend, w, sp);
    TrackIsPrefix(w);
    forall m: Method ensures Track(w) == Some(m) && |w| == |MethodString(m)| <==> w == MethodString(m) {
      TrackIsExact(w, m);
    }
    forall m: Method ensures |MethodString(m)| > 1 && (MethodString(m)[0] == 'H' ==> m == HEAD) {
      OnlyHead(m);
    }
    OnlyHead(HEAD);
    if w[0] == 'H' && |w| == 1 {
      StepAfterH(hc, r.p, r.pend, sp);
    } else if w[0] == 'H' && w[1] != 'E' {
      if r.status.Running? { StepStatusVersion(hc, r.p, r.pend, sp); }
    } else if Track(w).Some? {
      StepMethod(hc, r.p, r.pend, sp);
      NulIsNoLetter(r.p.meth, r.p.index, sp);
    }
  }
}
