/** Which cuts of the input are harmless, known at the cut; and one that is not. */
module HttpCut {
  import opened HttpTypes
  import opened HttpSwitch
  import opened HttpFeed
  import opened HttpSafety
  import opened HttpMarks
  import opened HttpMethods
  import opened HttpSplit

  // A run of data may be open here.
  predicate MayBeOpen(s: State) { MarkOf(s).Some? || IsBodyState(s) || s.ChunkDataAlmostDone? }

  lemma {:induction false} OpenExec(hc: HeadersCallback, p: Parser, pend: nat, ch: Byte)
    requires Safe(p, 1) && !IsBodyState(p.state) && (pend == 0 || MayBeOpen(p.state))
    ensures var r := Exec(hc, p, pend, ch); r.status.Running? ==> r.pend == 0 || MayBeOpen(r.p.state)
    decreases Rank(p.state)
  {
    hide Switch, Rank, Safe, MarkOf, IsBodyState;
    var o := Switch(hc, p, ch, 1);
    SafeAlmostDone(p);
    CoherentSwitch(hc, p, ch, 1);
    SafeSwitch(hc, p, ch, 1);
    if o.flow.Again? {
      OpenExec(hc, o.next, PendOf(p, o, pend), ch);
    }
  }

  lemma SafeAlmostDone(p: Parser)
    requires Safe(p, 1)
    ensures p.state.ChunkDataAlmostDone? ==> p.flags.chunked && p.contentLength == 0
  {
  }

  lemma OpenStep(hc: HeadersCallback, p: Parser, pend: nat, ch: Byte)
    requires Safe(p, 0) && (pend == 0 || MayBeOpen(p.state))
    ensures var r := Step(hc, p, pend, ch); r.status.Running? ==> r.pend == 0 || MayBeOpen(r.p.state)
  {
    hide Exec, Safe, MarkOf;
    SafeTick(p);
    if Tick(p).errno.Ok? {
      if IsBodyState(p.state) {
        OpenBody(hc, p, pend, ch);
      } else {
        OpenExec(hc, Tick(p), pend, ch);
      }
    }
  }

  lemma OpenBody(hc: HeadersCallback, p: Parser, pend: nat, ch: Byte)
    requires Safe(p, 0) && IsBodyState(p.state)
    ensures var r := Step(hc, p, pend, ch); r.status.Running? && (r.pend == 0 || MayBeOpen(r.p.state))
  {
    hide Step, NewMessage;
    if p.state.BodyIdentityEof? {
      StepUntilEof(hc, p, pend, ch);
    } else {
      StepSized(hc, p, pend, ch);
    }
  }

  // Data is owed only in states where a run is open.
  lemma {:induction false} OpenFeed(hc: HeadersCallback, p: Parser, pend: nat, bs: seq<Byte>)
    requires Safe(p, 0) && (pend == 0 || MayBeOpen(p.state))
    ensures var r := Feed(hc, p, pend, bs); r.status.Running? ==> r.pend == 0 || MayBeOpen(r.p.state)
    decreases |bs|
  {
    hide Step, Safe, MayBeOpen;
    if bs != [] {
      var b' := bs[..|bs| - 1];
      OpenFeed(hc, p, pend, b');
      var r := Feed(hc, p, pend, b');
      SafeFeed(hc, p, pend, b');
      if r.status.Running? {
        OpenStep(hc, r.p, r.pend, bs[|bs| - 1]);
      }
    }
  }

  // The input b fails with the run still open, k bytes of it taken.
  ghost predicate FailsOpen(hc: HeadersCallback, p: Parser, b: seq<Byte>, k: nat) {
    b != [] && forall pend: nat :: Feed(hc, p, pend, b).status.Failed? && Feed(hc, p, pend, b).pend == pend + k
  }

  lemma UrlFails(hc: HeadersCallback, p: Parser)
    requires Safe(p, 0) && IsUrlState(p.state)
    ensures FailsOpen(hc, p, ['\t'], 0)
  {
    forall pend: nat ensures Feed(hc, p, pend, ['\t']).status.Failed? && Feed(hc, p, pend, ['\t']).pend == pend {
      FeedOne(hc, p, pend, '\t');
      UrlByteRefused(hc, p, pend);
    }
  }

  lemma UrlByteRefused(hc: HeadersCallback, p: Parser, pend: nat)
    requires p.errno.Ok? && IsUrlState(p.state)
    ensures var r := Step(hc, p, pend, '\t'); r.status.Failed? && r.pend == pend && r.events == []
  {
    hide Switch, OnUrl;
    UrlSwitch(hc, Tick(p), '\t');
    TabIsDead(Tick(p));
  }

  lemma UrlSwitch(hc: HeadersCallback, p: Parser, ch: Byte)
    requires IsUrlState(p.state)
    ensures Switch(hc, p, ch, 1) == OnUrl(p, ch)
  {
    hide OnUrl;
  }

  lemma TabIsDead(p: Parser)
    ensures var o := OnUrl(p, '\t'); o.flow.Fail? && o.flush.None? && o.note.None?
  {
  }

  lemma FieldFails(hc: HeadersCallback, p: Parser)
    requires Safe(p, 0) && p.state.HeaderField?
    ensures FailsOpen(hc, p, ['('], 0)
  {
    forall pend: nat ensures Feed(hc, p, pend, ['(']).status.Failed? && Feed(hc, p, pend, ['(']).pend == pend {
      FeedOne(hc, p, pend, '(');
      FieldByteRefused(hc, p, pend);
    }
  }

  lemma FieldByteRefused(hc: HeadersCallback, p: Parser, pend: nat)
    requires p.errno.Ok? && p.state.HeaderField?
    ensures var r := Step(hc, p, pend, '('); r.status.Failed? && r.pend == pend
  {
  }

  function Repeat(c: Byte, n: nat): (s: seq<Byte>)
    ensures |s| == n
  {
    seq(n, _ => c)
  }

  lemma SpaceTaken(hc: HeadersCallback, p: Parser, pend: nat)
    requires Safe(p, 0) && p.state.HeaderValue?
    ensures var r := Step(hc, p, pend, ' ');
            if p.nread < HTTP_MAX_HEADER_SIZE then
              r.status.Running? && r.p.state.HeaderValue? && r.p.nread == p.nread + 1 && r.pend == pend + 1
            else r.status.Failed? && r.pend == pend
  {
  }

  // A header value can always run over the size limit.
  lemma {:induction false} Spaces(hc: HeadersCallback, p: Parser, pend: nat, n: nat)
    requires Safe(p, 0) && p.state.HeaderValue? && p.nread + n <= HTTP_MAX_HEADER_SIZE
    ensures var r := Feed(hc, p, pend, Repeat(' ', n));
            r.status.Running? && r.p.state.HeaderValue? && r.p.nread == p.nread + n && r.pend == pend + n
                && Safe(r.p, 0)
    decreases n
  {
    hide Step, Safe;
    SafeFeed(hc, p, pend, Repeat(' ', n));
    if n > 0 {
      Spaces(hc, p, pend, n - 1);
      assert Repeat(' ', n)[..n - 1] == Repeat(' ', n - 1);
      var r := Feed(hc, p, pend, Repeat(' ', n - 1));
      SpaceTaken(hc, r.p, r.pend);
    }
  }

  lemma ValueFails(hc: HeadersCallback, p: Parser)
    requires Safe(p, 0) && p.state.HeaderValue?
    ensures var n := HTTP_MAX_HEADER_SIZE - p.nread; n >= 0 && FailsOpen(hc, p, Repeat(' ', n + 1), n)
  {
    hide Step, Feed, Repeat;
    ReadFits(p);
    var n := HTTP_MAX_HEADER_SIZE - p.nread;
    var b := Repeat(' ', n + 1);
    forall pend: nat ensures Feed(hc, p, pend, b).status.Failed? && Feed(hc, p, pend, b).pend == pend + n {
      Spaces(hc, p, pend, n);
      RepeatMore(' ', n);
      var r := Feed(hc, p, pend, Repeat(' ', n));
      SpaceTaken(hc, r.p, r.pend);
      FeedSnoc(hc, p, pend, Repeat(' ', n), ' ');
    }
  }

  lemma ReadFits(p: Parser)
    requires Safe(p, 0)
    ensures p.nread <= HTTP_MAX_HEADER_SIZE && p.errno.Ok?
  {
  }

  lemma RepeatMore(c: Byte, n: nat)
    ensures Repeat(c, n + 1) == Repeat(c, n) + [c]
  {
  }

  lemma ChunkEndRefused(hc: HeadersCallback, p: Parser, pend: nat)
    requires p.errno.Ok? && p.state.ChunkDataAlmostDone? && p.flags.chunked && p.contentLength == 0
    ensures var r := Step(hc, p, pend, 'X'); r.status.Failed? && r.pend == pend
  {
  }

  // A chunk can always be followed by something else than CR.
  lemma ChunkFails(hc: HeadersCallback, p: Parser)
    requires Safe(p, 0) && (p.state.ChunkData? || p.state.ChunkDataAlmostDone?)
    ensures FailsOpen(hc, p, Repeat('X', p.contentLength + 1), p.contentLength)
  {
    hide Step, Feed, Repeat, SizedBlock;
    var n := p.contentLength;
    var b := Repeat('X', n + 1);
    forall pend: nat ensures Feed(hc, p, pend, b).status.Failed? && Feed(hc, p, pend, b).pend == pend + n {
      RepeatMore('X', n);
      ChunkRead(hc, p, pend);
      var r := Feed(hc, p, pend, Repeat('X', n));
      ChunkEndRefused(hc, r.p, r.pend);
      FeedSnoc(hc, p, pend, Repeat('X', n), 'X');
    }
  }

  lemma ChunkRead(hc: HeadersCallback, p: Parser, pend: nat)
    requires Safe(p, 0) && (p.state.ChunkData? || p.state.ChunkDataAlmostDone?)
    ensures var r := Feed(hc, p, pend, Repeat('X', p.contentLength));
            && r.status.Running? && r.p.errno.Ok? && r.p.state.ChunkDataAlmostDone? && r.p.flags.chunked
            && r.p.contentLength == 0 && r.pend == pend + p.contentLength
  {
    hide Step;
    if p.state.ChunkData? {
      FeedSized(hc, p, pend, Repeat('X', p.contentLength));
    } else {
      assert Repeat('X', 0) == [];
    }
  }

  // Whether the calls for a and b report what one call for a + b does.
  ghost predicate Agree(hc: HeadersCallback, p: Parser, a: seq<Byte>, b: seq<Byte>) {
    Call(hc, p, a + b).events == AndThen(Call(hc, p, a), Call(hc, Feed(hc, p, 0, a).p, b)).events
  }

  // No run is open, or it is that of a body that cannot end in an error.
  predicate Harmless(r: Fed) { r.pend == 0 || r.p.state.BodyIdentity? || r.p.state.BodyIdentityEof? }

  // A body of known length or up to the end of the input does not fail, and closes its run.
  lemma BodyLosesNothing(hc: HeadersCallback, p: Parser, pend: nat, b: seq<Byte>)
    requires Safe(p, 0) && (p.state.BodyIdentity? || p.state.BodyIdentityEof?)
    ensures Feed(hc, p, pend, b).status.Failed? ==> Feed(hc, p, pend, b).pend == Feed(hc, p, 0, b).pend
  {
    hide Step, Feed, NewMessage;
    SafeImpliesOk(p);
    var n := p.contentLength;
    if p.state.BodyIdentityEof? {
      FeedUntilEof(hc, p, pend, b);
    } else if b == [] {
      FeedNothing(hc, p, pend);
    } else if |b| <= n {
      FeedSized(hc, p, pend, b);
    } else {
      FeedSized(hc, p, pend, b[..n]);
      FeedSized(hc, p, 0, b[..n]);
      FeedConcat(hc, p, pend, b[..n], b[n..]);
      FeedConcat(hc, p, 0, b[..n], b[n..]);
      assert b[..n] + b[n..] == b;
    }
  }

  lemma FeedNothing(hc: HeadersCallback, p: Parser, pend: nat)
    ensures Feed(hc, p, pend, []).status.Running?
  {
  }

  lemma HarmlessAgrees(hc: HeadersCallback, p: Parser, a: seq<Byte>, b: seq<Byte>)
    requires p.errno.Ok? && a != [] && b != [] && Safe(p, 0)
    requires Feed(hc, p, 0, a).status.Running? && Harmless(Feed(hc, p, 0, a))
    ensures Agree(hc, p, a, b)
  {
    hide Feed, Safe, Call;
    var r := Feed(hc, p, 0, a);
    SafeFeed(hc, p, 0, a);
    CutOnce(hc, p, a, b);
    FeedConcat(hc, p, 0, a, b);
    FeedShift(hc, r.p, 0, r.pend, b);
    if r.pend > 0 {
      BodyLosesNothing(hc, r.p, r.pend, b);
    }
  }

  lemma FailsOpenDisagrees(hc: HeadersCallback, p: Parser, a: seq<Byte>, b: seq<Byte>, k: nat)
    requires p.errno.Ok? && a != [] && Safe(p, 0) && Feed(hc, p, 0, a).status.Running? && Feed(hc, p, 0, a).pend > 0
    requires FailsOpen(hc, Feed(hc, p, 0, a).p, b, k)
    ensures !Agree(hc, p, a, b)
  {
    hide Feed, Safe, Call;
    var r := Feed(hc, p, 0, a);
    CutOnce(hc, p, a, b);
    FeedConcat(hc, p, 0, a, b);
    assert Feed(hc, r.p, r.pend, b).pend == r.pend + k && Feed(hc, r.p, 0, b).pend == k;
  }

  // What to send after a harmful cut.
  function Spoiler(p: Parser): seq<Byte> {
    if IsUrlState(p.state) then ['\t']
    else if p.state.HeaderField? then ['(']
    else if p.state.HeaderValue? && p.nread <= HTTP_MAX_HEADER_SIZE then Repeat(' ', HTTP_MAX_HEADER_SIZE - p.nread + 1)
    else Repeat('X', p.contentLength + 1)
  }

  lemma SpoilerFails(hc: HeadersCallback, p: Parser)
    requires Safe(p, 0) && MayBeOpen(p.state) && !p.state.BodyIdentity? && !p.state.BodyIdentityEof?
    ensures exists k :: FailsOpen(hc, p, Spoiler(p), k)
  {
    hide FailsOpen, Repeat;
    if IsUrlState(p.state) {
      UrlFails(hc, p);
      assert FailsOpen(hc, p, Spoiler(p), 0);
    } else if p.state.HeaderField? {
      FieldFails(hc, p);
      assert FailsOpen(hc, p, Spoiler(p), 0);
    } else if p.state.HeaderValue? {
      ReadFits(p);
      ValueFails(hc, p);
      assert FailsOpen(hc, p, Spoiler(p), HTTP_MAX_HEADER_SIZE - p.nread);
    } else {
      ChunkFails(hc, p);
      assert FailsOpen(hc, p, Spoiler(p), p.contentLength);
    }
  }

  // After a first part that did not fail, cutting there changes no trace whatever follows if and only
  // if no run of data is open at the cut, or it is that of a body without chunks.
  lemma CutIsHarmless(hc: HeadersCallback, p: Parser, a: seq<Byte>)
    requires p.errno.Ok? && a != [] && Safe(p, 0) && Feed(hc, p, 0, a).status.Running?
    ensures Harmless(Feed(hc, p, 0, a)) <==> forall b: seq<Byte> | b != [] :: Agree(hc, p, a, b)
  {
    hide Feed, Safe, Agree, FailsOpen, Spoiler;
    var r := Feed(hc, p, 0, a);
    if Harmless(r) {
      forall b: seq<Byte> | b != [] ensures Agree(hc, p, a, b) {
        HarmlessAgrees(hc, p, a, b);
      }
    } else {
      SafeFeed(hc, p, 0, a);
      OpenFeed(hc, p, 0, a);
      SpoilerFails(hc, r.p);
      var k :| FailsOpen(hc, r.p, Spoiler(r.p), k);
      FailsOpenDisagrees(hc, p, a, Spoiler(r.p), k);
      SomeSpoiler(hc, r.p, k);
    }
  }

  lemma SomeSpoiler(hc: HeadersCallback, p: Parser, k: nat)
    requires FailsOpen(hc, p, Spoiler(p), k)
    ensures Spoiler(p) != []
  {
  }

  lemma {:induction false} JoinSnoc(pieces: seq<seq<Byte>>, b: seq<Byte>)
    ensures Join(pieces + [b]) == Join(pieces) + b
    decreases |pieces|
  {
    if pieces == [] {
      assert [b][1..] == [] && b + [] == b;
    } else {
      assert (pieces + [b])[1..] == pieces[1..] + [b];
      JoinSnoc(pieces[1..], b);
    }
  }

  lemma {:induction false} CallsSnoc(hc: HeadersCallback, p: Parser, pieces: seq<seq<Byte>>, b: seq<Byte>)
    ensures var c := Calls(hc, p, pieces); Calls(hc, p, pieces + [b]) == AndThen(c, Call(hc, c.p, b))
    decreases |pieces|
  {
    hide Call;
    if pieces == [] {
      var c := Call(hc, p, b);
      assert [b][1..] == [] && c.events + [] == [] + c.events;
    } else {
      assert (pieces + [b])[1..] == pieces[1..] + [b];
      var c := Call(hc, p, pieces[0]);
      CallsSnoc(hc, c.p, pieces[1..], b);
      var d := Calls(hc, c.p, pieces[1..]);
      var e := Call(hc, d.p, b);
      assert c.events + (d.events + e.events) == c.events + d.events + e.events;
    }
  }

  // The same after any number of pieces that have not failed.
  lemma LastCutIsHarmless(hc: HeadersCallback, p: Parser, pieces: seq<seq<Byte>>)
    requires p.errno.Ok? && Safe(p, 0) && pieces != [] && forall s :: s in pieces ==> s != []
    requires Feed(hc, p, 0, Join(pieces)).status.Running?
    ensures Harmless(Feed(hc, p, 0, Join(pieces))) <==>
              forall b: seq<Byte> | b != [] ::
                  Calls(hc, p, pieces + [b]).events == Call(hc, p, Join(pieces + [b])).events
  {
    hide Feed, Safe, Call, Calls, Harmless;
    var a := Join(pieces);
    assert pieces[0] in pieces && a[..|pieces[0]|] == pieces[0];
    CallOf(hc, p, a);
    SafeFeed(hc, p, 0, a);
    RunsAreOk(hc, p, a);
    SplitInvariance(hc, p, pieces);
    CutIsHarmless(hc, p, a);
    forall b: seq<Byte> | b != []
      ensures Calls(hc, p, pieces + [b]).events == Call(hc, p, Join(pieces + [b])).events <==> Agree(hc, p, a, b)
    {
      CallsSnoc(hc, p, pieces, b);
      JoinSnoc(pieces, b);
    }
  }

  lemma RunsAreOk(hc: HeadersCallback, p: Parser, a: seq<Byte>)
    requires Safe(p, 0) && Feed(hc, p, 0, a).status.Running?
    ensures Feed(hc, p, 0, a).p.errno.Ok?
  {
    hide Feed, Safe;
    SafeFeed(hc, p, 0, a);
    SafeImpliesOk(Feed(hc, p, 0, a).p);
  }

  lemma SlashStarts(hc: HeadersCallback, p: Parser, pend: nat)
    requires p.errno.Ok? && p.state.ReqSpacesBeforeUrl? && !p.meth.CONNECT? && p.nread < HTTP_MAX_HEADER_SIZE
    ensures Step(hc, p, pend, '/')
              == Fed(p.(nread := p.nread + 1, state := ReqPath), [DataByte(Url, '/')], pend + 1, Running, 1)
  {
  }

  const GET_SLASH: seq<Byte> := ['G', 'E', 'T', ' ', '/']

  lemma GetSlash(hc: HeadersCallback)
    ensures var r := Feed(hc, Init(Request), 0, GET_SLASH);
            r.status.Running? && r.p.errno.Ok? && r.p.state.ReqPath? && r.p.nread == |GET_SLASH| && r.pend == 1
            && r.events == [Noted(MessageBegin), DataByte(Url, '/')]
  {
    hide Step, Feed, MethodString, FirstMethod, NextMethod, Track, Safe;
    var w: seq<Byte> := ['G', 'E', 'T'];
    var sp: Byte, slash: Byte := ' ', '/';
    SafeInit(Request);
    InitReads();
    FeedMethod(hc, Init(Request), 0, w);
    NameOfGet();
    TrackIsExact(w, GET);
    OpenFeed(hc, Init(Request), 0, w);
    var r := Feed(hc, Init(Request), 0, w);
    StepMethod(hc, r.p, r.pend, sp);
    FeedSnoc(hc, Init(Request), 0, w, sp);
    var q := Feed(hc, Init(Request), 0, w + [sp]);
    SlashStarts(hc, q.p, q.pend);
    FeedSnoc(hc, Init(Request), 0, w + [sp], slash);
    assert w + [sp] + [slash] == GET_SLASH;
  }

  lemma NameOfGet()
    ensures MethodString(GET) == ['G', 'E', 'T']
  {
  }

  lemma InitReads()
    ensures Init(Request).errno.Ok? && Init(Request).state.StartReq? && Init(Request).nread == 0
  {
  }

  // Why errors are apart: of "GET /" and a tab, cut between the two, the first call reports the URL
  // so far; in one call nothing is reported of it.
  lemma FailureDropsOpenRun(hc: HeadersCallback)
    ensures Calls(hc, Init(Request), [GET_SLASH, ['\t']]).events == [Noted(MessageBegin), DataByte(Url, '/')]
    ensures Call(hc, Init(Request), GET_SLASH + ['\t']).events == [Noted(MessageBegin)]
  {
    hide Step, CallEof, Feed, Safe;
    var p := Init(Request);
    var tab: Byte := '\t';
    var r := Feed(hc, p, 0, GET_SLASH);
    GetSlash(hc);
    FeedOne(hc, r.p, 0, tab);
    UrlByteRefused(hc, r.p, 0);
    UrlByteRefused(hc, r.p, r.pend);
    FeedSnoc(hc, p, 0, GET_SLASH, tab);
    CallsSnoc(hc, p, [GET_SLASH], [tab]);
    assert [GET_SLASH] + [[tab]] == [GET_SLASH, [tab]];
    assert [GET_SLASH][1..] == [] && Calls(hc, r.p, []).events == [];
  }
}
