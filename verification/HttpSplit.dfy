/** Cutting the input into pieces does not change what is parsed. */
module HttpSplit {
  import opened HttpTypes
  import opened HttpSwitch
  import opened HttpFeed
  import opened HttpSafety

  // The same result, up to d more bytes owed.
  predicate Shifted(r: Fed, r': Fed, d: nat) {
    r' == r || r' == r.(pend := r.pend + d)
  }

  lemma PendShift(p: Parser, o: Outcome, pend: nat, d: nat)
    ensures PendOf(p, o, pend + d) == PendOf(p, o, pend) + if o.flush.Some? then 0 else d
  {
    hide Taken;
  }

  lemma {:induction false} ExecShift(hc: HeadersCallback, p: Parser, pend: nat, d: nat, ch: Byte)
    ensures Shifted(Exec(hc, p, pend, ch), Exec(hc, p, pend + d, ch), d)
    decreases Rank(p.state)
  {
    hide Switch, EventsOf, Rank, PendOf;
    var o := Switch(hc, p, ch, 1);
    PendShift(p, o, pend, d);
    if o.flow.Again? {
      if o.flush.None? {
        ExecShift(hc, o.next, PendOf(p, o, pend), d, ch);
      }
    }
  }

  lemma StepShift(hc: HeadersCallback, p: Parser, pend: nat, d: nat, ch: Byte)
    ensures Shifted(Step(hc, p, pend, ch), Step(hc, p, pend + d, ch), d)
  {
    hide Exec, Tick;
    ExecShift(hc, Tick(p), pend, d, ch);
  }

  lemma {:induction false} FeedShift(hc: HeadersCallback, p: Parser, pend: nat, d: nat, bs: seq<Byte>)
    ensures Shifted(Feed(hc, p, pend, bs), Feed(hc, p, pend + d, bs), d)
    decreases |bs|
  {
    hide Step;
    if bs != [] {
      var b' := bs[..|bs| - 1];
      FeedShift(hc, p, pend, d, b');
      var r := Feed(hc, p, pend, b');
      StepShift(hc, r.p, r.pend, d, bs[|bs| - 1]);
    }
  }

  // Two calls, the second on what the first left.
  function AndThen(c: Called, c': Called): Called {
    Called(c'.p, c.count + c'.count, c.events + c'.events)
  }

  // The data bytes that no callback ever gets, because the call that took them fails.
  function Lost(hc: HeadersCallback, p: Parser, data: seq<Byte>): nat {
    var r := Feed(hc, p, 0, data);
    if r.status.Failed? then r.pend else 0
  }

  // One cut. What the first call did not finish, it reports early; so if the second call fails, the
  // joined call has reported less by exactly what it loses more: the traces agree if and only if
  // both lose the same.
  lemma CutOnce(hc: HeadersCallback, p: Parser, a: seq<Byte>, b: seq<Byte>)
    requires p.errno.Ok? && a != [] && b != [] && Safe(p, 0)
    ensures var r := Feed(hc, p, 0, a);
            var whole := Call(hc, p, a + b);
            var parts := AndThen(Call(hc, p, a), Call(hc, r.p, b));
            match r.status
            case Running =>
              && parts.p == whole.p && parts.count == whole.count
              && whole.events <= parts.events
              && |parts.events| == |whole.events| + Lost(hc, p, a + b) - Lost(hc, r.p, b)
              && (whole.events == parts.events <==> Lost(hc, p, a + b) == Lost(hc, r.p, b))
            case Failed => parts == whole
            case Exited => whole == Call(hc, p, a)
            case Crashed => false
  {
    hide Feed, Safe;
    var r := Feed(hc, p, 0, a);
    FeedConcat(hc, p, 0, a, b);
    SafeFeed(hc, p, 0, a);
    if r.status.Running? {
      FeedShift(hc, r.p, 0, r.pend, b);
      SafeFeed(hc, r.p, 0, b);
      SafeImpliesOk(r.p);
      var s := Feed(hc, r.p, 0, b);
      var s' := Feed(hc, r.p, r.pend, b);
      var all := r.events + s.events;
      assert s.status.Failed? ==> all[..|all| - s.pend] == r.events + s.events[..|s.events| - s.pend];
      if s.status.Failed? {
        assert all[..|all| - s'.pend] <= all[..|all| - s.pend];
      }
    } else {
      var c := Call(hc, p, a);
      assert c.events + [] == c.events;
    }
  }

  function Join(pieces: seq<seq<Byte>>): seq<Byte> {
    if pieces == [] then [] else pieces[0] + Join(pieces[1..])
  }

  // One call of http_parser_execute for every piece.
  function Calls(hc: HeadersCallback, p: Parser, pieces: seq<seq<Byte>>): Called
    decreases |pieces|
  {
    if pieces == [] then Called(p, 0, [])
    else
      var c := Call(hc, p, pieces[0]);
      AndThen(c, Calls(hc, c.p, pieces[1..]))
  }

  lemma {:induction false} CallsStopped(hc: HeadersCallback, p: Parser, pieces: seq<seq<Byte>>)
    requires !p.errno.Ok?
    ensures Calls(hc, p, pieces) == Called(p, 0, [])
    decreases |pieces|
  {
    if pieces != [] {
      CallsStopped(hc, p, pieces[1..]);
    }
  }

  // What the calls lose together: what the one that fails does.
  function LostBy(hc: HeadersCallback, p: Parser, pieces: seq<seq<Byte>>): nat
    decreases |pieces|
  {
    if pieces == [] then 0
    else
      var r := Feed(hc, p, 0, pieces[0]);
      if r.status.Running? then LostBy(hc, r.p, pieces[1..]) else Lost(hc, p, pieces[0])
  }

  // However the input is cut into non-empty pieces, unless it leaves HTTP by an upgrade: the same
  // fields, the same count, and the joined call has reported the trace of the pieces up to what it
  // has lost and they have not. So the traces agree if and only if joined call and pieces lose the
  // same; without an error nobody loses anything.
  lemma {:induction false} SplitInvariance(hc: HeadersCallback, p: Parser, pieces: seq<seq<Byte>>)
    requires p.errno.Ok? && Safe(p, 0) && pieces != [] && forall s :: s in pieces ==> s != []
    requires !Feed(hc, p, 0, Join(pieces)).status.Exited?
    ensures var whole := Call(hc, p, Join(pieces));
            var parts := Calls(hc, p, pieces);
            && parts.p == whole.p && parts.count == whole.count
            && whole.events <= parts.events
            && |parts.events| == |whole.events| + Lost(hc, p, Join(pieces)) - LostBy(hc, p, pieces)
            && (whole.events == parts.events <==> Lost(hc, p, Join(pieces)) == LostBy(hc, p, pieces))
            && (whole.p.errno.Ok? ==> whole.events == parts.events)
    decreases |pieces|
  {
    hide Feed, Call, Safe;
    var a, rest := pieces[0], pieces[1..];
    var b := Join(rest);
    var r := Feed(hc, p, 0, a);
    var c := Call(hc, p, a);
    assert a in pieces && forall s :: s in rest ==> s in pieces;
    CallOf(hc, p, a);
    SafeFeed(hc, p, 0, a);
    if rest == [] {
      assert a + b == a;
      assert c.events + [] == c.events;
    } else {
      assert rest[0] in pieces && b[..|rest[0]|] == rest[0];
      assert b != [];
      CutOnce(hc, p, a, b);
      FeedConcat(hc, p, 0, a, b);
      if r.status.Running? {
        FeedShift(hc, r.p, 0, r.pend, b);
        SafeImpliesOk(r.p);
        SplitInvariance(hc, r.p, rest);
      } else {
        CallsStopped(hc, c.p, rest);
        CallOf(hc, p, a + b);
        CallOf(hc, r.p, b);
      }
    }
    LosersFail(hc, p, Join(pieces));
  }

  lemma LosersFail(hc: HeadersCallback, p: Parser, data: seq<Byte>)
    requires data != [] && p.errno.Ok? && Safe(p, 0)
    ensures Call(hc, p, data).p.errno.Ok? ==> Lost(hc, p, data) == 0
  {
    hide Feed, Safe;
    SafeFeed(hc, p, 0, data);
  }

  lemma CallOf(hc: HeadersCallback, p: Parser, data: seq<Byte>)
    requires data != []
    ensures Call(hc, p, data).p == (if p.errno.Ok? then Feed(hc, p, 0, data).p else p)
    ensures !p.errno.Ok? ==> Call(hc, p, data) == Called(p, 0, [])
  {
  }

  // Nothing an application can feed, in any number of calls, breaks an assertion.
  lemma {:induction false} CallsAreSafe(hc: HeadersCallback, p: Parser, pieces: seq<seq<Byte>>)
    requires p.errno.Ok? ==> Safe(p, 0)
    ensures var q := Calls(hc, p, pieces).p; q.errno.Ok? ==> Safe(q, 0)
    decreases |pieces|
  {
    hide Feed, Safe, CallEof;
    if pieces != [] {
      if p.errno.Ok? {
        SafeFeed(hc, p, 0, pieces[0]);
        EofSafe(p);
      }
      CallsAreSafe(hc, Call(hc, p, pieces[0]).p, pieces[1..]);
    }
  }

  lemma EofSafe(p: Parser)
    ensures CallEof(p).p == p || !CallEof(p).p.errno.Ok?
  {
  }
}
