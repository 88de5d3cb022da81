/** The parser object and http_parser_execute, with its marks, jumps and callbacks. */
module HttpParserClass {
  import opened Wrappers
  import opened HttpTypes
  import opened HttpSwitch
  import opened HttpFeed
  import opened HttpSafety
  import opened HttpMarks

  class HttpParser {
    var st: Parser               // the struct's fields
    var trace: seq<Callback>     // every callback made so far

    ghost predicate Valid()
      reads this
    {
      st.errno.Ok? ==> Safe(st, 0)
    }

    constructor (t: ParserType)
      ensures Valid() && st == Init(t) && trace == []
    {
      st, trace := Init(t), [];
    }

    // The body of the switch: set a mark, move p, report a run, store the fields, notify.
    method Pass(hc: HeadersCallback, data: seq<Byte>, ch: Byte, at: nat, marks: Marks)
      returns (p: nat, m: Marks, flow: Flow)
      requires at < |data| && forall k :: k in marks ==> marks[k] <= at
      modifies this
      ensures at <= p < |data| && forall k :: k in m ==> m[k] <= p
      ensures var o := Switch(hc, old(st), ch, |data| - at);
              var m1 := SetMark(marks, o.mark, at);
              && st == o.next && flow == o.flow && p == at + o.skip && m == ClearMark(m1, o.flush)
              && trace == old(trace) + Reported(m1, data, o.flush, p + o.extra) + Noticed(o.note)
    {
      hide Switch;
      var o := Switch(hc, st, ch, |data| - at);
      p, m, flow := at, marks, o.flow;
      if o.mark.Some? && o.mark.value !in m {
        m := m[o.mark.value := p];
      }
      p := p + o.skip;
      st := o.next;
      if o.flush.Some? {
        if o.flush.value in m {
          trace := trace + [Data(o.flush.value, data[m[o.flush.value]..p + o.extra])];
        }
        m := m - {o.flush.value};
      }
      if o.note.Some? {
        trace := trace + [Notify(o.note.value)];
      }
    }

    // From the label reexecute_byte to the end of the switch.
    method ReexecuteByte(hc: HeadersCallback, data: seq<Byte>, at: nat, marks: Marks)
      returns (p: nat, m: Marks, flow: Flow)
      requires at < |data| && Safe(st, 1) && Marked(marks, st.state) && forall k :: k in marks ==> marks[k] <= at
      modifies this
      ensures at <= p < |data| && forall k :: k in m ==> m[k] <= p
      ensures var owed := Owed(marks, data, at);
              Finished(Block(hc, old(st), |owed|, data[at..]), Flat(old(trace)) + owed, data, at, p, m, flow, st, trace)
    {
      hide Switch, Exec, Safe, Marked, Owed, Flat, Going, Finished, EventsOf, Rank, SizedBlock, Noticed;
      p, m, flow := at, marks, Again;
      ghost var owed := Owed(marks, data, at);
      ghost var evs: seq<Event> := [];
      if IsBodyState(st.state) {
        NothingMarked(st.state, marks, data, at);
        assert Flat(trace) + [] == Flat(trace);
        BodyPass(hc, st, trace, data, at);
        p, m, flow := Pass(hc, data, data[at], p, m);
        if flow.Again? {
          assert trace + [] == trace;
          p, m, flow := Pass(hc, data, data[at], p, m);
        }
      } else {
        assert data[at..][0] == data[at];
        GoingStart(hc, st, trace, owed, data, at, m);
        while flow.Again?
          invariant p == at && forall k :: k in m ==> m[k] <= at
          invariant flow.Again? ==> Going(hc, old(st), Flat(old(trace)) + owed, |owed|, data, at, evs, st, trace, m)
          invariant !flow.Again? ==>
            Finished(Exec(hc, old(st), |owed|, data[at]), Flat(old(trace)) + owed, data, at, p, m, flow, st, trace)
          decreases flow.Again?, Rank(st.state)
        {
          GoingPass(hc, old(st), Flat(old(trace)) + owed, |owed|, data, at, evs, st, trace, m);
          evs := evs + EventsOf(st, Switch(hc, st, data[at], 1), data[at]);
          p, m, flow := Pass(hc, data, data[at], p, m);
        }
      }
    }

    // An empty call: the input has ended.
    method ExecuteEof() returns (n: nat)
      requires st.errno.Ok?
      modifies this
      ensures var c := CallEof(old(st));
              st == c.p && n == c.count && Flat(trace) == Flat(old(trace)) + c.events
      ensures st == old(st) || !st.errno.Ok?
    {
      hide Flat;
      match st.state
      case BodyIdentityEof =>
        FlatOne([Notify(MessageComplete)]);
        FlatAppend(trace, [Notify(MessageComplete)]);
        trace := trace + [Notify(MessageComplete)];
        return 0;
      case Dead | StartReqOrRes | StartRes | StartReq =>
        assert Flat(trace) + [] == Flat(trace);
        return 0;
      case _ =>
        assert Flat(trace) + [] == Flat(trace);
        st := st.(errno := InvalidEofState);
        return 1;
    }

    // CALLBACK_DATA_NOADVANCE(kind) at the end of the data
    method Report(data: seq<Byte>, marks: Marks, k: Kind)
      requires forall k :: k in marks ==> marks[k] <= |data|
      modifies this`trace
      ensures Flat(trace) == Flat(old(trace)) + (if k in marks then Bytes(k, data[marks[k]..]) else [])
    {
      if k in marks {
        FlatOne([Data(k, data[marks[k]..])]);
        FlatAppend(trace, [Data(k, data[marks[k]..])]);
        trace := trace + [Data(k, data[marks[k]..])];
      }
    }

    // After the loop: report the run that is still marked. At most one mark may be left.
    method Flush(data: seq<Byte>, marks: Marks)
      requires |marks| <= 1 && forall k :: k in marks ==> marks[k] <= |data|
      modifies this`trace
      ensures Flat(trace) == Flat(old(trace)) + Owed(marks, data, |data|)
    {
      hide Flat, Bytes;
      AtMostOne(marks);
      Report(data, marks, Field);
      Report(data, marks, Value);
      Report(data, marks, Url);
      Report(data, marks, Body);
      assert forall k :: k in marks ==> data[marks[k]..] == data[marks[k]..|data|];
    }

    method Execute(hc: HeadersCallback, data: seq<Byte>) returns (n: nat)
      requires Valid()
      modifies this
      ensures Valid()
      ensures data != [] ==> n <= |data|
      ensures var c := Call(hc, old(st), data);
              st == c.p && n == c.count && Flat(trace) == Flat(old(trace)) + c.events
    {
      hide Safe, Block, Owed, Flat, BetweenBytes, CallEof;
      if !st.errno.Ok? {
        return 0;
      }
      if data == [] {
        n := ExecuteEof();
        return;
      }
      ghost var s0, t0 := st, Flat(trace);
      var m: Marks := map[];
      if st.state.HeaderField? { m := m[Field := 0]; }
      if st.state.HeaderValue? { m := m[Value := 0]; }
      if IsUrlState(st.state) { m := m[Url := 0]; }
      var p := 0;
      StartOfCall(hc, st, t0, data, m);
      while p != |data|
        invariant p <= |data| && forall k :: k in m ==> m[k] <= p
        invariant BetweenBytes(hc, s0, t0, data, p, m, st, Flat(trace))
      {
        ghost var t := Flat(trace);
        TickInCall(hc, s0, t0, data, p, m, st, t);
        st := Tick(st);
        if !st.errno.Ok? {
          return p;
        }
        var flow;
        ghost var at, m0, q := p, m, st;
        p, m, flow := ReexecuteByte(hc, data, p, m);
        BlockInCall(hc, s0, t0, data, at, m0, q, t, p, m, flow, st, trace);
        match flow
        case Fail => return p;
        case Exit => return p + 1;
        case _ => p := p + 1;
      }
      EndOfCall(hc, s0, t0, data, m, st, Flat(trace));
      Flush(data, m);
      return |data|;
    }
  }

  // Between two bytes: `p` bytes have been fed; the trace plus what is owed is what they caused.
  ghost predicate BetweenBytes(hc: HeadersCallback, s0: Parser, t0: seq<Event>, data: seq<Byte>,
                                p: nat, m: Marks, st: Parser, t: seq<Event>)
    requires p <= |data| && forall k :: k in m ==> m[k] <= p
  {
    var r := Feed(hc, s0, 0, data[..p]);
    && r.status.Running? && r.p == st && Safe(st, 0)
    && |Owed(m, data, p)| == r.pend && t + Owed(m, data, p) == t0 + r.events
    && Rests(m, st, p == |data|)
  }

  lemma StartOfCall(hc: HeadersCallback, st: Parser, t: seq<Event>, data: seq<Byte>, m: Marks)
    requires data != [] && Safe(st, 0) && Marked(m, st.state) && forall k :: k in m ==> m[k] == 0
    ensures BetweenBytes(hc, st, t, data, 0, m, st, t)
  {
    hide Safe, Marked;
    assert data[..0] == [];
    assert Owed(m, data, 0) == [];
    assert t + [] == t;
  }

  // The bytes of the block, one at a time.
  lemma BlockIsFeed(hc: HeadersCallback, p: Parser, pend: nat, rest: seq<Byte>)
    requires Safe(p, 0) && rest != [] && Tick(p).errno.Ok?
    ensures var e := Block(hc, Tick(p), pend, rest);
            && e.count <= |rest|
            && (if e.status.Running? then Feed(hc, p, pend, rest[..e.count]) == e
                else Feed(hc, p, pend, rest) == e)
  {
    hide Safe, Exec, SizedBlock;
    var q := Tick(p);
    if SizedBody(q) {
      var n := Min(q.contentLength, |rest|);
      FeedSized(hc, p, pend, rest[..n]);
      SizedBlockRuns(p, pend, rest[..n]);
    } else if q.state.BodyIdentityEof? {
      SafeImpliesOk(p);
      FeedUntilEof(hc, p, pend, rest);
      assert rest[..|rest|] == rest;
    } else {
      var e := Exec(hc, q, pend, rest[0]);
      assert Step(hc, p, pend, rest[0]) == e;
      FeedFront(hc, p, pend, rest);
      FeedOne(hc, p, pend, rest[0]);
      assert rest[..1] == [rest[0]];
    }
  }

  lemma SizedBlockRuns(p: Parser, pend: nat, b: seq<Byte>)
    requires |b| <= p.contentLength
    ensures SizedBlock(p, pend, b).status.Running? && SizedBlock(p, pend, b).count == |b|
  {
  }

  // The call stops here, with `count` bytes consumed and t reported.
  ghost predicate Ends(hc: HeadersCallback, s0: Parser, t0: seq<Event>, data: seq<Byte>,
                       count: nat, st: Parser, t: seq<Event>)
  {
    var c := Call(hc, s0, data);
    st == c.p && count == c.count && t == t0 + c.events
  }

  // A byte over the header limit stops the call before the switch.
  lemma TickInCall(hc: HeadersCallback, s0: Parser, t0: seq<Event>, data: seq<Byte>,
                   p: nat, m: Marks, st: Parser, t: seq<Event>)
    requires s0.errno.Ok? && p < |data| && forall k :: k in m ==> m[k] <= p
    requires BetweenBytes(hc, s0, t0, data, p, m, st, t)
    ensures if Tick(st).errno.Ok? then Safe(Tick(st), 1) && Marked(m, Tick(st).state)
            else Ends(hc, s0, t0, data, p, Tick(st), t)
  {
    hide Safe, Owed, Exec, Marked;
    SafeTick(st);
    var r := Feed(hc, s0, 0, data[..p]);
    var q := Tick(st);
    if !q.errno.Ok? {
      var e := Fed(q, [], r.pend, Failed, 0);
      assert Step(hc, st, r.pend, data[p]) == e;
      FeedFront(hc, st, r.pend, data[p..]);
      assert [] + Feed(hc, e.p, e.pend, data[p..][1..]).events == Feed(hc, e.p, e.pend, data[p..][1..]).events;
      Stopped(hc, s0, t0, data, p, r, e, t, Owed(m, data, p));
    }
  }

  // A failing or leaving block decides the whole call.
  lemma Stopped(hc: HeadersCallback, s0: Parser, t0: seq<Event>, data: seq<Byte>, p: nat,
                r: Fed, e: Fed, t: seq<Event>, owed: seq<Event>)
    requires s0.errno.Ok? && p < |data| && r == Feed(hc, s0, 0, data[..p]) && r.status.Running?
    requires Feed(hc, r.p, r.pend, data[p..]) == e && !e.status.Running?
    requires t + owed == t0 + (r.events + e.events) && |owed| == e.pend
    requires e.status.Failed? || owed == []
    ensures Ends(hc, s0, t0, data, p + e.count, e.p, t)
  {
    hide Feed;
    FeedConcat(hc, s0, 0, data[..p], data[p..]);
    assert data[..p] + data[p..] == data;
    var all := r.events + e.events;
    assert t == t0 + all[..|all| - e.pend] by {
      assert (t + owed)[..|t|] == t;
      assert |t| == |t0| + |all| - e.pend;
      assert (t0 + all)[..|t|] == t0 + all[..|all| - e.pend];
    }
  }

  lemma BlockInCall(hc: HeadersCallback, s0: Parser, t0: seq<Event>, data: seq<Byte>, at: nat, m0: Marks,
                    q: Parser, t: seq<Event>, p: nat, m: Marks, flow: Flow, st: Parser, trace: seq<Callback>)
    requires s0.errno.Ok? && at <= p < |data|
    requires (forall k :: k in m0 ==> m0[k] <= at) && (forall k :: k in m ==> m[k] <= p)
    requires exists st0 :: BetweenBytes(hc, s0, t0, data, at, m0, st0, t) && q == Tick(st0) && q.errno.Ok?
    requires Finished(Block(hc, q, |Owed(m0, data, at)|, data[at..]), t + Owed(m0, data, at),
                      data, at, p, m, flow, st, trace)
    ensures match flow
            case Next => BetweenBytes(hc, s0, t0, data, p + 1, m, st, Flat(trace))
            case Exit => Ends(hc, s0, t0, data, p + 1, st, Flat(trace))
            case Fail => Ends(hc, s0, t0, data, p, st, Flat(trace))
            case _ => false
  {
    hide Safe, Owed, Exec, Block, Flat, Rests;
    var st0 :| BetweenBytes(hc, s0, t0, data, at, m0, st0, t) && q == Tick(st0) && q.errno.Ok?;
    var r := Feed(hc, s0, 0, data[..at]);
    var rest := data[at..];
    BlockIsFeed(hc, st0, r.pend, rest);
    var e := Block(hc, q, r.pend, rest);
    assert t + Owed(m0, data, at) + e.events == t0 + r.events + e.events == t0 + (r.events + e.events);
    if flow.Next? {
      FeedConcat(hc, s0, 0, data[..at], rest[..e.count]);
      assert data[..at] + rest[..e.count] == data[..p + 1];
    } else {
      OwedNone(data, p);
      Stopped(hc, s0, t0, data, at, r, e, Flat(trace), Owed(m, data, p));
    }
  }

  lemma EndOfCall(hc: HeadersCallback, s0: Parser, t0: seq<Event>, data: seq<Byte>,
                  m: Marks, st: Parser, t: seq<Event>)
    requires s0.errno.Ok? && data != [] && forall k :: k in m ==> m[k] <= |data|
    requires BetweenBytes(hc, s0, t0, data, |data|, m, st, t)
    ensures |m| <= 1
    ensures Ends(hc, s0, t0, data, |data|, st, t + Owed(m, data, |data|)) && Safe(st, 0)
  {
    hide Safe, Owed;
    assert data[..|data|] == data;
    assert |m.Keys| <= 1;
  }

  lemma AtMostOne(m: Marks)
    requires |m| <= 1
    ensures forall k :: k in m ==> m.Keys == {k}
  {
    forall k | k in m ensures m.Keys == {k} {
      assert |m.Keys - {k}| == 0;
    }
  }

  ghost function Block(hc: HeadersCallback, p: Parser, pend: nat, rest: seq<Byte>): Fed
    requires rest != []
  {
    if SizedBody(p) then SizedBlock(p, pend, rest[..Min(p.contentLength, |rest|)])
    else if p.state.BodyIdentityEof? then Fed(p, Bytes(Body, rest), pend + |rest|, Running, |rest|)
    else Exec(hc, p, pend, rest[0])
  }

  // The passes of one byte, or the jump over a block, amount to `e`.
  ghost predicate Finished(e: Fed, before: seq<Event>, data: seq<Byte>, at: nat,
                           p: nat, m: Marks, flow: Flow, st: Parser, trace: seq<Callback>)
    requires at <= p < |data| && forall k :: k in m ==> m[k] <= p
  {
    var end := if flow.Next? then p + 1 else p;
    && st == e.p && e.count == (if flow.Exit? then end - at + 1 else end - at)
    && (match flow
        case Next => e.status.Running? && Rests(m, st, end == |data|) && Safe(st, 0)
        case Exit => e.status.Exited? && Safe(st, 0) && m == map[]
        case Fail => e.status.Failed? && !st.errno.Ok?
        case _ => false)
    && Flat(trace) + Owed(m, data, end) == before + e.events
    && |Owed(m, data, end)| == e.pend
  }

  // The marks between two bytes; only at the end of the data can a body be marked.
  ghost predicate Rests(m: Marks, st: Parser, last: bool) {
    Marked(m, st.state) || (last && IsBodyState(st.state) && m.Keys == {Body})
  }

  // After some passes outside the body: `evs` have happened, Exec of the current state is to come.
  ghost predicate Going(hc: HeadersCallback, s0: Parser, before: seq<Event>, pend: nat, data: seq<Byte>, at: nat,
                        evs: seq<Event>, st: Parser, trace: seq<Callback>, m: Marks)
    requires at < |data| && forall k :: k in m ==> m[k] <= at
  {
    && Safe(st, 1) && Marked(m, st.state) && !IsBodyState(st.state)
    && Flat(trace) + Owed(m, data, at) == before + evs
    && var e := Exec(hc, st, |Owed(m, data, at)|, data[at]);
       Exec(hc, s0, pend, data[at]) == e.(events := evs + e.events)
  }

  lemma GoingStart(hc: HeadersCallback, st: Parser, trace: seq<Callback>, owed: seq<Event>,
                   data: seq<Byte>, at: nat, m: Marks)
    requires at < |data| && forall k :: k in m ==> m[k] <= at
    requires Safe(st, 1) && Marked(m, st.state) && !IsBodyState(st.state) && owed == Owed(m, data, at)
    ensures Going(hc, st, Flat(trace) + owed, |owed|, data, at, [], st, trace, m)
  {
    hide Exec, Safe, Marked, Owed, Flat;
    var e := Exec(hc, st, |owed|, data[at]);
    assert [] + e.events == e.events;
    assert Flat(trace) + owed + [] == Flat(trace) + owed;
  }

  lemma GoingPass(hc: HeadersCallback, s0: Parser, before: seq<Event>, pend: nat, data: seq<Byte>, at: nat,
                  evs: seq<Event>, st: Parser, trace: seq<Callback>, m: Marks)
    requires at < |data| && forall k :: k in m ==> m[k] <= at
    requires Going(hc, s0, before, pend, data, at, evs, st, trace, m)
    ensures var o := Switch(hc, st, data[at], |data| - at);
            var m1 := SetMark(m, o.mark, at);
            var m2 := ClearMark(m1, o.flush);
            var t2 := trace + Reported(m1, data, o.flush, at) + Noticed(o.note);
            && o == Switch(hc, st, data[at], 1) && o.skip == 0 && o.extra == 0
            && !o.flow.Crash?
            && (if o.flow.Again? then
                  Rank(o.next.state) < Rank(st.state)
                  && Going(hc, s0, before, pend, data, at, evs + EventsOf(st, o, data[at]), o.next, t2, m2)
                else Finished(Exec(hc, s0, pend, data[at]), before, data, at, at, m2, o.flow, o.next, t2))
  {
    hide SafeState, Coherent, Owed, Flat, EventsOf, PendOf, Switch, MarkOf, Marked, Safe, IsBodyState;
    hide SetMark, ClearMark, Reported, Noticed;
    var ch := data[at];
    var o := Switch(hc, st, ch, |data| - at);
    SwitchAvail(hc, st, ch, |data| - at);
    ReadyToPass(hc, st, ch, o);
    PassTrace(st, o, m, data, at);
    MarksAt(m, o, at);
    if o.flow.Exit? { ExitUnmarked(st, o, m, at); }
    var m1 := SetMark(m, o.mark, at);
    var m2 := ClearMark(m1, o.flush);
    var end := if o.flow.Next? then at + 1 else at;
    TraceGrows(before, evs, trace, Owed(m, data, at), EventsOf(st, o, ch),
               Reported(m1, data, o.flush, at), Noticed(o.note), Owed(m2, data, end));
    ExecUnfold(hc, st, |Owed(m, data, at)|, ch);
    if o.flow.Again? {
      var r := Exec(hc, o.next, |Owed(m2, data, at)|, ch);
      assert evs + (EventsOf(st, o, ch) + r.events) == evs + EventsOf(st, o, ch) + r.events;
    }
  }

  lemma SwitchAvail(hc: HeadersCallback, p: Parser, ch: Byte, avail: nat)
    requires avail > 0 && !IsBodyState(p.state)
    ensures Switch(hc, p, ch, avail) == Switch(hc, p, ch, 1)
  {
    hide SwitchRequest, SwitchVersion, SwitchResponse, SwitchHeader;
  }

  lemma ReadyToPass(hc: HeadersCallback, p: Parser, ch: Byte, o: Outcome)
    requires Safe(p, 1) && !IsBodyState(p.state) && o == Switch(hc, p, ch, 1)
    ensures Coherent(p, o) && SafePass(o)
    ensures o.skip == 0 && o.extra == 0 && (o.flow.Again? ==> !IsBodyState(o.next.state))
  {
    hide Switch;
    SafeSwitch(hc, p, ch, 1);
    CoherentSwitch(hc, p, ch, 1);
  }

  lemma ExitUnmarked(p: Parser, o: Outcome, m: Marks, at: nat)
    requires Coherent(p, o) && Marked(m, p.state) && o.flow.Exit?
    ensures ClearMark(SetMark(m, o.mark, at), o.flush) == map[]
  {
  }

  lemma MarksAt(m: Marks, o: Outcome, at: nat)
    requires forall k :: k in m ==> m[k] <= at
    ensures var m1 := SetMark(m, o.mark, at);
            var m2 := ClearMark(m1, o.flush);
            (forall k :: k in m1 ==> m1[k] <= at) && forall k :: k in m2 ==> m2[k] <= at
  {
  }

  lemma TraceGrows(before: seq<Event>, evs: seq<Event>, trace: seq<Callback>, owed: seq<Event>, new_: seq<Event>,
                   reported: seq<Callback>, noticed: seq<Callback>, owed': seq<Event>)
    requires Flat(trace) + owed == before + evs
    requires Flat(reported) + Flat(noticed) + owed' == owed + new_
    requires |reported| <= 1 && |noticed| <= 1
    ensures Flat(trace + reported + noticed) + owed' == before + (evs + new_)
  {
    hide Flat;
    FlatAppend(trace, reported);
    FlatAppend(trace + reported, noticed);
    calc {
      Flat(trace + reported + noticed) + owed';
      Flat(trace) + (Flat(reported) + Flat(noticed) + owed');
      Flat(trace) + owed + new_;
      before + (evs + new_);
    }
  }

  lemma ExecUnfold(hc: HeadersCallback, p: Parser, pend: nat, ch: Byte)
    ensures var o := Switch(hc, p, ch, 1);
            var events := EventsOf(p, o, ch);
            var pend' := PendOf(p, o, pend);
            Exec(hc, p, pend, ch) ==
              match o.flow
              case Next => Fed(o.next, events, pend', Running, 1)
              case Fail => Fed(o.next, events, pend', Failed, 0)
              case Exit => Fed(o.next, events, pend', Exited, 1)
              case Crash => Fed(o.next, events, pend', Crashed, 0)
              case Again => var r := Exec(hc, o.next, pend', ch); r.(events := events + r.events)
  {
    hide Switch, EventsOf, PendOf;
  }

  // The pass over a block of body bytes.
  function BodyOutcome(p: Parser, n: nat): Outcome
    requires n > 0 && (!p.state.BodyIdentityEof? ==> n <= p.contentLength)
  {
    if p.state.BodyIdentityEof? then Outcome(p, Next, Some(Body), n - 1, None, 0, None)
    else
      var q := p.(contentLength := p.contentLength - n);
      if q.contentLength > 0 then Outcome(q, Next, Some(Body), n - 1, None, 0, None)
      else if p.state.ChunkData? then
        Outcome(q.(state := ChunkDataAlmostDone), Next, Some(Body), n - 1, None, 0, None)
      else Outcome(q.(state := MessageDone), Again, Some(Body), n - 1, Some(Body), 1, None)
  }

  function BlockSize(p: Parser, avail: nat): nat {
    if p.state.BodyIdentityEof? then avail else Min(p.contentLength, avail)
  }

  lemma BodySwitch(hc: HeadersCallback, p: Parser, ch: Byte, avail: nat)
    requires Safe(p, 1) && IsBodyState(p.state) && avail > 0
    ensures 0 < BlockSize(p, avail) <= avail
    ensures p.errno.Ok? && (SizedBody(p) <==> !p.state.BodyIdentityEof?)
    ensures Switch(hc, p, ch, avail) == BodyOutcome(p, BlockSize(p, avail))
  {
    hide SwitchRequest, SwitchVersion, SwitchResponse, SwitchHeader;
  }

  // A block that stays inside the body: nothing is reported yet.
  lemma BodyStays(st: Parser, trace: seq<Callback>, data: seq<Byte>, at: nat, n: nat)
    requires at < |data| && 0 < n <= |data| - at && n == BlockSize(st, |data| - at)
    requires IsBodyState(st.state) && (SizedBody(st) <==> !st.state.BodyIdentityEof?)
    requires var o := BodyOutcome(st, n); o.flow.Next? && Safe(o.next, 0)
    ensures Finished(if st.state.BodyIdentityEof? then Fed(st, Bytes(Body, data[at..]), n, Running, n)
                     else SizedBlock(st, 0, data[at..at + n]),
                     Flat(trace), data, at, at + n - 1, map[Body := at], Next, BodyOutcome(st, n).next, trace)
  {
    hide Flat, Bytes, Safe, Owed;
    var m: Marks := map[Body := at];
    assert m.Keys == {Body};
    OwedOne(m, data, at + n, Body);
    assert st.state.BodyIdentityEof? ==> data[at..at + n] == data[at..];
    assert Rests(m, BodyOutcome(st, n).next, at + n == |data|);
  }

  // A block that ends the message: the run is reported, then the completion.
  lemma BodyEnds(st: Parser, trace: seq<Callback>, data: seq<Byte>, at: nat, n: nat)
    requires at < |data| && 0 < n == st.contentLength <= |data| - at && st.state.BodyIdentity?
    requires var d := BodyOutcome(st, n).next; Safe(Complete(d).next, 0)
    ensures var d := BodyOutcome(st, n).next;
            Finished(SizedBlock(st, 0, data[at..at + n]), Flat(trace), data, at, at + n - 1, map[], Next,
                     Complete(d).next, trace + [Data(Body, data[at..at + n])] + [Notify(MessageComplete)])
  {
    hide Flat, Bytes, Safe, Owed, ShouldKeepAlive;
    var run := [Data(Body, data[at..at + n])];
    var done := [Notify(MessageComplete)];
    FlatOne(run);
    FlatOne(done);
    FlatAppend(trace, run);
    FlatAppend(trace + run, done);
    OwedNone(data, at + n);
    var bytes := Bytes(Body, data[at..at + n]);
    assert Flat(trace) + bytes + [Noted(MessageComplete)] + [] == Flat(trace) + (bytes + [Noted(MessageComplete)]);
  }

  // A block of body bytes: one pass, or two when it ends the message.
  lemma BodyPass(hc: HeadersCallback, st: Parser, trace: seq<Callback>, data: seq<Byte>, at: nat)
    requires at < |data| && Safe(st, 1) && IsBodyState(st.state)
    ensures var o := Switch(hc, st, data[at], |data| - at);
            var p := at + o.skip;
            var m1 := SetMark(map[], o.mark, at);
            var m2 := ClearMark(m1, o.flush);
            var t2 := trace + Reported(m1, data, o.flush, p + o.extra) + Noticed(o.note);
            var e := Block(hc, st, 0, data[at..]);
            && (forall k :: k in m2 ==> m2[k] <= p)
            && (o.flow.Next? ==> Finished(e, Flat(trace), data, at, p, m2, Next, o.next, t2))
            && (!o.flow.Next? ==>
                  var o' := Switch(hc, o.next, data[at], |data| - p);
                  && o.flow.Again? && m2 == map[] && o' == Complete(o.next)
                  && Finished(e, Flat(trace), data, at, p, map[], Next, o'.next, t2 + Noticed(o'.note)))
  {
    hide Flat, Bytes, Safe, Owed, Switch, Finished, SizedBlock, ShouldKeepAlive;
    var avail := |data| - at;
    var n := BlockSize(st, avail);
    var o := Switch(hc, st, data[at], avail);
    BodySwitch(hc, st, data[at], avail);
    SafeSwitch(hc, st, data[at], avail);
    assert data[at..][..n] == data[at..at + n];
    var m1 := SetMark(map[], o.mark, at);
    assert m1 == map[Body := at];
    if o.flow.Next? {
      BodyStays(st, trace, data, at, n);
      assert trace + [] + [] == trace;
    } else {
      var d := o.next;
      MessageDoneSwitch(hc, d, data[at], |data| - (at + o.skip));
      SafeSwitch(hc, d, data[at], |data| - (at + o.skip));
      BodyEnds(st, trace, data, at, n);
      assert ClearMark(m1, o.flush) == map[];
      assert trace + [Data(Body, data[at..at + n])] + [] == trace + [Data(Body, data[at..at + n])];
    }
  }

  lemma MessageDoneSwitch(hc: HeadersCallback, p: Parser, ch: Byte, avail: nat)
    requires p.state.MessageDone? && avail > 0
    ensures Switch(hc, p, ch, avail) == Complete(p)
  {
    hide ShouldKeepAlive;
  }

  lemma NothingMarked(s: State, m: Marks, data: seq<Byte>, at: nat)
    requires IsBodyState(s) && Marked(m, s) && at <= |data|
    ensures m == map[] && Owed(m, data, at) == []
  {
  }
}
