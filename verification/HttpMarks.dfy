/** The marks of http_parser_execute, and body bytes taken in one jump. */
module HttpMarks {
  import opened Wrappers
  import opened HttpTypes
  import opened HttpSwitch
  import opened HttpFeed

  // The *_mark pointers that are set, as offsets into `data`.
  type Marks = map<Kind, nat>

  predicate Marked(m: Marks, s: State) {
    match MarkOf(s)
    case Some(k) => m.Keys == {k}
    case None => m == map[] || (s.ChunkDataAlmostDone? && m.Keys == {Body})
  }

  // What a pass outside the body does to the marks.
  predicate Coherent(p: Parser, o: Outcome) {
    && o.extra == 0 && o.skip == 0
    && (o.flow.Next? || o.flow.Again? ==> !o.next.state.ChunkDataAlmostDone?)
    && (o.flow.Again? ==> !IsBodyState(o.next.state))
    && (o.flow.Next? && MarkOf(o.next.state).Some? ==> o.note.None?)
    && (o.flow.Fail? && (MarkOf(p.state).Some? || p.state.ChunkDataAlmostDone?) ==> o.note.None?)
    && match o.flow {
         case Exit => o.mark.None? && o.flush.None? && MarkOf(p.state).None? && !p.state.ChunkDataAlmostDone?
         case Fail => o.flush.None? && o.mark != Some(Body)
             && (MarkOf(p.state).Some? || p.state.ChunkDataAlmostDone? ==> o.mark.None?)
         case Crash => true
         case _ =>
           if p.state.ChunkDataAlmostDone? then
             o.flow.Next? && o.mark.None? && o.flush == Some(Body) && MarkOf(o.next.state).None?
           else match MarkOf(p.state)
             case Some(k) =>
               && o.mark.None?
               && (if o.flush.Some? then o.flush == Some(k) && MarkOf(o.next.state).None?
                   else MarkOf(o.next.state) == Some(k) && o.flow.Next?)
             case None =>
               if o.mark.None? then o.flush.None? && MarkOf(o.next.state).None?
               else o.flow.Next? && o.mark != Some(Body)
                    && (if o.flush.None? then MarkOf(o.next.state) == o.mark
                        else o.flush == o.mark && MarkOf(o.next.state).None?)
       }
  }

  lemma CoherentSwitch(hc: HeadersCallback, p: Parser, ch: Byte, avail: nat)
    requires avail > 0 && !IsBodyState(p.state)
               && (p.state.ChunkDataAlmostDone? ==> p.flags.chunked && p.contentLength == 0)
    ensures Coherent(p, Switch(hc, p, ch, avail))
  {
    hide SwitchRequest, SwitchVersion, SwitchResponse, SwitchHeader, SwitchBody, Coherent;
    if IsHeaderPart(p.state) {
      CoherentHeader(hc, p, ch);
    } else if IsBodyPart(p.state) {
      CoherentBody(p, ch, avail);
    } else if IsRequestPart(p.state) {
      CoherentRequest(p, ch);
    } else if IsVersionPart(p.state) {
      CoherentVersion(p, ch);
    } else {
      CoherentResponse(p, ch);
    }
  }

  lemma CoherentHeader(hc: HeadersCallback, p: Parser, ch: Byte)
    requires IsHeaderPart(p.state)
    ensures Coherent(p, SwitchHeader(hc, p, ch))
  {
    hide Token, Lower, FieldByte, Matching, Accumulate, ShouldKeepAlive;
    hide OnHeaderField, OnHeaderValueStart, OnHeaderValue;
    match p.state
    case HeaderField => CoherentField(p, ch);
    case HeaderValueStart => CoherentValueStart(p, ch);
    case HeaderValue => CoherentValue(p, ch);
    case _ =>
  }

  lemma CoherentField(p: Parser, ch: Byte)
    requires p.state.HeaderField?
    ensures Coherent(p, OnHeaderField(p, ch))
  {
  }

  lemma CoherentValueStart(p: Parser, ch: Byte)
    requires p.state.HeaderValueStart?
    ensures Coherent(p, OnHeaderValueStart(p, ch))
  {
    hide Lower;
  }

  lemma CoherentValue(p: Parser, ch: Byte)
    requires p.state.HeaderValue?
    ensures Coherent(p, OnHeaderValue(p, ch))
  {
    hide Lower, Accumulate;
  }

  lemma CoherentBody(p: Parser, ch: Byte, avail: nat)
    requires avail > 0 && IsBodyPart(p.state) && !IsBodyState(p.state)
    requires p.state.ChunkDataAlmostDone? ==> p.flags.chunked && p.contentLength == 0
    ensures Coherent(p, SwitchBody(p, ch, avail))
  {
    hide Unhex, ShouldKeepAlive, Accumulate;
  }

  lemma CoherentRequest(p: Parser, ch: Byte)
    requires IsRequestPart(p.state)
    ensures Coherent(p, SwitchRequest(p, ch))
  {
    hide ParseUrlChar, IsAlpha, NextMethod, FirstMethod, MethodString;
  }

  lemma CoherentVersion(p: Parser, ch: Byte)
    requires IsVersionPart(p.state)
    ensures Coherent(p, SwitchVersion(p, ch))
  {
    hide Digit;
  }

  lemma CoherentResponse(p: Parser, ch: Byte)
    requires !IsHeaderPart(p.state) && !IsBodyPart(p.state) && !IsRequestPart(p.state) && !IsVersionPart(p.state)
    ensures Coherent(p, SwitchResponse(p, ch))
  {
    hide Digit;
  }

  // The bytes a callback still has to report: from the mark up to `end`.
  function Owed(m: Marks, data: seq<Byte>, end: nat): seq<Event>
    requires end <= |data| && forall k :: k in m ==> m[k] <= end
  {
    if Field in m then Bytes(Field, data[m[Field]..end])
    else if Value in m then Bytes(Value, data[m[Value]..end])
    else if Url in m then Bytes(Url, data[m[Url]..end])
    else if Body in m then Bytes(Body, data[m[Body]..end])
    else []
  }

  lemma OwedOne(m: Marks, data: seq<Byte>, end: nat, k: Kind)
    requires end <= |data| && m.Keys == {k} && m[k] <= end
    ensures Owed(m, data, end) == Bytes(k, data[m[k]..end])
    ensures end < |data| ==> Owed(m, data, end + 1) == Owed(m, data, end) + [DataByte(k, data[end])]
  {
    assert k in m && forall k' :: k' in m ==> k' == k;
    if end < |data| {
      assert data[m[k]..end + 1] == data[m[k]..end] + [data[end]];
    }
  }

  // MARK(kind): non-destructive if the mark is already set.
  function SetMark(m: Marks, k: Option<Kind>, p: nat): Marks {
    if k.Some? && k.value !in m then m[k.value := p] else m
  }

  // CALLBACK_DATA(kind) with the run ending before `end`
  function ClearMark(m: Marks, k: Option<Kind>): Marks {
    if k.Some? then m - {k.value} else m
  }

  function Reported(m: Marks, data: seq<Byte>, k: Option<Kind>, end: nat): (r: seq<Callback>)
    requires end <= |data| && forall k :: k in m ==> m[k] <= end
    ensures |r| <= 1
  {
    if k.Some? && k.value in m then [Data(k.value, data[m[k.value]..end])] else []
  }

  function Noticed(n: Option<Note>): (r: seq<Callback>)
    ensures |r| <= 1
  {
    if n.Some? then [Notify(n.value)] else []
  }

  lemma FlatAppend(a: seq<Callback>, b: seq<Callback>)
    requires |b| <= 1
    ensures Flat(a + b) == Flat(a) + Flat(b)
  {
    if b == [] {
      assert a + b == a;
    } else {
      assert (a + b)[..|a + b| - 1] == a;
      assert b[..0] == [];
    }
  }

  // One pass outside the body: what it reports and what is owed afterwards.
  ghost predicate PassTraced(p: Parser, o: Outcome, m: Marks, data: seq<Byte>, at: nat)
    requires at < |data| && forall k :: k in m ==> m[k] <= at
  {
    var m1 := SetMark(m, o.mark, at);
    var m2 := ClearMark(m1, o.flush);
    var end := if o.flow.Next? then at + 1 else at;
    && Flat(Reported(m1, data, o.flush, at)) + Flat(Noticed(o.note)) + Owed(m2, data, end)
       == Owed(m, data, at) + EventsOf(p, o, data[at])
    && |Owed(m2, data, end)| == PendOf(p, o, |Owed(m, data, at)|)
    && (o.flow.Next? || o.flow.Again? ==> Marked(m2, o.next.state))
  }

  lemma PassInRun(p: Parser, o: Outcome, m: Marks, data: seq<Byte>, at: nat, k: Kind)
    requires at < |data| && m.Keys == {k} && m[k] <= at
    requires MarkOf(p.state) == Some(k) && Coherent(p, o) && !o.flow.Crash? && !o.flow.Exit?
    ensures PassTraced(p, o, m, data, at)
  {
    hide MarkOf, IsBodyState, Owed, Flat, Bytes;
    OwedOne(m, data, at, k);
    FlatOne(Noticed(o.note));
    FlatOne(Reported(m, data, o.flush, at));
    var owed := Owed(m, data, at);
    if o.flush.Some? {
      assert ClearMark(m, o.flush) == map[];
      OwedNone(data, if o.flow.Next? then at + 1 else at);
      assert owed + Flat(Noticed(o.note)) + [] == owed + EventsOf(p, o, data[at]);
    } else if o.flow.Next? {
      assert [] + [] + (owed + [DataByte(k, data[at])]) == owed + EventsOf(p, o, data[at]);
    } else {
      assert [] + [] + owed == owed + EventsOf(p, o, data[at]);
    }
  }

  lemma OwedNone(data: seq<Byte>, end: nat)
    requires end <= |data|
    ensures Owed(map[], data, end) == []
  {
  }

  lemma PassBetweenRuns(p: Parser, o: Outcome, m: Marks, data: seq<Byte>, at: nat)
    requires at < |data| && m == map[]
    requires MarkOf(p.state).None? && !p.state.ChunkDataAlmostDone? && !IsBodyState(p.state)
    requires Coherent(p, o) && !o.flow.Crash?
    ensures PassTraced(p, o, m, data, at)
  {
    hide MarkOf, IsBodyState;
    var m1 := SetMark(m, o.mark, at);
    FlatOne(Noticed(o.note));
    FlatOne(Reported(m1, data, o.flush, at));
    if o.mark.Some? {
      assert m1.Keys == {o.mark.value};
      OwedOne(m1, data, at, o.mark.value);
      assert data[at..at] == [];
      if o.flush.Some? {
        assert ClearMark(m1, o.flush) == map[];
      }
    }
  }

  lemma PassAfterChunk(p: Parser, o: Outcome, m: Marks, data: seq<Byte>, at: nat)
    requires at < |data| && (m == map[] || (m.Keys == {Body} && m[Body] <= at))
    requires p.state.ChunkDataAlmostDone? && Coherent(p, o) && !o.flow.Crash?
    ensures PassTraced(p, o, m, data, at)
  {
    hide MarkOf, Owed, Flat, Bytes;
    FlatOne(Noticed(o.note));
    FlatOne(Reported(m, data, o.flush, at));
    var end := if o.flow.Next? then at + 1 else at;
    OwedNone(data, at);
    OwedNone(data, end);
    if Body in m {
      OwedOne(m, data, at, Body);
    }
    if o.flush.Some? {
      assert ClearMark(m, o.flush) == map[];
    }
    var owed := Owed(m, data, at);
    assert owed + [] == owed && [] + [] + owed == owed && owed + [] + [] == owed;
  }

  lemma PassTrace(p: Parser, o: Outcome, m: Marks, data: seq<Byte>, at: nat)
    requires at < |data| && Marked(m, p.state) && forall k :: k in m ==> m[k] <= at
    requires !IsBodyState(p.state) && Coherent(p, o) && !o.flow.Crash?
    ensures PassTraced(p, o, m, data, at)
  {
    hide PassTraced, Coherent;
    match MarkOf(p.state)
    case Some(k) =>
      assert k in m;
      CoherentNoExit(p, o);
      PassInRun(p, o, m, data, at, k);
    case None =>
      if p.state.ChunkDataAlmostDone? {
        PassAfterChunk(p, o, m, data, at);
      } else {
        PassBetweenRuns(p, o, m, data, at);
      }
  }

  lemma CoherentNoExit(p: Parser, o: Outcome)
    requires Coherent(p, o) && MarkOf(p.state).Some?
    ensures !o.flow.Exit?
  {
  }

  lemma FlatOne(c: seq<Callback>)
    requires |c| <= 1
    ensures Flat(c) == if c == [] then [] else match c[0] case Data(k, s) => Bytes(k, s) case Notify(n) => [Noted(n)]
  {
    if c != [] {
      assert c[..0] == [];
      assert Flat(c[..0]) == [];
    }
  }

  // What a block of body bytes does when it is taken one byte at a time.
  function SizedBlock(p: Parser, pend: nat, b: seq<Byte>): Fed
    requires |b| <= p.contentLength
  {
    var q := p.(contentLength := p.contentLength - |b|);
    if q.contentLength > 0 then Fed(q, Bytes(Body, b), pend + |b|, Running, |b|)
    else if p.state.ChunkData? then
      Fed(q.(state := ChunkDataAlmostDone), Bytes(Body, b), pend + |b|, Running, |b|)
    else
      var d := q.(state := MessageDone);
      Fed(d.(state := NewMessage(d)), Bytes(Body, b) + [Noted(MessageComplete)], 0, Running, |b|)
  }

  predicate SizedBody(p: Parser) {
    && p.errno.Ok? && 0 < p.contentLength < ULLONG_MAX
    && (p.state.BodyIdentity? || (p.state.ChunkData? && p.flags.chunked))
  }

  // The passes that a sized body takes.
  lemma SwitchSized(hc: HeadersCallback, p: Parser, ch: Byte)
    requires SizedBody(p)
    ensures var n := p.contentLength - 1;
            Switch(hc, p, ch, 1) ==
              if n == 0 && p.state.BodyIdentity? then
                Outcome(p.(contentLength := 0, state := MessageDone), Again, Some(Body), 0, Some(Body), 1, None)
              else
                Outcome(if n == 0 then p.(contentLength := 0, state := ChunkDataAlmostDone) else p.(contentLength := n),
                        Next, Some(Body), 0, None, 0, None)
  {
    hide ShouldKeepAlive, NewMessage, SwitchHeader, SwitchRequest, SwitchVersion, SwitchResponse;
    assert Switch(hc, p, ch, 1) == SwitchBody(p, ch, 1);
  }

  lemma SwitchDone(hc: HeadersCallback, d: Parser, ch: Byte)
    requires d.state.MessageDone?
    ensures Switch(hc, d, ch, 1) == Complete(d)
  {
    hide NewMessage;
  }

  lemma StepSized(hc: HeadersCallback, p: Parser, pend: nat, ch: Byte)
    requires SizedBody(p)
    ensures Step(hc, p, pend, ch) == SizedBlock(p, pend, [ch])
  {
    hide ShouldKeepAlive, NewMessage, Switch, OnSizedBody;
    SwitchSized(hc, p, ch);
    assert Bytes(Body, [ch]) == [DataByte(Body, ch)];
    if p.contentLength == 1 && p.state.BodyIdentity? {
      var d := p.(contentLength := 0, state := MessageDone);
      SwitchDone(hc, d, ch);
      assert Exec(hc, d, 0, ch) == Fed(d.(state := NewMessage(d)), [Noted(MessageComplete)], 0, Running, 1);
    }
  }

  lemma StepUntilEof(hc: HeadersCallback, p: Parser, pend: nat, ch: Byte)
    requires p.errno.Ok? && p.state.BodyIdentityEof?
    ensures Step(hc, p, pend, ch) == Fed(p, [DataByte(Body, ch)], pend + 1, Running, 1)
  {
  }

  lemma {:induction false} FeedSized(hc: HeadersCallback, p: Parser, pend: nat, b: seq<Byte>)
    requires SizedBody(p) && 0 < |b| <= p.contentLength
    ensures Feed(hc, p, pend, b) == SizedBlock(p, pend, b)
  {
    hide Step, NewMessage;
    var b' := b[..|b| - 1];
    var ch := b[|b| - 1];
    if b' == [] {
      assert b == [ch];
      FeedOne(hc, p, pend, ch);
      StepSized(hc, p, pend, ch);
    } else {
      FeedSized(hc, p, pend, b');
      var r := Feed(hc, p, pend, b');
      StepSized(hc, r.p, r.pend, ch);
      assert Bytes(Body, b) == Bytes(Body, b') + Bytes(Body, [ch]);
    }
  }

  lemma {:induction false} FeedUntilEof(hc: HeadersCallback, p: Parser, pend: nat, b: seq<Byte>)
    requires p.errno.Ok? && p.state.BodyIdentityEof?
    ensures Feed(hc, p, pend, b) == Fed(p, Bytes(Body, b), pend + |b|, Running, |b|)
  {
    hide Step;
    if b != [] {
      FeedUntilEof(hc, p, pend, b[..|b| - 1]);
      StepUntilEof(hc, p, pend + |b| - 1, b[|b| - 1]);
      assert Bytes(Body, b) == Bytes(Body, b[..|b| - 1]) + [DataByte(Body, b[|b| - 1])];
    }
  }
}
