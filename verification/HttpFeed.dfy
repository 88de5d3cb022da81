/** The byte-at-a-time meaning of the parser: what one call does, seen without marks or jumps. */
module HttpFeed {
  import opened Wrappers
  import opened HttpTypes
  import opened HttpSwitch

  datatype Status = Running | Failed | Exited | Crashed

  // pend: data bytes of the current run that no callback has reported yet;
  // count: bytes consumed, a byte that fails excluded
  datatype Fed = Fed(p: Parser, events: seq<Event>, pend: nat, status: Status, count: nat)

  predicate IsBodyState(s: State) { s.BodyIdentity? || s.BodyIdentityEof? || s.ChunkData? }

  // The mark that must be set while the parser rests in state s.
  function MarkOf(s: State): (k: Option<Kind>)
    ensures k != Some(Body)
    ensures k.Some? ==> !s.ChunkDataAlmostDone? && !IsBodyState(s)
  {
    if IsUrlState(s) then Some(Url)
    else if s.HeaderField? then Some(Field)
    else if s.HeaderValue? then Some(Value)
    else None
  }

  // Does the byte that drove this pass become data, and of which kind?
  function Taken(p: Parser, o: Outcome): Option<Kind> {
    if IsBodyState(p.state) then Some(Body)
    else if o.flow.Next? then MarkOf(o.next.state)
    else None
  }

  function EventsOf(p: Parser, o: Outcome, ch: Byte): seq<Event> {
    (match Taken(p, o) case Some(k) => [DataByte(k, ch)] case None => [])
    + (match o.note case Some(n) => [Noted(n)] case None => [])
  }

  function PendOf(p: Parser, o: Outcome, pend: nat): nat {
    if o.flush.Some? then 0
    else match Taken(p, o) case Some(k) => pend + 1 case None => pend
  }

  // All the passes one byte takes.
  function Exec(hc: HeadersCallback, p: Parser, pend: nat, ch: Byte): (r: Fed)
    ensures r.pend <= pend + |r.events|
    ensures r.count <= 1 && (r.status.Running? ==> r.count == 1)
    decreases Rank(p.state)
  {
    var o := Switch(hc, p, ch, 1);
    var events := EventsOf(p, o, ch);
    var pend := PendOf(p, o, pend);
    match o.flow
    case Next => Fed(o.next, events, pend, Running, 1)
    case Fail => Fed(o.next, events, pend, Failed, 0)
    case Exit => Fed(o.next, events, pend, Exited, 1)
    case Crash => Fed(o.next, events, pend, Crashed, 0)
    case Again =>
      var r := Exec(hc, o.next, pend, ch);
      r.(events := events + r.events)
  }

  // The nread bookkeeping in front of the switch.
  function Tick(p: Parser): Parser {
    if ParsingHeader(p.state) then
      var q := p.(nread := p.nread + 1);
      if q.nread > HTTP_MAX_HEADER_SIZE then q.(errno := HeaderOverflow) else q
    else p
  }

  function Step(hc: HeadersCallback, p: Parser, pend: nat, ch: Byte): (r: Fed)
    ensures r.pend <= pend + |r.events|
    ensures r.count <= 1 && (r.status.Running? ==> r.count == 1)
  {
    var q := Tick(p);
    if !q.errno.Ok? then Fed(q, [], pend, Failed, 0) else Exec(hc, q, pend, ch)
  }

  // First r, then, if the parser still runs, s from the state r left.
  function Then(r: Fed, s: Fed): Fed {
    if r.status.Running? then s.(events := r.events + s.events, count := r.count + s.count) else r
  }

  // A run of bytes, in a call that already owes `pend` data bytes.
  function Feed(hc: HeadersCallback, p: Parser, pend: nat, bs: seq<Byte>): (r: Fed)
    ensures r.pend <= pend + |r.events|
    ensures r.count <= |bs| && (r.status.Running? ==> r.count == |bs|)
  {
    if bs == [] then Fed(p, [], pend, Running, 0)
    else
      var r := Feed(hc, p, pend, bs[..|bs| - 1]);
      Then(r, Step(hc, r.p, r.pend, bs[|bs| - 1]))
  }

  lemma {:induction false} FeedConcat(hc: HeadersCallback, p: Parser, pend: nat, a: seq<Byte>, b: seq<Byte>)
    ensures var r := Feed(hc, p, pend, a);
            Feed(hc, p, pend, a + b) == Then(r, Feed(hc, r.p, r.pend, b))
    decreases |b|
  {
    hide Step;
    var r := Feed(hc, p, pend, a);
    if b == [] {
      assert a + b == a;
      assert r.events + [] == r.events;
    } else {
      var b' := b[..|b| - 1];
      assert (a + b)[..|a + b| - 1] == a + b';
      FeedConcat(hc, p, pend, a, b');
      var t := Feed(hc, r.p, r.pend, b');
      var s := Step(hc, t.p, t.pend, b[|b| - 1]);
      assert r.events + t.events + s.events == r.events + (t.events + s.events);
    }
  }

  lemma FeedOne(hc: HeadersCallback, p: Parser, pend: nat, ch: Byte)
    ensures Feed(hc, p, pend, [ch]) == Step(hc, p, pend, ch)
  {
    hide Step;
    assert [ch][..0] == [];
    assert Feed(hc, p, pend, []) == Fed(p, [], pend, Running, 0);
    assert [] + Step(hc, p, pend, ch).events == Step(hc, p, pend, ch).events;
  }

  lemma FeedSnoc(hc: HeadersCallback, p: Parser, pend: nat, bs: seq<Byte>, ch: Byte)
    ensures var r := Feed(hc, p, pend, bs);
            Feed(hc, p, pend, bs + [ch]) == Then(r, Step(hc, r.p, r.pend, ch))
  {
    hide Step;
    assert (bs + [ch])[..|bs|] == bs;
  }

  // A byte at the front instead of at the end.
  lemma FeedFront(hc: HeadersCallback, p: Parser, pend: nat, bs: seq<Byte>)
    requires bs != []
    ensures var r := Step(hc, p, pend, bs[0]);
            Feed(hc, p, pend, bs) == Then(r, Feed(hc, r.p, r.pend, bs[1..]))
  {
    hide Step;
    FeedOne(hc, p, pend, bs[0]);
    FeedConcat(hc, p, pend, bs[..1], bs[1..]);
    assert bs[..1] == [bs[0]] && bs[..1] + bs[1..] == bs;
  }

  // What one call of http_parser_execute does: the bytes owed when it fails are never reported.
  datatype Called = Called(p: Parser, count: nat, events: seq<Event>)

  function Call(hc: HeadersCallback, p: Parser, data: seq<Byte>): Called {
    if !p.errno.Ok? then Called(p, 0, [])
    else if data == [] then CallEof(p)
    else
      var r := Feed(hc, p, 0, data);
      Called(r.p, r.count, if r.status.Failed? then r.events[..|r.events| - r.pend] else r.events)
  }

  // An empty call tells the parser that the input has ended.
  function CallEof(p: Parser): Called {
    match p.state
    case BodyIdentityEof => Called(p, 0, [Noted(MessageComplete)])
    case Dead | StartReqOrRes | StartRes | StartReq => Called(p, 0, [])
    case _ => Called(p.(errno := InvalidEofState), 1, [])
  }
}
