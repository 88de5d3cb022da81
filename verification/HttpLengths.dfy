/** Chunk sizes and Content-Length: read exactly, or wrongly, and when. */
module HttpLengths {
  import opened Wrappers
  import opened HttpTypes
  import opened HttpSwitch
  import opened HttpFeed
  import opened HttpHeaderNames
  import opened HttpCut

  predicate IsHex(c: Byte) { IsNum(c) || 'a' <= c <= 'f' || 'A' <= c <= 'F' }

  // The value of a run of digits.
  function Number(ds: seq<Byte>, base: nat): int {
    if ds == [] then 0 else Number(ds[..|ds| - 1], base) * base + Unhex(ds[|ds| - 1])
  }

  const WORD: nat := 0x1_0000_0000_0000_0000

  // One digit is added exactly if and only if the sum stays below the reserved 2^64 - 1. A sum that
  // does not is refused if and only if it wraps to less than the number before, or to 2^64 - 1.
  lemma AccumulateIsExact(cl: nat, base: nat, digit: nat)
    requires base == 10 || base == 16
    requires cl < ULLONG_MAX && digit < base
    ensures Accumulate(cl, base, digit) == Some(cl * base + digit) <==> cl * base + digit < ULLONG_MAX
    ensures Accumulate(cl, base, digit).Some? ==> Accumulate(cl, base, digit).value < ULLONG_MAX
    ensures cl * base + digit >= ULLONG_MAX ==>
              Accumulate(cl, base, digit)
              == if Refused(cl * base + digit, base) then None else Some((cl * base + digit) % WORD)
  {
    assert (cl * base + digit) / base == cl;
  }

  // What the source's overflow test sees of a number of 2^64 - 1 or more.
  predicate Refused(v: nat, base: nat)
    requires base > 0
  {
    v % WORD < v / base || v % WORD == ULLONG_MAX
  }

  // What a run of digits is read as, digit by digit; None if it is refused.
  function Read(ds: seq<Byte>, base: nat): (r: Option<nat>)
    requires ds != [] && forall c <- ds :: 0 <= Unhex(c)
    decreases |ds|
  {
    if |ds| == 1 then Some(Unhex(ds[0]))
    else
      var i := |ds| - 1;
      match Read(ds[..i], base)
      case None => None
      case Some(n) => Accumulate(n, base, Unhex(ds[i]))
  }

  predicate Digits(ds: seq<Byte>, base: nat) { forall c <- ds :: 0 <= Unhex(c) < base }

  predicate AllHex(ds: seq<Byte>): (b: bool)
    ensures b ==> Digits(ds, 16)
  {
    forall c <- ds :: IsHex(c)
  }

  lemma NumberSnoc(ds: seq<Byte>, c: Byte, base: nat)
    ensures Number(ds + [c], base) == Number(ds, base) * base + Unhex(c)
  {
    assert (ds + [c])[..|ds|] == ds;
  }

  // It is read as its value if and only if that is below 2^64 - 1.
  lemma {:induction false} ReadIsExact(ds: seq<Byte>, base: nat)
    requires (base == 10 || base == 16) && ds != [] && Digits(ds, base)
    ensures Number(ds, base) >= 0
    ensures Read(ds, base) == Some(Number(ds, base)) <==> Number(ds, base) < ULLONG_MAX
    ensures Read(ds, base).Some? ==> Read(ds, base).value < ULLONG_MAX
    decreases |ds|
  {
    hide Unhex, Accumulate;
    var i := |ds| - 1;
    if i == 0 {
      assert ds[..0] == [];
    } else {
      ReadIsExact(ds[..i], base);
      if Read(ds[..i], base).Some? {
        AccumulateIsExact(Read(ds[..i], base).value, base, Unhex(ds[i]));
        if Read(ds[..i], base).value != Number(ds[..i], base) {
          Products(Number(ds[..i], base), base);
        }
      } else {
        Products(Number(ds[..i], base), base);
      }
    }
  }

  lemma Products(n: nat, base: nat)
    requires base > 0
    ensures n * base >= n
  {
  }

  // The first digit that takes it to 2^64 - 1 or beyond: refused, or taken for the remainder.
  lemma FirstOverflow(ds: seq<Byte>, base: nat)
    requires (base == 10 || base == 16) && |ds| > 1 && Digits(ds, base)
    requires 0 <= Number(ds[..|ds| - 1], base) < ULLONG_MAX <= Number(ds, base)
    ensures Read(ds, base) == if Refused(Number(ds, base), base) then None else Some(Number(ds, base) % WORD)
  {
    hide Unhex, Accumulate;
    var i := |ds| - 1;
    ReadIsExact(ds[..i], base);
    AccumulateIsExact(Number(ds[..i], base), base, Unhex(ds[i]));
  }

  predicate ReadingSize(p: Parser) {
    p.errno.Ok? && p.state.ChunkSize? && p.flags.chunked && p.nread < HTTP_MAX_HEADER_SIZE
  }

  lemma StepSizeDigit(hc: HeadersCallback, p: Parser, pend: nat, ch: Byte)
    requires ReadingSize(p) && IsHex(ch)
    ensures var r := Step(hc, p, pend, ch);
            match Accumulate(p.contentLength, 16, Unhex(ch))
            case Some(n) => r == Fed(p.(nread := p.nread + 1, contentLength := n), [], pend, Running, 1)
            case None => r.status.Failed?
  {
    hide Accumulate;
  }

  lemma StepSizeFirst(hc: HeadersCallback, p: Parser, pend: nat, ch: Byte)
    requires p.errno.Ok? && p.state.ChunkSizeStart? && p.flags.chunked && p.nread == 0 && IsHex(ch)
    ensures Step(hc, p, pend, ch)
         == Fed(p.(nread := 1, state := ChunkSize, contentLength := Unhex(ch)), [], pend, Running, 1)
  {
  }

  // The parser reads a chunk size as Read does.
  lemma {:induction false} SizeIsRead(hc: HeadersCallback, p: Parser, pend: nat, ds: seq<Byte>)
    requires p.errno.Ok? && p.state.ChunkSizeStart? && p.flags.chunked && p.nread == 0
    requires 0 < |ds| <= HTTP_MAX_HEADER_SIZE && AllHex(ds)
    ensures var r := Feed(hc, p, pend, ds);
            match Read(ds, 16)
            case Some(n) => r == Fed(p.(nread := |ds|, state := ChunkSize, contentLength := n), [], pend, Running, |ds|)
            case None => r.status.Failed?
    decreases |ds|
  {
    hide Step, IsHex, Unhex, Accumulate;
    var i := |ds| - 1;
    var ch := ds[i];
    if i == 0 {
      assert ds == [ch] && ds[..0] == [];
      FeedOne(hc, p, pend, ch);
      StepSizeFirst(hc, p, pend, ch);
    } else {
      SizeIsRead(hc, p, pend, ds[..i]);
      var r := Feed(hc, p, pend, ds[..i]);
      if r.status.Running? {
        StepSizeDigit(hc, r.p, r.pend, ch);
      }
    }
  }

  // A hexadecimal chunk size comes out as its value if and only if that is below 2^64 - 1; it is
  // then not rejected either. The first value beyond is refused or misread as Refused says.
  lemma ChunkSizeIsExact(hc: HeadersCallback, p: Parser, pend: nat, ds: seq<Byte>)
    requires p.errno.Ok? && p.state.ChunkSizeStart? && p.flags.chunked && p.nread == 0
    requires 0 < |ds| <= HTTP_MAX_HEADER_SIZE && AllHex(ds)
    ensures var r := Feed(hc, p, pend, ds);
            && (r.status.Running? ==>
                  r.p == p.(nread := |ds|, state := ChunkSize, contentLength := r.p.contentLength)
                  && r.p.contentLength < ULLONG_MAX && r.events == [] && r.pend == pend)
            && (r.status.Running? && r.p.contentLength == Number(ds, 16) <==> Number(ds, 16) < ULLONG_MAX)
    ensures |ds| > 1 && 0 <= Number(ds[..|ds| - 1], 16) < ULLONG_MAX <= Number(ds, 16) ==>
              var r := Feed(hc, p, pend, ds);
              if Refused(Number(ds, 16), 16) then r.status.Failed?
              else r.status.Running? && r.p.contentLength == Number(ds, 16) % WORD
  {
    hide Feed, Read, Number, IsHex, Unhex, Refused;
    SizeIsRead(hc, p, pend, ds);
    ReadIsExact(ds, 16);
    if |ds| > 1 && 0 <= Number(ds[..|ds| - 1], 16) < ULLONG_MAX <= Number(ds, 16) {
      FirstOverflow(ds, 16);
    }
  }

  predicate ReadingLength(p: Parser) {
    && p.errno.Ok? && p.state.HeaderValue? && p.headerState.ContentLength?
    && p.nread < HTTP_MAX_HEADER_SIZE
  }

  lemma StepLengthDigit(hc: HeadersCallback, p: Parser, pend: nat, ch: Byte)
    requires ReadingLength(p) && IsNum(ch)
    ensures var r := Step(hc, p, pend, ch);
            match Accumulate(p.contentLength, 10, Unhex(ch))
            case Some(n) =>
              r == Fed(p.(nread := p.nread + 1, contentLength := n), [DataByte(Value, ch)], pend + 1, Running, 1)
            case None => r.status.Failed?
  {
    hide Accumulate;
  }

  lemma StepLengthFirst(hc: HeadersCallback, p: Parser, pend: nat, ch: Byte)
    requires p.errno.Ok? && p.state.HeaderValueStart? && p.headerState.ContentLength?
    requires p.nread < HTTP_MAX_HEADER_SIZE && IsNum(ch)
    ensures Step(hc, p, pend, ch)
         == Fed(p.(nread := p.nread + 1, state := HeaderValue, index := 0, contentLength := Unhex(ch)),
                [DataByte(Value, ch)], pend + 1, Running, 1)
  {
  }

  // The parser reads a Content-Length as Read does.
  lemma {:induction false} LengthIsRead(hc: HeadersCallback, p: Parser, pend: nat, ds: seq<Byte>)
    requires p.errno.Ok? && p.state.HeaderValueStart? && p.headerState.ContentLength?
    requires ds != [] && p.nread + |ds| <= HTTP_MAX_HEADER_SIZE && forall c <- ds :: IsNum(c)
    ensures var r := Feed(hc, p, pend, ds);
            match Read(ds, 10)
            case Some(n) =>
              r == Fed(p.(nread := p.nread + |ds|, state := HeaderValue, index := 0, contentLength := n),
                       Bytes(Value, ds), pend + |ds|, Running, |ds|)
            case None => r.status.Failed?
    decreases |ds|
  {
    hide Step, IsNum, Unhex, Accumulate;
    var i := |ds| - 1;
    var ch := ds[i];
    if i == 0 {
      assert ds == [ch] && ds[..0] == [];
      FeedOne(hc, p, pend, ch);
      StepLengthFirst(hc, p, pend, ch);
      assert Bytes(Value, ds) == [DataByte(Value, ch)];
    } else {
      LengthIsRead(hc, p, pend, ds[..i]);
      var r := Feed(hc, p, pend, ds[..i]);
      if r.status.Running? {
        StepLengthDigit(hc, r.p, r.pend, ch);
        assert Bytes(Value, ds) == Bytes(Value, ds[..i]) + [DataByte(Value, ch)];
      }
    }
  }

  // The same for a decimal Content-Length.
  lemma ContentLengthIsExact(hc: HeadersCallback, p: Parser, pend: nat, ds: seq<Byte>)
    requires p.errno.Ok? && p.state.HeaderValueStart? && p.headerState.ContentLength?
    requires ds != [] && p.nread + |ds| <= HTTP_MAX_HEADER_SIZE && forall c <- ds :: IsNum(c)
    ensures var r := Feed(hc, p, pend, ds);
            && (r.status.Running? ==>
                  r.p == p.(nread := p.nread + |ds|, state := HeaderValue, index := 0,
                            contentLength := r.p.contentLength)
                  && r.p.contentLength < ULLONG_MAX && r.events == Bytes(Value, ds))
            && (r.status.Running? && r.p.contentLength == Number(ds, 10) <==> Number(ds, 10) < ULLONG_MAX)
    ensures |ds| > 1 && 0 <= Number(ds[..|ds| - 1], 10) < ULLONG_MAX <= Number(ds, 10) ==>
              var r := Feed(hc, p, pend, ds);
              if Refused(Number(ds, 10), 10) then r.status.Failed?
              else r.status.Running? && r.p.contentLength == Number(ds, 10) % WORD
  {
    hide Feed, Read, Number, IsNum, Unhex, Refused;
    forall c <- ds ensures 0 <= Unhex(c) < 10 { DecimalDigit(c); }
    LengthIsRead(hc, p, pend, ds);
    ReadIsExact(ds, 10);
    if |ds| > 1 && 0 <= Number(ds[..|ds| - 1], 10) < ULLONG_MAX <= Number(ds, 10) {
      FirstOverflow(ds, 10);
    }
  }

  lemma DecimalDigit(ch: Byte)
    requires IsNum(ch)
    ensures 0 <= Unhex(ch) < 10
  {
  }

  function Power(base: nat, k: nat): (p: nat) {
    if k == 0 then 1 else base * Power(base, k - 1)
  }

  // '3' and k zeros
  function ThreeThen(k: nat): (s: seq<Byte>)
    ensures |s| == k + 1
  {
    seq(k + 1, i => if i == 0 then '3' else '0')
  }

  lemma {:induction false} NumberOfThree(k: nat)
    ensures Number(ThreeThen(k), 10) == 3 * Power(10, k)
    decreases k
  {
    if k == 0 {
      assert ThreeThen(0) == [] + ['3'] && Number([], 10) == 0;
      NumberSnoc([], '3', 10);
    } else {
      NumberOfThree(k - 1);
      assert ThreeThen(k) == ThreeThen(k - 1) + ['0'];
      NumberSnoc(ThreeThen(k - 1), '0', 10);
    }
  }

  lemma PowersOfTen()
    ensures Power(10, 18) == 1_000_000_000_000_000_000 && Power(10, 19) == 10_000_000_000_000_000_000
  {
    assert Power(10, 2) == 100 && Power(10, 4) == 10_000 && Power(10, 6) == 1_000_000;
    assert Power(10, 8) == 100_000_000 && Power(10, 10) == 10_000_000_000 && Power(10, 12) == 1_000_000_000_000;
    assert Power(10, 14) == 100_000_000_000_000 && Power(10, 16) == 10_000_000_000_000_000;
  }

  // As a value it wraps to a larger number, and passes.
  lemma ThreeMisread(hc: HeadersCallback, p: Parser)
    requires p.errno.Ok? && p.state.HeaderValueStart? && p.headerState.ContentLength?
    requires p.nread + 20 <= HTTP_MAX_HEADER_SIZE
    ensures var r := Feed(hc, p, 0, ThreeThen(19));
            r.status.Running? && r.p.contentLength == 11_553_255_926_290_448_384
    ensures Number(ThreeThen(19), 10) == 30_000_000_000_000_000_000
  {
    hide Feed, Number, Power;
    var ds := ThreeThen(19);
    PowersOfTen();
    NumberOfThree(19);
    NumberOfThree(18);
    assert ds[..19] == ThreeThen(18);
    ContentLengthIsExact(hc, p, 0, ds);
  }

  const LENGTH_NAME: seq<Byte> :=
    ['C', 'o', 'n', 't', 'e', 'n', 't', '-', 'L', 'e', 'n', 'g', 't', 'h']

  lemma LengthName()
    ensures AllTokens(LENGTH_NAME) && Fold(LENGTH_NAME) == CONTENT_LENGTH
  {
    forall i | 0 <= i < |LENGTH_NAME| ensures Token(LENGTH_NAME[i]) == CONTENT_LENGTH[i] {}
  }

  // The end of a request line without a version.
  lemma LineEnds(hc: HeadersCallback, p: Parser, pend: nat)
    requires p.errno.Ok? && p.state.ReqPath? && p.nread < HTTP_MAX_HEADER_SIZE
    ensures Step(hc, p, pend, LF)
         == Fed(p.(nread := p.nread + 1, major := 0, minor := 9, state := HeaderFieldStart), [], 0, Running, 1)
  {
  }

  // "GET /", a line feed, "Content-Length:" and the twenty digits of 3 * 10^19: an initialised parser
  // goes on with a content length of 11553255926290448384.
  lemma OverflowMissed(hc: HeadersCallback)
    ensures var r := Feed(hc, Init(Request), 0, GET_SLASH + [LF] + (LENGTH_NAME + [':']) + ThreeThen(19));
            r.status.Running? && r.p.contentLength == 11_553_255_926_290_448_384
    ensures Number(ThreeThen(19), 10) == 30_000_000_000_000_000_000
  {
    hide Feed, Step, Number, AllTokens, Fold, Init;
    var p := Init(Request);
    var line, name := GET_SLASH + [LF], LENGTH_NAME + [':'];
    GetSlash(hc);
    var r := Feed(hc, p, 0, GET_SLASH);
    LineEnds(hc, r.p, r.pend);
    FeedSnoc(hc, p, 0, GET_SLASH, LF);
    var q := Feed(hc, p, 0, line);
    LengthName();
    NameIsExact(hc, q.p, q.pend, LENGTH_NAME);
    var t := Feed(hc, q.p, q.pend, name);
    FeedConcat(hc, p, 0, line, name);
    ThreeMisread(hc, t.p);
    FeedConcat(hc, p, 0, line + name, ThreeThen(19));
  }
}
