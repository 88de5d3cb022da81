/** Header lines: what a name and a value, in any case, mean for the body and the connection. */
module HttpValues {
  import opened HttpTypes
  import opened HttpSwitch
  import opened HttpFeed
  import opened HttpHeaderNames
  import opened HttpLengths
  import opened Wrappers

  // Equal but for the case of letters; pattern holds small letters and hyphens.
  predicate SameLetter(c: Byte, small: char) { c == small || (small != '-' && c as int + 32 == small as int) }

  predicate SameWord(s: seq<Byte>, word: string) {
    |s| == |word| && forall i :: 0 <= i < |s| ==> SameLetter(s[i], word[i])
  }

  // The word, and blanks behind it.
  predicate IsWord(s: seq<Byte>, word: string) {
    |s| >= |word| && SameWord(s[..|word|], word) && forall i :: |word| <= i < |s| ==> s[i] == ' '
  }

  // A value that could still become the word.
  predicate Begins(s: seq<Byte>, word: string) { 0 < |s| < |word| && SameWord(s, word[..|s|]) }

  lemma LowerIs(c: Byte, small: char)
    requires ('a' <= small <= 'z' || (small == '-' && c != CR))
    ensures Lower(c) == small <==> SameLetter(c, small)
  {
  }

  predicate IsPattern(word: string) { |word| > 1 && forall c <- word :: 'a' <= c <= 'z' || c == '-' }

  // One more byte for a matcher.
  lemma MatchingValue(p: Parser, s: seq<Byte>, c: Byte, word: string, done: HeaderState)
    requires IsPattern(word) && Begins(s, word) && p.index == |s| - 1 && c != CR
    ensures var q := Matching(p, Lower(c), word, done);
            && q == p.(index := |s|, headerState := q.headerState)
            && q.headerState == (if IsWord(s + [c], word) then done
                                 else if Begins(s + [c], word) then p.headerState else General)
  {
    var t := s + [c];
    assert word[|s|] in word;
    LowerIs(c, word[|s|]);
    assert t[|s|] == c && t[..|s|] == s;
    if SameLetter(c, word[|s|]) {
      assert forall i :: 0 <= i < |t| ==> SameLetter(t[i], word[i]);
      if |t| == |word| {
        assert t[..|word|] == t;
      }
    } else {
      if |t| == |word| { assert t[..|word|] == t; }
      assert |t| <= |word| ==> !SameLetter(t[|s|], word[|s|]);
    }
  }

  lemma Patterns()
    ensures IsPattern(CHUNKED) && IsPattern(KEEP_ALIVE) && IsPattern(CLOSE)
    ensures CHUNKED[0] == 'c' && KEEP_ALIVE[0] == 'k' && CLOSE[0] == 'c'
  {
  }

  // What could not become the word, or is it, before the last byte.
  lemma Shorter(s: seq<Byte>, c: Byte, word: string)
    requires s != [] && IsPattern(word)
    ensures Begins(s + [c], word) ==> Begins(s, word)
    ensures IsWord(s + [c], word) ==> IsWord(s, word) || Begins(s, word)
    ensures IsWord(s, word) ==> (IsWord(s + [c], word) <==> c == ' ') && !Begins(s + [c], word) && !Begins(s, word)
  {
    var t := s + [c];
    assert forall i :: 0 <= i < |s| ==> t[i] == s[i];
    assert t[|s|] == c;
    if |s| >= |word| {
      assert t[..|word|] == s[..|word|];
    } else if |t| == |word| {
      assert t[..|word|] == t;
    }
  }

  // header_state, and index while matching, after the bytes s of a value.
  predicate Matched(hs: HeaderState, index: nat, s: seq<Byte>, word: string, matching: HeaderState, done: HeaderState) {
    && hs == (if IsWord(s, word) then done else if Begins(s, word) then matching else General)
    && (Begins(s, word) ==> index == |s| - 1)
  }

  predicate ValueFollows(name: HeaderState, hs: HeaderState, index: nat, s: seq<Byte>)
    requires s != []
  {
    match name
    case TransferEncoding => Matched(hs, index, s, CHUNKED, MatchingChunked, ChunkedValue)
    case Connection =>
      if SameLetter(s[0], 'k') then Matched(hs, index, s, KEEP_ALIVE, MatchingKeepAlive, KeepAliveValue)
      else if SameLetter(s[0], 'c') then Matched(hs, index, s, CLOSE, MatchingClose, CloseValue)
      else hs == General
    case _ => hs == General
  }

  lemma MatchedStep(p: Parser, s: seq<Byte>, c: Byte, word: string, matching: HeaderState, done: HeaderState)
    requires s != [] && IsPattern(word) && c != CR && c != LF
               && Matched(p.headerState, p.index, s, word, matching, done)
    requires (word == CHUNKED && matching == MatchingChunked && done == ChunkedValue)
          || (word == KEEP_ALIVE && matching == MatchingKeepAlive && done == KeepAliveValue)
          || (word == CLOSE && matching == MatchingClose && done == CloseValue)
    ensures var o := OnHeaderValue(p, c);
            && o == Stay(p.(headerState := o.next.headerState, index := o.next.index))
            && Matched(o.next.headerState, o.next.index, s + [c], word, matching, done)
  {
    hide Matching, Begins, IsWord, Accumulate;
    Shorter(s, c, word);
    if Begins(s, word) {
      NotBoth(s, word);
      MatchingValue(p, s, c, word, done);
    }
  }

  lemma NotBoth(s: seq<Byte>, word: string)
    ensures !(Begins(s, word) && IsWord(s, word))
  {
  }

  lemma FollowsValue(name: HeaderState, p: Parser, s: seq<Byte>, c: Byte)
    requires s != [] && c != CR && c != LF && ValueFollows(name, p.headerState, p.index, s)
    ensures var o := OnHeaderValue(p, c);
            && o == Stay(p.(headerState := o.next.headerState, index := o.next.index))
            && ValueFollows(name, o.next.headerState, o.next.index, s + [c])
  {
    hide Matched, OnHeaderValue, SameLetter;
    Patterns();
    assert (s + [c])[0] == s[0];
    if name.TransferEncoding? {
      MatchedStep(p, s, c, CHUNKED, MatchingChunked, ChunkedValue);
    } else if name.Connection? && SameLetter(s[0], 'k') {
      MatchedStep(p, s, c, KEEP_ALIVE, MatchingKeepAlive, KeepAliveValue);
    } else if name.Connection? && SameLetter(s[0], 'c') {
      MatchedStep(p, s, c, CLOSE, MatchingClose, CloseValue);
    } else {
      GeneralStays(p, c);
    }
  }

  lemma GeneralStays(p: Parser, c: Byte)
    requires p.headerState.General? && c != CR && c != LF
    ensures OnHeaderValue(p, c) == Stay(p)
  {
  }

  // The first byte of a value that is not a length.
  lemma ValueStarts(p: Parser, c: Byte)
    requires !p.headerState.ContentLength? && c != CR && c != LF && c != ' ' && c != '\t'
    ensures var o := OnHeaderValueStart(p, c);
            && o == Stay(p.(state := HeaderValue, headerState := o.next.headerState, index := 0,
                            flags := if p.headerState.Upgrade? then p.flags.(upgrade := true) else p.flags))
                    .(mark := Some(Value))
            && ValueFollows(p.headerState, o.next.headerState, 0, [c])
  {
    Patterns();
    LowerIs(c, 'c');
    LowerIs(c, 'k');
    OneLetter(c, CHUNKED);
    OneLetter(c, KEEP_ALIVE);
    OneLetter(c, CLOSE);
    hide Begins, IsWord, SameLetter, Lower;
  }

  lemma OneLetter(c: Byte, word: string)
    requires IsPattern(word)
    ensures Begins([c], word) <==> SameLetter(c, word[0])
    ensures !IsWord([c], word)
  {
  }

  lemma StepInValue(hc: HeadersCallback, p: Parser, pend: nat, ch: Byte, q: Parser)
    requires p.errno.Ok? && p.state.HeaderValue? && p.nread < HTTP_MAX_HEADER_SIZE && ch != CR && ch != LF
    requires OnHeaderValue(p.(nread := p.nread + 1), ch) == Stay(q) && q.state.HeaderValue?
    ensures Step(hc, p, pend, ch) == Fed(q, [DataByte(Value, ch)], pend + 1, Running, 1)
  {
    hide OnHeaderValue;
  }

  lemma StepAtValue(hc: HeadersCallback, p: Parser, pend: nat, ch: Byte, q: Parser)
    requires p.errno.Ok? && p.state.HeaderValueStart? && p.nread < HTTP_MAX_HEADER_SIZE
    requires OnHeaderValueStart(p.(nread := p.nread + 1), ch) == Stay(q).(mark := Some(Value)) && q.state.HeaderValue?
    ensures Step(hc, p, pend, ch) == Fed(q, [DataByte(Value, ch)], pend + 1, Running, 1)
  {
    hide OnHeaderValueStart;
  }

  predicate IsValue(value: seq<Byte>) {
    CR !in value && LF !in value && (value != [] ==> value[0] != ' ' && value[0] != '\t')
  }

  // The parser after a name and the bytes of a value that is not a length.
  predicate AfterValue(p: Parser, value: seq<Byte>, q: Parser) {
    && q == p.(nread := p.nread + |value|, state := HeaderValue, headerState := q.headerState, index := q.index,
               flags := if p.headerState.Upgrade? then p.flags.(upgrade := true) else p.flags)
    && value != [] && ValueFollows(p.headerState, q.headerState, q.index, value)
  }

  lemma {:induction false} FeedValue(hc: HeadersCallback, p: Parser, pend: nat, value: seq<Byte>)
    requires p.errno.Ok? && p.state.HeaderValueStart? && !p.headerState.ContentLength?
    requires p.nread + |value| <= HTTP_MAX_HEADER_SIZE && value != [] && IsValue(value)
    ensures var r := Feed(hc, p, pend, value);
            && r == Fed(r.p, Bytes(Value, value), pend + |value|, Running, |value|) && AfterValue(p, value, r.p)
    decreases |value|
  {
    hide Step, OnHeaderValue, OnHeaderValueStart, ValueFollows;
    var i := |value| - 1;
    var ch := value[i];
    if i == 0 {
      assert value == [ch] && ch in value;
      FeedOne(hc, p, pend, ch);
      var t := p.(nread := p.nread + 1);
      ValueStarts(t, ch);
      StepAtValue(hc, p, pend, ch, OnHeaderValueStart(t, ch).next);
      assert Bytes(Value, value) == [DataByte(Value, ch)];
    } else {
      var u := value[..i];
      assert value[0] == u[0] && forall c <- u :: c in value;
      FeedValue(hc, p, pend, u);
      var r := Feed(hc, p, pend, u);
      assert ch in value;
      var t := r.p.(nread := r.p.nread + 1);
      FollowsValue(p.headerState, t, u, ch);
      StepInValue(hc, r.p, r.pend, ch, OnHeaderValue(t, ch).next);
      assert value == u + [ch];
      assert Bytes(Value, value) == Bytes(Value, u) + [DataByte(Value, ch)];
    }
  }

  predicate Blank(s: seq<Byte>) { forall i :: 0 <= i < |s| ==> s[i] == ' ' || s[i] == '\t' }

  lemma StepBlank(hc: HeadersCallback, p: Parser, pend: nat, ch: Byte)
    requires p.errno.Ok? && p.state.HeaderValueStart? && p.nread < HTTP_MAX_HEADER_SIZE && (ch == ' ' || ch == '\t')
    ensures Step(hc, p, pend, ch) == Fed(p.(nread := p.nread + 1), [], pend, Running, 1)
  {
  }

  lemma {:induction false} FeedBlank(hc: HeadersCallback, p: Parser, pend: nat, s: seq<Byte>)
    requires p.errno.Ok? && p.state.HeaderValueStart? && p.nread + |s| <= HTTP_MAX_HEADER_SIZE && Blank(s)
    ensures Feed(hc, p, pend, s) == Fed(p.(nread := p.nread + |s|), [], pend, Running, |s|)
    decreases |s|
  {
    hide Step;
    if s != [] {
      FeedBlank(hc, p, pend, s[..|s| - 1]);
      StepBlank(hc, p.(nread := p.nread + |s| - 1), pend, s[|s| - 1]);
    }
  }

  // What a header state at the end of a line adds to the flags.
  function Marked(f: Flags, hs: HeaderState): Flags {
    match hs
    case KeepAliveValue => f.(keepAlive := true)
    case CloseValue => f.(close := true)
    case ChunkedValue => f.(chunked := true)
    case _ => f
  }

  lemma StepLineEnd(hc: HeadersCallback, p: Parser, pend: nat)
    requires p.errno.Ok? && (p.state.HeaderValue? || p.state.HeaderValueStart?) && p.nread < HTTP_MAX_HEADER_SIZE
    ensures Step(hc, p, pend, CR)
         == Fed(if p.state.HeaderValue? then p.(nread := p.nread + 1, state := HeaderAlmostDone)
                else p.(nread := p.nread + 1, state := HeaderAlmostDone, headerState := General, index := 0),
                [], 0, Running, 1)
  {
  }

  lemma StepLineFeed(hc: HeadersCallback, p: Parser, pend: nat)
    requires p.errno.Ok? && p.state.HeaderAlmostDone? && p.nread < HTTP_MAX_HEADER_SIZE
    ensures Step(hc, p, pend, LF)
         == Fed(p.(nread := p.nread + 1, state := HeaderValueLws, flags := Marked(p.flags, p.headerState)),
                [], pend, Running, 1)
  {
  }

  lemma FeedTwo(hc: HeadersCallback, p: Parser, pend: nat, a: Byte, b: Byte)
    ensures var r := Step(hc, p, pend, a);
            Feed(hc, p, pend, [a, b]) == Then(r, Step(hc, r.p, r.pend, b))
  {
    hide Step;
    FeedOne(hc, p, pend, a);
    FeedSnoc(hc, p, pend, [a], b);
    assert [a] + [b] == [a, b];
  }

  lemma FeedLineEnd(hc: HeadersCallback, p: Parser, pend: nat)
    requires p.errno.Ok? && (p.state.HeaderValue? || p.state.HeaderValueStart?) && p.nread + 2 <= HTTP_MAX_HEADER_SIZE
    ensures var h := if p.state.HeaderValue? then p.headerState else General;
            Feed(hc, p, pend, CRLF) ==
            Fed(p.(nread := p.nread + 2, state := HeaderValueLws, headerState := h,
                   index := if p.state.HeaderValue? then p.index else 0, flags := Marked(p.flags, h)),
                [], 0, Running, 2)
  {
    hide Step, Feed;
    FeedTwo(hc, p, pend, CR, LF);
    StepLineEnd(hc, p, pend);
    StepLineFeed(hc, Step(hc, p, pend, CR).p, 0);
  }

  // Token characters, section 2.2 of RFC 2616: no controls, blanks or separators.
  predicate IsToken(c: Byte) {
    || 'a' <= c <= 'z' || 'A' <= c <= 'Z' || '0' <= c <= '9' || c == '!' || c == '#' || c == '$' || c == '%' || c == '&'
    || c == '\'' || c == '*' || c == '+' || c == '-' || c == '.' || c == '^' || c == '_' || c == '`' || c == '|'
    || c == '~'
  }

  predicate IsName(s: seq<Byte>) { s != [] && forall i :: 0 <= i < |s| ==> IsToken(s[i]) }

  lemma TokenIs(c: Byte, small: char)
    ensures IsToken(c) <==> Token(c) != NUL
    ensures IsToken(c) && IsPatternLetter(small) ==> (Token(c) == small <==> SameLetter(c, small))
  {
  }

  predicate IsPatternLetter(c: char) { 'a' <= c <= 'z' || c == '-' }

  lemma NameIs(s: seq<Byte>, word: string)
    requires IsName(s) && forall c <- word :: IsPatternLetter(c)
    ensures AllTokens(s) && (Fold(s) == word <==> SameWord(s, word))
  {
    hide Token, IsToken, SameLetter, IsPatternLetter;
    forall i: nat | i < |s| ensures Token(s[i]) != NUL {
      TokenIs(s[i], 'a');
    }
    if |s| == |word| {
      forall i: nat | i < |s| ensures Fold(s)[i] == word[i] <==> SameLetter(s[i], word[i]) {
        assert word[i] in word;
        TokenIs(s[i], word[i]);
      }
    }
  }

  lemma KnownNames()
    ensures CONNECTION == "connection" && PROXY_CONNECTION == "proxy-connection" && UPGRADE == "upgrade"
    ensures CONTENT_LENGTH == "content-length" && TRANSFER_ENCODING == "transfer-encoding"
    ensures forall c <- "connection" :: IsPatternLetter(c)
    ensures forall c <- "proxy-connection" :: IsPatternLetter(c)
    ensures forall c <- "content-length" :: IsPatternLetter(c)
    ensures forall c <- "transfer-encoding" :: IsPatternLetter(c)
    ensures forall c <- "upgrade" :: IsPatternLetter(c)
  {
  }

  datatype HeaderLine = HeaderLine(name: seq<Byte>, blank: seq<Byte>, value: seq<Byte>)

  function LineText(h: HeaderLine): seq<Byte> { h.name + [':'] + h.blank + h.value + CRLF }

  predicate IsLength(h: HeaderLine) { SameWord(h.name, "content-length") }

  predicate IsConnection(h: HeaderLine) { SameWord(h.name, "connection") || SameWord(h.name, "proxy-connection") }

  predicate IsEncoding(h: HeaderLine) { SameWord(h.name, "transfer-encoding") }

  predicate IsUpgrade(h: HeaderLine) { SameWord(h.name, "upgrade") }

  predicate ValidLine(h: HeaderLine) {
    && IsName(h.name) && Blank(h.blank) && IsValue(h.value)
    && (IsLength(h) ==>
          h.value != [] && (forall i :: 0 <= i < |h.value| ==> '0' <= h.value[i] <= '9')
              && Number(h.value, 10) < ULLONG_MAX)
  }

  // What a line means for the rest of the message.
  function FlagsWith(f: Flags, h: HeaderLine): Flags {
    if IsEncoding(h) && IsWord(h.value, "chunked") then f.(chunked := true)
    else if IsConnection(h) && IsWord(h.value, "keep-alive") then f.(keepAlive := true)
    else if IsConnection(h) && IsWord(h.value, "close") then f.(close := true)
    else if IsUpgrade(h) && h.value != [] then f.(upgrade := true)
    else f
  }

  function LengthWith(n: nat, h: HeaderLine): nat {
    if IsLength(h) && Number(h.value, 10) >= 0 then Number(h.value, 10) else n
  }

  predicate AtLine(p: Parser) { p.errno.Ok? && p.state.HeaderFieldStart? }

  // The parser after header lines: the flags, the length and the count of bytes have changed.
  predicate AfterLines(p: Parser, q: Parser, n: nat, flags: Flags, length: nat) {
    q == p.(nread := p.nread + n, state := HeaderValueLws, headerState := q.headerState, index := q.index,
            flags := flags, contentLength := length)
  }

  // The header state after a name: which of the four kinds it is.
  predicate NameKnown(h: HeaderLine, hs: HeaderState) {
    && (hs.Connection? <==> IsConnection(h)) && (hs.ContentLength? <==> IsLength(h))
    && (hs.TransferEncoding? <==> IsEncoding(h)) && (hs.Upgrade? <==> IsUpgrade(h))
  }

  lemma FeedNameBlank(hc: HeadersCallback, p: Parser, h: HeaderLine)
    requires AtLine(p) && IsName(h.name) && Blank(h.blank)
    requires p.nread + |h.name| + 1 + |h.blank| <= HTTP_MAX_HEADER_SIZE
    ensures var text := h.name + [':'] + h.blank;
            var r := Feed(hc, p, 0, text);
            && r == Fed(r.p, Bytes(Field, h.name), 0, Running, |text|) && NameKnown(h, r.p.headerState)
            && r.p == p.(nread := p.nread + |text|, state := HeaderValueStart, headerState := r.p.headerState,
                         index := r.p.index)
  {
    hide Feed, AllTokens, Fold, SameWord, IsName, Blank;
    KnownNames();
    NameIs(h.name, "connection");
    NameIs(h.name, "proxy-connection");
    NameIs(h.name, "content-length");
    NameIs(h.name, "transfer-encoding");
    NameIs(h.name, "upgrade");
    NotEmpty(h.name);
    NameIsExact(hc, p, 0, h.name);
    var r := Feed(hc, p, 0, h.name + [':']);
    FeedBlank(hc, r.p, 0, h.blank);
    FeedConcat(hc, p, 0, h.name + [':'], h.blank);
    assert r.events + [] == r.events;
  }

  lemma NotEmpty(s: seq<Byte>)
    requires IsName(s)
    ensures s != []
  {
  }

  // The value and the end of its line.
  predicate ValueRead(p: Parser, h: HeaderLine, r: Fed) {
    && r == Fed(r.p, Bytes(Value, h.value), 0, Running, |h.value| + 2)
    && AfterLines(p, r.p, |h.value| + 2, FlagsWith(p.flags, h), LengthWith(p.contentLength, h))
  }

  lemma NoValue(hc: HeadersCallback, p: Parser, h: HeaderLine)
    requires p.errno.Ok? && p.state.HeaderValueStart? && ValidLine(h) && h.value == []
    requires p.nread + 2 <= HTTP_MAX_HEADER_SIZE
    ensures ValueRead(p, h, Feed(hc, p, 0, h.value + CRLF))
  {
    hide Feed, SameWord;
    assert h.value + CRLF == CRLF;
    FeedLineEnd(hc, p, 0);
  }

  lemma LengthValue(hc: HeadersCallback, p: Parser, h: HeaderLine)
    requires p.errno.Ok? && p.state.HeaderValueStart? && ValidLine(h) && h.value != [] && IsLength(h)
    requires NameKnown(h, p.headerState) && p.nread + |h.value| + 2 <= HTTP_MAX_HEADER_SIZE
    ensures ValueRead(p, h, Feed(hc, p, 0, h.value + CRLF))
  {
    hide Feed, SameWord, Number;
    LengthApart(h);
    assert forall c <- h.value :: IsNum(c);
    ContentLengthIsExact(hc, p, 0, h.value);
    NumberIsNat(h.value);
    var r := Feed(hc, p, 0, h.value);
    FeedLineEnd(hc, r.p, r.pend);
    FeedConcat(hc, p, 0, h.value, CRLF);
    assert r.events + [] == r.events;
  }

  lemma {:induction false} NumberIsNat(ds: seq<Byte>)
    requires forall i :: 0 <= i < |ds| ==> '0' <= ds[i] <= '9'
    ensures Number(ds, 10) >= 0
    decreases |ds|
  {
    if ds != [] { NumberIsNat(ds[..|ds| - 1]); }
  }

  // No name is two of the known ones.
  lemma LengthApart(h: HeaderLine)
    ensures IsLength(h) ==> !IsConnection(h) && !IsEncoding(h) && !IsUpgrade(h)
    ensures IsEncoding(h) ==> !IsConnection(h) && !IsUpgrade(h)
    ensures IsUpgrade(h) ==> !IsConnection(h)
  {
  }

  lemma OtherValue(hc: HeadersCallback, p: Parser, h: HeaderLine)
    requires p.errno.Ok? && p.state.HeaderValueStart? && ValidLine(h) && h.value != [] && !IsLength(h)
    requires NameKnown(h, p.headerState) && p.nread + |h.value| + 2 <= HTTP_MAX_HEADER_SIZE
    ensures ValueRead(p, h, Feed(hc, p, 0, h.value + CRLF))
  {
    hide Feed, ValueFollows, SameWord, IsWord;
    FeedValue(hc, p, 0, h.value);
    var r := Feed(hc, p, 0, h.value);
    FeedLineEnd(hc, r.p, r.pend);
    FeedConcat(hc, p, 0, h.value, CRLF);
    assert r.events + [] == r.events;
    LengthApart(h);
    FlagsAgree(p.headerState, r.p.headerState, r.p.index, h, p.flags);
  }

  lemma FlagsAgree(name: HeaderState, hs: HeaderState, index: nat, h: HeaderLine, f: Flags)
    requires h.value != [] && NameKnown(h, name) && ValueFollows(name, hs, index, h.value) && !IsLength(h)
    ensures Marked(if name.Upgrade? then f.(upgrade := true) else f, hs) == FlagsWith(f, h)
  {
    hide Begins, SameLetter;
    LengthApart(h);
    WordStarts(h.value, "chunked");
    WordStarts(h.value, "keep-alive");
    WordStarts(h.value, "close");
    assert !SameLetter(h.value[0], 'k') || !SameLetter(h.value[0], 'c') by { KOrC(h.value[0]); }
    hide IsWord, SameWord;
  }

  lemma KOrC(c: Byte)
    ensures !SameLetter(c, 'k') || !SameLetter(c, 'c')
  {
  }

  lemma WordStarts(s: seq<Byte>, word: string)
    requires word != []
    ensures IsWord(s, word) ==> s != [] && SameLetter(s[0], word[0])
  {
    if IsWord(s, word) { assert s[..|word|][0] == s[0]; }
  }

  // A header line: the name and the value are reported as they came, and what the line means is kept.
  lemma LineIsRead(hc: HeadersCallback, p: Parser, h: HeaderLine)
    requires AtLine(p) && ValidLine(h) && p.nread + |LineText(h)| <= HTTP_MAX_HEADER_SIZE
    ensures var r := Feed(hc, p, 0, LineText(h));
            && r == Fed(r.p, Bytes(Field, h.name) + Bytes(Value, h.value), 0, Running, |LineText(h)|)
            && AfterLines(p, r.p, |LineText(h)|, FlagsWith(p.flags, h), LengthWith(p.contentLength, h))
  {
    hide Feed, ValidLine, NameKnown, FlagsWith, LengthWith;
    LineParts(h);
    FeedNameBlank(hc, p, h);
    var text := h.name + [':'] + h.blank;
    var r := Feed(hc, p, 0, text);
    if h.value == [] {
      NoValue(hc, r.p, h);
    } else if IsLength(h) {
      LengthValue(hc, r.p, h);
    } else {
      OtherValue(hc, r.p, h);
    }
    FeedConcat(hc, p, 0, text, h.value + CRLF);
    assert LineText(h) == text + (h.value + CRLF);
  }

  lemma LineParts(h: HeaderLine)
    requires ValidLine(h)
    ensures IsName(h.name) && Blank(h.blank)
  {
  }
}
