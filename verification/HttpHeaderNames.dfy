/** A field name is recognised exactly when, lower-cased, it is one of the five known names. */
module HttpHeaderNames {
  import opened HttpTypes
  import opened HttpSwitch
  import opened HttpFeed

  predicate KnownPrefix(u: string) {
    || u <= CONNECTION || u <= PROXY_CONNECTION || u <= CONTENT_LENGTH || u <= TRANSFER_ENCODING || u <= UPGRADE
  }

  // Matching pattern, with u consumed and at least one character to come.
  predicate Under(u: string, index: nat, pattern: string) {
    u <= pattern && |u| < |pattern| && index == |u| - 1
  }

  // What header_state and index say about the lower-cased name consumed so far.
  predicate Follows(p: Parser, u: string) {
    u != [] &&
    match p.headerState
    case General => !KnownPrefix(u)
    case HC => |u| == 1 && Under(u, p.index, CONNECTION)
    case HCO => |u| == 2 && Under(u, p.index, CONNECTION)
    case HCON => |u| == 3 && Under(u, p.index, CONNECTION)
    case MatchingConnection => |u| > 3 && Under(u, p.index, CONNECTION)
    case MatchingProxyConnection => Under(u, p.index, PROXY_CONNECTION)
    case MatchingContentLength => |u| > 3 && Under(u, p.index, CONTENT_LENGTH)
    case MatchingTransferEncoding => Under(u, p.index, TRANSFER_ENCODING)
    case MatchingUpgrade => Under(u, p.index, UPGRADE)
    case Connection => u == CONNECTION || u == PROXY_CONNECTION
    case ContentLength => u == CONTENT_LENGTH
    case TransferEncoding => u == TRANSFER_ENCODING
    case Upgrade => u == UPGRADE
    case _ => false
  }

  function Fold(name: seq<Byte>): (u: string)
    ensures |u| == |name|
  {
    seq(|name|, i requires 0 <= i < |name| => Token(name[i]))
  }

  predicate AllTokens(name: seq<Byte>) { forall i :: 0 <= i < |name| ==> Token(name[i]) != NUL }

  lemma PrefixGrows(u: string, c: char, pattern: string)
    ensures u + [c] <= pattern <==> u <= pattern && |u| < |pattern| && pattern[|u|] == c
  {
    if u <= pattern && |u| < |pattern| && pattern[|u|] == c {
      assert pattern[..|u| + 1] == u + [c];
    }
    if u + [c] <= pattern {
      assert pattern[..|u|] == (u + [c])[..|u|];
    }
  }

  // The known names that a longer prefix fits, the shorter one fits.
  lemma KnownGrows(u: string, c: char)
    ensures u + [c] <= CONNECTION ==> u <= CONNECTION
    ensures u + [c] <= PROXY_CONNECTION ==> u <= PROXY_CONNECTION
    ensures u + [c] <= CONTENT_LENGTH ==> u <= CONTENT_LENGTH
    ensures u + [c] <= TRANSFER_ENCODING ==> u <= TRANSFER_ENCODING
    ensures u + [c] <= UPGRADE ==> u <= UPGRADE
  {
    PrefixGrows(u, c, CONNECTION);
    PrefixGrows(u, c, PROXY_CONNECTION);
    PrefixGrows(u, c, CONTENT_LENGTH);
    PrefixGrows(u, c, TRANSFER_ENCODING);
    PrefixGrows(u, c, UPGRADE);
  }

  lemma PrefixAt(u: string, pattern: string, i: nat)
    requires u <= pattern && i < |u|
    ensures u[i] == pattern[i]
  {
  }

  lemma PrefixOfStart(u: string, a: string, b: string, n: nat)
    requires |u| <= n <= |a| && n <= |b| && a[..n] == b[..n]
    ensures u <= a <==> u <= b
  {
    assert a[..|u|] == a[..n][..|u|] == b[..|u|];
  }

  lemma Letters()
    ensures CONNECTION[0] == 'c' && CONTENT_LENGTH[0] == 'c' && CONNECTION[..3] == CONTENT_LENGTH[..3]
    ensures PROXY_CONNECTION[0] == 'p' && TRANSFER_ENCODING[0] == 't' && UPGRADE[0] == 'u'
    ensures CONNECTION[3] == 'n' && CONTENT_LENGTH[3] == 't'
  {
  }

  // Two known names share at most "con".
  lemma KnownApart(u: string)
    requires u != []
    ensures u <= CONNECTION ==> !(u <= PROXY_CONNECTION || u <= TRANSFER_ENCODING || u <= UPGRADE)
    ensures u <= CONTENT_LENGTH ==> !(u <= PROXY_CONNECTION || u <= TRANSFER_ENCODING || u <= UPGRADE)
    ensures u <= PROXY_CONNECTION ==> !(u <= TRANSFER_ENCODING || u <= UPGRADE)
    ensures u <= TRANSFER_ENCODING ==> !(u <= UPGRADE)
    ensures |u| <= 3 ==> (u <= CONNECTION <==> u <= CONTENT_LENGTH)
    ensures |u| > 3 ==> !(u <= CONNECTION && u <= CONTENT_LENGTH)
  {
    Letters();
    if u <= CONNECTION { PrefixAt(u, CONNECTION, 0); }
    if u <= PROXY_CONNECTION { PrefixAt(u, PROXY_CONNECTION, 0); }
    if u <= CONTENT_LENGTH { PrefixAt(u, CONTENT_LENGTH, 0); }
    if u <= TRANSFER_ENCODING { PrefixAt(u, TRANSFER_ENCODING, 0); }
    if u <= UPGRADE { PrefixAt(u, UPGRADE, 0); }
    if |u| <= 3 {
      PrefixOfStart(u, CONNECTION, CONTENT_LENGTH, 3);
    } else if u <= CONNECTION && u <= CONTENT_LENGTH {
      PrefixAt(u, CONNECTION, 3);
    }
  }

  lemma MatchingFollows(p: Parser, u: string, c: char, pattern: string, done: HeaderState)
    requires u != [] && Under(u, p.index, pattern)
    ensures var q := Matching(p, c, pattern, done);
            && q == p.(index := p.index + 1, headerState := q.headerState)
            && q.headerState == (if !(u + [c] <= pattern) then General
                                 else if u + [c] == pattern then done else p.headerState)
            && (u + [c] <= pattern && u + [c] != pattern ==> Under(u + [c], q.index, pattern))
  {
    PrefixGrows(u, c, pattern);
  }

  predicate IsMatching(hs: HeaderState) {
    hs in {MatchingConnection, MatchingProxyConnection, MatchingContentLength, MatchingTransferEncoding,
        MatchingUpgrade}
  }

  lemma FollowsLetters(p: Parser, u: string, c: Byte)
    requires Follows(p, u) && c != NUL && c != ' ' && !IsMatching(p.headerState)
    ensures FieldByte(p, c).Some? && Follows(FieldByte(p, c).value, u + [c])
  {
    KnownGrows(u, c);
    KnownApart(u);
    KnownApart(u + [c]);
    PrefixGrows(u, c, CONNECTION);
    PrefixGrows(u, c, CONTENT_LENGTH);
  }

  // Where a matcher fails, no other known name goes on.
  lemma NothingElse(u: string, c: char, pattern: string)
    requires u != [] && u <= pattern && !(u + [c] <= pattern)
    requires pattern in {CONNECTION, PROXY_CONNECTION, CONTENT_LENGTH, TRANSFER_ENCODING, UPGRADE}
    requires pattern in {CONNECTION, CONTENT_LENGTH} ==> |u| > 3
    ensures !KnownPrefix(u + [c])
  {
    KnownGrows(u, c);
    KnownApart(u);
  }

  lemma FollowsMatching(p: Parser, u: string, c: Byte)
    requires Follows(p, u) && IsMatching(p.headerState)
    ensures FieldByte(p, c).Some? && Follows(FieldByte(p, c).value, u + [c])
  {
    hide Matching, KnownPrefix;
    var pd := match p.headerState
      case MatchingConnection => (CONNECTION, Connection)
      case MatchingProxyConnection => (PROXY_CONNECTION, Connection)
      case MatchingContentLength => (CONTENT_LENGTH, ContentLength)
      case MatchingTransferEncoding => (TRANSFER_ENCODING, TransferEncoding)
      case _ => (UPGRADE, Upgrade);
    var (pattern, done) := pd;
    MatchingFollows(p, u, c, pattern, done);
    if !(u + [c] <= pattern) {
      NothingElse(u, c, pattern);
    }
  }

  lemma FollowsStep(p: Parser, u: string, c: Byte)
    requires Follows(p, u) && c != NUL && c != ' '
    ensures FieldByte(p, c).Some? && Follows(FieldByte(p, c).value, u + [c])
  {
    hide Follows, FieldByte;
    if IsMatching(p.headerState) {
      FollowsMatching(p, u, c);
    } else {
      FollowsLetters(p, u, c);
    }
  }

  lemma TokenIsNoBreak(ch: Byte)
    ensures Token(ch) != ' ' && (Token(ch) != NUL ==> ch != CR && ch != LF)
  {
  }

  // A name changes only where the parser is and what it makes of the name.
  predicate OnlyName(p: Parser, q: Parser) {
    q == p.(nread := q.nread, state := q.state, headerState := q.headerState, index := q.index)
  }

  lemma FollowsStart(hc: HeadersCallback, p: Parser, pend: nat, ch: Byte)
    requires p.errno.Ok? && p.state.HeaderFieldStart? && p.nread < HTTP_MAX_HEADER_SIZE && Token(ch) != NUL
    ensures var r := Step(hc, p, pend, ch);
            && r.status.Running? && r.p.errno.Ok? && r.p.state.HeaderField? && r.p.nread == p.nread + 1
            && r.events == [DataByte(Field, ch)] && Follows(r.p, [Token(ch)]) && OnlyName(p, r.p)
  {
    hide Step, OnHeaderFieldStart, Follows, Token;
    TokenIsNoBreak(ch);
    StartStep(hc, p, pend, ch);
    StartFollows(Tick(p), ch);
  }

  lemma StartFollows(p: Parser, ch: Byte)
    requires Token(ch) != NUL && ch != CR && ch != LF
    ensures Follows(OnHeaderFieldStart(p, ch).next, [Token(ch)])
  {
    hide Token;
    var u: string := [Token(ch)];
    assert u <= CONNECTION <==> u[0] == CONNECTION[0];
    assert u <= PROXY_CONNECTION <==> u[0] == PROXY_CONNECTION[0];
    assert u <= CONTENT_LENGTH <==> u[0] == CONTENT_LENGTH[0];
    assert u <= TRANSFER_ENCODING <==> u[0] == TRANSFER_ENCODING[0];
    assert u <= UPGRADE <==> u[0] == UPGRADE[0];
  }

  lemma StartStep(hc: HeadersCallback, p: Parser, pend: nat, ch: Byte)
    requires p.errno.Ok? && p.state.HeaderFieldStart? && p.nread < HTTP_MAX_HEADER_SIZE
    requires Token(ch) != NUL && ch != CR && ch != LF
    ensures var q := OnHeaderFieldStart(Tick(p), ch).next;
            && q.errno.Ok? && q.state.HeaderField? && q.nread == p.nread + 1 && OnlyName(p, q)
            && Step(hc, p, pend, ch) == Fed(q, [DataByte(Field, ch)], pend + 1, Running, 1)
  {
    hide Token;
  }

  lemma NameStep(hc: HeadersCallback, p: Parser, pend: nat, ch: Byte)
    requires p.errno.Ok? && p.state.HeaderField? && p.nread < HTTP_MAX_HEADER_SIZE
    requires Token(ch) != NUL && FieldByte(Tick(p), Token(ch)).Some?
    ensures var q := FieldByte(Tick(p), Token(ch)).value;
            && q.errno.Ok? && q.state.HeaderField? && q.nread == p.nread + 1 && OnlyName(p, q)
            && Step(hc, p, pend, ch) == Fed(q, [DataByte(Field, ch)], pend + 1, Running, 1)
  {
    hide Token;
  }

  lemma NameEnd(hc: HeadersCallback, p: Parser, pend: nat)
    requires p.errno.Ok? && p.state.HeaderField? && p.nread < HTTP_MAX_HEADER_SIZE
    ensures Step(hc, p, pend, ':') == Fed(p.(nread := p.nread + 1, state := HeaderValueStart), [], 0, Running, 1)
  {
  }

  lemma {:induction false} FeedName(hc: HeadersCallback, p: Parser, pend: nat, name: seq<Byte>)
    requires p.errno.Ok? && p.state.HeaderFieldStart? && p.nread + |name| <= HTTP_MAX_HEADER_SIZE
    requires name != [] && AllTokens(name)
    ensures var r := Feed(hc, p, pend, name);
            && r.status.Running? && r.p.errno.Ok? && r.p.state.HeaderField? && r.p.nread == p.nread + |name|
            && r.events == Bytes(Field, name) && Follows(r.p, Fold(name)) && OnlyName(p, r.p)
    decreases |name|
  {
    hide Step, Token, Follows, FieldByte;
    var i := |name| - 1;
    var ch := name[i];
    if i == 0 {
      assert name == [ch] && Fold(name) == [Token(ch)];
      FeedOne(hc, p, pend, ch);
      FollowsStart(hc, p, pend, ch);
      assert Bytes(Field, name) == [DataByte(Field, ch)];
    } else {
      FeedName(hc, p, pend, name[..i]);
      var r := Feed(hc, p, pend, name[..i]);
      var t := Tick(r.p);
      TickFollows(r.p, Fold(name[..i]));
      TokenIsNoBreak(ch);
      FollowsStep(t, Fold(name[..i]), Token(ch));
      NameStep(hc, r.p, r.pend, ch);
      assert Fold(name) == Fold(name[..i]) + [Token(ch)];
      assert Bytes(Field, name) == Bytes(Field, name[..i]) + [DataByte(Field, ch)];
    }
  }

  lemma TickFollows(p: Parser, u: string)
    requires Follows(p, u) && p.errno.Ok? && p.state.HeaderField? && p.nread < HTTP_MAX_HEADER_SIZE
    ensures Tick(p).errno.Ok? && Follows(Tick(p), u)
  {
  }

  // After name and ':' the header state is one of the four that the value depends on exactly when
  // the name, whatever its case, is one of the known ones; and the name is reported as it came.
  lemma NameIsExact(hc: HeadersCallback, p: Parser, pend: nat, name: seq<Byte>)
    requires p.errno.Ok? && p.state.HeaderFieldStart? && p.nread + |name| + 1 <= HTTP_MAX_HEADER_SIZE
    requires name != [] && AllTokens(name)
    ensures var r := Feed(hc, p, pend, name + [':']);
            && r.status.Running? && r.p.errno.Ok? && r.p.state.HeaderValueStart? && r.p.nread == p.nread + |name| + 1
            && r.events == Bytes(Field, name) && r.pend == 0 && OnlyName(p, r.p)
            && (r.p.headerState.Connection? <==> Fold(name) == CONNECTION || Fold(name) == PROXY_CONNECTION)
            && (r.p.headerState.ContentLength? <==> Fold(name) == CONTENT_LENGTH)
            && (r.p.headerState.TransferEncoding? <==> Fold(name) == TRANSFER_ENCODING)
            && (r.p.headerState.Upgrade? <==> Fold(name) == UPGRADE)
  {
    hide Step, Token, Follows, FieldByte, Fold;
    FeedName(hc, p, pend, name);
    var r := Feed(hc, p, pend, name);
    var colon: Byte := ':';
    assert (name + [colon])[..|name|] == name;
    NameEnd(hc, r.p, r.pend);
    assert r.events + [] == r.events;
    FollowsEnds(r.p, Fold(name));
  }

  lemma FollowsEnds(p: Parser, u: string)
    requires Follows(p, u)
    ensures p.headerState.Connection? <==> u == CONNECTION || u == PROXY_CONNECTION
    ensures p.headerState.ContentLength? <==> u == CONTENT_LENGTH
    ensures p.headerState.TransferEncoding? <==> u == TRANSFER_ENCODING
    ensures p.headerState.Upgrade? <==> u == UPGRADE
  {
    KnownApart(u);
  }
}
