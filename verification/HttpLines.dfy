/** Request and status lines: method, target, version and status are read as they are written. */
module HttpLines {
  import opened HttpTypes
  import opened HttpSwitch
  import opened HttpFeed
  import opened HttpMethods
  import opened HttpLengths
  import opened HttpValues

  predicate IsVisible(c: Byte) { '!' <= c <= '~' }

  predicate Visible(s: seq<Byte>) { forall i :: 0 <= i < |s| ==> IsVisible(s[i]) }

  // Behind the host, where a path, a query or a fragment is read.
  predicate InPath(s: State) {
    s.ReqPath? || s.ReqQueryStringStart? || s.ReqQueryString? || s.ReqFragmentStart? || s.ReqFragment?
  }

  lemma PathByte(s: State, ch: Byte)
    requires InPath(s)
    ensures if IsVisible(ch) then InPath(ParseUrlChar(s, ch)) else ParseUrlChar(s, ch).Dead?
  {
  }

  lemma StepUrl(hc: HeadersCallback, p: Parser, pend: nat, ch: Byte)
    requires p.errno.Ok? && IsUrlState(p.state) && p.nread < HTTP_MAX_HEADER_SIZE && ch != ' ' && ch != CR && ch != LF
    ensures var s := ParseUrlChar(p.state, ch);
            var r := Step(hc, p, pend, ch);
            if s.Dead? then r.status.Failed?
            else r == Fed(p.(nread := p.nread + 1, state := s), [DataByte(Url, ch)], pend + 1, Running, 1)
  {
    hide ParseUrlChar, Switch;
    UrlPass(hc, p.(nread := p.nread + 1), ch);
  }

  lemma UrlPass(hc: HeadersCallback, p: Parser, ch: Byte)
    requires IsUrlState(p.state) && ch != ' ' && ch != CR && ch != LF
    ensures var s := ParseUrlChar(p.state, ch);
            Switch(hc, p, ch, 1) == if s.Dead? then Err(p.(state := s), InvalidUrl) else Go(p, s)
  {
    hide ParseUrlChar;
  }

  lemma VisibleSnoc(s: seq<Byte>)
    ensures Visible(s) <==> s == [] || (Visible(s[..|s| - 1]) && IsVisible(s[|s| - 1]))
  {
  }

  // A path goes on as long as its bytes are visible, and no longer.
  lemma {:induction false} FeedPath(hc: HeadersCallback, p: Parser, pend: nat, s: seq<Byte>)
    requires p.errno.Ok? && InPath(p.state) && p.nread + |s| <= HTTP_MAX_HEADER_SIZE
    requires ' ' !in s && CR !in s && LF !in s
    ensures var r := Feed(hc, p, pend, s);
            if Visible(s) then
              && r == Fed(p.(nread := p.nread + |s|, state := r.p.state), Bytes(Url, s), pend + |s|, Running, |s|)
              && InPath(r.p.state)
            else r.status.Failed?
    decreases |s|
  {
    hide Step, ParseUrlChar, IsVisible, InPath, Visible;
    VisibleSnoc(s);
    if s != [] {
      var u, ch := s[..|s| - 1], s[|s| - 1];
      assert ch in s && forall c <- u :: c in s;
      FeedPath(hc, p, pend, u);
      if Visible(u) {
        var r := Feed(hc, p, pend, u);
        PathIsUrl(r.p.state);
        StepUrl(hc, r.p, r.pend, ch);
        PathByte(r.p.state, ch);
        assert s == u + [ch];
        assert Bytes(Url, s) == Bytes(Url, u) + [DataByte(Url, ch)];
      }
    }
  }

  lemma PathIsUrl(s: State)
    requires InPath(s)
    ensures IsUrlState(s)
  {
  }

  // The bytes of a host, with user, port and an address in brackets.
  predicate IsHostByte(c: Byte) {
    || 'a' <= c <= 'z' || 'A' <= c <= 'Z' || '0' <= c <= '9' || c == '-' || c == '_' || c == '.' || c == '!' || c == '~'
    || c == '*' || c == '\'' || c == '(' || c == ')' || c == '%' || c == ';' || c == ':' || c == '&' || c == '='
    || c == '+' || c == '$' || c == ',' || c == '[' || c == ']' || c == '@'
  }

  predicate IsHost(s: seq<Byte>) {
    && s != [] && (forall i :: 0 <= i < |s| ==> IsHostByte(s[i]))
    && (forall i :: 0 <= i < |s| - 1 ==> !(s[i] == '@' && s[i + 1] == '@'))
  }

  // In a host, after the byte last.
  predicate InHost(s: State, last: Byte) { if last == '@' then s.ReqServerWithAt? else s.ReqServer? }

  lemma HostByte(s: State, last: Byte, ch: Byte)
    requires (s.ReqServerStart? || (InHost(s, last) && !(last == '@' && ch == '@'))) && IsHostByte(ch)
    ensures InHost(ParseUrlChar(s, ch), ch)
  {
  }

  lemma {:induction false} FeedHost(hc: HeadersCallback, p: Parser, pend: nat, s: seq<Byte>)
    requires p.errno.Ok? && p.state.ReqServerStart? && p.nread + |s| <= HTTP_MAX_HEADER_SIZE && IsHost(s)
    ensures var r := Feed(hc, p, pend, s);
            && r == Fed(p.(nread := p.nread + |s|, state := r.p.state), Bytes(Url, s), pend + |s|, Running, |s|)
            && InHost(r.p.state, s[|s| - 1])
    decreases |s|
  {
    hide Step, ParseUrlChar, IsHostByte;
    var u, ch := s[..|s| - 1], s[|s| - 1];
    assert s == u + [ch] && IsHostByte(ch);
    HostIsNoBreak(ch);
    if u == [] {
      assert s == [ch];
      FeedOne(hc, p, pend, ch);
      StepUrl(hc, p, pend, ch);
      HostByte(p.state, ch, ch);
      assert Bytes(Url, s) == [DataByte(Url, ch)];
    } else {
      FeedHost(hc, p, pend, u);
      var r := Feed(hc, p, pend, u);
      StepUrl(hc, r.p, r.pend, ch);
      HostByte(r.p.state, u[|u| - 1], ch);
      assert Bytes(Url, s) == Bytes(Url, u) + [DataByte(Url, ch)];
    }
  }

  lemma HostIsNoBreak(ch: Byte)
    requires IsHostByte(ch)
    ensures ch != ' ' && ch != CR && ch != LF
  {
  }

  // A host and what follows it.
  lemma FeedHostPath(hc: HeadersCallback, p: Parser, pend: nat, host: seq<Byte>, path: seq<Byte>)
    requires p.errno.Ok? && p.state.ReqServerStart? && p.nread + |host| + |path| <= HTTP_MAX_HEADER_SIZE && IsHost(host)
    requires path != [] ==> (path[0] == '/' || path[0] == '?') && Visible(path)
    ensures var s := host + path;
            var r := Feed(hc, p, pend, s);
            && r == Fed(p.(nread := p.nread + |s|, state := r.p.state), Bytes(Url, s), pend + |s|, Running, |s|)
            && (InPath(r.p.state) || r.p.state.ReqServer? || r.p.state.ReqServerWithAt?)
  {
    hide Feed, Step, ParseUrlChar, IsHost;
    HostNotEmpty(host);
    FeedHost(hc, p, pend, host);
    var r := Feed(hc, p, pend, host);
    if path == [] {
      assert host + path == host;
    } else {
      var rest := path[1..];
      StepUrl(hc, r.p, r.pend, path[0]);
      HostEnds(r.p.state, path[0]);
      FeedSnoc(hc, p, pend, host, path[0]);
      var q := Feed(hc, p, pend, host + [path[0]]);
      VisibleIsNoBreak(path);
      FeedPath(hc, q.p, q.pend, rest);
      FeedConcat(hc, p, pend, host + [path[0]], rest);
      assert host + path == (host + [path[0]]) + rest;
      assert Bytes(Url, host) + [DataByte(Url, path[0])] + Bytes(Url, rest) == Bytes(Url, host + path);
    }
  }

  lemma HostNotEmpty(s: seq<Byte>)
    requires IsHost(s)
    ensures s != []
  {
  }

  lemma HostEnds(s: State, ch: Byte)
    requires (s.ReqServer? || s.ReqServerWithAt?) && (ch == '/' || ch == '?')
    ensures InPath(ParseUrlChar(s, ch))
  {
  }

  lemma VisibleIsNoBreak(s: seq<Byte>)
    requires Visible(s)
    ensures ' ' !in s && CR !in s && LF !in s && (s != [] ==> Visible(s[1..]))
  {
  }

  // The first byte of a target.
  lemma StepTarget(hc: HeadersCallback, p: Parser, pend: nat, ch: Byte)
    requires p.errno.Ok? && p.state.ReqSpacesBeforeUrl? && p.nread < HTTP_MAX_HEADER_SIZE && ch != ' '
    ensures var s := ParseUrlChar(if p.meth.CONNECT? then ReqServerStart else ReqSpacesBeforeUrl, ch);
            var r := Step(hc, p, pend, ch);
            if s.Dead? then r.status.Failed?
            else r == Fed(p.(nread := p.nread + 1, state := s), [DataByte(Url, ch)], pend + 1, Running, 1)
  {
    hide ParseUrlChar;
  }

  lemma FirstBytes(ch: Byte)
    ensures var s := ParseUrlChar(ReqSpacesBeforeUrl, ch);
            && (ch == '/' || ch == '*' ==> s == ReqPath)
            && ('a' <= ch <= 'z' || 'A' <= ch <= 'Z' ==> s == ReqSchema && ParseUrlChar(ReqSchema, ch) == ReqSchema)
  {
  }

  // "/path?query#fragment" and "*": read if and only if all bytes are visible.
  lemma PathIsExact(hc: HeadersCallback, p: Parser, u: seq<Byte>)
    requires p.errno.Ok? && p.state.ReqSpacesBeforeUrl? && !p.meth.CONNECT? && p.nread + |u| <= HTTP_MAX_HEADER_SIZE
    requires u != [] && (u[0] == '/' || u[0] == '*') && ' ' !in u && CR !in u && LF !in u
    ensures var r := Feed(hc, p, 0, u);
            if Visible(u) then
              && r == Fed(p.(nread := p.nread + |u|, state := r.p.state), Bytes(Url, u), |u|, Running, |u|)
              && InPath(r.p.state)
            else r.status.Failed?
  {
    hide Feed, Step, ParseUrlChar, Visible, InPath;
    var rest := u[1..];
    assert forall c <- rest :: c in u;
    VisibleFront(u);
    PathStarts();
    FeedFront(hc, p, 0, u);
    StepTarget(hc, p, 0, u[0]);
    FirstBytes(u[0]);
    var r := Step(hc, p, 0, u[0]);
    FeedPath(hc, r.p, 1, rest);
    assert [DataByte(Url, u[0])] + Bytes(Url, rest) == Bytes(Url, u);
  }

  lemma VisibleFront(u: seq<Byte>)
    requires u != [] && (u[0] == '/' || u[0] == '*')
    ensures Visible(u) <==> Visible(u[1..])
  {
    assert u == [u[0]] + u[1..];
  }

  lemma PathStarts()
    ensures InPath(ReqPath)
  {
  }

  predicate IsScheme(s: seq<Byte>) {
    s != [] && forall i :: 0 <= i < |s| ==> 'a' <= s[i] <= 'z' || 'A' <= s[i] <= 'Z'
  }

  lemma {:induction false} FeedScheme(hc: HeadersCallback, p: Parser, s: seq<Byte>)
    requires p.errno.Ok? && p.state.ReqSpacesBeforeUrl? && !p.meth.CONNECT? && p.nread + |s| <= HTTP_MAX_HEADER_SIZE
    requires IsScheme(s)
    ensures Feed(hc, p, 0, s)
         == Fed(p.(nread := p.nread + |s|, state := ReqSchema), Bytes(Url, s), |s|, Running, |s|)
    decreases |s|
  {
    hide Step, ParseUrlChar;
    var u, ch := s[..|s| - 1], s[|s| - 1];
    FirstBytes(ch);
    if u == [] {
      assert s == [ch];
      FeedOne(hc, p, 0, ch);
      StepTarget(hc, p, 0, ch);
      assert Bytes(Url, s) == [DataByte(Url, ch)];
    } else {
      FeedScheme(hc, p, u);
      var r := Feed(hc, p, 0, u);
      StepUrl(hc, r.p, r.pend, ch);
      assert Bytes(Url, s) == Bytes(Url, u) + [DataByte(Url, ch)];
    }
  }

  const COLON_SLASHES: seq<Byte> := [':', '/', '/']

  lemma SchemeEnds()
    ensures ParseUrlChar(ReqSchema, ':') == ReqSchemaSlash
    ensures ParseUrlChar(ReqSchemaSlash, '/') == ReqSchemaSlashSlash
    ensures ParseUrlChar(ReqSchemaSlashSlash, '/') == ReqServerStart
  {
  }

  lemma FeedColonSlashes(hc: HeadersCallback, p: Parser, pend: nat)
    requires p.errno.Ok? && p.state.ReqSchema? && p.nread + 3 <= HTTP_MAX_HEADER_SIZE
    ensures Feed(hc, p, pend, COLON_SLASHES)
         == Fed(p.(nread := p.nread + 3, state := ReqServerStart), Bytes(Url, COLON_SLASHES), pend + 3, Running, 3)
  {
    hide Feed, Step, ParseUrlChar;
    SchemeEnds();
    FeedTwo(hc, p, pend, ':', '/');
    var colon: Byte, slash: Byte := ':', '/';
    StepUrl(hc, p, pend, colon);
    var r := Step(hc, p, pend, colon);
    StepUrl(hc, r.p, r.pend, slash);
    var q := Step(hc, r.p, r.pend, slash);
    StepUrl(hc, q.p, q.pend, slash);
    FeedSnoc(hc, p, pend, [colon, slash], slash);
    assert [colon, slash] + [slash] == COLON_SLASHES;
    assert [DataByte(Url, ':')] + [DataByte(Url, '/')] + [DataByte(Url, '/')] == Bytes(Url, COLON_SLASHES);
  }

  // The targets of section 5.1.2 of RFC 2616: a path, an absolute URI, and for CONNECT an authority.
  datatype Target = Path(text: seq<Byte>) | Absolute(scheme: seq<Byte>, host: seq<Byte>, path: seq<Byte>)
    | Authority(host: seq<Byte>, path: seq<Byte>)

  function TargetText(t: Target): seq<Byte> {
    match t
    case Path(text) => text
    case Absolute(scheme, host, path) => scheme + COLON_SLASHES + (host + path)
    case Authority(host, path) => host + path
  }

  predicate ValidTarget(t: Target, connect: bool) {
    match t
    case Path(text) => !connect && text != [] && (text[0] == '/' || text[0] == '*') && Visible(text)
    case Absolute(scheme, host, path) =>
      !connect && IsScheme(scheme) && IsHost(host)
          && (path != [] ==> (path[0] == '/' || path[0] == '?') && Visible(path))
    case Authority(host, path) =>
      connect && IsHost(host) && (path != [] ==> (path[0] == '/' || path[0] == '?') && Visible(path))
  }

  // Where a target may end.
  predicate AtTargetEnd(s: State) { InPath(s) || s.ReqServer? || s.ReqServerWithAt? }

  predicate TargetRead(p: Parser, u: seq<Byte>, r: Fed) {
    && r == Fed(p.(nread := p.nread + |u|, state := r.p.state), Bytes(Url, u), |u|, Running, |u|)
    && AtTargetEnd(r.p.state)
  }

  lemma AbsoluteIsRead(hc: HeadersCallback, p: Parser, t: Target)
    requires p.errno.Ok? && p.state.ReqSpacesBeforeUrl? && ValidTarget(t, p.meth.CONNECT?) && t.Absolute?
    requires p.nread + |TargetText(t)| <= HTTP_MAX_HEADER_SIZE
    ensures TargetRead(p, TargetText(t), Feed(hc, p, 0, TargetText(t)))
  {
    hide Feed, IsHost, IsScheme, Visible;
    FeedScheme(hc, p, t.scheme);
    var r := Feed(hc, p, 0, t.scheme);
    FeedColonSlashes(hc, r.p, r.pend);
    FeedConcat(hc, p, 0, t.scheme, COLON_SLASHES);
    var q := Feed(hc, p, 0, t.scheme + COLON_SLASHES);
    FeedHostPath(hc, q.p, q.pend, t.host, t.path);
    FeedConcat(hc, p, 0, t.scheme + COLON_SLASHES, t.host + t.path);
    assert Bytes(Url, t.scheme) + Bytes(Url, COLON_SLASHES) + Bytes(Url, t.host + t.path) == Bytes(Url, TargetText(t));
  }

  lemma AuthorityIsRead(hc: HeadersCallback, p: Parser, t: Target)
    requires p.errno.Ok? && p.state.ReqSpacesBeforeUrl? && ValidTarget(t, p.meth.CONNECT?) && t.Authority?
    requires p.nread + |TargetText(t)| <= HTTP_MAX_HEADER_SIZE
    ensures TargetRead(p, TargetText(t), Feed(hc, p, 0, TargetText(t)))
  {
    hide Feed, IsHost, Visible, Step, ParseUrlChar;
    HostNotEmpty(t.host);
    HostStarts(t.host);
    // The first byte is taken as if behind "//".
    FeedHostPath(hc, p.(state := ReqServerStart), 0, t.host, t.path);
    var text := t.host + t.path;
    FeedFront(hc, p, 0, text);
    FeedFront(hc, p.(state := ReqServerStart), 0, text);
    StepTarget(hc, p, 0, text[0]);
    StepUrl(hc, p.(state := ReqServerStart), 0, text[0]);
  }

  lemma HostStarts(host: seq<Byte>)
    requires IsHost(host)
    ensures host[0] != ' ' && host[0] != CR && host[0] != LF && !ParseUrlChar(ReqServerStart, host[0]).Dead?
  {
    hide ParseUrlChar;
    HostIsNoBreak(host[0]);
    HostByte(ReqServerStart, host[0], host[0]);
  }

  lemma TargetIsRead(hc: HeadersCallback, p: Parser, t: Target)
    requires p.errno.Ok? && p.state.ReqSpacesBeforeUrl? && ValidTarget(t, p.meth.CONNECT?)
    requires p.nread + |TargetText(t)| <= HTTP_MAX_HEADER_SIZE
    ensures TargetRead(p, TargetText(t), Feed(hc, p, 0, TargetText(t)))
  {
    hide Feed, IsHost, Visible;
    match t
    case Path(text) =>
      VisibleIsNoBreak(text);
      PathIsExact(hc, p, text);
    case Absolute(_, _, _) => AbsoluteIsRead(hc, p, t);
    case Authority(_, _) => AuthorityIsRead(hc, p, t);
  }

  predicate IsDigits(ds: seq<Byte>) { ds != [] && forall i :: 0 <= i < |ds| ==> '0' <= ds[i] <= '9' }

  // Reading a number from the front only grows it.
  lemma NumberGrows(ds: seq<Byte>)
    requires IsDigits(ds) && |ds| > 1
    ensures IsDigits(ds[..|ds| - 1]) && 0 <= Number(ds[..|ds| - 1], 10) <= Number(ds, 10)
    ensures Number(ds, 10) == Number(ds[..|ds| - 1], 10) * 10 + (ds[|ds| - 1] as int - '0' as int)
  {
    NumberIsNat(ds[..|ds| - 1]);
  }

  // The digits behind "HTTP/" and behind the dot.
  predicate InMajor(s: State) { s.ReqHttpMajor? || s.ResHttpMajor? }
  predicate InMinor(s: State) { s.ReqHttpMinor? || s.ResHttpMinor? }

  lemma StepFirstMajor(hc: HeadersCallback, p: Parser, pend: nat, ch: Byte)
    requires p.errno.Ok? && p.nread < HTTP_MAX_HEADER_SIZE && '0' <= ch <= '9'
    requires (p.state.ReqFirstHttpMajor? && ch != '0') || p.state.ResFirstHttpMajor?
    ensures Step(hc, p, pend, ch)
         == Fed(p.(nread := p.nread + 1, major := ch as int - '0' as int,
                   state := if p.state.ReqFirstHttpMajor? then ReqHttpMajor else ResHttpMajor), [], pend, Running, 1)
  {
  }

  lemma StepMajor(hc: HeadersCallback, p: Parser, pend: nat, ch: Byte)
    requires p.errno.Ok? && p.nread < HTTP_MAX_HEADER_SIZE && '0' <= ch <= '9' && InMajor(p.state)
    requires p.major * 10 + (ch as int - '0' as int) <= 999
    ensures Step(hc, p, pend, ch)
         == Fed(p.(nread := p.nread + 1, major := p.major * 10 + (ch as int - '0' as int)), [], pend, Running, 1)
  {
  }

  lemma StepFirstMinor(hc: HeadersCallback, p: Parser, pend: nat, ch: Byte)
    requires p.errno.Ok? && p.nread < HTTP_MAX_HEADER_SIZE && '0' <= ch <= '9'
    requires p.state.ReqFirstHttpMinor? || p.state.ResFirstHttpMinor?
    ensures Step(hc, p, pend, ch)
         == Fed(p.(nread := p.nread + 1, minor := ch as int - '0' as int,
                   state := if p.state.ReqFirstHttpMinor? then ReqHttpMinor else ResHttpMinor), [], pend, Running, 1)
  {
  }

  lemma StepMinor(hc: HeadersCallback, p: Parser, pend: nat, ch: Byte)
    requires p.errno.Ok? && p.nread < HTTP_MAX_HEADER_SIZE && '0' <= ch <= '9' && InMinor(p.state)
    requires p.minor * 10 + (ch as int - '0' as int) <= 999
    ensures Step(hc, p, pend, ch)
         == Fed(p.(nread := p.nread + 1, minor := p.minor * 10 + (ch as int - '0' as int)), [], pend, Running, 1)
  {
  }

  lemma {:induction false} FeedMajor(hc: HeadersCallback, p: Parser, pend: nat, ds: seq<Byte>)
    requires p.errno.Ok? && p.nread + |ds| <= HTTP_MAX_HEADER_SIZE && IsDigits(ds) && Number(ds, 10) <= 999
    requires (p.state.ReqFirstHttpMajor? && ds[0] != '0') || p.state.ResFirstHttpMajor?
    ensures Number(ds, 10) >= 0
    ensures Feed(hc, p, pend, ds)
         == Fed(p.(nread := p.nread + |ds|, major := Number(ds, 10),
                   state := if p.state.ReqFirstHttpMajor? then ReqHttpMajor else ResHttpMajor),
                [], pend, Running, |ds|)
    decreases |ds|
  {
    hide Step;
    var i := |ds| - 1;
    if i == 0 {
      assert ds == [ds[0]] && ds[..0] == [];
      FeedOne(hc, p, pend, ds[0]);
      StepFirstMajor(hc, p, pend, ds[0]);
    } else {
      NumberGrows(ds);
      FeedMajor(hc, p, pend, ds[..i]);
      StepMajor(hc, Feed(hc, p, pend, ds[..i]).p, pend, ds[i]);
    }
  }

  lemma {:induction false} FeedMinor(hc: HeadersCallback, p: Parser, pend: nat, ds: seq<Byte>)
    requires p.errno.Ok? && p.nread + |ds| <= HTTP_MAX_HEADER_SIZE && IsDigits(ds) && Number(ds, 10) <= 999
    requires p.state.ReqFirstHttpMinor? || p.state.ResFirstHttpMinor?
    ensures Number(ds, 10) >= 0
    ensures Feed(hc, p, pend, ds)
         == Fed(p.(nread := p.nread + |ds|, minor := Number(ds, 10),
                   state := if p.state.ReqFirstHttpMinor? then ReqHttpMinor else ResHttpMinor),
                [], pend, Running, |ds|)
    decreases |ds|
  {
    hide Step;
    var i := |ds| - 1;
    if i == 0 {
      assert ds == [ds[0]] && ds[..0] == [];
      FeedOne(hc, p, pend, ds[0]);
      StepFirstMinor(hc, p, pend, ds[0]);
    } else {
      NumberGrows(ds);
      FeedMinor(hc, p, pend, ds[..i]);
      StepMinor(hc, Feed(hc, p, pend, ds[..i]).p, pend, ds[i]);
    }
  }

  lemma StepDot(hc: HeadersCallback, p: Parser, pend: nat)
    requires p.errno.Ok? && p.nread < HTTP_MAX_HEADER_SIZE && InMajor(p.state)
    ensures Step(hc, p, pend, '.')
         == Fed(p.(nread := p.nread + 1,
                   state := if p.state.ReqHttpMajor? then ReqFirstHttpMinor else ResFirstHttpMinor),
                [], pend, Running, 1)
  {
  }

  datatype Version = Version(major: seq<Byte>, minor: seq<Byte>)

  // Numbers up to 999; a request's version does not begin with a zero.
  predicate ValidVersion(v: Version, request: bool) {
    && IsDigits(v.major) && IsDigits(v.minor) && Number(v.major, 10) <= 999 && Number(v.minor, 10) <= 999
    && (request ==> v.major[0] != '0')
  }

  function VersionText(v: Version): seq<Byte> { v.major + ['.'] + v.minor }

  function Major(v: Version): nat { if Number(v.major, 10) >= 0 then Number(v.major, 10) else 0 }
  function Minor(v: Version): nat { if Number(v.minor, 10) >= 0 then Number(v.minor, 10) else 0 }

  lemma VersionIsRead(hc: HeadersCallback, p: Parser, v: Version)
    requires p.errno.Ok? && (p.state.ReqFirstHttpMajor? || p.state.ResFirstHttpMajor?)
    requires ValidVersion(v, p.state.ReqFirstHttpMajor?) && p.nread + |VersionText(v)| <= HTTP_MAX_HEADER_SIZE
    ensures Feed(hc, p, 0, VersionText(v))
         == Fed(p.(nread := p.nread + |VersionText(v)|, major := Major(v), minor := Minor(v),
                   state := if p.state.ReqFirstHttpMajor? then ReqHttpMinor else ResHttpMinor),
                [], 0, Running, |VersionText(v)|)
  {
    hide Feed, Step, Number;
    var dot: Byte := '.';
    FeedMajor(hc, p, 0, v.major);
    var r := Feed(hc, p, 0, v.major);
    StepDot(hc, r.p, 0);
    FeedSnoc(hc, p, 0, v.major, dot);
    var q := Feed(hc, p, 0, v.major + [dot]);
    FeedMinor(hc, q.p, 0, v.minor);
    FeedConcat(hc, p, 0, v.major + [dot], v.minor);
  }

  // " HTTP/" behind the target, letter by letter.
  function HttpLetter(s: State, ch: Byte): (next: State) {
    match s
    case ReqHttpStart => if ch == 'H' then ReqHttpH else Dead
    case ReqHttpH => if ch == 'T' then ReqHttpHT else Dead
    case ReqHttpHT => if ch == 'T' then ReqHttpHTT else Dead
    case ReqHttpHTT => if ch == 'P' then ReqHttpHTTP else Dead
    case ReqHttpHTTP => if ch == '/' then ReqFirstHttpMajor else Dead
    case ResH => if ch == 'T' then ResHT else Dead
    case ResHT => if ch == 'T' then ResHTT else Dead
    case ResHTT => if ch == 'P' then ResHTTP else Dead
    case ResHTTP => if ch == '/' then ResFirstHttpMajor else Dead
    case _ => Dead
  }

  lemma StepHttp(hc: HeadersCallback, p: Parser, pend: nat, ch: Byte)
    requires p.errno.Ok? && p.nread < HTTP_MAX_HEADER_SIZE && !HttpLetter(p.state, ch).Dead?
    ensures Step(hc, p, pend, ch)
         == Fed(p.(nread := p.nread + 1, state := HttpLetter(p.state, ch)), [], pend, Running, 1)
  {
    hide Step;
    if IsVersionPart(p.state) { StepHttpRequest(hc, p, pend, ch); } else { StepHttpResponse(hc, p, pend, ch); }
  }

  lemma StepHttpRequest(hc: HeadersCallback, p: Parser, pend: nat, ch: Byte)
    requires p.errno.Ok? && p.nread < HTTP_MAX_HEADER_SIZE && !HttpLetter(p.state, ch).Dead? && IsVersionPart(p.state)
    ensures Step(hc, p, pend, ch)
         == Fed(p.(nread := p.nread + 1, state := HttpLetter(p.state, ch)), [], pend, Running, 1)
  {
  }

  lemma StepHttpResponse(hc: HeadersCallback, p: Parser, pend: nat, ch: Byte)
    requires p.errno.Ok? && p.nread < HTTP_MAX_HEADER_SIZE && !HttpLetter(p.state, ch).Dead? && !IsVersionPart(p.state)
    ensures Step(hc, p, pend, ch)
         == Fed(p.(nread := p.nread + 1, state := HttpLetter(p.state, ch)), [], pend, Running, 1)
  {
  }

  lemma HttpLetters()
    ensures HttpLetter(ReqHttpStart, 'H') == ReqHttpH
    ensures HttpLetter(ReqHttpH, 'T') == ReqHttpHT && HttpLetter(ResH, 'T') == ResHT
    ensures HttpLetter(ReqHttpHT, 'T') == ReqHttpHTT && HttpLetter(ResHT, 'T') == ResHTT
    ensures HttpLetter(ReqHttpHTT, 'P') == ReqHttpHTTP && HttpLetter(ResHTT, 'P') == ResHTTP
    ensures HttpLetter(ReqHttpHTTP, '/') == ReqFirstHttpMajor && HttpLetter(ResHTTP, '/') == ResFirstHttpMajor
  {
  }

  const TTP_SLASH: seq<Byte> := ['T', 'T', 'P', '/']

  lemma FeedTwoLetters(hc: HeadersCallback, p: Parser, pend: nat, a: Byte, b: Byte)
    requires p.errno.Ok? && p.nread + 2 <= HTTP_MAX_HEADER_SIZE
    requires !HttpLetter(p.state, a).Dead? && !HttpLetter(HttpLetter(p.state, a), b).Dead?
    ensures Feed(hc, p, pend, [a, b])
         == Fed(p.(nread := p.nread + 2, state := HttpLetter(HttpLetter(p.state, a), b)), [], pend, Running, 2)
  {
    hide Feed, Step, HttpLetter;
    FeedTwo(hc, p, pend, a, b);
    StepHttp(hc, p, pend, a);
    StepHttp(hc, Step(hc, p, pend, a).p, pend, b);
  }

  lemma FeedTtp(hc: HeadersCallback, p: Parser, pend: nat)
    requires p.errno.Ok? && (p.state.ReqHttpH? || p.state.ResH?) && p.nread + 4 <= HTTP_MAX_HEADER_SIZE
    ensures Feed(hc, p, pend, TTP_SLASH)
         == Fed(p.(nread := p.nread + 4, state := if p.state.ReqHttpH? then ReqFirstHttpMajor else ResFirstHttpMajor),
                [], pend, Running, 4)
  {
    hide Feed, HttpLetter;
    HttpLetters();
    var tt: seq<Byte>, ps: seq<Byte> := ['T', 'T'], ['P', '/'];
    FeedTwoLetters(hc, p, pend, 'T', 'T');
    FeedTwoLetters(hc, Feed(hc, p, pend, tt).p, pend, 'P', '/');
    FeedConcat(hc, p, pend, tt, ps);
    assert tt + ps == TTP_SLASH;
  }

  lemma StepTargetEnd(hc: HeadersCallback, p: Parser, pend: nat)
    requires p.errno.Ok? && AtTargetEnd(p.state) && p.nread < HTTP_MAX_HEADER_SIZE
    ensures Step(hc, p, pend, ' ') == Fed(p.(nread := p.nread + 1, state := ReqHttpStart), [], 0, Running, 1)
  {
  }

  const SP_HTTP: seq<Byte> := [' ', 'H', 'T', 'T', 'P', '/']

  lemma FeedSpHttp(hc: HeadersCallback, p: Parser, pend: nat)
    requires p.errno.Ok? && AtTargetEnd(p.state) && p.nread + 6 <= HTTP_MAX_HEADER_SIZE
    ensures Feed(hc, p, pend, SP_HTTP)
         == Fed(p.(nread := p.nread + 6, state := ReqFirstHttpMajor), [], 0, Running, 6)
  {
    hide Feed, Step, AtTargetEnd, HttpLetter;
    HttpLetters();
    FeedTwo(hc, p, pend, ' ', 'H');
    StepTargetEnd(hc, p, pend);
    StepHttp(hc, Step(hc, p, pend, ' ').p, 0, 'H');
    var sh: seq<Byte> := [' ', 'H'];
    var r := Feed(hc, p, pend, sh);
    FeedTtp(hc, r.p, 0);
    FeedConcat(hc, p, pend, sh, TTP_SLASH);
    assert sh + TTP_SLASH == SP_HTTP;
  }

  lemma StepMinorEnd(hc: HeadersCallback, p: Parser)
    requires p.errno.Ok? && p.state.ReqHttpMinor? && p.nread < HTTP_MAX_HEADER_SIZE
    ensures Step(hc, p, 0, CR) == Fed(p.(nread := p.nread + 1, state := ReqLineAlmostDone), [], 0, Running, 1)
  {
  }

  lemma StepRequestLineEnd(hc: HeadersCallback, p: Parser)
    requires p.errno.Ok? && p.state.ReqLineAlmostDone? && p.nread < HTTP_MAX_HEADER_SIZE
    ensures Step(hc, p, 0, LF) == Fed(p.(nread := p.nread + 1, state := HeaderFieldStart), [], 0, Running, 1)
  {
  }

  datatype RequestLine = RequestLine(meth: Method, target: Target, version: Version)

  function RequestLineText(l: RequestLine): seq<Byte> {
    (MethodText(l.meth) + [' ']) + TargetText(l.target) + SP_HTTP + VersionText(l.version) + CRLF
  }

  // The methods by name, sections 5.1.1 of RFC 2616, 8.1 and 9 of RFC 2518, and of what extends them.
  function MethodText(m: Method): seq<Byte> {
    match m
    case DELETE => "DELETE" case GET => "GET" case HEAD => "HEAD" case POST => "POST"
    case PUT => "PUT" case CONNECT => "CONNECT" case OPTIONS => "OPTIONS" case TRACE => "TRACE"
    case COPY => "COPY" case LOCK => "LOCK" case MKCOL => "MKCOL" case MOVE => "MOVE"
    case PROPFIND => "PROPFIND" case PROPPATCH => "PROPPATCH" case SEARCH => "SEARCH" case UNLOCK => "UNLOCK"
    case REPORT => "REPORT" case MKACTIVITY => "MKACTIVITY" case CHECKOUT => "CHECKOUT" case MERGE => "MERGE"
    case MSEARCH => "M-SEARCH" case NOTIFY => "NOTIFY" case SUBSCRIBE => "SUBSCRIBE" case UNSUBSCRIBE => "UNSUBSCRIBE"
    case PATCH => "PATCH" case PURGE => "PURGE"
  }

  lemma MethodNamed(m: Method)
    ensures MethodText(m) == MethodString(m) && MethodText(m) != []
    ensures ' ' !in MethodText(m) && MethodText(m)[0] != CR && MethodText(m)[0] != LF
  {
  }

  predicate ValidRequestLine(l: RequestLine) {
    ValidTarget(l.target, l.meth.CONNECT?) && ValidVersion(l.version, true)
  }

  // A method, by its name.
  lemma MethodIsRead(hc: HeadersCallback, p: Parser, m: Method)
    requires p.errno.Ok? && p.state.StartReq? && p.nread + |MethodText(m)| + 1 <= HTTP_MAX_HEADER_SIZE
    ensures var w := MethodText(m) + [' '];
            var r := Feed(hc, p, 0, w);
            && r == Fed(r.p, [Noted(MessageBegin)], 0, Running, |w|) && Begun(p, r.p) && r.p.meth == m
            && r.p.state.ReqSpacesBeforeUrl? && r.p.nread == p.nread + |w|
  {
    hide Feed, MethodText, MethodString;
    MethodNamed(m);
    MethodIsExact(hc, p, 0, MethodText(m));
    NamesDiffer(m, Feed(hc, p, 0, MethodText(m) + [' ']).p.meth);
  }

  lemma NamesDiffer(m: Method, n: Method)
    ensures MethodString(m) == MethodString(n) ==> m == n
  {
    hide MethodString, FirstMethod, NextMethod, Track;
    if MethodString(m) == MethodString(n) {
      TrackIsExact(MethodString(m), m);
      TrackIsExact(MethodString(m), n);
    }
  }

  // The parser after a request line.
  predicate LineRead(p: Parser, l: RequestLine, q: Parser) {
    q == p.(nread := p.nread + |RequestLineText(l)|, state := HeaderFieldStart, flags := NO_FLAGS,
            contentLength := ULLONG_MAX, meth := l.meth, major := Major(l.version), minor := Minor(l.version),
            index := q.index)
  }

  lemma FeedVersionEnd(hc: HeadersCallback, p: Parser, pend: nat, v: Version)
    requires p.errno.Ok? && AtTargetEnd(p.state) && ValidVersion(v, true)
    requires p.nread + 8 + |VersionText(v)| <= HTTP_MAX_HEADER_SIZE
    ensures var text := SP_HTTP + VersionText(v) + CRLF;
            Feed(hc, p, pend, text) ==
            Fed(p.(nread := p.nread + |text|, state := HeaderFieldStart, major := Major(v), minor := Minor(v)),
                [], 0, Running, |text|)
  {
    hide Feed, Step, ValidVersion, AtTargetEnd, Number;
    FeedSpHttp(hc, p, pend);
    var r := Feed(hc, p, pend, SP_HTTP);
    VersionIsRead(hc, r.p, v);
    FeedConcat(hc, p, pend, SP_HTTP, VersionText(v));
    var q := Feed(hc, p, pend, SP_HTTP + VersionText(v));
    StepMinorEnd(hc, q.p);
    StepRequestLineEnd(hc, Step(hc, q.p, 0, CR).p);
    FeedTwo(hc, q.p, 0, CR, LF);
    FeedConcat(hc, p, pend, SP_HTTP + VersionText(v), CRLF);
  }

  lemma RequestLineIsRead(hc: HeadersCallback, p: Parser, l: RequestLine)
    requires p.errno.Ok? && p.state.StartReq? && ValidRequestLine(l)
    requires p.nread + |RequestLineText(l)| <= HTTP_MAX_HEADER_SIZE
    ensures var r := Feed(hc, p, 0, RequestLineText(l));
            && r == Fed(r.p, [Noted(MessageBegin)] + Bytes(Url, TargetText(l.target)), 0, Running, |RequestLineText(l)|)
            && LineRead(p, l, r.p)
  {
    hide Feed, ValidTarget, ValidVersion, TargetText, MethodText, AtTargetEnd;
    var w, u := MethodText(l.meth) + [' '], TargetText(l.target);
    var end := SP_HTTP + VersionText(l.version) + CRLF;
    assert RequestLineText(l) == (w + u) + end;
    MethodIsRead(hc, p, l.meth);
    var r := Feed(hc, p, 0, w);
    TargetIsRead(hc, r.p, l.target);
    FeedConcat(hc, p, 0, w, u);
    var q := Feed(hc, p, 0, w + u);
    FeedVersionEnd(hc, q.p, q.pend, l.version);
    FeedConcat(hc, p, 0, w + u, end);
  }

  lemma StepStatusH(hc: HeadersCallback, p: Parser)
    requires p.errno.Ok? && p.state.StartRes? && p.nread < HTTP_MAX_HEADER_SIZE
    ensures Step(hc, p, 0, 'H')
         == Fed(p.(nread := p.nread + 1, state := ResH, flags := NO_FLAGS, contentLength := ULLONG_MAX),
                [Noted(MessageBegin)], 0, Running, 1)
  {
  }

  lemma StepStatusSpace(hc: HeadersCallback, p: Parser)
    requires p.errno.Ok? && p.nread < HTTP_MAX_HEADER_SIZE && (p.state.ResHttpMinor? || p.state.ResStatusCode?)
    ensures Step(hc, p, 0, ' ')
         == Fed(p.(nread := p.nread + 1, state := if p.state.ResHttpMinor? then ResFirstStatusCode else ResStatus),
                [], 0, Running, 1)
  {
  }

  lemma StepCode(hc: HeadersCallback, p: Parser, ch: Byte)
    requires p.errno.Ok? && p.nread < HTTP_MAX_HEADER_SIZE && '0' <= ch <= '9'
    requires p.state.ResFirstStatusCode? || p.state.ResStatusCode?
    requires p.state.ResStatusCode? ==> p.status * 10 + (ch as int - '0' as int) <= 999
    ensures Step(hc, p, 0, ch)
         == Fed(p.(nread := p.nread + 1, state := ResStatusCode,
                   status := (if p.state.ResStatusCode? then p.status * 10 else 0) + (ch as int - '0' as int)),
                [], 0, Running, 1)
  {
  }

  lemma {:induction false} FeedCode(hc: HeadersCallback, p: Parser, ds: seq<Byte>)
    requires p.errno.Ok? && p.nread + |ds| <= HTTP_MAX_HEADER_SIZE && IsDigits(ds) && Number(ds, 10) <= 999
    requires p.state.ResFirstStatusCode?
    ensures Number(ds, 10) >= 0
    ensures Feed(hc, p, 0, ds)
         == Fed(p.(nread := p.nread + |ds|, status := Number(ds, 10), state := ResStatusCode), [], 0, Running, |ds|)
    decreases |ds|
  {
    hide Step;
    var i := |ds| - 1;
    if i == 0 {
      assert ds == [ds[0]] && ds[..0] == [];
      FeedOne(hc, p, 0, ds[0]);
      StepCode(hc, p, ds[0]);
    } else {
      NumberGrows(ds);
      FeedCode(hc, p, ds[..i]);
      StepCode(hc, Feed(hc, p, 0, ds[..i]).p, ds[i]);
    }
  }

  lemma StepReason(hc: HeadersCallback, p: Parser, ch: Byte)
    requires p.errno.Ok? && p.nread < HTTP_MAX_HEADER_SIZE && p.state.ResStatus? && ch != LF
    ensures Step(hc, p, 0, ch)
         == Fed(p.(nread := p.nread + 1, state := if ch == CR then ResLineAlmostDone else ResStatus), [], 0, Running, 1)
  {
  }

  lemma {:induction false} FeedReason(hc: HeadersCallback, p: Parser, s: seq<Byte>)
    requires p.errno.Ok? && p.nread + |s| <= HTTP_MAX_HEADER_SIZE && p.state.ResStatus? && CR !in s && LF !in s
    ensures Feed(hc, p, 0, s) == Fed(p.(nread := p.nread + |s|), [], 0, Running, |s|)
    decreases |s|
  {
    hide Step;
    if s != [] {
      assert s[|s| - 1] in s && forall c <- s[..|s| - 1] :: c in s;
      FeedReason(hc, p, s[..|s| - 1]);
      StepReason(hc, p.(nread := p.nread + |s| - 1), s[|s| - 1]);
    }
  }

  lemma StepStatusLineEnd(hc: HeadersCallback, p: Parser)
    requires p.errno.Ok? && p.state.ResLineAlmostDone? && p.nread < HTTP_MAX_HEADER_SIZE
    ensures Step(hc, p, 0, LF)
         == Fed(p.(nread := p.nread + 1, state := HeaderFieldStart), [Noted(StatusComplete)], 0, Running, 1)
  {
  }

  datatype StatusLine = StatusLine(version: Version, code: seq<Byte>, reason: seq<Byte>)

  const HTTP_SLASH: seq<Byte> := ['H'] + TTP_SLASH

  function StatusLineText(l: StatusLine): seq<Byte> {
    (HTTP_SLASH + VersionText(l.version)) + (([' '] + l.code) + ([' '] + l.reason + CRLF))
  }

  predicate ValidStatusLine(l: StatusLine) {
    ValidVersion(l.version, false) && IsDigits(l.code) && Number(l.code, 10) <= 999 && CR !in l.reason
        && LF !in l.reason
  }

  function Code(l: StatusLine): nat { if Number(l.code, 10) >= 0 then Number(l.code, 10) else 0 }

  lemma FeedStatusVersion(hc: HeadersCallback, p: Parser, v: Version)
    requires p.errno.Ok? && p.state.StartRes? && ValidVersion(v, false)
    requires p.nread + 5 + |VersionText(v)| <= HTTP_MAX_HEADER_SIZE
    ensures var text := HTTP_SLASH + VersionText(v);
            Feed(hc, p, 0, text) ==
            Fed(p.(nread := p.nread + |text|, state := ResHttpMinor, flags := NO_FLAGS, contentLength := ULLONG_MAX,
                   major := Major(v), minor := Minor(v)), [Noted(MessageBegin)], 0, Running, |text|)
  {
    hide Feed, Step, ValidVersion;
    var h: Byte := 'H';
    StepStatusH(hc, p);
    FeedOne(hc, p, 0, h);
    var r := Feed(hc, p, 0, [h]);
    FeedTtp(hc, r.p, 0);
    FeedConcat(hc, p, 0, [h], TTP_SLASH);
    var q := Feed(hc, p, 0, HTTP_SLASH);
    VersionIsRead(hc, q.p, v);
    FeedConcat(hc, p, 0, HTTP_SLASH, VersionText(v));
    assert [Noted(MessageBegin)] + [] == [Noted(MessageBegin)];
  }

  lemma FeedStatusCode(hc: HeadersCallback, p: Parser, code: seq<Byte>)
    requires p.errno.Ok? && p.state.ResHttpMinor? && IsDigits(code) && Number(code, 10) <= 999
    requires p.nread + 1 + |code| <= HTTP_MAX_HEADER_SIZE
    ensures Number(code, 10) >= 0
    ensures Feed(hc, p, 0, [' '] + code)
         == Fed(p.(nread := p.nread + 1 + |code|, status := Number(code, 10), state := ResStatusCode),
                [], 0, Running, 1 + |code|)
  {
    hide Feed, Step, Number;
    var sp: Byte := ' ';
    StepStatusSpace(hc, p);
    FeedOne(hc, p, 0, sp);
    FeedCode(hc, Feed(hc, p, 0, [sp]).p, code);
    FeedConcat(hc, p, 0, [sp], code);
  }

  lemma FeedStatusReason(hc: HeadersCallback, p: Parser, reason: seq<Byte>)
    requires p.errno.Ok? && p.state.ResStatusCode? && CR !in reason && LF !in reason
    requires p.nread + 3 + |reason| <= HTTP_MAX_HEADER_SIZE
    ensures Feed(hc, p, 0, [' '] + reason + CRLF)
         == Fed(p.(nread := p.nread + 3 + |reason|, state := HeaderFieldStart), [Noted(StatusComplete)], 0, Running,
                3 + |reason|)
  {
    hide Feed, Step;
    var sp: Byte := ' ';
    StepStatusSpace(hc, p);
    FeedOne(hc, p, 0, sp);
    var r := Feed(hc, p, 0, [sp]);
    FeedReason(hc, r.p, reason);
    FeedConcat(hc, p, 0, [sp], reason);
    var q := Feed(hc, p, 0, [sp] + reason);
    StepReason(hc, q.p, CR);
    StepStatusLineEnd(hc, Step(hc, q.p, 0, CR).p);
    FeedTwo(hc, q.p, 0, CR, LF);
    FeedConcat(hc, p, 0, [sp] + reason, CRLF);
  }

  lemma StatusLineIsRead(hc: HeadersCallback, p: Parser, l: StatusLine)
    requires p.errno.Ok? && p.state.StartRes? && ValidStatusLine(l)
    requires p.nread + |StatusLineText(l)| <= HTTP_MAX_HEADER_SIZE
    ensures Feed(hc, p, 0, StatusLineText(l))
         == Fed(p.(nread := p.nread + |StatusLineText(l)|, state := HeaderFieldStart, flags := NO_FLAGS,
                   contentLength := ULLONG_MAX, status := Code(l),
                   major := Major(l.version), minor := Minor(l.version)),
                [Noted(MessageBegin), Noted(StatusComplete)], 0, Running, |StatusLineText(l)|)
  {
    hide Feed, ValidVersion, Number, IsDigits;
    var a, b, c := HTTP_SLASH + VersionText(l.version), [' '] + l.code, [' '] + l.reason + CRLF;
    FeedStatusVersion(hc, p, l.version);
    var r := Feed(hc, p, 0, a);
    FeedStatusCode(hc, r.p, l.code);
    var q := Feed(hc, r.p, 0, b);
    FeedStatusReason(hc, q.p, l.reason);
    FeedConcat(hc, r.p, 0, b, c);
    FeedConcat(hc, p, 0, a, b + c);
    assert [Noted(MessageBegin)] + ([] + [Noted(StatusComplete)]) == [Noted(MessageBegin), Noted(StatusComplete)];
  }
}
