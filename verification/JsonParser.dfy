/**
 * What the permissive jsonxx parser makes of a text from a position on. A parse that runs into the
 * end of the text, or cannot take back what it read, is Stuck: it can then only fail as a whole.
 */
module JsonParser {
  import opened JsonPrinter

  datatype Got<T> = Yes(pos: nat, v: T) | No(pos: nat) | Stuck

  // The position a result leaves the stream at, never before p.
  predicate Within<T>(g: Got<T>, p: nat, d: string) {
    match g case Yes(q, _) => p <= q <= |d| case No(q) => p <= q < |d| case Stuck => true
  }

  // isspace in the C locale
  predicate IsSpace(c: char) { c == ' ' || 9 <= c as int <= 13 }

  function SkipWs(d: string, p: nat): (q: nat)
    requires p <= |d|
    ensures p <= q <= |d| && (q < |d| ==> !IsSpace(d[q]))
    decreases |d| - p
  {
    if p < |d| && IsSpace(d[p]) then SkipWs(d, p + 1) else p
  }

  // Up to the end of a comment line.
  function LineEnd(d: string, p: nat): (q: nat)
    requires p <= |d|
    ensures p <= q <= |d|
    decreases |d| - p
  {
    if p < |d| && d[p] != '\r' && d[p] != '\n' then LineEnd(d, p + 1) else p
  }

  predicate AtComment(d: string, p: nat) { p + 1 < |d| && d[p] == '/' && d[p + 1] == '/' }

  // The loop of match, with cur characters of the pattern matched. A comment is skipped anywhere,
  // but not taken back, so a mismatch after a comment inside the pattern breaks the stream.
  function MatchFrom(d: string, p: nat, pattern: string, cur: nat): (g: Got<()>)
    requires cur <= p <= |d| && cur <= |pattern|
    ensures Within(g, p - cur, d)
    ensures g.Yes? ==> g.pos >= p + (|pattern| - cur)
    decreases |d| - p
  {
    if cur == |pattern| then Yes(p, ())
    else if p == |d| then Stuck
    else if d[p] == pattern[cur] then MatchFrom(d, p + 1, pattern, cur + 1)
    else if AtComment(d, p) then
      var q := SkipWs(d, LineEnd(d, p + 2));
      if q == |d| then Stuck else MatchFrom(d, q, pattern, cur)
    else if d[p - cur..p] == pattern[..cur] then No(p - cur)
    else Stuck
  }

  function Match(d: string, p: nat, pattern: string): (g: Got<()>)
    requires p <= |d|
    ensures Within(g, p, d)
    ensures g.Yes? ==> g.pos >= p + |pattern|
  {
    MatchFrom(d, SkipWs(d, p), pattern, 0)
  }

  // ss >> i on the four characters after \u: spaces, a sign, decimal digits; -1 if there are none
  function DecimalOf(s: string): int
    decreases |s|
  {
    if s == [] then -1
    else if IsSpace(s[0]) then DecimalOf(s[1..])
    else if s[0] == '+' then DigitsOf(s[1..], -1)
    else if s[0] == '-' then (var n := DigitsOf(s[1..], -1); if n < 0 then -1 else (256 - n % 256) % 256)
    else DigitsOf(s, -1)
  }

  function DigitsOf(s: string, acc: int): (n: int)
    requires acc >= -1
    ensures n >= -1
    decreases |s|
  {
    if s == [] || !('0' <= s[0] <= '9') then acc
    else DigitsOf(s[1..], (if acc < 0 then 0 else acc) * 10 + (s[0] as int - '0' as int))
  }

  // What an escape of two or six characters appends.
  function Unescape(d: string, p: nat, delimiter: char): (r: (nat, string))
    requires p + 1 < |d| && (d[p + 1] == 'u' ==> p + 6 <= |d|)
    ensures p + 2 <= r.0 <= |d|
  {
    var c := d[p + 1];
    if c == '\\' || c == '/' then (p + 2, [c])
    else if c == 'b' then (p + 2, [8 as char]) else if c == 'f' then (p + 2, [12 as char])
    else if c == 'n' then (p + 2, "\n") else if c == 'r' then (p + 2, "\r") else if c == 't' then (p + 2, "\t")
    else if c == 'u' then
      var i := DecimalOf(d[p + 2..p + 6]);
      (p + 6, if i < 0 then [] else [(i % 256) as char])
    else if c == delimiter then (p + 2, [c])
    else (p + 2, ['\\', c])
  }

  // The loop of parse_string.
  function StringBody(d: string, p: nat, delimiter: char, acc: string): (g: Got<string>)
    requires p <= |d|
    ensures Within(g, p, d) && !g.No?
    ensures g.Yes? ==> g.pos > p
    decreases |d| - p
  {
    if p == |d| then Stuck
    else if d[p] == delimiter then Yes(p + 1, acc)
    else if d[p] != '\\' then StringBody(d, p + 1, delimiter, acc + [d[p]])
    else if p + 1 == |d| || (d[p + 1] == 'u' && p + 6 > |d|) then Stuck
    else
      var e := Unescape(d, p, delimiter);
      StringBody(d, e.0, delimiter, acc + e.1)
  }

  function ParseString(d: string, p: nat): (g: Got<string>)
    requires p <= |d|
    ensures Within(g, p, d)
    ensures g.Yes? ==> g.pos > p + 1
  {
    match Match(d, p, "\"")
    case Stuck => Stuck
    case Yes(q, _) => StringBody(d, q, '\"', [])
    case No(q) => if d[q] == '\'' then StringBody(d, q + 1, '\'', []) else No(q)
  }

  predicate IsDigit(c: char) { '0' <= c <= '9' }

  // The characters num_get takes for a floating-point number.
  function NumberEnd(d: string, p: nat, mantissa: bool, dot: bool, exponent: bool): (q: nat)
    requires p <= |d|
    ensures p <= q <= |d|
    decreases |d| - p
  {
    if p == |d| then p
    else if IsDigit(d[p]) then NumberEnd(d, p + 1, true, dot, exponent)
    else if d[p] == '.' && !dot && !exponent then NumberEnd(d, p + 1, mantissa, true, exponent)
    else if (d[p] == 'e' || d[p] == 'E') && mantissa && !exponent then
      var q := if p + 1 < |d| && (d[p + 1] == '+' || d[p + 1] == '-') then p + 2 else p + 1;
      NumberEnd(d, q, mantissa, dot, true)
    else p
  }

  predicate AllDigits(s: string) { forall c <- s :: IsDigit(c) }

  predicate HasDigit(s: string) { exists i :: 0 <= i < |s| && IsDigit(s[i]) }

  // strtold accepts the whole text: a digit in the mantissa, and one after an exponent mark.
  predicate IsNumber(s: string) {
    s != [] && HasDigit(s) && (IsDigit(s[|s| - 1]) || s[|s| - 1] == '.')
  }

  const INT_LIMIT: int := 10_000_000_000_000_000_000   // a long double prints and holds less exactly

  function ValueOf(s: string): (n: nat)
    requires AllDigits(s)
  {
    if s == [] then 0
    else assert IsDigit(s[|s| - 1]); ValueOf(s[..|s| - 1]) * 10 + (s[|s| - 1] as int - '0' as int)
  }

  function NumberOf(s: string): Number
    requires s != []
  {
    var sign := s[0] == '-' || s[0] == '+';
    var t := if sign then s[1..] else s;
    if t == [] || !AllDigits(t) then Real(s)
    else
      var n: int := ValueOf(t);
      if n >= INT_LIMIT || (s[0] == '-' && n == 0) then Real(s) else Int(if s[0] == '-' then -n else n)
  }

  // A failed number leaves the stream behind the characters that looked like one.
  function ParseNumber(d: string, p: nat): (g: Got<Number>)
    requires p <= |d|
    ensures Within(g, p, d)
    ensures g.Yes? ==> g.pos > p
  {
    var q := SkipWs(d, p);
    var r := if q < |d| && (d[q] == '-' || d[q] == '+') then q + 1 else q;
    var e := NumberEnd(d, r, false, false, false);
    if e == |d| then Stuck
    else if IsNumber(d[q..e]) then Yes(e, NumberOf(d[q..e]))
    else No(e)
  }

  function ParseBool(d: string, p: nat): (g: Got<bool>)
    requires p <= |d|
    ensures Within(g, p, d)
    ensures g.Yes? ==> g.pos > p
  {
    match Match(d, p, "true")
    case Stuck => Stuck
    case Yes(q, _) => Yes(q, true)
    case No(q) =>
      match Match(d, q, "false")
      case Stuck => Stuck
      case Yes(r, _) => Yes(r, false)
      case No(r) => No(r)
  }

  // A comma ahead also passes for null.
  function ParseNull(d: string, p: nat): (g: Got<()>)
    requires p <= |d|
    ensures Within(g, p, d)
  {
    match Match(d, p, "null")
    case Stuck => Stuck
    case Yes(q, _) => Yes(q, ())
    case No(q) => if d[q] == ',' then Yes(q, ()) else No(q)
  }

  function ParseValue(d: string, p: nat): (g: Got<Json>)
    requires p <= |d|
    ensures Within(g, p, d)
    decreases |d| - p, 2
  {
    match ParseString(d, p)
    case Stuck => Stuck
    case Yes(q, s) => Yes(q, Str(s))
    case No(q) =>
      match ParseNumber(d, q)
      case Stuck => Stuck
      case Yes(r, n) => Yes(r, Num(n))
      case No(r) => ParseWord(d, r)
  }

  // Value::parse from parse_bool on.
  function ParseWord(d: string, p: nat): (g: Got<Json>)
    requires p <= |d|
    ensures Within(g, p, d)
    decreases |d| - p, 1
  {
    match ParseBool(d, p)
    case Stuck => Stuck
    case Yes(q, b) => Yes(q, Bool(b))
    case No(q) =>
      match ParseNull(d, q)
      case Stuck => Stuck
      case Yes(r, _) => Yes(r, Null)
      case No(r) =>
        if d[r] != '[' then ParseObjectValue(d, r) else
        match ParseArray(d, r)
        case Stuck => Stuck
        case Yes(s, items) => Yes(s, Arr(items))
        case No(s) => ParseObjectValue(d, s)
  }

  function ParseObjectValue(d: string, p: nat): (g: Got<Json>)
    requires p <= |d|
    ensures Within(g, p, d)
    decreases |d| - p, 0, 1
  {
    match ParseObject(d, p)
    case Stuck => Stuck
    case Yes(q, ms) => Yes(q, Obj(ms))
    case No(q) => No(q)
  }

  function ParseArray(d: string, p: nat): (g: Got<seq<Json>>)
    requires p <= |d|
    ensures Within(g, p, d)
    decreases |d| - p, 0, 0
  {
    match Match(d, p, "[")
    case Stuck => Stuck
    case No(q) => No(q)
    case Yes(q, _) => Items(d, q, [])
  }

  // The end of an array or object.
  function Close<T>(d: string, p: nat, pattern: string, v: T): (g: Got<T>)
    requires p <= |d|
    ensures Within(g, p, d)
  {
    match Match(d, p, pattern)
    case Stuck => Stuck
    case No(q) => No(q)
    case Yes(q, _) => Yes(q, v)
  }

  // The loop of Array::parse.
  function Items(d: string, p: nat, acc: seq<Json>): (g: Got<seq<Json>>)
    requires p <= |d|
    ensures Within(g, p, d)
    decreases |d| - p, 3
  {
    match ParseValue(d, p)
    case Stuck => Stuck
    case No(q) => Close(d, q, "]", acc)
    case Yes(q, v) =>
      match Match(d, q, ",")
      case Stuck => Stuck
      case No(r) => Close(d, r, "]", acc + [v])
      case Yes(r, _) => Items(d, r, acc + [v])
  }

  function ParseObject(d: string, p: nat): (g: Got<seq<Member>>)
    requires p <= |d|
    ensures Within(g, p, d)
    decreases |d| - p, 0, 0
  {
    match Match(d, p, "{")
    case Stuck => Stuck
    case No(q) => No(q)
    case Yes(q, _) =>
      match Match(d, q, "}")
      case Stuck => Stuck
      case Yes(r, _) => Yes(r, [])
      case No(r) => Members(d, r, [])
  }

  // The loop of Object::parse.
  function Members(d: string, p: nat, acc: seq<Member>): (g: Got<seq<Member>>)
    requires p <= |d|
    ensures Within(g, p, d)
    decreases |d| - p, 3
  {
    match ParseString(d, p)
    case Stuck => Stuck
    case No(q) => if d[q] == '}' then Close(d, q, "}", acc) else No(q)
    case Yes(q, key) =>
      match Match(d, q, ":")
      case Stuck => Stuck
      case No(r) => No(r)
      case Yes(r, _) =>
        match ParseValue(d, r)
        case Stuck => Stuck
        case No(s) => Close(d, s, "}", acc)
        case Yes(s, v) =>
          match Match(d, s, ",")
          case Stuck => Stuck
          case No(t) => Close(d, t, "}", Insert(acc, key, v))
          case Yes(t, _) => Members(d, t, Insert(acc, key, v))
  }

  datatype Parsed = Accepted(members: seq<Member>) | Rejected

  // Object::parse of a whole text; what follows the object is not looked at.
  function Parse(text: string): Parsed {
    match ParseObject(text, 0) case Yes(_, ms) => Accepted(ms) case _ => Rejected
  }
}
