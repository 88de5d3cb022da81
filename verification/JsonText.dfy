/** The shape of printed JSON, and what the parser's small steps do on it. */
module JsonTexts {
  import opened JsonPrinter
  import opened JsonParser

  // Bytes that come back: the printer writes the others in hexadecimal, and the parser reads decimal.
  predicate Plain(c: char) {
    32 <= c as int < 256 || c as int <= 10 || c as int == 12 || c as int == 13
  }

  predicate PlainString(s: string) { forall i :: 0 <= i < |s| ==> Plain(s[i]) }

  predicate WellFormed(t: Json) {
    match t
    case Null => true
    case Bool(_) => true
    case Num(n) => n.Int? && -INT_LIMIT < n.n < INT_LIMIT
    case Str(s) => PlainString(s)
    case Arr(items) => forall x <- items :: WellFormed(x)
    case Obj(ms) => WellFormedMembers(ms)
  }

  predicate WellFormedMembers(ms: seq<Member>) {
    Sorted(ms) && forall m <- ms :: PlainString(m.key) && WellFormed(m.value)
  }

  // No object in the tree has a member with an empty name.
  predicate Named(t: Json) {
    match t
    case Arr(items) => forall x <- items :: Named(x)
    case Obj(ms) => NamedMembers(ms)
    case _ => true
  }

  predicate NamedMembers(ms: seq<Member>) { forall m <- ms :: m.key != [] && Named(m.value) }

  // A value without the indentation before it and the comma after it.
  function Body(depth: nat, t: Json): string
    decreases t, 0
  {
    match t
    case Null => "null"
    case Bool(b) => if b then "true" else "false"
    case Num(n) => NumberText(n)
    case Str(s) => "\"" + EscapeString(s) + "\""
    case Arr(items) => "[\n" + ItemsText(depth + 1, items) + Tabs(depth) + "]"
    case Obj(ms) => "{\n" + MembersText(depth + 1, ms) + Tabs(depth) + "}"
  }

  function After(last: bool): string { if last then " \n" else ",\n" }

  function ItemsText(depth: nat, items: seq<Json>): string
    decreases items, 1
  {
    if items == [] then []
    else Tabs(depth) + Body(depth, items[0]) + After(|items| == 1) + ItemsText(depth, items[1..])
  }

  function MembersText(depth: nat, ms: seq<Member>): string
    decreases ms, 1
  {
    if ms == [] then [] else
    var m := ms[0];
    Tabs(depth) + Label(m.key) + Body(depth, m.value) + After(|ms| == 1) + MembersText(depth, ms[1..])
  }

  // tag is indentation, label, body and ",\n"; remove_last_comma only reaches the last child.
  predicate LosesComma(tagged: string, text: string) {
    if tagged == [] then text == []
    else |tagged| >= 2 && tagged[|tagged| - 2] == ',' && text == tagged[|tagged| - 2 := ' ']
  }

  lemma RemoveAfter(ss: string, open: char, tagged: string, text: string)
    requires LosesComma(tagged, text) && open != ','
    ensures RemoveLastComma(ss + [open, '\n'] + tagged) == ss + [open, '\n'] + text
  {
    var s := ss + [open, '\n'] + tagged;
    if tagged == [] {
      assert s[|s| - 2] == open;
    } else {
      assert s[|s| - 2] == ',';
    }
  }

  lemma LastComma(pre: string)
    ensures LosesComma(pre + ",\n", pre + " \n")
  {
  }

  lemma CommaFurther(pre: string, tagged: string, text: string)
    requires LosesComma(tagged, text) && tagged != []
    ensures LosesComma(pre + tagged, pre + text)
  {
  }

  lemma {:induction false} TagShape(depth: nat, name: string, t: Json)
    ensures Tag(depth, name, t) == Tabs(depth) + Label(name) + Body(depth, t) + ",\n"
    decreases t, 0
  {
    hide Label, RemoveLastComma, LosesComma, NumberText, EscapeString;
    var ss := Tabs(depth) + Label(name);
    match t
    case Arr(items) =>
      TagItemsShape(depth + 1, items);
      Enclosed(ss, Tabs(depth), '[', TagItems(depth + 1, items), ItemsText(depth + 1, items), ']');
    case Obj(ms) =>
      TagMembersShape(depth + 1, ms);
      Enclosed(ss, Tabs(depth), '{', TagMembers(depth + 1, ms), MembersText(depth + 1, ms), '}');
    case Null => assert ss + "null,\n" == ss + "null" + ",\n";
    case Str(s) =>
      assert ss + "\"" + EscapeString(s) + "\",\n" == ss + ("\"" + EscapeString(s) + "\"") + ",\n";
    case _ =>
  }

  lemma Enclosed(ss: string, tab: string, open: char, tagged: string, text: string, close: char)
    requires LosesComma(tagged, text) && open != ','
    ensures RemoveLastComma(ss + [open, '\n'] + tagged) + tab + ([close] + ",\n")
         == ss + ([open, '\n'] + text + tab + [close]) + ",\n"
  {
    hide RemoveLastComma, LosesComma;
    RemoveAfter(ss, open, tagged, text);
  }

  lemma {:induction false} TagItemsShape(depth: nat, items: seq<Json>)
    ensures LosesComma(TagItems(depth, items), ItemsText(depth, items))
    ensures items != [] ==> TagItems(depth, items) != []
    decreases items, 1
  {
    hide Label, RemoveLastComma, LosesComma, Tag, Body;
    if items == [] {
      NoComma();
    } else {
      TagShape(depth, [], items[0]);
      NoLabel();
      var pre := Tabs(depth) + Body(depth, items[0]);
      assert Tabs(depth) + [] == Tabs(depth);
      if |items| == 1 {
        LastComma(pre);
        assert TagItems(depth, items[1..]) == [] && ItemsText(depth, items[1..]) == [];
        assert TagItems(depth, items) == pre + ",\n" && ItemsText(depth, items) == pre + " \n";
      } else {
        TagItemsShape(depth, items[1..]);
        CommaFurther(pre + ",\n", TagItems(depth, items[1..]), ItemsText(depth, items[1..]));
      }
    }
  }

  lemma {:induction false} TagMembersShape(depth: nat, ms: seq<Member>)
    ensures LosesComma(TagMembers(depth, ms), MembersText(depth, ms))
    ensures ms != [] ==> TagMembers(depth, ms) != []
    decreases ms, 1
  {
    hide Label, RemoveLastComma, LosesComma, Tag, Body;
    if ms == [] {
      NoComma();
    } else {
      var m := ms[0];
      TagShape(depth, m.key, m.value);
      var pre := Tabs(depth) + Label(m.key) + Body(depth, m.value);
      if |ms| == 1 {
        LastComma(pre);
        assert TagMembers(depth, ms[1..]) == [] && MembersText(depth, ms[1..]) == [];
        assert TagMembers(depth, ms) == pre + ",\n" && MembersText(depth, ms) == pre + " \n";
      } else {
        TagMembersShape(depth, ms[1..]);
        CommaFurther(pre + ",\n", TagMembers(depth, ms[1..]), MembersText(depth, ms[1..]));
      }
    }
  }

  lemma NoComma()
    ensures LosesComma([], [])
  {
  }

  lemma NoLabel()
    ensures Label([]) == []
  {
  }

  lemma JsonTextShape(ms: seq<Member>)
    ensures JsonText(ms) == Body(0, Obj(ms)) + " \n"
  {
    hide Body, Tag;
    TagShape(0, [], Obj(ms));
    NoLabel();
    var b := Body(0, Obj(ms));
    assert Tabs(0) + [] + b + ",\n" == b + ",\n";
    ObjectBody(0, ms);
    assert (b + ",\n")[|b| := ' '] == b + " \n";
  }

  lemma ObjectBody(depth: nat, ms: seq<Member>)
    ensures Body(depth, Obj(ms)) == "{\n" + MembersText(depth + 1, ms) + Tabs(depth) + "}"
  {
  }

  // The text s stands at position p.
  predicate At(d: string, p: nat, s: string) { p + |s| <= |d| && d[p..p + |s|] == s }

  lemma AtParts(d: string, p: nat, a: string, b: string)
    requires At(d, p, a + b)
    ensures At(d, p, a) && At(d, p + |a|, b)
  {
    assert d[p..p + |a|] == (a + b)[..|a|];
    assert d[p + |a|..p + |a| + |b|] == (a + b)[|a|..];
  }

  lemma {:induction false} SkipRun(d: string, p: nat, w: string)
    requires At(d, p, w) && forall c <- w :: IsSpace(c)
    ensures SkipWs(d, p) == SkipWs(d, p + |w|)
    decreases |w|
  {
    if w != [] {
      assert w[0] in w && d[p] == w[0];
      assert d[p + 1..p + |w|] == w[1..];
      SkipRun(d, p + 1, w[1..]);
    }
  }

  lemma SkipTabs(d: string, p: nat, depth: nat)
    requires At(d, p, Tabs(depth))
    ensures SkipWs(d, p) == SkipWs(d, p + depth)
  {
    SkipRun(d, p, Tabs(depth));
  }

  // A character that starts a token, and no comment.
  predicate Starts(d: string, p: nat, c: char) { p < |d| && d[p] == c && !IsSpace(c) && c != '/' }

  lemma Skipped(d: string, p: nat, c: char)
    requires Starts(d, p, c)
    ensures SkipWs(d, p) == p
  {
  }

  lemma MatchChar(d: string, p0: nat, p: nat, c: char, want: char)
    requires p0 <= p < |d| && Starts(d, p, c) && SkipWs(d, p0) == p
    ensures Match(d, p0, [want]) == if c == want then Yes(p + 1, ()) else No(p)
  {
    assert MatchFrom(d, p, [want], 0) == if c == want then MatchFrom(d, p + 1, [want], 1) else No(p);
  }

  lemma MatchOther(d: string, p0: nat, p: nat, c: char, word: string)
    requires p0 <= p < |d| && Starts(d, p, c) && SkipWs(d, p0) == p && word != [] && word[0] != c
    ensures Match(d, p0, word) == No(p)
  {
  }

  lemma {:induction false} MatchRest(d: string, p: nat, word: string, cur: nat)
    requires cur <= |word| && cur <= p && At(d, p, word[cur..])
    ensures MatchFrom(d, p, word, cur) == Yes(p + |word| - cur, ())
    decreases |word| - cur
  {
    if cur < |word| {
      assert word[cur..] == [word[cur]] + word[cur + 1..];
      AtParts(d, p, [word[cur]], word[cur + 1..]);
      MatchRest(d, p + 1, word, cur + 1);
    }
  }

  lemma MatchWord(d: string, p0: nat, p: nat, word: string)
    requires p0 <= p <= |d| && At(d, p, word) && SkipWs(d, p0) == p
    ensures Match(d, p0, word) == Yes(p + |word|, ())
  {
    assert word[0..] == word;
    MatchRest(d, p, word, 0);
  }

  // Strings.
  // What stands for a character in a string, section 2.5 of RFC 4627.
  predicate Stands(e: string, c: char) {
    || (e == [c] && c != '\"' && c != '\\' && c as int >= 32)
    || e == match c
         case '\"' => "\\\""
         case '\\' => "\\\\"
         case '/' => "\\/"
         case '\n' => "\\n"
         case '\r' => "\\r"
         case '\t' => "\\t"
         case _ => if c as int == 8 then "\\b" else if c as int == 12 then "\\f" else "\\u00" + HexOf(c)
  }

  function HexOf(c: char): (h: string) {
    if c as int >= 256 then "" else ["0123456789abcdef"[c as int / 16], "0123456789abcdef"[c as int % 16]]
  }

  lemma EscapeStands(c: char)
    requires c as int < 256
    ensures Stands(Escape(c), c)
  {
    if c as int < 32 {
      HexDigitIs(c as int / 16);
      HexDigitIs(c as int % 16);
    }
  }

  lemma HexDigitIs(n: nat)
    requires n < 16
    ensures HexDigit(n) == "0123456789abcdef"[n]
  {
  }

  // Numbers are decimal, the most significant digit first.
  lemma NumberExample()
    ensures NumberText(Int(-120)) == "-120" && NumberText(Int(0)) == "0"
  {
    assert Digits(1) == "1" && Digits(12) == "12" && Digits(120) == "120";
  }

  // A text, character by character.
  lemma TextExample()
    ensures JsonText([Member("a", Arr([Bool(true), Null]))]) == "{\n\t\"a\": [\n\t\ttrue,\n\t\tnull \n\t]" + " \n} \n"
  {
    hide *;
    var m := Member("a", Arr([Bool(true), Null]));
    JsonTextShape([m]);
    ObjectBody(0, [m]);
    LastMember(1, m);
    ArrayExample();
    SmallBodies(1);
    SmallTabs();
    var inner := "[\n\t\ttrue,\n\t\tnull \n\t]";
    Wrapped(inner);
  }

  lemma Wrapped(inner: string)
    ensures "{\n" + ("\t" + "\"a\": " + inner + " \n") + "" + "}" + " \n" == "{\n\t\"a\": " + inner + " \n} \n"
  {
  }

  lemma ArrayExample()
    ensures Body(1, Arr([Bool(true), Null])) == "[\n\t\ttrue,\n\t\tnull \n\t]"
  {
    hide *;
    FirstItem(2, Bool(true), [Null]);
    LastItem(2, Null);
    SmallBodies(2);
    ArrayBody(1, [Bool(true), Null]);
    SmallTabs();
    assert [Bool(true), Null] == [Bool(true)] + [Null];
    assert ItemsText(2, [Bool(true), Null]) == "\t\ttrue,\n\t\tnull \n";
  }

  lemma LastMember(depth: nat, m: Member)
    ensures MembersText(depth, [m]) == Tabs(depth) + Label(m.key) + Body(depth, m.value) + " \n"
  {
    hide Body, Label;
    assert [m][1..] == [] && MembersText(depth, []) == [];
  }

  lemma LastItem(depth: nat, t: Json)
    ensures ItemsText(depth, [t]) == Tabs(depth) + Body(depth, t) + " \n"
  {
    hide Body;
    assert [t][1..] == [] && ItemsText(depth, []) == [];
  }

  lemma FirstItem(depth: nat, t: Json, ts: seq<Json>)
    requires ts != []
    ensures ItemsText(depth, [t] + ts) == Tabs(depth) + Body(depth, t) + ",\n" + ItemsText(depth, ts)
  {
    hide Body;
    assert ([t] + ts)[1..] == ts;
  }

  lemma ArrayBody(depth: nat, ts: seq<Json>)
    ensures Body(depth, Arr(ts)) == "[\n" + ItemsText(depth + 1, ts) + Tabs(depth) + "]"
  {
  }

  lemma SmallBodies(depth: nat)
    ensures Body(depth, Null) == "null" && Body(depth, Bool(true)) == "true" && Label("a") == "\"a\": "
  {
    assert EscapeString("a") == Escape('a') + EscapeString([]);
  }

  lemma SmallTabs()
    ensures Tabs(0) == "" && Tabs(1) == "\t" && Tabs(2) == "\t\t"
  {
  }

  // What a byte comes back as.
  function Back(c: char): char {
    if Plain(c) || c as int >= 256 then c
    else if c as int < 16 then 0 as char
    else if c as int < 26 then (c as int - 6) as char
    else 1 as char
  }

  function BackString(s: string): (t: string)
    ensures |t| == |s|
  {
    if s == [] then [] else [Back(s[0])] + BackString(s[1..])
  }

  predicate ByteString(s: string) { forall i :: 0 <= i < |s| ==> s[i] as int < 256 }

  lemma {:induction false} BackIsExact(s: string)
    requires ByteString(s)
    ensures BackString(s) == s <==> PlainString(s)
    decreases |s|
  {
    if s != [] {
      BackIsExact(s[1..]);
      assert s == [s[0]] + s[1..];
      if BackString(s) == s {
        assert BackString(s)[0] == s[0] && BackString(s)[1..] == s[1..];
        forall i | 0 <= i < |s| ensures Plain(s[i]) { if i > 0 { assert s[i] == s[1..][i - 1]; } }
      }
      if PlainString(s) {
        forall i | 0 <= i < |s| - 1 ensures Plain(s[1..][i]) { assert s[1..][i] == s[i + 1]; }
      }
    }
  }

  // The four digits that the parser reads after "\u": decimal, up to the first that is none.
  lemma DecimalOfHex(c: char)
    requires c as int < 32
    ensures var h := "00" + [HexDigit(c as int / 16), HexDigit(c as int % 16)];
            DecimalOf(h) == if c as int < 10 then c as int
                            else if c as int < 16 then 0
                            else if c as int < 26 then c as int - 6 else 1
  {
    var a, b := HexDigit(c as int / 16), HexDigit(c as int % 16);
    assert c as int / 16 <= 1 && '0' <= a <= '1';
    var h := "00" + [a, b];
    assert h == ['0', '0', a, b] && h[1..] == ['0', a, b] && ['0', a, b][1..] == [a, b];
    TwoDigits(a, b);
    assert DecimalOf(h) == DigitsOf(h, -1);
    assert DigitsOf(h, -1) == DigitsOf(h[1..], 0);
    assert DigitsOf(['0', a, b], 0) == DigitsOf([a, b], 0);
    if c as int % 16 < 10 {
      assert b as int - '0' as int == c as int % 16;
    } else {
      assert !('0' <= b <= '9');
    }
  }

  lemma TwoDigits(a: char, b: char)
    requires '0' <= a <= '9'
    ensures DigitsOf([a, b], 0)
         == if '0' <= b <= '9' then (a as int - '0' as int) * 10 + (b as int - '0' as int) else a as int - '0' as int
  {
    assert [a, b][1..] == [b] && [b][1..] == [];
    assert DigitsOf([b], a as int - '0' as int)
        == if '0' <= b <= '9' then (a as int - '0' as int) * 10 + (b as int - '0' as int) else a as int - '0' as int;
  }

  lemma EscapeForm(c: char)
    requires c as int < 256
    ensures var e := Escape(c);
            if e == [c] then c != '\\' && c != '\"'
            else if |e| == 2 then e[0] == '\\' && e[1] != 'u' && Plain(c)
            else e == "\\u00" + [HexDigit(c as int / 16), HexDigit(c as int % 16)] && c as int < 32
                 && c as int != 8 && c as int != 9 && c as int != 10 && c as int != 12 && c as int != 13
  {
  }

  lemma UnescapeEscape(d: string, p: nat, c: char)
    requires c as int < 256 && At(d, p, Escape(c))
    ensures if Escape(c) == [c] then d[p] == c && c != '\\' && c != '\"' && Back(c) == c
            else d[p] == '\\' && |Escape(c)| >= 2 && (d[p + 1] == 'u' ==> p + 6 <= |d|)
                 && Unescape(d, p, '\"') == (p + |Escape(c)|, [Back(c)])
  {
    var e := Escape(c);
    EscapeForm(c);
    assert d[p] == e[0];
    if |e| == 2 {
      assert d[p + 1] == e[1];
    } else if e != [c] {
      hide DecimalOf, HexDigit, Escape;
      assert d[p + 1] == e[1] == 'u';
      assert d[p + 2..p + 6] == e[2..] == "00" + [HexDigit(c as int / 16), HexDigit(c as int % 16)];
      DecimalOfHex(c);
    } else {
      EscapeSelf(c);
    }
  }

  lemma EscapeSelf(c: char)
    requires c as int < 256 && Escape(c) == [c]
    ensures Plain(c)
  {
  }

  // One turn of the loop reads one printed byte.
  lemma StringBodyStep(d: string, p: nat, c: char, acc: string)
    requires c as int < 256 && At(d, p, Escape(c)) && p + |Escape(c)| <= |d|
    ensures StringBody(d, p, '\"', acc) == StringBody(d, p + |Escape(c)|, '\"', acc + [Back(c)])
  {
    hide Escape, Unescape, Back;
    UnescapeEscape(d, p, c);
  }

  lemma StringBodyEnds(d: string, p: nat, acc: string)
    requires At(d, p, "\"")
    ensures StringBody(d, p, '\"', acc) == Yes(p + 1, acc)
  {
    assert d[p] == d[p..p + 1][0];
  }

  lemma {:induction false} StringBodyUndoes(d: string, p: nat, s: string, acc: string)
    requires ByteString(s) && At(d, p, EscapeString(s) + "\"")
    ensures StringBody(d, p, '\"', acc) == Yes(p + |EscapeString(s)| + 1, acc + BackString(s))
    decreases |s|
  {
    hide Escape, Back, StringBody;
    if s == [] {
      assert acc + [] == acc;
      assert [] + "\"" == "\"";
      StringBodyEnds(d, p, acc);
    } else {
      var e, rest := Escape(s[0]), EscapeString(s[1..]) + "\"";
      assert EscapeString(s) + "\"" == e + rest;
      AtParts(d, p, e, rest);
      StringBodyStep(d, p, s[0], acc);
      StringBodyUndoes(d, p + |e|, s[1..], acc + [Back(s[0])]);
      assert acc + [Back(s[0])] + BackString(s[1..]) == acc + BackString(s);
    }
  }

  // A printed string of any bytes is read back as itself exactly if it is plain.
  lemma ParseStringBack(d: string, p0: nat, p: nat, s: string)
    requires p0 <= p <= |d| && SkipWs(d, p0) == p && ByteString(s) && At(d, p, "\"" + EscapeString(s) + "\"")
    ensures ParseString(d, p0) == Yes(p + |EscapeString(s)| + 2, BackString(s))
    ensures ParseString(d, p0) == Yes(p + |EscapeString(s)| + 2, s) <==> PlainString(s)
  {
    hide EscapeString;
    assert "\"" + EscapeString(s) + "\"" == "\"" + (EscapeString(s) + "\"");
    AtParts(d, p, "\"", EscapeString(s) + "\"");
    MatchWord(d, p0, p, "\"");
    StringBodyUndoes(d, p + 1, s, []);
    assert [] + BackString(s) == BackString(s);
    BackIsExact(s);
  }

  lemma ParseStringUndoes(d: string, p0: nat, p: nat, s: string)
    requires p0 <= p <= |d| && SkipWs(d, p0) == p && PlainString(s) && At(d, p, "\"" + EscapeString(s) + "\"")
    ensures ParseString(d, p0) == Yes(p + |EscapeString(s)| + 2, s)
  {
    hide EscapeString;
    PlainBytes(s);
    ParseStringBack(d, p0, p, s);
  }

  lemma PlainBytes(s: string)
    requires PlainString(s)
    ensures ByteString(s)
  {
    forall i | 0 <= i < |s| ensures s[i] as int < 256 { assert Plain(s[i]); }
  }

  lemma ParseStringNo(d: string, p0: nat, p: nat, c: char)
    requires p0 <= p < |d| && Starts(d, p, c) && SkipWs(d, p0) == p && c != '\"' && c != '\''
    ensures ParseString(d, p0) == No(p)
  {
    MatchChar(d, p0, p, c, '\"');
  }

  // Numbers.
  lemma {:induction false} DigitsAreDigits(n: nat)
    ensures AllDigits(Digits(n)) && ValueOf(Digits(n)) == n
    ensures n != 0 ==> Digits(n)[0] != '0'
  {
    if n >= 10 {
      DigitsAreDigits(n / 10);
      var s := Digits(n);
      assert s[..|s| - 1] == Digits(n / 10);
    }
  }

  lemma {:induction false} NumberEndOfDigits(d: string, p: nat, s: string, mantissa: bool)
    requires At(d, p, s) && AllDigits(s) && p + |s| < |d| && (d[p + |s|] == ',' || d[p + |s|] == ' ')
    ensures NumberEnd(d, p, mantissa, false, false) == p + |s|
    decreases |s|
  {
    if s != [] {
      assert s[0] in s && d[p] == s[0];
      assert d[p + 1..p + |s|] == s[1..];
      NumberEndOfDigits(d, p + 1, s[1..], true);
    }
  }
}
