/** Parsing undoes printing, for every well-formed tree without empty member names. */
module JsonRoundTrip {
  import opened JsonPrinter
  import opened JsonParser
  import opened JsonTexts

  // What follows a printed value.
  predicate Stops(d: string, p: nat) { p < |d| && (d[p] == ',' || d[p] == ' ') }

  // The first character of a printed value.
  lemma BodyStarts(d: string, p: nat, depth: nat, t: Json)
    requires WellFormed(t) && At(d, p, Body(depth, t)) && p + |Body(depth, t)| < |d|
    ensures p < |d| && Starts(d, p, d[p])
    ensures t.Str? <==> d[p] == '\"'
    ensures t.Num? <==> d[p] == '-' || IsDigit(d[p])
    ensures d[p] != '\'' && d[p] != '+' && d[p] != '.' && d[p] != ',' && d[p] != ']' && d[p] != '}'
    ensures (d[p] == 't' <==> t == Bool(true)) && (d[p] == 'f' <==> t == Bool(false)) && (d[p] == 'n' <==> t == Null)
    ensures (d[p] == '[' <==> t.Arr?) && (d[p] == '{' <==> t.Obj?)
  {
    hide MembersText, ItemsText, EscapeString, WellFormedMembers;
    var b := Body(depth, t);
    NumberStarts(t);
    assert |b| > 0 && d[p] == b[0] by { assert d[p..p + |b|][0] == b[0]; }
  }

  lemma NumberStarts(t: Json)
    requires WellFormed(t)
    ensures t.Num? ==> NumberText(t.num) != [] && (NumberText(t.num)[0] == '-' || IsDigit(NumberText(t.num)[0]))
  {
    if t.Num? {
      DigitsAreDigits(if t.num.n < 0 then -t.num.n else t.num.n);
      var s := Digits(if t.num.n < 0 then -t.num.n else t.num.n);
      assert s[0] in s;
    }
  }

  lemma NumberOfText(n: int)
    requires -INT_LIMIT < n < INT_LIMIT
    ensures var s := NumberText(Int(n)); s != [] && IsNumber(s) && NumberOf(s) == Int(n)
  {
    var m := if n < 0 then -n else n;
    var s := Digits(m);
    DigitsAreDigits(m);
    assert s[|s| - 1] in s && s[0] in s;
    var t := NumberText(Int(n));
    assert t[|t| - 1] == s[|s| - 1];
    if n < 0 {
      assert t[1..] == s;
    }
  }

  lemma DigitsEnd(d: string, p: nat, s: string)
    requires s != [] && AllDigits(s) && At(d, p, s) && Stops(d, p + |s|)
    ensures p < |d| && IsDigit(d[p]) && NumberEnd(d, p, false, false, false) == p + |s|
  {
    hide NumberEnd;
    assert d[p] == d[p..p + |s|][0] == s[0];
    assert s[0] in s;
    NumberEndOfDigits(d, p, s, false);
  }

  lemma NegativeEnd(d: string, p: nat, s: string)
    requires s != [] && AllDigits(s) && At(d, p, ['-'] + s) && Stops(d, p + 1 + |s|)
    ensures p < |d| && d[p] == '-' && NumberEnd(d, p + 1, false, false, false) == p + 1 + |s|
  {
    hide NumberEnd;
    AtParts(d, p, ['-'], s);
    assert d[p] == d[p..p + 1][0];
    DigitsEnd(d, p + 1, s);
  }

  lemma NumberTextEnd(d: string, p: nat, n: int)
    requires At(d, p, NumberText(Int(n))) && Stops(d, p + |NumberText(Int(n))|)
    ensures p < |d| && !IsSpace(d[p]) && d[p] != '+'
    ensures NumberEnd(d, if d[p] == '-' then p + 1 else p, false, false, false) == p + |NumberText(Int(n))|
  {
    hide Digits, NumberEnd, ValueOf, At, Stops, AllDigits;
    DigitsAreDigits(if n < 0 then -n else n);
    if n < 0 {
      NegativeEnd(d, p, Digits(-n));
    } else {
      DigitsEnd(d, p, Digits(n));
    }
  }

  lemma ParseNumberUndoes(d: string, p: nat, n: int)
    requires -INT_LIMIT < n < INT_LIMIT && At(d, p, NumberText(Int(n))) && Stops(d, p + |NumberText(Int(n))|)
    ensures ParseNumber(d, p) == Yes(p + |NumberText(Int(n))|, Int(n))
  {
    hide IsNumber, NumberOf, NumberText, NumberEnd;
    NumberOfText(n);
    NumberTextEnd(d, p, n);
  }

  // Nothing of a number at p: nothing is taken.
  lemma ParseNumberNo(d: string, p: nat, c: char)
    requires Starts(d, p, c) && !IsDigit(c) && c != '-' && c != '+' && c != '.'
    ensures ParseNumber(d, p) == No(p)
  {
    assert NumberEnd(d, p, false, false, false) == p;
    assert d[p..p] == [];
  }

  lemma ParseBoolUndoes(d: string, p: nat, b: bool)
    requires At(d, p, if b then "true" else "false")
    ensures ParseBool(d, p) == Yes(p + (if b then 4 else 5), b)
  {
    hide Match;
    if b {
      assert d[p] == d[p..p + 4][0];
      Skipped(d, p, 't');
      MatchWord(d, p, p, "true");
    } else {
      assert d[p] == d[p..p + 5][0];
      Skipped(d, p, 'f');
      MatchOther(d, p, p, 'f', "true");
      MatchWord(d, p, p, "false");
    }
  }

  lemma ParseBoolNo(d: string, p: nat, c: char)
    requires Starts(d, p, c) && c != 't' && c != 'f'
    ensures ParseBool(d, p) == No(p)
  {
    hide Match;
    Skipped(d, p, c);
    MatchOther(d, p, p, c, "true");
    MatchOther(d, p, p, c, "false");
  }

  lemma ParseNullNo(d: string, p: nat, c: char)
    requires Starts(d, p, c) && c != 'n' && c != ','
    ensures ParseNull(d, p) == No(p)
  {
    hide Match;
    Skipped(d, p, c);
    MatchOther(d, p, p, c, "null");
  }

  // A value that is no string and no number is read by ParseWord.
  lemma ParseValueWord(d: string, p0: nat, p: nat, c: char)
    requires p0 <= p < |d| && SkipWs(d, p0) == p && Starts(d, p, c)
    requires c != '\"' && c != '\'' && !IsDigit(c) && c != '-' && c != '+' && c != '.'
    ensures ParseValue(d, p0) == ParseWord(d, p)
  {
    hide ParseString, ParseNumber, ParseWord;
    ParseStringNo(d, p0, p, c);
    ParseNumberNo(d, p, c);
  }

  // A value that starts like none: the end of an empty array.
  lemma ParseValueNo(d: string, p0: nat, p: nat)
    requires p0 <= p < |d| && SkipWs(d, p0) == p && d[p] == ']'
    ensures ParseValue(d, p0) == No(p)
  {
    hide ParseString, ParseNumber, ParseBool, ParseNull, Match;
    ParseValueWord(d, p0, p, ']');
    ParseBoolNo(d, p, ']');
    ParseNullNo(d, p, ']');
    Skipped(d, p, ']');
    MatchOther(d, p, p, ']', "{");
    assert ParseObject(d, p) == No(p);
  }

  // The line that closes an array or object.
  function Ending(k: nat, close: char): (s: string)
    ensures |s| == k + 1
  {
    Tabs(k) + [close]
  }

  // From a printed value on to the next character that is no space, in both ways a value can end.
  lemma AfterLast(d: string, q: nat, k: nat, close: char)
    requires At(d, q, " \n" + Tabs(k) + [close]) && !IsSpace(close) && close != '/'
    ensures SkipWs(d, q) == q + 2 + k && Starts(d, q + 2 + k, close) && d[q] == ' '
  {
    AtParts(d, q, " \n" + Tabs(k), [close]);
    SkipRun(d, q, " \n" + Tabs(k));
    assert d[q + 2 + k] == d[q + 2 + k..q + 2 + k + 1][0] == close;
    Skipped(d, q + 2 + k, close);
    assert d[q] == d[q..q + |" \n" + Tabs(k)|][0];
  }

  lemma AfterOther(d: string, q: nat)
    requires At(d, q, ",\n")
    ensures d[q] == ',' && Starts(d, q, ',') && SkipWs(d, q) == q && SkipWs(d, q + 1) == SkipWs(d, q + 2)
  {
    assert d[q] == d[q..q + 2][0] && d[q + 1] == d[q..q + 2][1];
    Skipped(d, q, ',');
  }

  lemma CloseHere<T>(d: string, e: nat, close: char, v: T)
    requires e < |d| && Starts(d, e, close)
    ensures Close(d, e, [close], v) == Yes(e + 1, v)
  {
    hide Match;
    Skipped(d, e, close);
    MatchChar(d, e, e, close, close);
  }

  lemma AtFour(d: string, p: nat, a: string, b: string, c: string, r: string, tail: string)
    requires At(d, p, a + b + c + r + tail)
    ensures At(d, p, a) && At(d, p + |a|, b) && At(d, p + |a| + |b|, c + (r + tail))
    ensures At(d, p + |a| + |b|, c) && At(d, p + |a| + |b| + |c|, r + tail)
  {
    assert a + b + c + r + tail == a + (b + (c + (r + tail)));
    AtParts(d, p, a, b + (c + (r + tail)));
    AtParts(d, p + |a|, b, c + (r + tail));
    AtParts(d, p + |a| + |b|, c, r + tail);
  }

  lemma LastEnding(k: nat, close: char)
    ensures After(true) + ([] + Ending(k, close)) == " \n" + Tabs(k) + [close]
  {
  }

  lemma LastItem(d: string, p0: nat, q: nat, k: nat, v: Json, acc: seq<Json>)
    requires p0 <= |d| && ParseValue(d, p0) == Yes(q, v) && At(d, q, After(true) + ([] + Ending(k, ']')))
    ensures Items(d, p0, acc) == Yes(q + 3 + k, acc + [v])
  {
    hide ParseValue, Match, Close, After, Ending;
    LastEnding(k, ']');
    AfterLast(d, q, k, ']');
    MatchOther(d, q, q + 2 + k, ']', ",");
    CloseHere(d, q + 2 + k, ']', acc + [v]);
  }

  lemma NextItem(d: string, p0: nat, q: nat, v: Json, acc: seq<Json>)
    requires p0 <= |d| && ParseValue(d, p0) == Yes(q, v) && At(d, q, After(false))
    ensures q + 1 < |d| && SkipWs(d, q + 1) == SkipWs(d, q + 2) && Items(d, p0, acc) == Items(d, q + 1, acc + [v])
  {
    hide ParseValue, Match, Close;
    AfterOther(d, q);
    MatchChar(d, q, q, ',', ',');
  }

  lemma AfterStops(d: string, q: nat, last: bool, tail: string)
    requires At(d, q, After(last) + tail)
    ensures Stops(d, q)
  {
    AtParts(d, q, After(last), tail);
    assert d[q] == d[q..q + 2][0];
  }

  lemma UnfoldItems(depth: nat, items: seq<Json>)
    requires items != []
    ensures ItemsText(depth, items) == Tabs(depth) + Body(depth, items[0]) + After(|items| == 1)
              + ItemsText(depth, items[1..])
    ensures |ItemsText(depth, items)| == depth + |Body(depth, items[0])| + 2 + |ItemsText(depth, items[1..])|
    ensures |items| == 1 ==> ItemsText(depth, items[1..]) == []
  {
  }

  // A printed value, indented, is read from anywhere in the space before it.
  lemma IndentedValue(d: string, p0: nat, p: nat, depth: nat, t: Json)
    requires WellFormed(t) && At(d, p, Body(depth, t)) && Stops(d, p + |Body(depth, t)|)
    requires p0 <= p && SkipWs(d, p0) == SkipWs(d, p)
    ensures SkipWs(d, p0) == p
  {
    hide Body, WellFormed;
    BodyStarts(d, p, depth, t);
    Skipped(d, p, d[p]);
  }

  predicate Good(items: seq<Json>) { forall x <- items :: WellFormed(x) && Named(x) }

  lemma GoodParts(items: seq<Json>)
    requires items != [] && Good(items)
    ensures WellFormed(items[0]) && Named(items[0]) && Good(items[1..])
  {
    hide WellFormed, Named;
    assert items[0] in items && forall x <- items[1..] :: x in items;
  }

  predicate GoodMember(m: Member) { m.key != [] && PlainString(m.key) && WellFormed(m.value) && Named(m.value) }

  predicate GoodMembers(ms: seq<Member>) { forall m <- ms :: GoodMember(m) }

  lemma GoodMemberParts(ms: seq<Member>)
    requires ms != [] && GoodMembers(ms)
    ensures GoodMember(ms[0]) && GoodMembers(ms[1..])
  {
    hide GoodMember;
    assert ms[0] in ms && forall x <- ms[1..] :: x in ms;
  }

  lemma {:induction false} ItemUndone(d: string, p0: nat, p: nat, depth: nat, items: seq<Json>, tail: string)
    requires items != [] && Good(items) && At(d, p, ItemsText(depth, items) + tail)
    requires p0 <= p + depth <= |d| && SkipWs(d, p0) == SkipWs(d, p + depth)
    ensures var q := p + depth + |Body(depth, items[0])|;
            var rest := ItemsText(depth, items[1..]);
            && ParseValue(d, p0) == Yes(q, items[0]) && At(d, q, After(|items| == 1))
            && At(d, q, After(|items| == 1) + (rest + tail)) && At(d, q + |After(|items| == 1)|, rest + tail)
    decreases items, 0
  {
    hide Body, ItemsText, WellFormed, Named, Match, ParseValue, At, Stops, Tabs, After, Good;
    var b, rest := Body(depth, items[0]), ItemsText(depth, items[1..]);
    UnfoldItems(depth, items);
    AtFour(d, p, Tabs(depth), b, After(|items| == 1), rest, tail);
    AfterStops(d, p + depth + |b|, |items| == 1, rest + tail);
    GoodParts(items);
    IndentedValue(d, p0, p + depth, depth, items[0]);
    ParseValueUndoes(d, p0, p + depth, depth, items[0]);
  }

  lemma {:induction false} ItemsUndo(d: string, p0: nat, p: nat, depth: nat, k: nat, items: seq<Json>, acc: seq<Json>)
    requires items != [] && Good(items)
    requires At(d, p, ItemsText(depth, items) + Ending(k, ']'))
    requires p0 <= p + depth <= |d| && SkipWs(d, p0) == SkipWs(d, p + depth)
    ensures Items(d, p0, acc) == Yes(p + |ItemsText(depth, items)| + k + 1, acc + items)
    decreases items, 1
  {
    hide Body, ItemsText, WellFormed, Named, Match, ParseValue, Close, Items, At, Stops, Tabs, After, Ending, Good;
    var t, rest := items[0], items[1..];
    var q := p + depth + |Body(depth, t)|;
    UnfoldItems(depth, items);
    ItemUndone(d, p0, p, depth, items, Ending(k, ']'));
    if |items| == 1 {
      LastItem(d, p0, q, k, t, acc);
      assert items == [t];
    } else {
      NextItem(d, p0, q, t, acc);
      AfterLength();
      GoodParts(items);
      FirstIndent(d, q + 2, depth, rest, Ending(k, ']'));
      ItemsUndo(d, q + 1, q + 2, depth, k, rest, acc + [t]);
      assert acc + [t] + rest == acc + items;
    }
  }

  lemma AfterLength()
    ensures |After(true)| == 2 && |After(false)| == 2
  {
  }

  lemma FirstIndent(d: string, p: nat, depth: nat, items: seq<Json>, tail: string)
    requires items != [] && At(d, p, ItemsText(depth, items) + tail)
    ensures p + depth <= |d| && SkipWs(d, p) == SkipWs(d, p + depth)
  {
    hide Body, ItemsText, After, Tabs;
    UnfoldItems(depth, items);
    AtFour(d, p, Tabs(depth), Body(depth, items[0]), After(|items| == 1), ItemsText(depth, items[1..]), tail);
    SkipTabs(d, p, depth);
  }

  lemma LabelParts(key: string, tail: string)
    requires key != []
    ensures var text := "\"" + EscapeString(key) + "\"";
            Label(key) + tail == text + (": " + tail) && |Label(key)| == |text| + 2 && |text| == |EscapeString(key)| + 2
  {
    hide EscapeString;
  }

  lemma QuoteStarts(d: string, p: nat, e: string)
    requires At(d, p, "\"" + e + "\"")
    ensures p < |d| && SkipWs(d, p) == p
  {
    assert d[p] == d[p..p + |e| + 2][0] == '\"';
  }

  lemma KeyUndone(d: string, p0: nat, p: nat, key: string, tail: string)
    requires key != [] && PlainString(key) && At(d, p, Label(key) + tail)
    requires p0 <= p && SkipWs(d, p0) == SkipWs(d, p)
    ensures var c := p + |Label(key)| - 2;
            && p < c && ParseString(d, p0) == Yes(c, key) && Match(d, c, ":") == Yes(c + 1, ())
            && At(d, c + 2, tail) && SkipWs(d, c + 1) == SkipWs(d, c + 2)
  {
    hide EscapeString, ParseString, Match, Label, At;
    LabelParts(key, tail);
    var text := "\"" + EscapeString(key) + "\"";
    AtParts(d, p, text, ": " + tail);
    AtParts(d, p + |text|, ": ", tail);
    QuoteStarts(d, p, EscapeString(key));
    ParseStringUndoes(d, p0, p, key);
    ColonRead(d, p + |text|);
  }

  lemma ColonRead(d: string, c: nat)
    requires At(d, c, ": ")
    ensures c + 2 <= |d| && Match(d, c, ":") == Yes(c + 1, ()) && SkipWs(d, c + 1) == SkipWs(d, c + 2)
  {
    hide Match;
    assert d[c] == d[c..c + 2][0] == ':' && d[c + 1] == d[c..c + 2][1] == ' ';
    Skipped(d, c, ':');
    MatchChar(d, c, c, ':', ':');
  }

  // ParseString, ":" and ParseValue have succeeded.
  predicate MemberRead(d: string, p0: nat, c: nat, q: nat, key: string, v: Json) {
    && p0 <= |d| && ParseString(d, p0) == Yes(c, key) && Match(d, c, ":") == Yes(c + 1, ())
    && ParseValue(d, c + 1) == Yes(q, v)
  }

  lemma LastMember(d: string, p0: nat, c: nat, q: nat, k: nat, key: string, v: Json, acc: seq<Member>)
    requires MemberRead(d, p0, c, q, key, v) && At(d, q, After(true) + ([] + Ending(k, '}')))
    ensures Members(d, p0, acc) == Yes(q + 3 + k, Insert(acc, key, v))
  {
    hide ParseString, ParseValue, Match, Close, Insert, After, Ending;
    LastEnding(k, '}');
    AfterLast(d, q, k, '}');
    MatchOther(d, q, q + 2 + k, '}', ",");
    CloseHere(d, q + 2 + k, '}', Insert(acc, key, v));
  }

  lemma NextMember(d: string, p0: nat, c: nat, q: nat, key: string, v: Json, acc: seq<Member>)
    requires MemberRead(d, p0, c, q, key, v) && At(d, q, After(false))
    ensures q + 1 < |d| && SkipWs(d, q + 1) == SkipWs(d, q + 2)
    ensures Members(d, p0, acc) == Members(d, q + 1, Insert(acc, key, v))
  {
    hide ParseString, ParseValue, Match, Close, Insert;
    AfterOther(d, q);
    MatchChar(d, q, q, ',', ',');
  }

  lemma UnfoldMembers(depth: nat, ms: seq<Member>)
    requires ms != []
    ensures MembersText(depth, ms) == Tabs(depth) + (Label(ms[0].key) + Body(depth, ms[0].value)) + After(|ms| == 1)
                                      + MembersText(depth, ms[1..])
    ensures |MembersText(depth, ms)|
         == depth + |Label(ms[0].key) + Body(depth, ms[0].value)| + 2 + |MembersText(depth, ms[1..])|
    ensures |ms| == 1 ==> MembersText(depth, ms[1..]) == []
  {
    var m := ms[0];
    assert Tabs(depth) + Label(m.key) + Body(depth, m.value) == Tabs(depth) + (Label(m.key) + Body(depth, m.value));
  }

  lemma FirstMemberIndent(d: string, p: nat, depth: nat, ms: seq<Member>, tail: string)
    requires ms != [] && At(d, p, MembersText(depth, ms) + tail)
    ensures p + depth <= |d| && SkipWs(d, p) == SkipWs(d, p + depth)
    ensures ms[0].key != [] ==> p + depth < |d| && Starts(d, p + depth, '\"') && SkipWs(d, p) == p + depth
  {
    hide Body, MembersText, After, Tabs, Label;
    UnfoldMembers(depth, ms);
    var text := Label(ms[0].key) + Body(depth, ms[0].value);
    AtFour(d, p, Tabs(depth), text, After(|ms| == 1), MembersText(depth, ms[1..]), tail);
    SkipTabs(d, p, depth);
    if ms[0].key != [] {
      AtParts(d, p + depth, Label(ms[0].key), Body(depth, ms[0].value));
      LabelStarts(d, p + depth, ms[0].key);
    }
  }

  lemma LabelStarts(d: string, p: nat, key: string)
    requires key != [] && At(d, p, Label(key))
    ensures p < |d| && Starts(d, p, '\"')
  {
    assert d[p] == d[p..p + |Label(key)|][0];
  }

  lemma KeysBefore(acc: seq<Member>, ms: seq<Member>)
    requires ms != [] && Sorted(acc + ms)
    ensures forall m <- acc :: Less(m.key, ms[0].key)
    ensures Sorted((acc + [ms[0]]) + ms[1..])
  {
    assert (acc + ms)[|acc|] == ms[0];
    forall m <- acc ensures Less(m.key, ms[0].key) {
      var i :| 0 <= i < |acc| && acc[i] == m;
      assert (acc + ms)[i] == m;
    }
    assert (acc + [ms[0]]) + ms[1..] == acc + ms;
  }

  // One member's value.
  lemma {:induction false} MemberUndone(d: string, p0: nat, p: nat, depth: nat, m: Member, last: bool, tail: string)
    requires m.key != [] && PlainString(m.key) && WellFormed(m.value) && Named(m.value)
    requires At(d, p, Label(m.key) + Body(depth, m.value))
               && At(d, p + |Label(m.key) + Body(depth, m.value)|, After(last) + tail)
    requires p0 <= p && SkipWs(d, p0) == SkipWs(d, p)
    ensures MemberRead(d, p0, p + |Label(m.key)| - 2, p + |Label(m.key) + Body(depth, m.value)|, m.key, m.value)
    decreases m, 2
  {
    hide Body, WellFormed, Named, Match, ParseValue, ParseString, At, Stops, After, Label;
    var b := Body(depth, m.value);
    var c := p + |Label(m.key)| - 2;
    KeyUndone(d, p0, p, m.key, b);
    AfterStops(d, p + |Label(m.key) + b|, last, tail);
    IndentedValue(d, c + 1, c + 2, depth, m.value);
    AtEnds(d, c + 2, b);
    ParseValueUndoes(d, c + 1, c + 2, depth, m.value);
  }

  lemma AtEnds(d: string, p: nat, s: string)
    requires At(d, p, s)
    ensures p + |s| <= |d|
  {
  }

  lemma LabelLength(key: string)
    requires key != []
    ensures |Label(key)| > 2
  {
  }

  lemma {:induction false} FirstUndone(d: string, p0: nat, p: nat, depth: nat, ms: seq<Member>, tail: string)
    requires ms != [] && GoodMembers(ms) && At(d, p, MembersText(depth, ms) + tail)
    requires p0 <= p + depth <= |d| && SkipWs(d, p0) == SkipWs(d, p + depth)
    ensures var m := ms[0];
            var q := p + depth + |Label(m.key) + Body(depth, m.value)|;
            var rest := MembersText(depth, ms[1..]);
            && |Label(m.key)| > 2 && MemberRead(d, p0, p + depth + |Label(m.key)| - 2, q, m.key, m.value)
            && At(d, q, After(|ms| == 1)) && At(d, q, After(|ms| == 1) + (rest + tail))
            && At(d, q + |After(|ms| == 1)|, rest + tail)
    decreases ms, 0
  {
    hide Body, MembersText, WellFormed, Named, At, Tabs, After, Label, MemberRead, PlainString, GoodMembers;
    var m, rest := ms[0], MembersText(depth, ms[1..]);
    var text := Label(m.key) + Body(depth, m.value);
    GoodMemberParts(ms);
    UnfoldMembers(depth, ms);
    AtFour(d, p, Tabs(depth), text, After(|ms| == 1), rest, tail);
    MemberUndone(d, p0, p + depth, depth, m, |ms| == 1, rest + tail);
    LabelLength(m.key);
  }

  lemma {:induction false} MembersUndo(d: string, p0: nat, p: nat, depth: nat, k: nat, ms: seq<Member>,
      acc: seq<Member>)
    requires ms != [] && Sorted(acc + ms) && GoodMembers(ms)
    requires At(d, p, MembersText(depth, ms) + Ending(k, '}'))
    requires p0 <= p + depth <= |d| && SkipWs(d, p0) == SkipWs(d, p + depth)
    ensures Members(d, p0, acc) == Yes(p + |MembersText(depth, ms)| + k + 1, acc + ms)
    decreases ms, 1
  {
    hide Body, MembersText, Members, At, Tabs, After, Label, Sorted, Less, MemberRead, Insert, Ending;
    hide GoodMembers, GoodMember;
    var m, rest := ms[0], ms[1..];
    var q := p + depth + |Label(m.key) + Body(depth, m.value)|;
    UnfoldMembers(depth, ms);
    FirstUndone(d, p0, p, depth, ms, Ending(k, '}'));
    var c := p + depth + |Label(m.key)| - 2;
    KeysBefore(acc, ms);
    InsertLast(acc, m.key, m.value);
    if |ms| == 1 {
      LastMember(d, p0, c, q, k, m.key, m.value, acc);
      assert ms == [m];
    } else {
      NextMember(d, p0, c, q, m.key, m.value, acc);
      AfterLength();
      GoodMemberParts(ms);
      FirstMemberIndent(d, q + 2, depth, rest, Ending(k, '}'));
      MembersUndo(d, q + 1, q + 2, depth, k, rest, acc + [m]);
      assert acc + [m] + rest == acc + ms;
    }
  }

  // The opening line.
  lemma Opened(d: string, p0: nat, p: nat, open: char, inner: string)
    requires At(d, p, [open, '\n'] + inner) && !IsSpace(open) && open != '/'
    requires p0 <= p <= |d| && SkipWs(d, p0) == SkipWs(d, p)
    ensures p + 2 <= |d| && SkipWs(d, p0) == p && Match(d, p0, [open]) == Yes(p + 1, ())
    ensures At(d, p + 2, inner) && SkipWs(d, p + 1) == SkipWs(d, p + 2)
  {
    hide Match;
    AtParts(d, p, [open, '\n'], inner);
    assert d[p] == d[p..p + 2][0] == open && d[p + 1] == d[p..p + 2][1] == '\n';
    Skipped(d, p, open);
    MatchChar(d, p0, p, open, open);
  }

  lemma EndingAlone(d: string, p: nat, k: nat, close: char)
    requires At(d, p, Ending(k, close)) && !IsSpace(close) && close != '/'
    ensures p + k < |d| && Starts(d, p + k, close) && SkipWs(d, p) == p + k
  {
    AtParts(d, p, Tabs(k), [close]);
    SkipTabs(d, p, k);
    assert d[p + k] == d[p + k..p + k + 1][0] == close;
    Skipped(d, p + k, close);
  }

  lemma BodyLines(depth: nat, items: seq<Json>, ms: seq<Member>)
    ensures Body(depth, Arr(items)) == ['[', '\n'] + (ItemsText(depth + 1, items) + Ending(depth, ']'))
    ensures Body(depth, Obj(ms)) == ['{', '\n'] + (MembersText(depth + 1, ms) + Ending(depth, '}'))
    ensures items == [] ==> ItemsText(depth + 1, items) + Ending(depth, ']') == Ending(depth, ']')
    ensures ms == [] ==> MembersText(depth + 1, ms) + Ending(depth, '}') == Ending(depth, '}')
  {
  }

  lemma {:induction false} ParseArrayUndoes(d: string, p: nat, depth: nat, items: seq<Json>)
    requires Good(items) && At(d, p, Body(depth, Arr(items)))
    ensures ParseArray(d, p) == Yes(p + |Body(depth, Arr(items))|, items)
    decreases items, 2
  {
    hide Match, Items, WellFormed, Named, Close, ItemsText, Tabs, ParseValue, Ending, Body;
    BodyLines(depth, items, []);
    var inner := ItemsText(depth + 1, items) + Ending(depth, ']');
    AtEnds(d, p, Body(depth, Arr(items)));
    Opened(d, p, p, '[', inner);
    if items == [] {
      EndingAlone(d, p + 2, depth, ']');
      var e := p + 2 + depth;
      ParseValueNo(d, p + 1, e);
      CloseHere(d, e, ']', items);
      UnfoldEmptyItems(d, p + 1, e);
    } else {
      FirstIndent(d, p + 2, depth + 1, items, Ending(depth, ']'));
      ItemsUndo(d, p + 1, p + 2, depth + 1, depth, items, []);
      assert [] + items == items;
    }
  }

  lemma UnfoldEmptyItems(d: string, p: nat, e: nat)
    requires p <= |d| && ParseValue(d, p) == No(e)
    ensures Items(d, p, []) == Close(d, e, "]", [])
  {
    hide ParseValue, Close;
  }

  lemma GoodObject(ms: seq<Member>)
    requires WellFormedMembers(ms) && NamedMembers(ms)
    ensures Sorted(ms) && GoodMembers(ms) && (ms != [] ==> ms[0].key != [])
  {
    hide WellFormed, Named;
    assert ms != [] ==> ms[0] in ms;
  }

  lemma {:induction false} ParseObjectUndoes(d: string, p0: nat, p: nat, depth: nat, ms: seq<Member>)
    requires WellFormedMembers(ms) && NamedMembers(ms)
    requires p0 <= p <= |d| && SkipWs(d, p0) == SkipWs(d, p) && At(d, p, Body(depth, Obj(ms)))
    ensures ParseObject(d, p0) == Yes(p + |Body(depth, Obj(ms))|, ms)
    decreases ms, 2
  {
    hide Match, Members, Close, MembersText, Tabs, ParseValue, Ending, Body, Sorted;
    hide WellFormedMembers, NamedMembers, GoodMembers, SkipWs;
    BodyLines(depth, [], ms);
    var inner := MembersText(depth + 1, ms) + Ending(depth, '}');
    Opened(d, p0, p, '{', inner);
    if ms == [] {
      EndingAlone(d, p + 2, depth, '}');
      MatchChar(d, p + 1, p + 2 + depth, '}', '}');
    } else {
      GoodObject(ms);
      FirstMemberIndent(d, p + 2, depth + 1, ms, Ending(depth, '}'));
      var r := p + 2 + depth + 1;
      MatchChar(d, p + 1, r, '\"', '}');
      Skipped(d, r, '\"');
      assert [] + ms == ms;
      MembersUndo(d, r, p + 2, depth + 1, depth, ms, []);
    }
  }

  lemma {:induction false} ParseValueUndoes(d: string, p0: nat, p: nat, depth: nat, t: Json)
    requires p0 <= p <= |d| && SkipWs(d, p0) == p
    requires WellFormed(t) && Named(t) && At(d, p, Body(depth, t)) && Stops(d, p + |Body(depth, t)|)
    ensures ParseValue(d, p0) == Yes(p + |Body(depth, t)|, t)
    decreases t, 1
  {
    hide ParseString, ParseNumber, ParseBool, ParseNull, ParseArray, ParseObject, Match;
    hide EscapeString, NumberText, ItemsText, MembersText, Starts;
    BodyStarts(d, p, depth, t);
    var c := d[p];
    StartsFacts(d, p, c);
    if t.Str? {
      ParseStringUndoes(d, p0, p, t.s);
    } else if t.Num? {
      ParseStringNo(d, p0, p, c);
      ParseNumberUndoes(d, p, t.num.n);
    } else {
      ParseValueWord(d, p0, p, c);
      ParseWordUndoes(d, p, depth, t);
    }
  }

  lemma StartsFacts(d: string, p: nat, c: char)
    requires Starts(d, p, c)
    ensures p < |d| && d[p] == c && c != '/' && !IsSpace(c) && SkipWs(d, p) == p
  {
  }

  lemma {:induction false} ParseWordUndoes(d: string, p: nat, depth: nat, t: Json)
    requires WellFormed(t) && Named(t) && !t.Str? && !t.Num?
    requires At(d, p, Body(depth, t)) && Stops(d, p + |Body(depth, t)|)
    ensures ParseWord(d, p) == Yes(p + |Body(depth, t)|, t)
    decreases t, 0
  {
    hide ParseBool, ParseNull, ParseArray, ParseObject, Match, ItemsText, MembersText, Starts;
    BodyStarts(d, p, depth, t);
    var c := d[p];
    StartsFacts(d, p, c);
    if t.Bool? {
      ParseBoolUndoes(d, p, t.b);
    } else {
      ParseBoolNo(d, p, c);
      if t.Null? {
        MatchWord(d, p, p, "null");
        NullRead(d, p);
      } else {
        ParseNullNo(d, p, c);
        if t.Arr? {
          ParseArrayUndoes(d, p, depth, t.items);
        } else {
          ParseObjectUndoes(d, p, p, depth, t.members);
          ObjectRead(d, p, t.members);
        }
      }
    }
  }

  lemma NullRead(d: string, p: nat)
    requires p <= |d| && Match(d, p, "null").Yes?
    ensures ParseNull(d, p) == Yes(Match(d, p, "null").pos, ())
  {
  }

  lemma ObjectRead(d: string, p: nat, ms: seq<Member>)
    requires p <= |d| && ParseObject(d, p).Yes? && ParseObject(d, p).v == ms
    ensures ParseObjectValue(d, p) == Yes(ParseObject(d, p).pos, Obj(ms))
  {
    hide ParseObject;
  }

  // Parsing undoes printing.
  lemma ParseUndoesPrint(ms: seq<Member>)
    requires WellFormedMembers(ms) && NamedMembers(ms)
    ensures Parse(JsonText(ms)) == Accepted(ms)
  {
    hide Body, JsonText, ParseObject, WellFormedMembers, NamedMembers;
    var text := JsonText(ms);
    JsonTextShape(ms);
    var b := Body(0, Obj(ms));
    assert text[0..|b|] == b;
    ObjectBody(0, ms);
    assert text[0] == b[0] == '{';
    Skipped(text, 0, '{');
    ParseObjectUndoes(text, 0, 0, 0, ms);
  }
}
