/**
 * An empty member name is lost in printing, so no such tree comes back. The argument counts marks,
 * a ':', a "\u" or a byte below 8: a parser can put no more of them into a value than it consumes, and a printed
 * tree has one fewer than the tree for every empty name.
 */
module JsonWeight {
  import opened JsonPrinter
  import opened JsonParser
  import opened JsonTexts
  import opened JsonRoundTrip

  function One(b: bool): nat { if b then 1 else 0 }

  predicate IsMark(c: char) { c == ':' || c as int < 8 }

  // The marks of a string, a "\u" counted at the 'u'.
  function Marks(s: string): nat
    decreases |s|
  {
    if s == [] then 0
    else
      var n := |s| - 1;
      Marks(s[..n]) + One(IsMark(s[n])) + One(n > 0 && s[n - 1] == '\\' && s[n] == 'u')
  }

  predicate EndsInBackslash(s: string) { s != [] && s[|s| - 1] == '\\' }

  predicate StartsWithU(s: string) { s != [] && s[0] == 'u' }

  lemma MarksSnoc(s: string, c: char)
    ensures Marks(s + [c]) == Marks(s) + One(IsMark(c)) + One(EndsInBackslash(s) && c == 'u')
  {
    assert (s + [c])[..|s|] == s;
  }

  lemma {:induction false} MarksConcat(a: string, b: string)
    ensures Marks(a + b) == Marks(a) + Marks(b) + One(EndsInBackslash(a) && StartsWithU(b))
    decreases |b|
  {
    hide Marks;
    NoMarks();
    if b == [] {
      assert a + b == a;
    } else {
      var n := |b| - 1;
      MarksConcat(a, b[..n]);
      assert a + b == (a + b[..n]) + [b[n]] && b == b[..n] + [b[n]];
      MarksSnoc(a + b[..n], b[n]);
      MarksSnoc(b[..n], b[n]);
      if n == 0 {
        assert a + b[..n] == a;
      }
    }
  }

  // The weight of a value: the marks of its strings, and one for every member.
  function Weight(t: Json): nat
    decreases t, 0
  {
    match t
    case Str(s) => Marks(s)
    case Arr(items) => ItemsWeight(items)
    case Obj(ms) => MembersWeight(ms)
    case _ => 0
  }

  function ItemsWeight(items: seq<Json>): nat
    decreases items, 1
  {
    if items == [] then 0 else Weight(items[0]) + ItemsWeight(items[1..])
  }

  function MembersWeight(ms: seq<Member>): nat
    decreases ms, 1
  {
    if ms == [] then 0 else
    var m := ms[0];
    1 + Marks(m.key) + Weight(m.value) + MembersWeight(ms[1..])
  }

  lemma {:induction false} ItemsWeightSnoc(items: seq<Json>, t: Json)
    ensures ItemsWeight(items + [t]) == ItemsWeight(items) + Weight(t)
    decreases |items|
  {
    if items == [] {
      assert [t][1..] == [] && ItemsWeight([t]) == Weight(t) + ItemsWeight([]);
    } else {
      assert (items + [t])[1..] == items[1..] + [t];
      ItemsWeightSnoc(items[1..], t);
    }
  }

  lemma {:induction false} InsertWeight(ms: seq<Member>, key: string, v: Json)
    ensures MembersWeight(Insert(ms, key, v)) <= MembersWeight(ms) + 1 + Marks(key) + Weight(v)
    decreases |ms|
  {
    hide Less;
    var r := Insert(ms, key, v);
    if ms == [] || Less(key, ms[0].key) {
      assert r[1..] == ms;
    } else if ms[0].key == key {
      assert r[1..] == ms[1..];
    } else {
      assert r[1..] == Insert(ms[1..], key, v);
      InsertWeight(ms[1..], key, v);
    }
  }

  // The marks of a stretch of text, a "\u" counted at the backslash.
  function Mark(d: string, i: nat): nat
    requires i < |d|
  {
    One(IsMark(d[i])) + One(d[i] == '\\' && i + 1 < |d| && d[i + 1] == 'u')
  }

  function Stretch(d: string, p: nat, q: nat): nat
    requires q <= |d|
    decreases q
  {
    if p >= q then 0 else Stretch(d, p, q - 1) + Mark(d, q - 1)
  }

  lemma {:induction false} StretchParts(d: string, p: nat, q: nat, r: nat)
    requires p <= q <= r <= |d|
    ensures Stretch(d, p, r) == Stretch(d, p, q) + Stretch(d, q, r)
    decreases r
  {
    if q < r {
      StretchParts(d, p, q, r - 1);
    }
  }

  lemma StretchOne(d: string, p: nat, q: nat)
    requires p < q <= |d|
    ensures Stretch(d, p, q) >= Mark(d, p)
  {
    StretchParts(d, p, p + 1, q);
    assert Stretch(d, p, p + 1) == Stretch(d, p, p) + Mark(d, p);
  }

  lemma {:induction false} StretchIsMarks(d: string, k: nat)
    requires k <= |d|
    ensures Stretch(d, 0, k) == Marks(d[..k]) + One(EndsInBackslash(d[..k]) && StartsWithU(d[k..]))
    decreases k
  {
    if k > 0 {
      StretchIsMarks(d, k - 1);
      assert d[..k] == d[..k - 1] + [d[k - 1]];
      MarksSnoc(d[..k - 1], d[k - 1]);
    }
  }

  // A mark that the next character of the text would complete.
  function Pending(acc: string, d: string, p: nat): nat {
    One(EndsInBackslash(acc) && p < |d| && d[p] == 'u')
  }

  // An escape puts at most as many marks into a string as it takes from the text.
  lemma UnescapeMarks(d: string, p: nat, delimiter: char, acc: string)
    requires p + 1 < |d| && (d[p + 1] == 'u' ==> p + 6 <= |d|) && d[p] == '\\' && delimiter != ':' && delimiter != '\\'
    ensures var e := Unescape(d, p, delimiter);
            Marks(acc + e.1) + Pending(acc + e.1, d, e.0) <= Marks(acc) + Stretch(d, p, e.0)
  {
    hide DecimalOf, Stretch, Marks;
    var e := Unescape(d, p, delimiter);
    var c := d[p + 1];
    StretchOne(d, p, e.0);
    StretchParts(d, p, p + 1, e.0);
    StretchOne(d, p + 1, e.0);
    if e.1 == [] {
      assert acc + e.1 == acc;
    } else if |e.1| == 1 {
      assert e.1 == [e.1[0]];
      MarksSnoc(acc, e.1[0]);
    } else {
      assert acc + e.1 == (acc + ['\\']) + [c];
      MarksSnoc(acc, '\\');
      MarksSnoc(acc + ['\\'], c);
      StretchOne(d, p, p + 1);
    }
  }

  lemma {:induction false} StringBodyMarks(d: string, p: nat, delimiter: char, acc: string)
    requires p <= |d| && (delimiter == '\"' || delimiter == '\'') && StringBody(d, p, delimiter, acc).Yes?
    ensures var g := StringBody(d, p, delimiter, acc);
            Marks(g.v) <= Marks(acc) + Pending(acc, d, p) + Stretch(d, p, g.pos)
    decreases |d| - p
  {
    hide Unescape, Stretch, Marks;
    var g := StringBody(d, p, delimiter, acc);
    if d[p] == delimiter {
    } else if d[p] != '\\' {
      StringBodyMarks(d, p + 1, delimiter, acc + [d[p]]);
      MarksSnoc(acc, d[p]);
      StretchParts(d, p, p + 1, g.pos);
      StretchOne(d, p, p + 1);
    } else {
      var e := Unescape(d, p, delimiter);
      UnescapeMarks(d, p, delimiter, acc);
      StringBodyMarks(d, e.0, delimiter, acc + e.1);
      StretchParts(d, p, e.0, g.pos);
    }
  }

  lemma ParseStringMarks(d: string, p: nat)
    requires p <= |d| && ParseString(d, p).Yes?
    ensures Marks(ParseString(d, p).v) <= Stretch(d, p, ParseString(d, p).pos)
  {
    hide Match, StringBody, Stretch;
    var g := ParseString(d, p);
    var m := Match(d, p, "\"");
    var q := if m.Yes? then m.pos else m.pos + 1;
    StringBodyMarks(d, q, if m.Yes? then '\"' else '\'', []);
    StretchParts(d, p, q, g.pos);
    assert Marks([]) == 0;
  }

  lemma {:induction false} MatchColon(d: string, p: nat, cur: nat)
    requires cur <= p <= |d| && cur <= 1 && MatchFrom(d, p, ":", cur).Yes? && (cur == 1 ==> d[p - 1] == ':')
    ensures var q := MatchFrom(d, p, ":", cur).pos; q > 0 && d[q - 1] == ':'
    decreases |d| - p
  {
    if cur == 0 {
      if d[p] == ':' {
        MatchColon(d, p + 1, 1);
      } else {
        MatchColon(d, SkipWs(d, LineEnd(d, p + 2)), 0);
      }
    }
  }

  lemma ColonMarks(d: string, p: nat)
    requires p <= |d| && Match(d, p, ":").Yes?
    ensures Stretch(d, p, Match(d, p, ":").pos) >= 1
  {
    hide MatchFrom;
    var q := Match(d, p, ":").pos;
    MatchColon(d, SkipWs(d, p), 0);
    StretchParts(d, p, q - 1, q);
    StretchOne(d, q - 1, q);
  }

  lemma {:induction false} ParseValueWeight(d: string, p: nat)
    requires p <= |d| && ParseValue(d, p).Yes?
    ensures Weight(ParseValue(d, p).v) <= Stretch(d, p, ParseValue(d, p).pos)
    decreases |d| - p, 2
  {
    hide ParseString, ParseNumber, ParseWord, Stretch, Marks;
    var g := ParseValue(d, p);
    var s := ParseString(d, p);
    if s.Yes? {
      ParseStringMarks(d, p);
    } else {
      var n := ParseNumber(d, s.pos);
      if n.No? {
        ParseWordWeight(d, n.pos);
        StretchParts(d, p, n.pos, g.pos);
      }
    }
  }

  lemma {:induction false} ParseWordWeight(d: string, p: nat)
    requires p <= |d| && ParseWord(d, p).Yes?
    ensures Weight(ParseWord(d, p).v) <= Stretch(d, p, ParseWord(d, p).pos)
    decreases |d| - p, 1
  {
    hide ParseBool, ParseNull, ParseArray, ParseObjectValue, Stretch;
    var g := ParseWord(d, p);
    var b := ParseBool(d, p);
    if b.No? {
      var n := ParseNull(d, b.pos);
      if n.No? {
        var r := n.pos;
        if d[r] == '[' && ParseArray(d, r).Yes? {
          ParseArrayWeight(d, r);
          StretchParts(d, p, r, g.pos);
        } else {
          var o := if d[r] == '[' then ParseArray(d, r).pos else r;
          ParseObjectWeight(d, o);
          ObjectValueWeight(d, o);
          StretchParts(d, p, o, g.pos);
        }
      }
    }
  }

  lemma ObjectValueWeight(d: string, p: nat)
    requires p <= |d| && ParseObjectValue(d, p).Yes?
    ensures var g := ParseObject(d, p);
            g.Yes? && ParseObjectValue(d, p) == Yes(g.pos, Obj(g.v)) && Weight(Obj(g.v)) == MembersWeight(g.v)
  {
    hide ParseObject;
  }

  lemma {:induction false} ParseArrayWeight(d: string, p: nat)
    requires p <= |d| && ParseArray(d, p).Yes?
    ensures ItemsWeight(ParseArray(d, p).v) <= Stretch(d, p, ParseArray(d, p).pos)
    decreases |d| - p, 0, 0
  {
    hide Match, Items, Stretch;
    var q := Match(d, p, "[").pos;
    ItemsParsedWeight(d, q, []);
    StretchParts(d, p, q, ParseArray(d, p).pos);
    assert ItemsWeight([]) == 0;
  }

  lemma {:induction false} ItemsParsedWeight(d: string, p: nat, acc: seq<Json>)
    requires p <= |d| && Items(d, p, acc).Yes?
    ensures ItemsWeight(Items(d, p, acc).v) <= ItemsWeight(acc) + Stretch(d, p, Items(d, p, acc).pos)
    decreases |d| - p, 3
  {
    hide Match, ParseValue, Stretch, ItemsWeight;
    var g := Items(d, p, acc);
    var v := ParseValue(d, p);
    if v.Yes? {
      ParseValueWeight(d, p);
      ItemsWeightSnoc(acc, v.v);
      StretchParts(d, p, v.pos, g.pos);
      var c := Match(d, v.pos, ",");
      if c.Yes? {
        ItemsParsedWeight(d, c.pos, acc + [v.v]);
        StretchParts(d, v.pos, c.pos, g.pos);
      }
    }
  }

  lemma {:induction false} ParseObjectWeight(d: string, p: nat)
    requires p <= |d|
    ensures ParseObject(d, p).Yes? ==> MembersWeight(ParseObject(d, p).v) <= Stretch(d, p, ParseObject(d, p).pos)
    decreases |d| - p, 0, 0
  {
    hide Match, Members, Stretch;
    var g := ParseObject(d, p);
    if g.Yes? {
      var q := Match(d, p, "{").pos;
      var c := Match(d, q, "}");
      if c.No? {
        MembersParsedWeight(d, c.pos, []);
        StretchParts(d, p, c.pos, g.pos);
      }
      assert MembersWeight([]) == 0;
    }
  }

  lemma {:induction false} MembersParsedWeight(d: string, p: nat, acc: seq<Member>)
    requires p <= |d| && Members(d, p, acc).Yes?
    ensures MembersWeight(Members(d, p, acc).v) <= MembersWeight(acc) + Stretch(d, p, Members(d, p, acc).pos)
    decreases |d| - p, 3
  {
    hide Match, ParseString, ParseValue, Stretch, MembersWeight, Insert, Marks;
    var g := Members(d, p, acc);
    var k := ParseString(d, p);
    if k.Yes? {
      var r := Match(d, k.pos, ":").pos;
      var v := ParseValue(d, r);
      if v.Yes? {
        ParseStringMarks(d, p);
        ColonMarks(d, k.pos);
        ParseValueWeight(d, r);
        InsertWeight(acc, k.v, v.v);
        StretchParts(d, p, k.pos, g.pos);
        StretchParts(d, k.pos, r, g.pos);
        StretchParts(d, r, v.pos, g.pos);
        var c := Match(d, v.pos, ",");
        if c.Yes? {
          MembersParsedWeight(d, c.pos, Insert(acc, k.v, v.v));
          StretchParts(d, v.pos, c.pos, g.pos);
        }
      }
    }
  }

  // The members without a name.
  function Unnamed(t: Json): nat
    decreases t, 0
  {
    match t
    case Arr(items) => UnnamedItems(items)
    case Obj(ms) => UnnamedMembers(ms)
    case _ => 0
  }

  function UnnamedItems(items: seq<Json>): nat
    decreases items, 1
  {
    if items == [] then 0 else Unnamed(items[0]) + UnnamedItems(items[1..])
  }

  function UnnamedMembers(ms: seq<Member>): nat
    decreases ms, 1
  {
    if ms == [] then 0 else
    var m := ms[0];
    One(m.key == []) + Unnamed(m.value) + UnnamedMembers(ms[1..])
  }

  lemma {:induction false} NamedHasNone(t: Json)
    ensures Unnamed(t) == 0 ==> Named(t)
    decreases t, 0
  {
    match t
    case Arr(items) => NamedItemsHaveNone(items);
    case Obj(ms) => NamedMembersHaveNone(ms);
    case _ =>
  }

  lemma {:induction false} NamedItemsHaveNone(items: seq<Json>)
    ensures UnnamedItems(items) == 0 ==> forall x <- items :: Named(x)
    decreases items, 1
  {
    hide Unnamed, Named;
    if items != [] {
      NamedHasNone(items[0]);
      NamedItemsHaveNone(items[1..]);
      assert forall x <- items :: x == items[0] || x in items[1..];
    }
  }

  lemma {:induction false} NamedMembersHaveNone(ms: seq<Member>)
    ensures UnnamedMembers(ms) == 0 ==> NamedMembers(ms)
    decreases ms, 1
  {
    hide Unnamed, Named;
    if ms != [] {
      NamedHasNone(ms[0].value);
      NamedMembersHaveNone(ms[1..]);
      assert forall x <- ms :: x == ms[0] || x in ms[1..];
    }
  }

  // No mark, and no part of one, at either end.
  predicate Smooth(s: string) { Marks(s) == 0 && !EndsInBackslash(s) && !StartsWithU(s) }

  lemma {:induction false} SmoothText(s: string)
    requires forall c <- s :: !IsMark(c) && c != 'u' && c != '\\'
    ensures Smooth(s)
    decreases |s|
  {
    if s != [] {
      var n := |s| - 1;
      assert s[n] in s && forall c <- s[..n] :: c in s;
      SmoothText(s[..n]);
      assert s[0] in s;
    }
  }

  // Concatenation where no mark can arise at the seam.
  lemma Seam(a: string, b: string)
    requires !EndsInBackslash(a) || !StartsWithU(b)
    ensures Marks(a + b) == Marks(a) + Marks(b)
  {
    MarksConcat(a, b);
  }

  lemma EscapeShape(c: char)
    requires Plain(c)
    ensures var e := Escape(c);
            if |e| == 2 then e[0] == '\\' && e[1] != 'u' && !IsMark(e[1]) && (e[1] == '\\' <==> c == '\\') && c != 'u'
                && !IsMark(c)
            else if e == [c] then c != '\\' && c as int >= 8
            else c as int < 8 && e == "\\u000" + [('0' as int + c as int) as char]
  {
  }

  lemma EscapeMarks(c: char)
    requires Plain(c)
    ensures Marks(Escape(c)) == One(IsMark(c)) && (EndsInBackslash(Escape(c)) <==> c == '\\')
    ensures StartsWithU(Escape(c)) <==> c == 'u'
  {
    hide Escape, Marks, Plain;
    var e := Escape(c);
    EscapeShape(c);
    NoMarks();
    if e == [c] {
      MarksSnoc([], c);
      assert [] + [c] == [c];
    } else if |e| == 2 {
      TwoMarks(e[0], e[1]);
      assert e == [e[0], e[1]];
    } else {
      var digits := "000" + [('0' as int + c as int) as char];
      SmoothText(digits);
      TwoMarks('\\', 'u');
      assert e == "\\u" + digits;
      Seam("\\u", digits);
    }
  }

  lemma TwoMarks(a: char, b: char)
    ensures Marks([a, b]) == One(IsMark(a)) + One(IsMark(b)) + One(a == '\\' && b == 'u')
  {
    hide Marks;
    NoMarks();
    MarksSnoc([], a);
    assert [] + [a] == [a];
    MarksSnoc([a], b);
    assert [a] + [b] == [a, b];
  }

  lemma {:induction false} EscapeStringMarks(s: string)
    requires PlainString(s)
    ensures Marks(EscapeString(s)) == Marks(s)
    ensures StartsWithU(EscapeString(s)) <==> StartsWithU(s)
    decreases |s|
  {
    hide Escape, Marks;
    if s != [] {
      var e, rest := Escape(s[0]), s[1..];
      EscapeStringMarks(rest);
      EscapeMarks(s[0]);
      MarksConcat(e, EscapeString(rest));
      MarksConcat([s[0]], rest);
      MarksSnoc([], s[0]);
      assert [] + [s[0]] == [s[0]] && [s[0]] + rest == s;
      NoMarks();
    }
  }

  lemma NoMarks()
    ensures Marks([]) == 0
  {
  }

  lemma QuotedMarks(s: string)
    requires PlainString(s)
    ensures var q := "\"" + EscapeString(s) + "\"";
            Marks(q) == Marks(s) && !EndsInBackslash(q) && !StartsWithU(q)
  {
    hide EscapeString, Marks;
    EscapeStringMarks(s);
    SmoothText("\"");
    Seam("\"", EscapeString(s));
    Seam("\"" + EscapeString(s), "\"");
  }

  lemma LabelMarks(key: string)
    requires PlainString(key)
    ensures Marks(Label(key)) + One(key == []) == 1 + Marks(key)
    ensures !EndsInBackslash(Label(key)) && !StartsWithU(Label(key))
  {
    hide EscapeString, Marks;
    NoMarks();
    if key != [] {
      var q := "\"" + EscapeString(key) + "\"";
      QuotedMarks(key);
      assert Label(key) == q + ": ";
      Seam(q, ": ");
      MarksSnoc([], ':');
      MarksSnoc([':'], ' ');
      assert [] + [':'] == [':'] && [':'] + [' '] == ": ";
    }
  }

  lemma {:induction false} DigitsSmooth(n: nat)
    ensures forall c <- Digits(n) :: !IsMark(c) && c != 'u' && c != '\\'
  {
    if n >= 10 {
      DigitsSmooth(n / 10);
    }
  }

  lemma TabsSmooth(depth: nat)
    ensures Smooth(Tabs(depth)) && Smooth(After(true)) && Smooth(After(false)) && Smooth("]") && Smooth("}")
    ensures Smooth("[\n") && Smooth("{\n")
  {
    SmoothText(Tabs(depth));
    SmoothText(After(true));
    SmoothText(After(false));
    SmoothText("]");
    SmoothText("}");
    SmoothText("[\n");
    SmoothText("{\n");
  }

  // A body has the marks of its value but for the missing names.
  lemma {:induction false} BodyMarks(depth: nat, t: Json)
    requires WellFormed(t)
    ensures Marks(Body(depth, t)) + Unnamed(t) == Weight(t)
    ensures !EndsInBackslash(Body(depth, t)) && !StartsWithU(Body(depth, t))
    decreases t, 0
  {
    hide Marks, EscapeString, ItemsText, MembersText, Tabs, Digits, Sorted;
    TabsSmooth(depth);
    match t
    case Null => WordMarks("null");
    case Bool(b) => if b { WordMarks("true"); } else { SmoothText("false"); }
    case Num(n) =>
      var m := if n.n < 0 then -n.n else n.n;
      DigitsSmooth(m);
      SmoothText(NumberText(n));
    case Str(s) => QuotedMarks(s);
    case Arr(items) =>
      ItemsMarks(depth + 1, items);
      Enclosure("[\n", ItemsText(depth + 1, items), Tabs(depth), "]");
    case Obj(ms) =>
      MembersMarks(depth + 1, ms);
      Enclosure("{\n", MembersText(depth + 1, ms), Tabs(depth), "}");
  }

  lemma WordMarks(word: string)
    requires word == "null" || word == "true"
    ensures Marks(word) == 0
  {
    hide Marks;
    NoMarks();
    assert word[..1] == [] + [word[0]] && word[..2] == word[..1] + [word[1]];
    assert word[..3] == word[..2] + [word[2]] && word == word[..3] + [word[3]];
    MarksSnoc([], word[0]);
    MarksSnoc(word[..1], word[1]);
    MarksSnoc(word[..2], word[2]);
    MarksSnoc(word[..3], word[3]);
  }

  lemma Enclosure(open: string, inner: string, tab: string, close: string)
    requires Smooth(open) && Smooth(tab) && Smooth(close) && open != [] && close != []
    ensures var s := open + inner + tab + close;
            Marks(s) == Marks(inner) && !EndsInBackslash(s) && !StartsWithU(s)
  {
    hide Marks;
    var s := open + inner + tab + close;
    Seam(open, inner);
    Seam(open + inner, tab);
    Seam(open + inner + tab, close);
    assert s[0] == open[0] && s[|s| - 1] == close[|close| - 1];
  }

  lemma Line(tab: string, name: string, body: string, after: string, rest: string)
    requires Smooth(tab) && Smooth(after) && after != []
    requires !EndsInBackslash(name) && !EndsInBackslash(body) && !StartsWithU(body)
    ensures Marks(tab + name + body + after + rest) == Marks(name) + Marks(body) + Marks(rest)
  {
    hide Marks;
    Seam(tab, name);
    Seam(tab + name, body);
    Seam(tab + name + body, after);
    Seam(tab + name + body + after, rest);
  }

  lemma {:induction false} ItemsMarks(depth: nat, items: seq<Json>)
    requires forall x <- items :: WellFormed(x)
    ensures Marks(ItemsText(depth, items)) + UnnamedItems(items) == ItemsWeight(items)
    decreases items, 1
  {
    hide Marks, Body, Tabs, WellFormed, Unnamed, Weight;
    NoMarks();
    if items != [] {
      assert items[0] in items && forall x <- items[1..] :: x in items;
      BodyMarks(depth, items[0]);
      ItemsMarks(depth, items[1..]);
      TabsSmooth(depth);
      var b, after, rest := Body(depth, items[0]), After(|items| == 1), ItemsText(depth, items[1..]);
      Line(Tabs(depth), [], b, after, rest);
      assert Tabs(depth) + [] + b + after + rest == Tabs(depth) + b + after + rest;
    }
  }

  lemma {:induction false} MembersMarks(depth: nat, ms: seq<Member>)
    requires forall m <- ms :: PlainString(m.key) && WellFormed(m.value)
    ensures Marks(MembersText(depth, ms)) + UnnamedMembers(ms) == MembersWeight(ms)
    decreases ms, 1
  {
    hide Marks, Body, Tabs, WellFormed, Unnamed, Weight, Label;
    NoMarks();
    if ms != [] {
      var m := ms[0];
      assert m in ms && forall x <- ms[1..] :: x in ms;
      LabelMarks(m.key);
      BodyMarks(depth, m.value);
      MembersMarks(depth, ms[1..]);
      TabsSmooth(depth);
      Line(Tabs(depth), Label(m.key), Body(depth, m.value), After(|ms| == 1), MembersText(depth, ms[1..]));
    }
  }

  // A tree with an empty name does not come back.
  lemma EmptyNameLost(ms: seq<Member>)
    requires WellFormedMembers(ms) && Parse(JsonText(ms)) == Accepted(ms)
    ensures NamedMembers(ms)
  {
    hide Marks, Stretch, Body, ParseObject, JsonText, MembersWeight, UnnamedMembers;
    var text := JsonText(ms);
    JsonTextShape(ms);
    BodyOfMembers(ms);
    SmoothText(" \n");
    Seam(Body(0, Obj(ms)), " \n");
    ParseObjectWeight(text, 0);
    var q := ParseObject(text, 0).pos;
    StretchParts(text, 0, q, |text|);
    StretchIsMarks(text, |text|);
    assert text[..|text|] == text;
    NamedMembersHaveNone(ms);
  }

  lemma BodyOfMembers(ms: seq<Member>)
    requires WellFormedMembers(ms)
    ensures Marks(Body(0, Obj(ms))) + UnnamedMembers(ms) == MembersWeight(ms)
    ensures !EndsInBackslash(Body(0, Obj(ms)))
  {
    hide Marks, Body;
    assert WellFormed(Obj(ms));
    BodyMarks(0, Obj(ms));
  }

  // The round trip holds for a well-formed tree if and only if no member has an empty name.
  lemma RoundTripExactly(ms: seq<Member>)
    requires WellFormedMembers(ms)
    ensures Parse(JsonText(ms)) == Accepted(ms) <==> NamedMembers(ms)
  {
    hide Parse, JsonText, WellFormedMembers, NamedMembers;
    if NamedMembers(ms) {
      ParseUndoesPrint(ms);
    }
    if Parse(JsonText(ms)) == Accepted(ms) {
      EmptyNameLost(ms);
    }
  }
}
