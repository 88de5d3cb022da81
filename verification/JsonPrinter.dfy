/** jsonxx values and their printed form. */
module JsonPrinter {
  // A std::string is a string of characters below 256 here.
  // Reals keep their text: floating-point values and their formatting are not modelled.
  datatype Number = Int(n: int) | Real(text: string)

  // Objects are std::maps: members in the order of their keys.
  datatype Json = Null | Bool(b: bool) | Num(num: Number) | Str(s: string) | Arr(items: seq<Json>)
      | Obj(members: seq<Member>)
  datatype Member = Member(key: string, value: Json)

  // std::less on std::string
  predicate Less(a: string, b: string) {
    if a == [] then b != []
    else b != [] && (a[0] < b[0] || (a[0] == b[0] && Less(a[1..], b[1..])))
  }

  predicate Sorted(ms: seq<Member>) {
    forall i, j :: 0 <= i < j < |ms| ==> Less(ms[i].key, ms[j].key)
  }

  // value_map_[key] = v
  function Insert(ms: seq<Member>, key: string, v: Json): (r: seq<Member>)
    ensures |ms| <= |r| <= |ms| + 1
  {
    if ms == [] || Less(key, ms[0].key) then [Member(key, v)] + ms
    else if ms[0].key == key then [Member(key, v)] + ms[1..]
    else [ms[0]] + Insert(ms[1..], key, v)
  }

  lemma {:induction false} LessIrreflexive(a: string, b: string)
    ensures !Less(a, a) && !(Less(a, b) && Less(b, a))
    decreases |a|
  {
    if a != [] && b != [] {
      LessIrreflexive(a[1..], b[1..]);
    } else if a != [] {
      LessIrreflexive(a[1..], []);
    }
  }

  lemma {:induction false} InsertLast(ms: seq<Member>, key: string, v: Json)
    requires forall m <- ms :: Less(m.key, key)
    ensures Insert(ms, key, v) == ms + [Member(key, v)]
    decreases |ms|
  {
    if ms != [] {
      assert ms[0] in ms;
      LessIrreflexive(key, ms[0].key);
      LessIrreflexive(key, key);
      InsertLast(ms[1..], key, v);
    }
  }

  lemma {:induction false} LessTransitive(a: string, b: string, c: string)
    requires Less(a, b) && Less(b, c)
    ensures Less(a, c)
    decreases |a|
  {
    if a != [] && a[0] == b[0] == c[0] {
      LessTransitive(a[1..], b[1..], c[1..]);
    }
  }

  lemma {:induction false} LessTotal(a: string, b: string)
    ensures Less(a, b) || Less(b, a) || a == b
    decreases |a|
  {
    if a != [] && b != [] && a[0] == b[0] {
      LessTotal(a[1..], b[1..]);
      assert a == [a[0]] + a[1..] && b == [b[0]] + b[1..];
    }
  }

  lemma AllAbove(ms: seq<Member>, key: string)
    requires Sorted(ms) && (ms != [] ==> Less(key, ms[0].key))
    ensures forall m <- ms :: Less(key, m.key) && m.key != key
  {
    hide Less;
    LessIrreflexive(key, key);
    forall i: nat | i < |ms| ensures Less(key, ms[i].key) {
      if i > 0 { LessTransitive(key, ms[0].key, ms[i].key); }
    }
  }

  // After an insertion the members are those before, but for the key's own, and the new one.
  lemma {:induction false} InsertMembers(ms: seq<Member>, key: string, v: Json)
    requires Sorted(ms)
    ensures forall m :: m in Insert(ms, key, v) <==> m == Member(key, v) || (m in ms && m.key != key)
    decreases |ms|
  {
    hide Less;
    if ms != [] {
      var rest := ms[1..];
      assert ms == [ms[0]] + rest;
      if Less(key, ms[0].key) {
        AllAbove(ms, key);
      } else if ms[0].key == key {
        AllAbove(rest, key);
      } else {
        InsertMembers(rest, key, v);
      }
    }
  }

  // A sorted list stays sorted.
  lemma {:induction false} InsertSorted(ms: seq<Member>, key: string, v: Json)
    requires Sorted(ms)
    ensures Sorted(Insert(ms, key, v))
    decreases |ms|
  {
    hide Less;
    if ms != [] {
      var rest := ms[1..];
      LessTotal(key, ms[0].key);
      if Less(key, ms[0].key) {
        AllAbove(ms, key);
      } else if ms[0].key != key {
        InsertSorted(rest, key, v);
        InsertMembers(rest, key, v);
        assert forall m <- rest :: Less(ms[0].key, m.key);
        SortedCons(ms[0], Insert(rest, key, v));
      }
    }
  }

  lemma SortedCons(m: Member, ms: seq<Member>)
    requires Sorted(ms) && forall n <- ms :: Less(m.key, n.key)
    ensures Sorted([m] + ms)
  {
    hide Less;
  }

  // escape_string, byte by byte
  function HexDigit(n: nat): char
    requires n < 16
  {
    if n < 10 then ('0' as int + n) as char else ('a' as int + n - 10) as char
  }

  function Escape(c: char): (e: string)
    ensures e != []
  {
    if c == '\"' then "\\\"" else if c == '\\' then "\\\\" else if c == '/' then "\\/"
    else if c as int == 8 then "\\b" else if c as int == 12 then "\\f" else if c == '\n' then "\\n"
    else if c == '\r' then "\\r" else if c == '\t' then "\\t"
    else if c as int < 32 then "\\u00" + [HexDigit(c as int / 16), HexDigit(c as int % 16)]
    else [c]
  }

  function EscapeString(s: string): string {
    if s == [] then [] else Escape(s[0]) + EscapeString(s[1..])
  }

  function Digits(n: nat): (s: string)
    ensures s != []
  {
    if n < 10 then [('0' as int + n) as char] else Digits(n / 10) + [('0' as int + n % 10) as char]
  }

  function NumberText(n: Number): string {
    match n
    case Int(i) => if i < 0 then ['-'] + Digits(-i) else Digits(i)
    case Real(t) => t
  }

  function Tabs(depth: nat): (t: string)
    ensures |t| == depth
  {
    seq(depth, _ => '\t')
  }

  function RemoveLastComma(s: string): (r: string)
    ensures |r| == |s|
  {
    if |s| > 2 && s[|s| - 2] == ',' then s[|s| - 2 := ' '] else s
  }

  function Label(name: string): string {
    if name != [] then "\"" + EscapeString(name) + "\": " else []
  }

  // json::tag
  function Tag(depth: nat, name: string, t: Json): string
    decreases t, 0
  {
    var ss := Tabs(depth) + Label(name);
    match t
    case Null => ss + "null,\n"
    case Bool(b) => ss + (if b then "true" else "false") + ",\n"
    case Arr(items) => RemoveLastComma(ss + "[\n" + TagItems(depth + 1, items)) + Tabs(depth) + "],\n"
    case Str(s) => ss + "\"" + EscapeString(s) + "\",\n"
    case Obj(ms) => RemoveLastComma(ss + "{\n" + TagMembers(depth + 1, ms)) + Tabs(depth) + "},\n"
    case Num(n) => ss + NumberText(n) + ",\n"
  }

  function TagItems(depth: nat, items: seq<Json>): string
    decreases items, 1
  {
    if items == [] then [] else Tag(depth, [], items[0]) + TagItems(depth, items[1..])
  }

  function TagMembers(depth: nat, ms: seq<Member>): string
    decreases ms, 1
  {
    if ms == [] then [] else
    var m := ms[0];
    Tag(depth, m.key, m.value) + TagMembers(depth, ms[1..])
  }

  // Object::json
  function JsonText(ms: seq<Member>): string {
    RemoveLastComma(Tag(0, [], Obj(ms)))
  }
}
