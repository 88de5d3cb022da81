/** The parser as the source writes it: methods that consume a stream and fill containers. */
module JsonStream {
  import opened JsonPrinter
  import opened JsonParser

  class InputStream {
    const data: string
    var pos: nat
    var stuck: bool

    ghost predicate Valid()
      reads this
    {
      pos <= |data|
    }

    // The stream is where the result g leaves it, and ok tells success.
    ghost predicate Did<T>(g: Got<T>, ok: bool)
      reads this
    {
      stuck == g.Stuck? && ok == g.Yes? && (!g.Stuck? ==> pos == g.pos)
    }

    constructor (data: string)
      ensures Valid() && this.data == data && pos == 0 && !stuck
    {
      this.data, pos, stuck := data, 0, false;
    }

    // input >> std::ws
    method SkipSpace()
      requires Valid()
      modifies this`pos
      ensures Valid() && pos == SkipWs(data, old(pos))
    {
      while pos < |data| && IsSpace(data[pos])
        invariant pos <= |data| && SkipWs(data, pos) == SkipWs(data, old(pos))
      {
        pos := pos + 1;
      }
    }

    // parse_comment
    method ParseComment() returns (skipped: bool)
      requires Valid() && pos < |data|
      modifies this`pos
      ensures Valid() && skipped == AtComment(data, old(pos))
      ensures pos == if skipped then SkipWs(data, LineEnd(data, old(pos) + 2)) else old(pos)
    {
      if pos + 1 < |data| && data[pos] == '/' && data[pos + 1] == '/' {
        pos := pos + 2;
        while pos < |data| && data[pos] != '\r' && data[pos] != '\n'
          invariant old(pos) + 2 <= pos <= |data| && LineEnd(data, pos) == LineEnd(data, old(pos) + 2)
        {
          pos := pos + 1;
        }
        SkipSpace();
        return true;
      }
      return false;
    }

    method Match(pattern: string) returns (ok: bool)
      requires Valid()
      modifies this`pos, this`stuck
      ensures Valid() && (old(stuck) ==> stuck && !ok && pos == old(pos))
      ensures !old(stuck) ==> Did(JsonParser.Match(data, old(pos), pattern), ok)
    {
      if stuck {
        return false;
      }
      SkipSpace();
      var cur := 0;
      while cur < |pattern|
        invariant cur <= pos <= |data| && cur <= |pattern| && !stuck
        invariant MatchFrom(data, pos, pattern, cur) == JsonParser.Match(data, old(pos), pattern)
        decreases |data| - pos
      {
        if pos == |data| {
          stuck := true;
          return false;
        }
        if data[pos] == pattern[cur] {
          pos := pos + 1;
          cur := cur + 1;
        } else {
          var skipped := ParseComment();
          if skipped {
            if pos == |data| {
              stuck := true;
              return false;
            }
          } else {
            if data[pos - cur..pos] == pattern[..cur] { // putback until cur == pattern
              pos := pos - cur;
            } else {
              stuck := true;
            }
            return false;
          }
        }
      }
      return true;
    }

    method ParseString() returns (ok: bool, value: string)
      requires Valid()
      modifies this`pos, this`stuck
      ensures Valid() && (old(stuck) ==> stuck && !ok && pos == old(pos))
      ensures !old(stuck) ==> var g := JsonParser.ParseString(data, old(pos)); Did(g, ok) && (ok ==> value == g.v)
    {
      var delimiter := '\"';
      value := [];
      ok := Match("\"");
      if !ok {
        delimiter := '\'';
        if stuck || data[pos] != delimiter {
          return false, [];
        }
        pos := pos + 1;
      }
      ok, value := StringLoop(delimiter);
    }

    // The loop of parse_string, and the test behind it.
    method StringLoop(delimiter: char) returns (ok: bool, value: string)
      requires Valid() && !stuck
      modifies this`pos, this`stuck
      ensures Valid() && var g := StringBody(data, old(pos), delimiter, []); Did(g, ok) && (ok ==> value == g.v)
    {
      hide Unescape;
      value := [];
      while pos < |data| && data[pos] != delimiter
        invariant pos <= |data| && !stuck
        invariant StringBody(data, pos, delimiter, value) == StringBody(data, old(pos), delimiter, [])
        decreases |data| - pos
      {
        if data[pos] != '\\' {
          value := value + [data[pos]];
          pos := pos + 1;
        } else if pos + 1 == |data| || (data[pos + 1] == 'u' && pos + 6 > |data|) {
          stuck := true;
          return false, [];
        } else {
          var e := Unescape(data, pos, delimiter);
          value := value + e.1;
          pos := e.0;
        }
      }
      if pos == |data| {
        stuck := true;
        return false, [];
      }
      pos := pos + 1;
      return true, value;
    }

    // input >> value, with the characters taken and kept even if they are no number
    method ParseNumber() returns (ok: bool, value: Number)
      requires Valid()
      modifies this`pos, this`stuck
      ensures Valid() && (old(stuck) ==> stuck && !ok && pos == old(pos))
      ensures !old(stuck) ==> var g := JsonParser.ParseNumber(data, old(pos)); Did(g, ok) && (ok ==> value == g.v)
    {
      if stuck {
        return false, Int(0);
      }
      SkipSpace();
      var q := pos;
      if pos < |data| && (data[pos] == '-' || data[pos] == '+') {
        pos := pos + 1;
      }
      pos := NumberEnd(data, pos, false, false, false);
      if pos == |data| {
        stuck := true;
        return false, Int(0);
      }
      if IsNumber(data[q..pos]) {
        return true, NumberOf(data[q..pos]);
      }
      return false, Int(0);
    }

    method ParseBool() returns (ok: bool, value: bool)
      requires Valid()
      modifies this`pos, this`stuck
      ensures Valid() && (old(stuck) ==> stuck && !ok && pos == old(pos))
      ensures !old(stuck) ==> var g := JsonParser.ParseBool(data, old(pos)); Did(g, ok) && (ok ==> value == g.v)
    {
      ok := Match("true");
      if ok {
        return true, true;
      }
      ok := Match("false");
      value := false;
    }

    method ParseNull() returns (ok: bool)
      requires Valid()
      modifies this`pos, this`stuck
      ensures Valid() && (old(stuck) ==> stuck && !ok && pos == old(pos))
      ensures !old(stuck) ==> Did(JsonParser.ParseNull(data, old(pos)), ok)
    {
      ok := Match("null");
      if !ok && !stuck {
        ok := data[pos] == ',';
      }
    }

    method ParseValue() returns (ok: bool, value: Json)
      requires Valid()
      modifies this`pos, this`stuck
      ensures Valid() && (old(stuck) ==> stuck && !ok && pos == old(pos)) && (stuck || pos >= old(pos))
      ensures !old(stuck) ==> var g := JsonParser.ParseValue(data, old(pos)); Did(g, ok) && (ok ==> value == g.v)
      decreases !stuck, |data| - pos, 3
    {
      hide JsonParser.ParseString, JsonParser.ParseNumber, JsonParser.ParseWord;
      var str;
      ok, str := ParseString();
      if ok {
        return true, Str(str);
      }
      var num;
      ok, num := ParseNumber();
      if ok {
        return true, Num(num);
      }
      ok, value := ParseWord();
    }

    // Value::parse from parse_bool on
    method ParseWord() returns (ok: bool, value: Json)
      requires Valid()
      modifies this`pos, this`stuck
      ensures Valid() && (old(stuck) ==> stuck && !ok && pos == old(pos)) && (stuck || pos >= old(pos))
      ensures !old(stuck) ==> var g := JsonParser.ParseWord(data, old(pos)); Did(g, ok) && (ok ==> value == g.v)
      decreases !stuck, |data| - pos, 2
    {
      hide JsonParser.ParseBool, JsonParser.ParseNull, JsonParser.ParseArray, JsonParser.ParseObject;
      var b;
      ok, b := ParseBool();
      if ok {
        return true, Bool(b);
      }
      ok := ParseNull();
      if ok {
        return true, Null;
      }
      if !stuck && data[pos] == '[' {
        var items;
        ok, items := ParseArray();
        if ok {
          return true, Arr(items);
        }
      }
      var members;
      ok, members := ParseObject();
      value := Obj(members);
    }

    // What is left to do in the loop of ParseArray, and of ParseObject.
    ghost function Rest(more: bool, p: nat, items: seq<Json>): Got<seq<Json>>
      requires p <= |data|
    {
      if more then Items(data, p, items) else Close(data, p, "]", items)
    }

    ghost function RestMembers(more: bool, p: nat, members: seq<Member>): Got<seq<Member>>
      requires p <= |data|
    {
      if more then Members(data, p, members) else Close(data, p, "}", members)
    }

    method ParseArray() returns (ok: bool, items: seq<Json>)
      requires Valid()
      modifies this`pos, this`stuck
      ensures Valid() && (old(stuck) ==> stuck && !ok && pos == old(pos)) && (stuck || pos >= old(pos))
      ensures !old(stuck) ==> var g := JsonParser.ParseArray(data, old(pos)); Did(g, ok) && (ok ==> items == g.v)
      decreases !stuck, |data| - pos, 1
    {
      hide JsonParser.Match, JsonParser.ParseValue;
      items := [];
      ok := Match("[");
      if !ok {
        return;
      }
      ghost var start := pos;
      var more := true;
      while more
        invariant Valid() && (stuck || start <= pos) && old(pos) < start
        invariant stuck ==> !more && Items(data, start, []).Stuck?
        invariant stuck || Items(data, start, []) == Rest(more, pos, items)
        decreases !stuck, |data| - pos, more
      {
        var v;
        ok, v := ParseValue();
        if !ok {
          break;
        }
        items := items + [v];
        more := Match(",");
      }
      ok := Match("]");
    }

    method ParseObject() returns (ok: bool, members: seq<Member>)
      requires Valid()
      modifies this`pos, this`stuck
      ensures Valid() && (old(stuck) ==> stuck && !ok && pos == old(pos)) && (stuck || pos >= old(pos))
      ensures !old(stuck) ==> var g := JsonParser.ParseObject(data, old(pos)); Did(g, ok) && (ok ==> members == g.v)
      decreases !stuck, |data| - pos, 1
    {
      hide JsonParser.Match, JsonParser.ParseValue, JsonParser.ParseString, Insert;
      members := [];
      ok := Match("{");
      if !ok {
        return;
      }
      ok := Match("}");
      if ok || stuck {
        return;
      }
      ghost var start := pos;
      var more := true;
      while more
        invariant Valid() && (stuck || start <= pos) && old(pos) < start
        invariant stuck ==> !more && Members(data, start, []).Stuck?
        invariant stuck || Members(data, start, []) == RestMembers(more, pos, members)
        decreases !stuck, |data| - pos, more
      {
        var key;
        ok, key := ParseString();
        if !ok {
          if !stuck && data[pos] == '}' {
            break;
          }
          return false, members;
        }
        ok := Match(":");
        if !ok {
          return;
        }
        var v;
        ok, v := ParseValue();
        if !ok {
          break;
        }
        members := Insert(members, key, v);
        more := Match(",");
      }
      ok := Match("}");
    }
  }

  // Object::parse(const std::string&)
  method ParseText(text: string) returns (r: Parsed)
    ensures r == Parse(text)
  {
    var input := new InputStream(text);
    var ok, members := input.ParseObject();
    r := if ok then Accepted(members) else Rejected;
  }
}
