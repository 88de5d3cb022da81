/** genToken: the digest in hexadecimal, reversed, then swapped in pairs. */
module Tokens {
  import opened Md5Digest

  function HexDigit(n: bv8): (c: char)
    requires n < 16
  {
    match n
    case 0 => '0' case 1 => '1' case 2 => '2' case 3 => '3' case 4 => '4' case 5 => '5' case 6 => '6' case 7 => '7'
    case 8 => '8' case 9 => '9' case 10 => 'a' case 11 => 'b' case 12 => 'c' case 13 => 'd' case 14 => 'e' case _ => 'f'
  }

  // "%02x"
  function Hex(b: bv8): (s: string)
    ensures |s| == 2
  {
    [HexDigit(b >> 4), HexDigit(b & 15)]
  }

  // Two hexadecimal digits, the high one first.
  lemma HexIs(b: bv8)
    ensures Hex(b)[0] == "0123456789abcdef"[b / 16] && Hex(b)[1] == "0123456789abcdef"[b % 16]
  {
    HexDigitIs(b >> 4);
    HexDigitIs(b & 15);
  }

  lemma HexDigitIs(n: bv8)
    requires n < 16
    ensures HexDigit(n) == "0123456789abcdef"[n]
  {
  }

  lemma HexIsInjective(a: bv8, b: bv8)
    ensures Hex(a) == Hex(b) ==> a == b
  {
    if Hex(a) == Hex(b) {
      assert HexDigit(a >> 4) == Hex(a)[0] == Hex(b)[0] == HexDigit(b >> 4);
      assert HexDigit(a & 15) == Hex(a)[1] == Hex(b)[1] == HexDigit(b & 15);
      DigitIsInjective(a >> 4, b >> 4);
      DigitIsInjective(a & 15, b & 15);
      Nibbles(a, b);
    }
  }

  lemma DigitIsInjective(m: bv8, n: bv8)
    requires m < 16 && n < 16 && HexDigit(m) == HexDigit(n)
    ensures m == n
  {
  }

  lemma Nibbles(a: bv8, b: bv8)
    requires a >> 4 == b >> 4 && a & 15 == b & 15
    ensures a == b
  {
  }

  // The token of a digest: its bytes from the last to the first, in hexadecimal.
  function Token(d: seq<bv8>): (s: string)
    ensures |s| == 2 * |d|
    decreases |d|
  {
    if d == [] then [] else Hex(d[|d| - 1]) + Token(d[..|d| - 1])
  }

  lemma {:induction false} TokenAt(d: seq<bv8>, i: nat)
    requires i < |d|
    ensures Token(d)[2 * i..2 * i + 2] == Hex(d[|d| - 1 - i])
    decreases |d|
  {
    if i > 0 {
      TokenAt(d[..|d| - 1], i - 1);
      assert Token(d)[2 * i..2 * i + 2] == Token(d)[2..][2 * (i - 1)..2 * (i - 1) + 2];
    }
  }

  // No two digests share a token.
  lemma {:induction false} TokenIsInjective(d: seq<bv8>, e: seq<bv8>)
    requires Token(d) == Token(e)
    ensures d == e
    decreases |d|
  {
    if d != [] {
      var x, y := d[|d| - 1], e[|e| - 1];
      assert Token(d)[..2] == Hex(x) && Token(e)[..2] == Hex(y);
      HexIsInjective(x, y);
      assert Token(d)[2..] == Token(d[..|d| - 1]) && Token(e)[2..] == Token(e[..|e| - 1]);
      TokenIsInjective(d[..|d| - 1], e[..|e| - 1]);
      assert d == d[..|d| - 1] + [x] && e == e[..|e| - 1] + [y];
    }
  }

  // The text of md5_str_buf after the sprintf loop.
  function HexText(d: seq<bv8>): (s: string)
    ensures |s| == 2 * |d|
  {
    seq(2 * |d|, j requires 0 <= j < 2 * |d| => Hex(d[j / 2])[j % 2])
  }

  method WriteHex(d: seq<bv8>, buf: array<char>)
    requires |d| == 16 && buf.Length >= 33
    modifies buf
    ensures buf[..32] == HexText(d) && buf[32] == '\0'
  {
    hide Hex;
    for i := 0 to 16
      invariant forall j :: 0 <= j < 2 * i ==> buf[j] == Hex(d[j / 2])[j % 2]
      invariant i > 0 ==> buf[2 * i] == '\0'
    {
      buf[2 * i], buf[2 * i + 1], buf[2 * i + 2] := Hex(d[i])[0], Hex(d[i])[1], '\0';
    }
  }

  method Reverse(buf: array<char>)
    requires buf.Length >= 33
    modifies buf
    ensures forall j :: 0 <= j < 32 ==> buf[j] == old(buf[31 - j])
    ensures buf[32] == old(buf[32])
  {
    for i := 0 to 16
      invariant forall j :: 0 <= j < i ==> buf[j] == old(buf[31 - j]) && buf[31 - j] == old(buf[j])
      invariant forall j :: i <= j < 32 - i ==> buf[j] == old(buf[j])
      invariant buf[32] == old(buf[32])
    {
      var c := buf[i];
      buf[i] := buf[31 - i];
      buf[31 - i] := c;
    }
  }

  method SwapPairs(buf: array<char>)
    requires buf.Length >= 33
    modifies buf
    ensures forall j :: 0 <= j < 16 ==> buf[2 * j] == old(buf[2 * j + 1]) && buf[2 * j + 1] == old(buf[2 * j])
    ensures buf[32] == old(buf[32])
  {
    var i := 0;
    while i < 32
      invariant 0 <= i <= 32 && i % 2 == 0
      invariant forall j :: 0 <= j < i / 2 ==> buf[2 * j] == old(buf[2 * j + 1]) && buf[2 * j + 1] == old(buf[2 * j])
      invariant forall j :: i <= j < buf.Length ==> buf[j] == old(buf[j])
    {
      var c := buf[i];
      buf[i] := buf[i + 1];
      buf[i + 1] := c;
      i := i + 2;
    }
  }

  // genToken from the formatted text on: hash, print, reverse, swap.
  method GenToken(text: seq<bv8>, buf: array<char>)
    requires |text| + 72 < TWO_64 && buf.Length >= 33
    modifies buf
    ensures buf[..32] == Token(Md5Spec(text)) && buf[32] == '\0'
  {
    hide Hex, Md5Spec;
    var digest := new bv8[32];
    Md5(text, digest);
    var d := digest[..16];
    WriteHex(d, buf);
    ghost var hex := buf[..32];
    Reverse(buf);
    ghost var reversed := buf[..32];
    assert forall j :: 0 <= j < 32 ==> reversed[j] == hex[31 - j];
    SwapPairs(buf);
    assert forall j :: 0 <= j < 16 ==> buf[2 * j] == reversed[2 * j + 1] && buf[2 * j + 1] == reversed[2 * j];
    ShuffledIsToken(d, hex, buf[..32]);
  }

  lemma ShuffledIsToken(d: seq<bv8>, hex: string, out: string)
    requires |d| == 16 && hex == HexText(d) && |out| == 32
    requires forall j :: 0 <= j < 16 ==> out[2 * j] == hex[30 - 2 * j] && out[2 * j + 1] == hex[31 - 2 * j]
    ensures out == Token(d)
  {
    hide Hex;
    forall j: nat | j < 16
      ensures out[2 * j] == Token(d)[2 * j] && out[2 * j + 1] == Token(d)[2 * j + 1]
    {
      TokenAt(d, j);
      assert Token(d)[2 * j] == Token(d)[2 * j..2 * j + 2][0];
      assert Token(d)[2 * j + 1] == Token(d)[2 * j..2 * j + 2][1];
    }
    forall k: nat | k < 32
      ensures out[k] == Token(d)[k]
    {
      assert k == 2 * (k / 2) || k == 2 * (k / 2) + 1;
    }
  }
}
