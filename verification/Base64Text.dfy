/** The encoding letter by letter, from the bits of the input and the alphabet of RFC 4648. */
module Base64Text {
  import opened Octets
  import opened Base64
  import opened Wrappers

  const ALPHABET: string :=
    "ABCDEFGHIJKLMNOPQRSTUVWXYZ" + "abcdefghijklmnopqrstuvwxyz" + "0123456789" + "+/"

  // The binary digits of a byte, the most significant first.
  function Digit(c: nat, k: nat): (v: nat)
    requires c < 256
    ensures v <= 1
  {
    match k
    case 0 => c / 128 case 1 => c / 64 % 2 case 2 => c / 32 % 2 case 3 => c / 16 % 2
    case 4 => c / 8 % 2 case 5 => c / 4 % 2 case 6 => c / 2 % 2 case _ => c % 2
  }

  // Bit i of the bytes read in order; zeros follow.
  function Bit(b: seq<Octet>, i: nat): (v: nat)
    ensures v <= 1
  {
    if i / 8 >= |b| then 0 else Digit(b[i / 8], i % 8)
  }

  // The number that six bits from i on make.
  function SixBits(b: seq<Octet>, i: nat): (v: nat)
    ensures v < 64
  {
    Bit(b, i) * 32 + Bit(b, i + 1) * 16 + Bit(b, i + 2) * 8 + Bit(b, i + 3) * 4 + Bit(b, i + 4) * 2 + Bit(b, i + 5)
  }

  lemma Capital(v: nat)
    requires v < 26
    ensures "ABCDEFGHIJKLMNOPQRSTUVWXYZ"[v] as int == 'A' as int + v
  {
    match v
    case 0 => case 1 => case 2 => case 3 => case 4 => case 5 => case 6 => case 7 => case 8 => case 9 =>
    case 10 => case 11 => case 12 => case 13 => case 14 => case 15 => case 16 => case 17 => case 18 => case 19 =>
    case 20 => case 21 => case 22 => case 23 => case 24 =>
    case _ =>
  }

  lemma Small(v: nat)
    requires v < 26
    ensures "abcdefghijklmnopqrstuvwxyz"[v] as int == 'a' as int + v
  {
    match v
    case 0 => case 1 => case 2 => case 3 => case 4 => case 5 => case 6 => case 7 => case 8 => case 9 =>
    case 10 => case 11 => case 12 => case 13 => case 14 => case 15 => case 16 => case 17 => case 18 => case 19 =>
    case 20 => case 21 => case 22 => case 23 => case 24 =>
    case _ =>
  }

  lemma LetterIs(v: Sextet)
    ensures |ALPHABET| == 64 && Letter(v) == ALPHABET[v] as int
  {
    if v < 26 {
      Capital(v);
    } else if v < 52 {
      Small(v - 26);
    }
  }

  lemma ReverseIs(c: Octet)
    requires c < 128
    ensures Reverse(c) < 64 ==> ALPHABET[Reverse(c)] as int == c
    ensures Reverse(c) >= 64 ==> forall v: Sextet :: ALPHABET[v] as int != c
  {
    if Reverse(c) < 64 {
      LetterIs(Reverse(c));
    } else {
      forall v: Sextet ensures ALPHABET[v] as int != c {
        LetterIs(v);
        ReverseLetter(v);
      }
    }
  }

  // The byte at a place, with zeros behind the end.
  function At(b: seq<Octet>, i: nat): (c: nat)
    ensures c < 256
  {
    if i < |b| then b[i] else 0
  }

  lemma BitIs(b: seq<Octet>, j: nat, k: nat)
    requires k < 8
    ensures Bit(b, 8 * j + k) == Digit(At(b, j), k)
  {
    assert (8 * j + k) / 8 == j && (8 * j + k) % 8 == k;
  }

  // The digits of a byte: all that the groups of six are made of.
  lemma Halves(c: nat)
    requires c < 256
    ensures c / 64 == c / 128 * 2 + c / 64 % 2 && c / 32 == c / 64 * 2 + c / 32 % 2
    ensures c / 16 == c / 32 * 2 + c / 16 % 2 && c / 8 == c / 16 * 2 + c / 8 % 2
    ensures c / 4 == c / 8 * 2 + c / 4 % 2 && c / 2 == c / 4 * 2 + c / 2 % 2 && c == c / 2 * 2 + c % 2
    ensures c % 4 == c - c / 4 * 4 && c % 16 == c - c / 16 * 16 && c % 64 == c - c / 64 * 64
  {
  }

  lemma ByteBits(b: seq<Octet>, j: nat)
    ensures var c := At(b, j);
            && Bit(b, 8 * j) == Digit(c, 0) && Bit(b, 8 * j + 1) == Digit(c, 1) && Bit(b, 8 * j + 2) == Digit(c, 2)
            && Bit(b, 8 * j + 3) == Digit(c, 3) && Bit(b, 8 * j + 4) == Digit(c, 4) && Bit(b, 8 * j + 5) == Digit(c, 5)
            && Bit(b, 8 * j + 6) == Digit(c, 6) && Bit(b, 8 * j + 7) == Digit(c, 7)
  {
    hide Bit, Digit;
    BitIs(b, j, 0);
    BitIs(b, j, 1);
    BitIs(b, j, 2);
    BitIs(b, j, 3);
    BitIs(b, j, 4);
    BitIs(b, j, 5);
    BitIs(b, j, 6);
    BitIs(b, j, 7);
  }

  // The four groups of six in three bytes.
  lemma SixBitsOf(b: seq<Octet>, q: nat)
    ensures SixBits(b, 24 * q) == At(b, 3 * q) / 4
    ensures SixBits(b, 24 * q + 6) == At(b, 3 * q) % 4 * 16 + At(b, 3 * q + 1) / 16
    ensures SixBits(b, 24 * q + 12) == At(b, 3 * q + 1) % 16 * 4 + At(b, 3 * q + 2) / 64
    ensures SixBits(b, 24 * q + 18) == At(b, 3 * q + 2) % 64
  {
    hide Bit, At, Digit;
    ByteBits(b, 3 * q);
    ByteBits(b, 3 * q + 1);
    ByteBits(b, 3 * q + 2);
    Groups(At(b, 3 * q), At(b, 3 * q + 1), At(b, 3 * q + 2));
  }

  lemma Groups(x: nat, y: nat, z: nat)
    requires x < 256 && y < 256 && z < 256
    ensures Digit(x, 0) * 32 + Digit(x, 1) * 16 + Digit(x, 2) * 8 + Digit(x, 3) * 4 + Digit(x, 4) * 2 + Digit(x, 5)
         == x / 4
    ensures Digit(x, 6) * 32 + Digit(x, 7) * 16 + Digit(y, 0) * 8 + Digit(y, 1) * 4 + Digit(y, 2) * 2 + Digit(y, 3)
         == x % 4 * 16 + y / 16
    ensures Digit(y, 4) * 32 + Digit(y, 5) * 16 + Digit(y, 6) * 8 + Digit(y, 7) * 4 + Digit(z, 0) * 2 + Digit(z, 1)
         == y % 16 * 4 + z / 64
    ensures Digit(z, 2) * 32 + Digit(z, 3) * 16 + Digit(z, 4) * 8 + Digit(z, 5) * 4 + Digit(z, 6) * 2 + Digit(z, 7)
         == z % 64
  {
    Halves(x);
    Halves(y);
    Halves(z);
  }

  // The groups of six, by place.
  lemma {:induction false} SplitAt(b: seq<Octet>, i: nat)
    requires i < |Split(b)|
    ensures Split(b)[i] == SixBits(b, 6 * i)
    decreases |b|
  {
    hide Bit, SixBits;
    SplitGroup(b, i);
    SixBitsOf(b, i / 4);
    assert i % 4 == 0 || i % 4 == 1 || i % 4 == 2 || i % 4 == 3;
    assert 6 * i == 24 * (i / 4) + 6 * (i % 4);
  }

  lemma {:induction false} SplitGroup(b: seq<Octet>, i: nat)
    requires i < |Split(b)|
    ensures var g := 3 * (i / 4);
            Split(b)[i] == match i % 4
              case 0 => At(b, g) / 4
              case 1 => At(b, g) % 4 * 16 + At(b, g + 1) / 16
              case 2 => At(b, g + 1) % 16 * 4 + At(b, g + 2) / 64
              case _ => At(b, g + 2) % 64
    decreases |b|
  {
    if |b| >= 3 && i >= 4 {
      SplitGroup(b[3..], i - 4);
      assert (i - 4) / 4 == i / 4 - 1 && (i - 4) % 4 == i % 4;
    }
  }

  // The encoding of any input: the letter at each place is that of the six bits it stands for, and what
  // is missing to a multiple of four is filled with '='.
  lemma EncodedAt(b: seq<Octet>, i: nat)
    requires i < |EncodeSpec(b)|
    ensures |EncodeSpec(b)| == (|b| + 2) / 3 * 4 && |ALPHABET| == 64
    ensures EncodeSpec(b)[i] as int
         == if 6 * i < 8 * |b| then ALPHABET[SixBits(b, 6 * i)] as int else '=' as int
  {
    hide Bit, SixBits, Letter, Split;
    Sizes(|b|);
    LetterIs(0);
    assert i < |Split(b)| <==> 6 * i < 8 * |b|;
    if i < |Split(b)| {
      SplitAt(b, i);
      LetterIs(Split(b)[i]);
    }
  }

  // What is not white space and not '='.
  function Kept(t: seq<Octet>): seq<Octet> {
    if t == [] then []
    else
      var c := t[|t| - 1];
      Kept(t[..|t| - 1])
      + if c == 9 || c == 10 || c == 11 || c == 12 || c == 13 || c == 32 || c == '=' as int then [] else [c]
  }

  // The letters of a text, by their places in the alphabet.
  predicate Spells(vs: seq<Sextet>, letters: seq<Octet>) {
    |ALPHABET| == 64 && |vs| == |letters| && forall i :: 0 <= i < |vs| ==> ALPHABET[vs[i]] as int == letters[i]
  }

  lemma LetterOf(c: Octet, v: Sextet)
    requires |ALPHABET| == 64 && ALPHABET[v] as int == c
    ensures c < 128 && Reverse(c) == v
  {
    hide Letter, Reverse;
    LetterIs(v);
    ReverseLetter(v);
  }

  lemma SpellsSnoc(vs: seq<Sextet>, letters: seq<Octet>, c: Octet)
    requires Spells(vs, letters + [c])
    ensures vs != [] && Spells(vs[..|vs| - 1], letters) && |ALPHABET| == 64 && ALPHABET[vs[|vs| - 1]] as int == c
  {
    assert (letters + [c])[|letters|] == c;
    assert forall i :: 0 <= i < |letters| ==> (letters + [c])[i] == letters[i];
  }

  lemma KeptSnoc(t: seq<Octet>)
    requires t != []
    ensures var c := t[|t| - 1];
            Kept(t) == if IsSkipped(c) then Kept(t[..|t| - 1]) else Kept(t[..|t| - 1]) + [c]
  {
  }

  lemma {:induction false} SextetsOf(t: seq<Octet>, vs: seq<Sextet>)
    requires Spells(vs, Kept(t))
    ensures Sextets(t) == Some(vs)
    decreases |t|
  {
    hide Letter, Reverse, Spells, Kept, IsSkipped;
    if t != [] {
      var c := t[|t| - 1];
      KeptSnoc(t);
      if IsSkipped(c) {
        SextetsOf(t[..|t| - 1], vs);
      } else {
        var n := |vs| - 1;
        SpellsSnoc(vs, Kept(t[..|t| - 1]), c);
        SextetsOf(t[..|t| - 1], vs[..n]);
        LetterOf(c, vs[n]);
        assert vs == vs[..n] + [vs[n]];
      }
    } else {
      NothingSpelt(vs);
    }
  }

  lemma NothingSpelt(vs: seq<Sextet>)
    requires Spells(vs, Kept([]))
    ensures vs == []
  {
  }

  // A byte that is neither kept out nor in the alphabet spoils the text.
  lemma {:induction false} ForeignIsRefused(t: seq<Octet>, c: Octet)
    requires |ALPHABET| == 64 && c in Kept(t) && forall v: Sextet :: ALPHABET[v] as int != c
    ensures DecodeSpec(t) == []
    decreases |t|
  {
    hide Join, Reverse;
    ForeignSextets(t, c);
  }

  lemma {:induction false} ForeignSextets(t: seq<Octet>, c: Octet)
    requires |ALPHABET| == 64 && c in Kept(t) && forall v: Sextet :: ALPHABET[v] as int != c
    ensures Sextets(t).None?
    decreases |t|
  {
    hide Reverse;
    if c in Kept(t[..|t| - 1]) {
      ForeignSextets(t[..|t| - 1], c);
    } else {
      assert c == t[|t| - 1] && !IsSkipped(c);
      if c < 128 { ReverseIs(c); }
    }
  }

  // The bits that the letters stand for, six to each.
  function LetterBit(vs: seq<Sextet>, i: nat): (v: nat)
    requires i < 6 * |vs|
    ensures v <= 1
  {
    Digit(vs[i / 6], 2 + i % 6)
  }

  function EightBits(vs: seq<Sextet>, i: nat): nat
    requires i + 8 <= 6 * |vs|
  {
    LetterBit(vs, i) * 128 + LetterBit(vs, i + 1) * 64 + LetterBit(vs, i + 2) * 32 + LetterBit(vs, i + 3) * 16
    + LetterBit(vs, i + 4) * 8 + LetterBit(vs, i + 5) * 4 + LetterBit(vs, i + 6) * 2 + LetterBit(vs, i + 7)
  }

  lemma LetterBitIs(vs: seq<Sextet>, j: nat, k: nat)
    requires j < |vs| && k < 6
    ensures LetterBit(vs, 6 * j + k) == Digit(vs[j], 2 + k)
  {
    hide Digit;
    assert (6 * j + k) / 6 == j && (6 * j + k) % 6 == k;
  }

  lemma LetterBits(vs: seq<Sextet>, j: nat)
    requires j < |vs|
    ensures LetterBit(vs, 6 * j) == Digit(vs[j], 2) && LetterBit(vs, 6 * j + 1) == Digit(vs[j], 3)
    ensures LetterBit(vs, 6 * j + 2) == Digit(vs[j], 4) && LetterBit(vs, 6 * j + 3) == Digit(vs[j], 5)
    ensures LetterBit(vs, 6 * j + 4) == Digit(vs[j], 6) && LetterBit(vs, 6 * j + 5) == Digit(vs[j], 7)
  {
    hide Digit, LetterBit;
    LetterBitIs(vs, j, 0);
    LetterBitIs(vs, j, 1);
    LetterBitIs(vs, j, 2);
    LetterBitIs(vs, j, 3);
    LetterBitIs(vs, j, 4);
    LetterBitIs(vs, j, 5);
  }

  // A sextet in its digits.
  lemma SixDigits(x: Sextet)
    ensures Digit(x, 2) * 32 + Digit(x, 3) * 16 + Digit(x, 4) * 8 + Digit(x, 5) * 4 + Digit(x, 6) * 2 + Digit(x, 7)
         == x as int
    ensures Digit(x, 4) * 8 + Digit(x, 5) * 4 + Digit(x, 6) * 2 + Digit(x, 7) == x as int % 16
    ensures Digit(x, 6) * 2 + Digit(x, 7) == x as int % 4
    ensures Digit(x, 2) * 2 + Digit(x, 3) == x as int / 16
    ensures Digit(x, 2) * 8 + Digit(x, 3) * 4 + Digit(x, 4) * 2 + Digit(x, 5) == x as int / 4
  {
    Halves(x);
    assert x / 64 == 0;
  }

  lemma Assembled(x: Sextet, y: Sextet)
    ensures Assemble(1, x, y) as int
         == Digit(x, 2) * 128 + Digit(x, 3) * 64 + Digit(x, 4) * 32 + Digit(x, 5) * 16
            + Digit(x, 6) * 8 + Digit(x, 7) * 4 + Digit(y, 2) * 2 + Digit(y, 3)
    ensures Assemble(2, x, y) as int
         == Digit(x, 4) * 128 + Digit(x, 5) * 64 + Digit(x, 6) * 32 + Digit(x, 7) * 16
            + Digit(y, 2) * 8 + Digit(y, 3) * 4 + Digit(y, 4) * 2 + Digit(y, 5)
    ensures Assemble(3, x, y) as int
         == Digit(x, 6) * 128 + Digit(x, 7) * 64 + Digit(y, 2) * 32 + Digit(y, 3) * 16
            + Digit(y, 4) * 8 + Digit(y, 5) * 4 + Digit(y, 6) * 2 + Digit(y, 7)
  {
    hide Digit;
    SixDigits(x);
    SixDigits(y);
  }

  // The bytes of the groups, by place.
  lemma {:induction false} JoinAt(vs: seq<Sextet>, j: nat)
    ensures |Join(vs)| == 6 * |vs| / 8
    ensures j < |Join(vs)| ==>
              var i := j / 3 * 4 + j % 3;
              i + 1 < |vs| && Join(vs)[j] == Assemble(j % 3 + 1, vs[i], vs[i + 1])
    decreases |vs|
  {
    hide Assemble;
    if |vs| >= 4 {
      JoinAt(vs[4..], if j >= 3 then j - 3 else 0);
      if j >= 3 {
        assert (j - 3) / 3 == j / 3 - 1 && (j - 3) % 3 == j % 3;
      }
    }
  }

  // The decoding of a text of letters, white space and '=': each byte is the next eight bits that the
  // letters stand for; fewer than eight at the end are dropped.
  lemma DecodedAt(t: seq<Octet>, vs: seq<Sextet>, j: nat)
    requires Spells(vs, Kept(t))
    ensures |DecodeSpec(t)| == 6 * |vs| / 8
    ensures j < |DecodeSpec(t)| ==> DecodeSpec(t)[j] as int == EightBits(vs, 8 * j)
  {
    hide Join, Assemble, Digit, Sextets, LetterBit, EightBits;
    SextetsOf(t, vs);
    JoinAt(vs, j);
    if j < |DecodeSpec(t)| {
      EightBitsOf(vs, j);
    }
  }

  lemma EightBitsOf(vs: seq<Sextet>, j: nat)
    requires j / 3 * 4 + j % 3 + 1 < |vs| && 8 * j + 8 <= 6 * |vs|
    ensures var i := j / 3 * 4 + j % 3;
            EightBits(vs, 8 * j) == Assemble(j % 3 + 1, vs[i], vs[i + 1]) as int
  {
    hide Assemble, Digit, LetterBit;
    var i := j / 3 * 4 + j % 3;
    assert 8 * j == 6 * i + 2 * (j % 3);
    LetterBits(vs, i);
    LetterBits(vs, i + 1);
    Assembled(vs[i], vs[i + 1]);
    assert j % 3 == 0 || j % 3 == 1 || j % 3 == 2;
  }

  // Examples: section 10 of RFC 4648, and the last two letters of the alphabet.
  lemma ShortVectors()
    ensures EncodeSpec([102]) == [90, 103, 61, 61] && DecodeSpec([90, 103, 61, 61]) == [102]                 // f, Zg==
    ensures EncodeSpec([102, 111]) == [90, 109, 56, 61] && DecodeSpec([90, 109, 56, 61]) == [102, 111]       // fo, Zm8=
    ensures EncodeSpec([251, 240]) == [43, 47, 65, 61] && DecodeSpec([43, 47, 65, 61]) == [251, 240]         // +/A=
  {
    hide Letters, DecodeSpec;
    LettersFew(25, 32, 0);
    LettersFew(25, 38, 60);
    LettersFew(62, 63, 0);
    RoundTrip([102]);
    RoundTrip([102, 111]);
    RoundTrip([251, 240]);
  }

  lemma LongVector()
    ensures EncodeSpec([102, 111, 111, 98, 97, 114]) == [90, 109, 57, 118, 89, 109, 70, 121]     // foobar, Zm9vYmFy
    ensures DecodeSpec([90, 109, 57, 118, 89, 109, 70, 121]) == [102, 111, 111, 98, 97, 114]
  {
    hide Letters, DecodeSpec, Split;
    var bar: seq<Octet> := [98, 97, 114];
    var foobar: seq<Octet> := [102, 111, 111, 98, 97, 114];
    assert foobar[3..] == bar && bar[3..] == [];
    LettersGroup(foobar);
    LettersGroup(bar);
    NoLetters();
    RoundTrip(foobar);
  }

  lemma NoLetters()
    ensures Letters(Split([])) == []
  {
  }
}
