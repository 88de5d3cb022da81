/** base64_encode and base64_decode against the groups of section 4 of RFC 4648. */
module Base64 {
  import opened Wrappers
  import opened Octets

  type Sextet = n: nat | n < 64

  const PAD: Octet := '=' as int
  const SIZE_MAX: nat := 0xffff_ffff_ffff_ffff

  // b64_table
  function Letter(v: Sextet): (c: Octet) {
    if v < 26 then 'A' as int + v
    else if v < 52 then 'a' as int + (v - 26)
    else if v < 62 then '0' as int + (v - 52)
    else if v == 62 then '+' as int else '/' as int
  }

  // reverse_table; 64 marks what is not in the alphabet
  function Reverse(c: Octet): (v: nat)
    requires c < 128
    ensures v <= 64
  {
    if 'A' as int <= c <= 'Z' as int then c - 'A' as int
    else if 'a' as int <= c <= 'z' as int then c - 'a' as int + 26
    else if '0' as int <= c <= '9' as int then c - '0' as int + 52
    else if c == '+' as int then 62
    else if c == '/' as int then 63
    else 64
  }

  lemma ReverseLetter(v: Sextet)
    ensures Letter(v) < 128 && Reverse(Letter(v)) == v && !IsSkipped(Letter(v))
  {
  }

  // isspace in the C locale, and padding
  predicate IsSkipped(c: Octet) { 9 <= c <= 13 || c == 32 || c == PAD }

  // The bits of the bytes in groups of six, the last group filled with zeros.
  function Split(b: seq<Octet>): (vs: seq<Sextet>)
    ensures |vs| == (|b| * 8 + 5) / 6
    decreases |b|
  {
    var n := |b|;
    if n == 0 then []
    else if n == 1 then [b[0] / 4, b[0] % 4 * 16]
    else if n == 2 then [b[0] / 4, b[0] % 4 * 16 + b[1] / 16, b[1] % 16 * 4]
    else [b[0] / 4, b[0] % 4 * 16 + b[1] / 16, b[1] % 16 * 4 + b[2] / 64, b[2] % 64] + Split(b[3..])
  }

  // The byte that ends k groups into a quartet, from the last group and the next.
  function Assemble(k: nat, last: Sextet, next: Sextet): (c: Octet)
    requires 1 <= k <= 3
  {
    var l: int := last;
    if k == 1 then l * 4 + next / 16 else if k == 2 then l % 16 * 16 + next / 4 else l % 4 * 64 + next
  }

  // The bits of the groups in bytes, a last incomplete byte dropped.
  function Join(vs: seq<Sextet>): (b: seq<Octet>)
    decreases |vs|
  {
    var n := |vs|;
    if n <= 1 then []
    else if n == 2 then [Assemble(1, vs[0], vs[1])]
    else if n == 3 then [Assemble(1, vs[0], vs[1]), Assemble(2, vs[1], vs[2])]
    else [Assemble(1, vs[0], vs[1]), Assemble(2, vs[1], vs[2]), Assemble(3, vs[2], vs[3])] + Join(vs[4..])
  }

  lemma Regroup(b0: Octet, b1: Octet, b2: Octet)
    ensures Assemble(1, b0 / 4, b0 % 4 * 16 + b1 / 16) == b0
    ensures Assemble(2, b0 % 4 * 16 + b1 / 16, b1 % 16 * 4 + b2 / 64) == b1
    ensures Assemble(3, b1 % 16 * 4 + b2 / 64, b2 % 64) == b2
  {
  }

  lemma {:induction false} JoinSplit(b: seq<Octet>)
    ensures Join(Split(b)) == b
    decreases |b|
  {
    hide Assemble;
    Regroup(if |b| > 0 then b[0] else 0, if |b| > 1 then b[1] else 0, if |b| > 2 then b[2] else 0);
    if |b| >= 3 {
      JoinSplit(b[3..]);
      var q := [b[0] / 4, b[0] % 4 * 16 + b[1] / 16, b[1] % 16 * 4 + b[2] / 64, b[2] % 64];
      assert Split(b) == q + Split(b[3..]);
      assert (q + Split(b[3..]))[4..] == Split(b[3..]);
    }
  }

  lemma {:induction false} JoinSnoc(vs: seq<Sextet>, v: Sextet)
    ensures Join(vs + [v]) == Join(vs) + if |vs| % 4 == 0 then [] else [Assemble(|vs| % 4, vs[|vs| - 1], v)]
    decreases |vs|
  {
    hide Assemble;
    if |vs| >= 4 {
      assert (vs + [v])[4..] == vs[4..] + [v];
      JoinSnoc(vs[4..], v);
    }
  }

  // The alphabet of the groups, and '=' up to a multiple of four.
  function Letters(vs: seq<Sextet>): (t: seq<Octet>)
    ensures |t| == |vs|
  {
    seq(|vs|, i requires 0 <= i < |vs| => Letter(vs[i]))
  }

  function Pads(n: nat): (t: seq<Octet>)
    ensures |t| == n
  {
    seq(n, _ => PAD)
  }

  function EncodeSpec(b: seq<Octet>): (t: seq<Octet>)
    ensures |t| == (|b| + 2) / 3 * 4
  {
    Letters(Split(b)) + Pads((|b| + 2) / 3 * 4 - (|b| * 8 + 5) / 6)
  }

  // The groups a text stands for, white space and padding skipped; None if a byte is foreign.
  function Sextets(t: seq<Octet>): (r: Option<seq<Sextet>>)
    decreases |t|
  {
    if t == [] then Some([])
    else match Sextets(t[..|t| - 1])
      case None => None
      case Some(vs) =>
        var c := t[|t| - 1];
        if IsSkipped(c) then Some(vs)
        else if c >= 128 || Reverse(c) > 63 then None
        else Some(vs + [Reverse(c)])
  }

  function DecodeSpec(t: seq<Octet>): seq<Octet> {
    match Sextets(t) case None => [] case Some(vs) => Join(vs)
  }

  lemma {:induction false} SextetsOfLetters(vs: seq<Sextet>, pads: nat)
    ensures Sextets(Letters(vs) + Pads(pads)) == Some(vs)
    decreases |vs| + pads
  {
    hide Reverse, Letter;
    var t := Letters(vs) + Pads(pads);
    if pads > 0 {
      assert t[..|t| - 1] == Letters(vs) + Pads(pads - 1);
      SextetsOfLetters(vs, pads - 1);
    } else if vs != [] {
      var n := |vs| - 1;
      assert t[..|t| - 1] == Letters(vs[..n]) + Pads(0);
      SextetsOfLetters(vs[..n], 0);
      ReverseLetter(vs[n]);
      assert vs == vs[..n] + [vs[n]];
    }
  }

  // Decoding undoes encoding.
  lemma RoundTrip(b: seq<Octet>)
    ensures DecodeSpec(EncodeSpec(b)) == b
  {
    SextetsOfLetters(Split(b), (|b| + 2) / 3 * 4 - (|b| * 8 + 5) / 6);
    JoinSplit(b);
  }

  // (accumulator << width) | v, in 32 bits
  function ShiftIn(acc: Word32, width: nat, v: nat): (r: Word32)
    requires (width == 8 && v < 256) || (width == 6 && v < 64)
  {
    LowBits(acc);
    Low26Bits(acc);
    if width == 8 then acc * 256 % TWO_32 + v else acc * 64 % TWO_32 + v
  }

  function Power(bits: nat): (p: nat)
    ensures p > 0
  {
    if bits == 0 then 1 else 2 * Power(bits - 1)
  }

  // (accumulator >> bits) & (2^width - 1)
  function Extract(acc: Word32, bits: nat, width: nat): (v: nat)
    ensures v < Power(width)
  {
    acc / Power(bits) % Power(width)
  }

  lemma Powers()
    ensures Power(0) == 1 && Power(2) == 4 && Power(4) == 16 && Power(6) == 64 && Power(8) == 256
  {
    assert Power(2) == 2 * Power(1) && Power(4) == 2 * Power(3) && Power(6) == 2 * Power(5);
  }

  // The letters that the inner loop of base64_encode writes.
  function Emitted(acc: Word32, bits: nat): seq<Octet> {
    if bits < 6 then []
    else
      Powers();
      [Letter(Extract(acc, bits - 6, 6))] + Emitted(acc, bits - 6)
  }

  // Letters written for a group that is not complete.
  function Partial(b: seq<Octet>): seq<Octet>
    requires |b| < 3
  {
    if |b| == 0 then [] else if |b| == 1 then [Letter(b[0] / 4)]
    else [Letter(b[0] / 4), Letter(b[0] % 4 * 16 + b[1] / 16)]
  }

  // The encoder's state after k whole groups and r bytes of the next.
  predicate Progress(bin: seq<Octet>, k: nat, r: nat, out: seq<Octet>, bits: nat, acc: Word32)
    requires 3 * k + r <= |bin| && r < 3
  {
    && bits == 2 * r && |out| == 4 * k + r
    && Letters(Split(bin)) == out[..4 * k] + Letters(Split(bin[3 * k..]))
    && out[4 * k..] == Partial(bin[3 * k..3 * k + r])
    && (r == 1 ==> acc % 4 == bin[3 * k] % 4) && (r == 2 ==> acc % 16 == bin[3 * k + 1] % 16)
  }

  lemma LowBits(acc: Word32)
    ensures var s := acc % 0x100_0000; acc * 256 % TWO_32 == s * 256 && s % 4 == acc % 4 && s % 16 == acc % 16
  {
    var q, s := acc / 0x100_0000, acc % 0x100_0000;
    assert acc * 256 == q * TWO_32 + s * 256;
    LowWord(q, s * 256);
    SameLow(q * 0x10_0000, s);
  }

  lemma LowWord(t: nat, x: nat)
    requires x < TWO_32
    ensures (t * TWO_32 + x) % TWO_32 == x
  {
  }

  lemma SameLow(t: nat, x: nat)
    ensures (t * 16 + x) % 16 == x % 16 && (t * 16 + x) % 4 == x % 4
  {
    Low16(t + x / 16, x % 16);
    Low4(t * 4 + x / 4, x % 4);
  }

  lemma Low16(t: nat, x: nat)
    requires x < 16
    ensures (t * 16 + x) % 16 == x
  {
  }

  lemma Low4(t: nat, x: nat)
    requires x < 4
    ensures (t * 4 + x) % 4 == x
  {
  }

  lemma LowSix(t: nat, x: nat)
    requires x < 64
    ensures (t * 64 + x) % 64 == x
  {
  }

  lemma SixBits(s: nat, b: Octet, last: Octet)
    ensures var a := s * 256 + b;
            && a % 4 == b % 4 && a % 16 == b % 16 && a / 4 % 64 == b / 4 && a % 64 == b % 64
            && (s % 4 == last % 4 ==> a / 16 % 64 == last % 4 * 16 + b / 16)
            && (s % 16 == last % 16 ==> a / 64 % 64 == last % 16 * 4 + b / 64)
  {
    var a := s * 256 + b;
    assert a / 4 == s * 64 + b / 4;
    LowSix(s, b / 4);
    assert a == (s * 4 + b / 64) * 64 + b % 64;
    LowSix(s * 4 + b / 64, b % 64);
    assert a / 16 == (s / 4) * 64 + (s % 4 * 16 + b / 16);
    LowSix(s / 4, s % 4 * 16 + b / 16);
    assert a / 64 == (s / 16) * 64 + (s % 16 * 4 + b / 64);
    LowSix(s / 16, s % 16 * 4 + b / 64);
  }

  lemma EmittedBits(a: Word32)
    ensures Emitted(a, 8) == [Letter(a / 4 % 64)] && Emitted(a, 10) == [Letter(a / 16 % 64)]
    ensures Emitted(a, 12) == [Letter(a / 64 % 64), Letter(a % 64)]
  {
    hide Letter;
    Powers();
    assert Emitted(a, 0) == [] && Emitted(a, 2) == [] && Emitted(a, 4) == [];
    assert Extract(a, 0, 6) == a % 64;
    assert Emitted(a, 6) == [Letter(a % 64)];
  }

  lemma EmittedByPhase(acc: Word32, b: Octet, last: Octet)
    ensures var a := ShiftIn(acc, 8, b);
            && Emitted(a, 8) == [Letter(b / 4)] && a % 4 == b % 4 && a % 16 == b % 16
            && (acc % 4 == last % 4 ==> Emitted(a, 10) == [Letter(last % 4 * 16 + b / 16)])
            && (acc % 16 == last % 16 ==> Emitted(a, 12) == [Letter(last % 16 * 4 + b / 64), Letter(b % 64)])
  {
    hide Letter, Emitted;
    LowBits(acc);
    SixBits(acc % 0x100_0000, b, last);
    EmittedBits(ShiftIn(acc, 8, b));
  }

  lemma ProgressStep(bin: seq<Octet>, k: nat, r: nat, out: seq<Octet>, bits: nat, acc: Word32)
    requires r < 3 && 3 * k + r < |bin| && Progress(bin, k, r, out, bits, acc)
    ensures var a := ShiftIn(acc, 8, bin[3 * k + r]);
            var out' := out + Emitted(a, bits + 8);
            if r == 2 then Progress(bin, k + 1, 0, out', 0, a) else Progress(bin, k, r + 1, out', bits + 2, a)
  {
    hide Letter, Emitted, ShiftIn, Letters, Split;
    var b := bin[3 * k + r];
    var a := ShiftIn(acc, 8, b);
    EmittedByPhase(acc, b, if r == 0 then 0 else bin[3 * k + r - 1]);
    var out' := out + Emitted(a, bits + 8);
    assert out'[..4 * k] == out[..4 * k];
    if r == 2 {
      var rest := bin[3 * k..];
      assert out'[4 * k..] == out[4 * k..] + Emitted(a, 12);
      assert bin[3 * k + 3..] == rest[3..];
      LettersGroup(rest);
      assert Letters(Split(bin)) == out' + Letters(Split(rest[3..]));
      assert out'[..4 * k + 4] == out';
    } else {
      assert out'[4 * k..] == out[4 * k..] + Emitted(a, bits + 8);
    }
  }

  lemma LettersGroup(b: seq<Octet>)
    requires |b| >= 3
    ensures Letters(Split(b)) == [Letter(b[0] / 4), Letter(b[0] % 4 * 16 + b[1] / 16),
                                  Letter(b[1] % 16 * 4 + b[2] / 64), Letter(b[2] % 64)] + Letters(Split(b[3..]))
  {
    hide Letter, Letters;
    LettersOfFour(b[0] / 4, b[0] % 4 * 16 + b[1] / 16, b[1] % 16 * 4 + b[2] / 64, b[2] % 64, Split(b[3..]));
  }

  lemma LettersOfFour(a: Sextet, b: Sextet, c: Sextet, d: Sextet, rest: seq<Sextet>)
    ensures Letters([a, b, c, d] + rest) == [Letter(a), Letter(b), Letter(c), Letter(d)] + Letters(rest)
  {
    hide Letter;
  }

  // base64_encode. None: an assertion of the source fails, which only the empty input causes,
  // because size_type arithmetic makes retval.size() - 2 huge.
  method Encode(bin: seq<Octet>) returns (r: Option<seq<Octet>>)
    ensures r == if |bin| > SIZE_MAX / 4 * 3 then Some([]) else if bin == [] then None else Some(EncodeSpec(bin))
  {
    hide Letters, Split, Letter, Emitted, ShiftIn, Progress, Power, Unplaced;
    if |bin| > SIZE_MAX / 4 * 3 {
      return Some([]);
    }
    var size := (|bin| + 2) / 3 * 4;
    var retval := new Octet[size](_ => PAD);
    var outpos, bits, acc := EncodeBytes(bin, retval);
    outpos := EncodeRest(bin, retval, outpos, bits, acc);
    assert retval[..] == retval[..outpos] + Pads(size - outpos);
    OnlyNothingUnplaced(|bin|);
    if Unplaced(outpos, size) {
      return None;
    }
    return Some(retval[..]);
  }

  // assert(outpos >= (retval.size() - 2)) or assert(outpos <= retval.size()) fails
  predicate Unplaced(outpos: nat, size: nat) { outpos < (size - 2) % (SIZE_MAX + 1) || outpos > size }

  lemma OnlyNothingUnplaced(n: nat)
    requires n <= SIZE_MAX / 4 * 3
    ensures Unplaced((n * 8 + 5) / 6, (n + 2) / 3 * 4) <==> n == 0
    ensures (n * 8 + 5) / 6 <= (n + 2) / 3 * 4
  {
    Sizes(n);
    if n > 0 {
      SizeFits(n);
    }
  }

  lemma Sizes(n: nat)
    ensures (n + 2) / 3 * 4 == n / 3 * 4 + (if n % 3 == 0 then 0 else 4)
    ensures (n * 8 + 5) / 6 == n / 3 * 4 + (if n % 3 == 0 then 0 else n % 3 + 1)
  {
    assert n == n / 3 * 3 + n % 3;
  }

  lemma SizeFits(n: nat)
    requires 0 < n <= SIZE_MAX / 4 * 3
    ensures 4 <= (n + 2) / 3 * 4 <= SIZE_MAX
  {
  }

  // Any trailing bits that are missing.
  method EncodeRest(bin: seq<Octet>, retval: array<Octet>, outpos0: nat, bits: nat, acc: Word32) returns (outpos: nat)
    requires retval.Length == (|bin| + 2) / 3 * 4 && outpos0 == |bin| / 3 * 4 + |bin| % 3 && bits == |bin| % 3 * 2
    requires outpos0 <= retval.Length && Progress(bin, |bin| / 3, |bin| % 3, retval[..outpos0], bits, acc)
    requires forall j :: outpos0 <= j < retval.Length ==> retval[j] == PAD
    modifies retval
    ensures outpos == (|bin| * 8 + 5) / 6 <= retval.Length && retval[..outpos] == Letters(Split(bin))
    ensures forall j :: outpos <= j < retval.Length ==> retval[j] == PAD
  {
    hide Letters, Split, Letter, Progress, Power;
    Sizes(|bin|);
    outpos := outpos0;
    ghost var out := retval[..outpos];
    ProgressEnd(bin, |bin| / 3, |bin| % 3, out, bits, acc);
    if bits > 0 {
      assert bits < 6;
      retval[outpos] := Letter(acc * Power(6 - bits) % TWO_32 % 64);
      outpos := outpos + 1;
      assert retval[..outpos] == out + [Letter(acc * Power(6 - bits) % TWO_32 % 64)];
    }
  }

  // The outer loop.
  method EncodeBytes(bin: seq<Octet>, retval: array<Octet>) returns (outpos: nat, bits: nat, acc: Word32)
    requires retval.Length == (|bin| + 2) / 3 * 4 && forall j :: 0 <= j < retval.Length ==> retval[j] == PAD
    modifies retval
    ensures outpos == |bin| / 3 * 4 + |bin| % 3 && bits == |bin| % 3 * 2 && outpos <= retval.Length
    ensures Progress(bin, |bin| / 3, |bin| % 3, retval[..outpos], bits, acc)
    ensures forall j :: outpos <= j < retval.Length ==> retval[j] == PAD
  {
    hide Letters, Split, Letter, Emitted, ShiftIn, Progress;
    outpos, bits, acc := 0, 0, 0;
    ProgressStart(bin);
    assert retval[..0] == [];
    for i := 0 to |bin|
      invariant outpos == i / 3 * 4 + i % 3 && bits == i % 3 * 2
      invariant Progress(bin, i / 3, i % 3, retval[..outpos], bits, acc)
      invariant forall j :: outpos <= j < retval.Length ==> retval[j] == PAD
    {
      ProgressStep(bin, i / 3, i % 3, retval[..outpos], bits, acc);
      acc := ShiftIn(acc, 8, bin[i]);
      EmittedCount(acc, bits + 8);
      outpos, bits := EmitLetters(retval, outpos, bits + 8, acc);
    }
  }

  // The inner loop.
  method EmitLetters(retval: array<Octet>, outpos0: nat, bits0: nat, acc: Word32) returns (outpos: nat, bits: nat)
    requires outpos0 + |Emitted(acc, bits0)| <= retval.Length
    modifies retval
    ensures bits == bits0 % 6 && outpos == outpos0 + |Emitted(acc, bits0)|
    ensures retval[..outpos] == old(retval[..outpos0]) + Emitted(acc, bits0)
    ensures forall j :: outpos <= j < retval.Length ==> retval[j] == old(retval[j])
  {
    hide Letter, Extract, Power;
    outpos, bits := outpos0, bits0;
    while bits >= 6
      invariant bits % 6 == bits0 % 6 && outpos + |Emitted(acc, bits)| <= retval.Length
      invariant retval[..outpos] + Emitted(acc, bits) == old(retval[..outpos0]) + Emitted(acc, bits0)
      invariant forall j :: outpos <= j < retval.Length ==> retval[j] == old(retval[j])
    {
      ghost var out := retval[..outpos];
      bits := bits - 6;
      Powers();
      retval[outpos] := Letter(Extract(acc, bits, 6));
      outpos := outpos + 1;
      assert retval[..outpos] == out + [Letter(Extract(acc, bits, 6))];
      assert out + ([Letter(Extract(acc, bits, 6))] + Emitted(acc, bits)) == retval[..outpos] + Emitted(acc, bits);
    }
    assert retval[..outpos] + [] == retval[..outpos];
  }

  lemma ProgressStart(bin: seq<Octet>)
    ensures Progress(bin, 0, 0, [], 0, 0)
  {
    assert bin[0..] == bin;
  }

  lemma EmittedCount(acc: Word32, bits: nat)
    ensures |Emitted(acc, bits)| == bits / 6
  {
  }

  lemma ProgressEnd(bin: seq<Octet>, k: nat, r: nat, out: seq<Octet>, bits: nat, acc: Word32)
    requires 3 * k + r == |bin| && r < 3 && Progress(bin, k, r, out, bits, acc)
    ensures Letters(Split(bin)) == if r == 0 then out else out + [Letter(acc * Power(6 - bits) % TWO_32 % 64)]
  {
    hide Letter, Power;
    Powers();
    var tail := bin[3 * k..];
    assert out == out[..4 * k] + out[4 * k..];
    if r == 0 {
      assert Letters(Split([])) == [];
    } else {
      if r == 1 { LettersOne(tail); } else { LettersTwo(tail); }
      LastBits(acc, tail[r - 1]);
    }
  }

  lemma LettersFew(a: Sextet, b: Sextet, c: Sextet)
    ensures Letters([a, b]) == [Letter(a), Letter(b)] && Letters([a, b, c]) == [Letter(a), Letter(b)] + [Letter(c)]
  {
    hide Letter;
  }

  lemma LettersOne(b: seq<Octet>)
    requires |b| == 1
    ensures Letters(Split(b)) == Partial(b) + [Letter(b[0] % 4 * 16)]
  {
    hide Letter;
    LettersFew(b[0] / 4, b[0] % 4 * 16, 0);
  }

  lemma LettersTwo(b: seq<Octet>)
    requires |b| == 2
    ensures Letters(Split(b)) == Partial(b) + [Letter(b[1] % 16 * 4)]
  {
    hide Letter;
    LettersFew(b[0] / 4, b[0] % 4 * 16 + b[1] / 16, b[1] % 16 * 4);
  }

  lemma LastBits(acc: Word32, b: Octet)
    ensures acc % 4 == b % 4 ==> acc * 16 % TWO_32 % 64 == b % 4 * 16
    ensures acc % 16 == b % 16 ==> acc * 4 % TWO_32 % 64 == b % 16 * 4
  {
    LastTwoBits(acc);
    LastFourBits(acc);
  }

  lemma LastTwoBits(acc: Word32)
    ensures acc * 16 % TWO_32 % 64 == acc % 4 * 16
  {
    var q, s := acc / 0x1000_0000, acc % 0x1000_0000;
    assert acc * 16 == q * TWO_32 + s * 16;
    LowWord(q, s * 16);
    SameLow(q * 0x100_0000, s);
    assert s * 16 == (s / 4) * 64 + s % 4 * 16;
    LowSix(s / 4, s % 4 * 16);
  }

  lemma LastFourBits(acc: Word32)
    ensures acc * 4 % TWO_32 % 64 == acc % 16 * 4
  {
    var q, s := acc / 0x4000_0000, acc % 0x4000_0000;
    assert acc * 4 == q * TWO_32 + s * 4;
    LowWord(q, s * 4);
    SameLow(q * 0x400_0000, s);
    assert s * 4 == (s / 16) * 64 + s % 16 * 4;
    LowSix(s / 16, s % 16 * 4);
  }

  // base64_decode: "" for input with a foreign byte.
  method Decode(asc: seq<Octet>) returns (retval: seq<Octet>)
    ensures retval == DecodeSpec(asc)
  {
    hide Reverse, IsSkipped, Join, ShiftIn, Assemble, Extract, Power, Remembers;
    retval := [];
    var bits, acc: Word32 := 0, 0;
    ghost var vs: seq<Sextet> := [];
    JoinNothing();
    for i := 0 to |asc|
      invariant Sextets(asc[..i]) == Some(vs) && retval == Join(vs)
      invariant bits == (if |vs| % 4 == 0 then 0 else 8 - 2 * (|vs| % 4))
      invariant Remembers(acc, vs)
    {
      var c := asc[i];
      assert asc[..i + 1][..i] == asc[..i];
      if IsSkipped(c) {
        continue;
      }
      if c > 127 || Reverse(c) > 63 {
        ForeignByte(asc, i + 1);
        return [];
      }
      var v := Reverse(c);
      JoinSnoc(vs, v);
      AssembledBits(acc, vs, v);
      acc := ShiftIn(acc, 6, v);
      bits := bits + 6;
      if bits >= 8 {
        bits := bits - 8;
        Powers();
        retval := retval + [Extract(acc, bits, 8)];
      }
      vs := vs + [v];
    }
    assert asc[..|asc|] == asc;
  }

  // The low bits of the accumulator are those of the last group that are still to be used.
  predicate Remembers(acc: Word32, vs: seq<Sextet>) {
    var k := |vs| % 4;
    && (k == 1 ==> acc % 64 == vs[|vs| - 1]) && (k == 2 ==> acc % 16 == vs[|vs| - 1] % 16)
    && (k == 3 ==> acc % 4 == vs[|vs| - 1] % 4)
  }

  lemma EightBits(acc: Word32, v: Sextet, last: Sextet)
    ensures var a := acc * 64 % TWO_32 + v;
            && a % 64 == v && a % 16 == v % 16 && a % 4 == v % 4
            && (acc % 64 == last ==> a / 16 % 256 == Assemble(1, last, v))
            && (acc % 16 == last % 16 ==> a / 4 % 256 == Assemble(2, last, v))
            && (acc % 4 == last % 4 ==> a % 256 == Assemble(3, last, v))
  {
    Low26Bits(acc);
    var s := acc % 0x400_0000;
    BytesOf(s, v);
  }

  lemma Low26Bits(acc: Word32)
    ensures var s := acc % 0x400_0000;
            acc * 64 % TWO_32 == s * 64 && s % 64 == acc % 64 && s % 16 == acc % 16 && s % 4 == acc % 4
  {
    var q, s := acc / 0x400_0000, acc % 0x400_0000;
    assert acc * 64 == q * TWO_32 + s * 64;
    LowWord(q, s * 64);
    SameLow(q * 0x40_0000, s);
    assert acc == (q * 0x10_0000 + s / 64) * 64 + s % 64;
    LowSix(q * 0x10_0000 + s / 64, s % 64);
  }

  lemma BytesOf(s: nat, v: Sextet)
    ensures var a := s * 64 + v;
            && a % 64 == v && a % 16 == v % 16 && a % 4 == v % 4
            && a / 16 % 256 == s % 64 * 4 + v / 16 && a / 4 % 256 == s % 16 * 16 + v / 4 && a % 256 == s % 4 * 64 + v
  {
    var a := s * 64 + v;
    LowSix(s, v);
    assert a / 16 == (s / 64) * 256 + (s % 64 * 4 + v / 16);
    LowEight(s / 64, s % 64 * 4 + v / 16);
    assert a / 4 == (s / 16) * 256 + (s % 16 * 16 + v / 4);
    LowEight(s / 16, s % 16 * 16 + v / 4);
    assert a == (s / 4) * 256 + (s % 4 * 64 + v);
    LowEight(s / 4, s % 4 * 64 + v);
  }

  lemma LowEight(t: nat, x: nat)
    requires x < 256
    ensures (t * 256 + x) % 256 == x
  {
  }

  lemma AssembledBits(acc: Word32, vs: seq<Sextet>, v: Sextet)
    requires Remembers(acc, vs)
    ensures var a := ShiftIn(acc, 6, v);
            var k := |vs| % 4;
            && Remembers(a, vs + [v])
            && (k > 0 ==> Extract(a, 6 - 2 * k, 8) == Assemble(k, vs[|vs| - 1], v))
  {
    hide Assemble, Power;
    Powers();
    EightBits(acc, v, if |vs| % 4 == 0 then 0 else vs[|vs| - 1]);
  }

  lemma {:induction false} ForeignByte(asc: seq<Octet>, n: nat)
    requires n <= |asc| && Sextets(asc[..n]).None?
    ensures Sextets(asc).None?
    decreases |asc| - n
  {
    if n < |asc| {
      assert asc[..n + 1][..n] == asc[..n];
      ForeignByte(asc, n + 1);
    } else {
      assert asc[..n] == asc;
    }
  }

  lemma JoinNothing()
    ensures Join([]) == [] && Remembers(0, [])
  {
  }
}
