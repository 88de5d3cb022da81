/** The hand-written md5 against the definition of RFC 1321. */
module Md5Digest {
  const TWO_64: nat := 0x1_0000_0000_0000_0000

  // The table T of section 3.4: the integer part of 2^32 |sin(i + 1)|.
  const T: seq<seq<bv32>> := [
    [0xd76aa478, 0xe8c7b756, 0x242070db, 0xc1bdceee, 0xf57c0faf, 0x4787c62a, 0xa8304613, 0xfd469501,
     0x698098d8, 0x8b44f7af, 0xffff5bb1, 0x895cd7be, 0x6b901122, 0xfd987193, 0xa679438e, 0x49b40821],
    [0xf61e2562, 0xc040b340, 0x265e5a51, 0xe9b6c7aa, 0xd62f105d, 0x02441453, 0xd8a1e681, 0xe7d3fbc8,
     0x21e1cde6, 0xc33707d6, 0xf4d50d87, 0x455a14ed, 0xa9e3e905, 0xfcefa3f8, 0x676f02d9, 0x8d2a4c8a],
    [0xfffa3942, 0x8771f681, 0x6d9d6122, 0xfde5380c, 0xa4beea44, 0x4bdecfa9, 0xf6bb4b60, 0xbebfbc70,
     0x289b7ec6, 0xeaa127fa, 0xd4ef3085, 0x04881d05, 0xd9d4d039, 0xe6db99e5, 0x1fa27cf8, 0xc4ac5665],
    [0xf4292244, 0x432aff97, 0xab9423a7, 0xfc93a039, 0x655b59c3, 0x8f0ccc92, 0xffeff47d, 0x85845dd1,
     0x6fa87e4f, 0xfe2ce6e0, 0xa3014314, 0x4e0811a1, 0xf7537e82, 0xbd3af235, 0x2ad7d2bb, 0xeb86d391]]

  // The words that the 16 operations of each round read, in order (section 3.4).
  const WORDS: seq<seq<nat>> := [
    [0, 1, 2, 3, 4, 5, 6, 7, 8, 9, 10, 11, 12, 13, 14, 15],
    [1, 6, 11, 0, 5, 10, 15, 4, 9, 14, 3, 8, 13, 2, 7, 12],
    [5, 8, 11, 14, 1, 4, 7, 10, 13, 0, 3, 6, 9, 12, 15, 2],
    [0, 7, 14, 5, 12, 3, 10, 1, 8, 15, 6, 13, 4, 11, 2, 9]]

  // The four shifts of each round, used in turn.
  const SHIFTS: seq<seq<nat>> := [[7, 12, 17, 22], [5, 9, 14, 20], [4, 11, 16, 23], [6, 10, 15, 21]]

  // The array r of the source, a row to a round.
  const R: seq<seq<nat>> := [
    [7, 12, 17, 22, 7, 12, 17, 22, 7, 12, 17, 22, 7, 12, 17, 22],
    [5, 9, 14, 20, 5, 9, 14, 20, 5, 9, 14, 20, 5, 9, 14, 20],
    [4, 11, 16, 23, 4, 11, 16, 23, 4, 11, 16, 23, 4, 11, 16, 23],
    [6, 10, 15, 21, 6, 10, 15, 21, 6, 10, 15, 21, 6, 10, 15, 21]]

  function F(x: bv32, y: bv32, z: bv32): bv32 { (x & y) | (!x & z) }
  function G(x: bv32, y: bv32, z: bv32): bv32 { (x & z) | (y & !z) }
  function H(x: bv32, y: bv32, z: bv32): bv32 { x ^ y ^ z }
  function I(x: bv32, y: bv32, z: bv32): bv32 { y ^ (x | !z) }

  function Auxiliary(round: nat, x: bv32, y: bv32, z: bv32): bv32 {
    if round == 0 then F(x, y, z) else if round == 1 then G(x, y, z)
    else if round == 2 then H(x, y, z) else I(x, y, z)
  }

  function RotateLeft(x: bv32, s: nat): bv32
    requires s <= 32
  {
    (x << s) | (x >> (32 - s))
  }

  type Registers = r: seq<bv32> | |r| == 4 witness [0, 0, 0, 0]
  type Words = x: seq<bv32> | |x| == 16 witness seq(16, _ => 0)

  // The register that operation i assigns: A, D, C, B, A, ...
  function Target(i: nat): (t: nat)
    ensures t < 4
  {
    (4 - i % 4) % 4
  }

  // g in the source
  function Word(i: nat): nat {
    if i < 16 then i else if i < 32 then (5 * i + 1) % 16 else if i < 48 then (3 * i + 5) % 16 else 7 * i % 16
  }

  lemma WordRows(j: nat)
    requires j < 16
    ensures WORDS[0][j] == j && WORDS[1][j] == (5 * j + 1) % 16
    ensures WORDS[2][j] == (3 * j + 5) % 16 && WORDS[3][j] == 7 * j % 16
  {
    assert WORDS[1][j] == (5 * j + 1) % 16;
    assert WORDS[2][j] == (3 * j + 5) % 16;
  }

  lemma Period(k: nat, x: nat)
    ensures (16 * k + x) % 16 == x % 16
  {
  }

  lemma WordPeriod(round: nat, j: nat)
    requires round < 4 && j < 16
    ensures Word(16 * round + j) == if round == 0 then j else if round == 1 then (5 * j + 1) % 16
                                    else if round == 2 then (3 * j + 5) % 16 else 7 * j % 16
  {
    if round == 1 {
      Period(5, 5 * j + 1);
    } else if round == 2 {
      Period(6, 3 * j + 5);
    } else if round == 3 {
      Period(21, 7 * j);
    }
  }

  lemma WordsFit(i: nat)
    requires i < 64
    ensures |WORDS[i / 16]| == 16 && WORDS[i / 16][i % 16] == Word(i) < 16
  {
    hide Word;
    var round, j := i / 16, i % 16;
    WordRows(j);
    WordPeriod(round, j);
    assert i == 16 * round + j;
    assert round == 0 || round == 1 || round == 2 || round == 3;
  }

  lemma ShiftsFit(i: nat)
    requires i < 64
    ensures |R[i / 16]| == 16 && |SHIFTS[i / 16]| == 4
    ensures R[i / 16][i % 16] == SHIFTS[i / 16][i % 4] <= 32
  {
    var round, j := i / 16, i % 16;
    assert i % 4 == j % 4;
    if round == 0 {
      assert R[0][j] == SHIFTS[0][j % 4];
    } else if round == 1 {
      assert R[1][j] == SHIFTS[1][j % 4];
    } else if round == 2 {
      assert R[2][j] == SHIFTS[2][j % 4];
    } else {
      assert R[3][j] == SHIFTS[3][j % 4];
    }
  }

  // b + ((a + f + X[k] + T[i]) <<< s)
  function Mix(a: bv32, b: bv32, f: bv32, word: bv32, t: bv32, s: nat): bv32
    requires s <= 32
  {
    b + RotateLeft(a + f + word + t, s)
  }

  function Result(a: bv32, b: bv32, c: bv32, d: bv32, x: Words, i: nat): bv32
    requires i < 64
  {
    WordsFit(i);
    ShiftsFit(i);
    Mix(a, b, Auxiliary(i / 16, b, c, d), x[WORDS[i / 16][i % 16]], T[i / 16][i % 16], SHIFTS[i / 16][i % 4])
  }

  // [abcd k s i], on four fixed registers
  function Operation(regs: Registers, x: Words, i: nat): Registers
    requires i < 64
  {
    var t := Target(i);
    regs[t := Result(regs[t], regs[(t + 1) % 4], regs[(t + 2) % 4], regs[(t + 3) % 4], x, i)]
  }

  function Operations(regs: Registers, x: Words, n: nat): Registers
    requires n <= 64
  {
    if n == 0 then regs else Operation(Operations(regs, x, n - 1), x, n - 1)
  }

  // A block of 64 bytes as 16 words, low-order byte first.
  function ToInt32(b: seq<bv8>): bv32
    requires |b| == 4
  {
    (b[0] as bv32) | ((b[1] as bv32) << 8) | ((b[2] as bv32) << 16) | ((b[3] as bv32) << 24)
  }

  function ToBytes(v: bv32): (b: seq<bv8>)
    ensures |b| == 4
  {
    [(v & 0xff) as bv8, ((v >> 8) & 0xff) as bv8, ((v >> 16) & 0xff) as bv8, ((v >> 24) & 0xff) as bv8]
  }

  function Decode(block: seq<bv8>): Words
    requires |block| == 64
  {
    seq(16, j requires 0 <= j < 16 => ToInt32(block[4 * j..4 * j + 4]))
  }

  function AddAll(x: Registers, y: Registers): Registers {
    [x[0] + y[0], x[1] + y[1], x[2] + y[2], x[3] + y[3]]
  }

  function Block(regs: Registers, block: seq<bv8>): Registers
    requires |block| == 64
  {
    AddAll(regs, Operations(regs, Decode(block), 64))
  }

  function Process(regs: Registers, data: seq<bv8>): Registers
    requires |data| % 64 == 0
    decreases |data|
  {
    if data == [] then regs else Process(Block(regs, data[..64]), data[64..])
  }

  // Sections 3.1 and 3.2: a one bit, zeros up to 448 modulo 512 bits, the length in bits modulo
  // 2^64, low-order word first.
  function ZeroBytes(n: nat): (z: nat)
    ensures (n + 1 + z) % 64 == 56 && z < 64
  {
    (119 - n % 64) % 64
  }

  function Zeros(n: nat): (z: seq<bv8>)
    ensures |z| == n
  {
    seq(n, _ => 0)
  }

  function ToWord(n: nat): bv32
    requires n < 0x1_0000_0000
  {
    n as bv32
  }

  lemma EightMore(n: nat)
    requires n % 64 == 56
    ensures (n + 8) % 64 == 0
  {
  }

  function LengthBytes(n: nat): (l: seq<bv8>)
    ensures |l| == 8
  {
    var bits := n * 8 % TWO_64;
    ToBytes(ToWord(bits % 0x1_0000_0000)) + ToBytes(ToWord(bits / 0x1_0000_0000))
  }

  function Pad(msg: seq<bv8>): (p: seq<bv8>)
    ensures |p| % 64 == 0
  {
    EightMore(|msg| + 1 + ZeroBytes(|msg|));
    msg + [0x80] + Zeros(ZeroBytes(|msg|)) + LengthBytes(|msg|)
  }

  const INITIAL: Registers := [0x67452301, 0xefcdab89, 0x98badcfe, 0x10325476]

  // Section 3.5
  function Md5Spec(msg: seq<bv8>): (d: seq<bv8>)
    ensures |d| == 16
  {
    var r := Process(INITIAL, Pad(msg));
    ToBytes(r[0]) + ToBytes(r[1]) + ToBytes(r[2]) + ToBytes(r[3])
  }

  // The source rotates a, b, c, d instead of the roles of the registers.
  predicate Rotated(regs: Registers, i: nat, a: bv32, b: bv32, c: bv32, d: bv32) {
    var t := Target(i);
    a == regs[t] && b == regs[(t + 1) % 4] && c == regs[(t + 2) % 4] && d == regs[(t + 3) % 4]
  }

  // f in the source
  function Selected(i: nat, b: bv32, c: bv32, d: bv32): bv32 {
    if i < 16 then (b & c) | (!b & d) else if i < 32 then (d & b) | (!d & c)
    else if i < 48 then b ^ c ^ d else c ^ (b | !d)
  }

  lemma SameSelection(b: bv32, c: bv32, d: bv32)
    ensures (d & b) | (!d & c) == G(b, c, d)
  {
  }

  lemma SelectedIsAuxiliary(i: nat, b: bv32, c: bv32, d: bv32)
    requires i < 64
    ensures Selected(i, b, c, d) == Auxiliary(i / 16, b, c, d)
  {
    hide G;
    SameSelection(b, c, d);
    if i < 16 {
      assert i / 16 == 0;
    } else if i < 32 {
      assert i / 16 == 1;
    } else if i < 48 {
      assert i / 16 == 2;
    } else {
      assert i / 16 == 3;
    }
  }

  // b + LEFTROTATE((a + f + k[i] + w[g]), r[i])
  function MixSource(a: bv32, b: bv32, f: bv32, k: bv32, w: bv32, r: nat): bv32
    requires r <= 32
  {
    b + RotateLeft(a + f + k + w, r)
  }

  lemma MixOrder(a: bv32, b: bv32, f: bv32, k: bv32, w: bv32, r: nat)
    requires r <= 32
    ensures MixSource(a, b, f, k, w, r) == Mix(a, b, f, w, k, r)
  {
    hide RotateLeft;
    SumOrder(a, f, k, w);
  }

  // What the source assigns to b.
  function Computed(a: bv32, b: bv32, c: bv32, d: bv32, x: Words, i: nat): bv32
    requires i < 64
  {
    WordsFit(i);
    ShiftsFit(i);
    MixSource(a, b, Selected(i, b, c, d), T[i / 16][i % 16], x[Word(i)], R[i / 16][i % 16])
  }

  lemma ComputedIsResult(a: bv32, b: bv32, c: bv32, d: bv32, x: Words, i: nat)
    requires i < 64
    ensures Computed(a, b, c, d, x, i) == Result(a, b, c, d, x, i)
  {
    hide Word, Selected, Auxiliary, Mix, MixSource;
    WordsFit(i);
    ShiftsFit(i);
    SelectedIsAuxiliary(i, b, c, d);
    MixOrder(a, b, Selected(i, b, c, d), T[i / 16][i % 16], x[Word(i)], R[i / 16][i % 16]);
  }

  lemma RotatedStep(regs: Registers, x: Words, i: nat, a: bv32, b: bv32, c: bv32, d: bv32)
    requires i < 64 && Rotated(regs, i, a, b, c, d)
    ensures Rotated(Operation(regs, x, i), i + 1, d, Computed(a, b, c, d, x, i), b, c)
  {
    hide Computed, Result;
    ComputedIsResult(a, b, c, d, x, i);
    var t := Target(i);
    assert Target(i + 1) == (t + 3) % 4;
    if t == 0 {} else if t == 1 {} else if t == 2 {} else {}
  }

  lemma SumOrder(a: bv32, f: bv32, k: bv32, w: bv32)
    ensures a + f + k + w == a + f + w + k
  {
  }

  // for (new_len = initial_len + 1; new_len % 64 != 56; new_len++)
  method PaddedLength(n: nat) returns (newLen: nat)
    ensures newLen == n + 1 + ZeroBytes(n)
  {
    newLen := n + 1;
    while newLen % 64 != 56
      invariant n + 1 <= newLen <= n + 1 + ZeroBytes(n)
      decreases n + 1 + ZeroBytes(n) - newLen
    {
      newLen := newLen + 1;
    }
    PaddedOnce(n, newLen);
  }

  lemma PaddedOnce(n: nat, newLen: nat)
    requires n + 1 <= newLen <= n + 1 + ZeroBytes(n) && newLen % 64 == 56
    ensures newLen == n + 1 + ZeroBytes(n)
  {
  }

  method PutBytes(v: bv32, out: array<bv8>, at: nat)
    requires at + 4 <= out.Length
    modifies out
    ensures out[..at + 4] == old(out[..at]) + ToBytes(v)
    ensures forall j :: at + 4 <= j < out.Length ==> out[j] == old(out[j])
  {
    var b := ToBytes(v);
    out[at], out[at + 1], out[at + 2], out[at + 3] := b[0], b[1], b[2], b[3];
  }

  lemma LengthWords(n: nat)
    requires n < TWO_64
    ensures n * 8 % TWO_64 % 0x1_0000_0000 == n * 8 % 0x1_0000_0000
    ensures n * 8 % TWO_64 / 0x1_0000_0000 == n / 0x2000_0000 % 0x1_0000_0000
  {
    var high, low := n / 0x2000_0000, n % 0x2000_0000;
    var a, b := high / 0x1_0000_0000, high % 0x1_0000_0000;
    assert n * 8 == a * TWO_64 + (b * 0x1_0000_0000 + low * 8);
    Remainder64(a, b * 0x1_0000_0000 + low * 8);
    Remainder32(b, low * 8);
    assert n * 8 == high * 0x1_0000_0000 + low * 8;
    Remainder32(high, low * 8);
  }

  lemma Remainder64(q: nat, r: nat)
    requires r < TWO_64
    ensures (q * TWO_64 + r) % TWO_64 == r
  {
  }

  lemma Remainder32(q: nat, r: nat)
    requires r < 0x1_0000_0000
    ensures (q * 0x1_0000_0000 + r) % 0x1_0000_0000 == r && (q * 0x1_0000_0000 + r) / 0x1_0000_0000 == q
  {
  }

  // memcpy, the one bit and the zeros
  method Copy(initial: seq<bv8>, newLen: nat) returns (msg: array<bv8>)
    requires |initial| < newLen
    ensures fresh(msg) && msg.Length == newLen + 8
    ensures msg[..newLen] == initial + [0x80] + Zeros(newLen - |initial| - 1)
  {
    var n := |initial|;
    msg := new bv8[newLen + 8];
    for i := 0 to n
      invariant forall j :: 0 <= j < i ==> msg[j] == initial[j]
    {
      msg[i] := initial[i];
    }
    msg[n] := 0x80;
    for offset := n + 1 to newLen
      invariant msg[..n] == initial && msg[n] == 0x80
      invariant forall j :: n < j < offset ==> msg[j] == 0
    {
      msg[offset] := 0;
    }
  }

  method Prepare(initial: seq<bv8>) returns (msg: array<bv8>)
    requires |initial| + 72 < TWO_64
    ensures fresh(msg) && msg[..] == Pad(initial)
  {
    hide LengthBytes, Zeros, ZeroBytes;
    var n := |initial|;
    var newLen := PaddedLength(n);
    msg := Copy(initial, newLen);
    PutLength(n, msg, newLen);
    assert msg[..] == msg[..newLen + 8];
  }

  method PutLength(n: nat, msg: array<bv8>, newLen: nat)
    requires n < TWO_64 && msg.Length == newLen + 8
    modifies msg
    ensures msg[..newLen + 8] == old(msg[..newLen]) + LengthBytes(n)
  {
    hide ToBytes, ToWord;
    LengthWords(n);
    PutBytes(ToWord(n * 8 % 0x1_0000_0000), msg, newLen);
    PutBytes(ToWord(n / 0x2000_0000 % 0x1_0000_0000), msg, newLen + 4);
  }

  // The 64-step loop and the additions after it, for one chunk.
  method Chunk(h: Registers, w: Words) returns (r: Registers)
    ensures r == AddAll(h, Operations(h, w, 64))
  {
    hide Computed, Operation, AddAll;
    var a, b, c, d := h[0], h[1], h[2], h[3];
    for i := 0 to 64
      invariant Rotated(Operations(h, w, i), i, a, b, c, d)
    {
      RotatedStep(Operations(h, w, i), w, i, a, b, c, d);
      var temp := d;
      var next := Computed(a, b, c, d, w, i);
      d := c;
      c := b;
      b := next;
      a := temp;
    }
    RotatedEnds(Operations(h, w, 64), a, b, c, d);
    r := AddAll(h, [a, b, c, d]);
  }

  lemma RotatedEnds(regs: Registers, a: bv32, b: bv32, c: bv32, d: bv32)
    requires Rotated(regs, 64, a, b, c, d)
    ensures regs == [a, b, c, d]
  {
  }

  method ReadWords(msg: array<bv8>, offset: nat) returns (w: Words)
    requires offset + 64 <= msg.Length
    ensures w == Decode(msg[offset..offset + 64])
  {
    hide ToInt32;
    var a := new bv32[16](_ => 0);
    for i := 0 to 16
      invariant forall j :: 0 <= j < i ==> a[j] == ToInt32(msg[offset..offset + 64][4 * j..4 * j + 4])
    {
      assert msg[offset + 4 * i..offset + 4 * i + 4] == msg[offset..offset + 64][4 * i..4 * i + 4];
      a[i] := ToInt32(msg[offset + 4 * i..offset + 4 * i + 4]);
    }
    w := a[..];
  }

  // md5 equals its definition for every input that fits in memory.
  method Md5(initial: seq<bv8>, digest: array<bv8>)
    requires |initial| + 72 < TWO_64 && digest.Length >= 16
    modifies digest
    ensures digest[..16] == Md5Spec(initial) && digest[16..] == old(digest[16..])
  {
    hide ToBytes, Pad, AddAll, Operations, Decode;
    var h: Registers := INITIAL;
    var msg := Prepare(initial);
    ghost var data := msg[..];
    var newLen := msg.Length - 8;
    var offset := 0;
    assert data[0..] == data;
    while offset < newLen
      invariant offset % 64 == 0 && offset <= msg.Length && msg[..] == data
      invariant Process(h, data[offset..]) == Process(INITIAL, data)
      modifies {}
    {
      var w := ReadWords(msg, offset);
      ProcessStep(h, data, offset);
      h := Chunk(h, w);
      offset := offset + 64;
    }
    assert data[offset..] == [];
    PutDigest(h, digest);
  }

  method PutDigest(h: Registers, digest: array<bv8>)
    requires digest.Length >= 16
    modifies digest
    ensures digest[..16] == ToBytes(h[0]) + ToBytes(h[1]) + ToBytes(h[2]) + ToBytes(h[3])
    ensures digest[16..] == old(digest[16..])
  {
    hide ToBytes;
    PutBytes(h[0], digest, 0);
    PutBytes(h[1], digest, 4);
    PutBytes(h[2], digest, 8);
    PutBytes(h[3], digest, 12);
    assert digest[..0] == [];
  }

  lemma ProcessStep(h: Registers, data: seq<bv8>, offset: nat)
    requires |data| % 64 == 0 && offset % 64 == 0 && offset + 64 <= |data|
    ensures Process(h, data[offset..]) == Process(Block(h, data[offset..offset + 64]), data[offset + 64..])
  {
    var rest := data[offset..];
    assert rest[..64] == data[offset..offset + 64] && rest[64..] == data[offset + 64..];
  }
}
