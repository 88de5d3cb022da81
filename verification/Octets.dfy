/** Unsigned bytes and big-endian numbers, as CByteStream reads and writes them. */
module Octets {
  type Octet = n: nat | n < 256

  const TWO_16: nat := 0x1_0000
  const TWO_31: nat := 0x8000_0000
  const TWO_32: nat := 0x1_0000_0000

  type Word16 = n: nat | n < 0x1_0000
  type Word32 = n: nat | n < 0x1_0000_0000

  function Encode16(v: Word16): (b: seq<Octet>)
    ensures |b| == 2
  {
    [v / 256, v % 256]
  }

  function Encode32(v: Word32): (b: seq<Octet>)
    ensures |b| == 4
  {
    Encode16(v / TWO_16) + Encode16(v % TWO_16)
  }

  function Decode16(b: seq<Octet>): (v: Word16)
    requires |b| >= 2
  {
    var high: int := b[0];
    high * 256 + b[1]
  }

  function Decode32(b: seq<Octet>): (v: Word32)
    requires |b| >= 4
  {
    var high: int := Decode16(b);
    high * TWO_16 + Decode16(b[2..])
  }

  // Most significant byte first, in both directions.
  lemma BigEndian16(v: Word16, b: seq<Octet>)
    ensures var e := Encode16(v); e[0] as int * 256 + e[1] == v as int
    ensures |b| >= 2 ==> Decode16(b) as int == b[0] as int * 256 + b[1]
  {
  }

  lemma BigEndian32(v: Word32, b: seq<Octet>)
    ensures var e := Encode32(v);
            e[0] as int * 0x100_0000 + e[1] as int * 0x1_0000 + e[2] as int * 0x100 + e[3] == v as int
    ensures |b| >= 4 ==>
              Decode32(b) as int == b[0] as int * 0x100_0000 + b[1] as int * 0x1_0000 + b[2] as int * 0x100 + b[3]
  {
  }

  lemma RoundTrip16(v: Word16, b: seq<Octet>)
    ensures Decode16(Encode16(v)) == v
    ensures |b| >= 2 ==> Encode16(Decode16(b)) == b[..2]
  {
  }

  lemma RoundTrip32(v: Word32, b: seq<Octet>)
    ensures Decode32(Encode32(v)) == v
    ensures |b| >= 4 ==> Encode32(Decode32(b)) == b[..4]
  {
    hide Encode16, Decode16;
    var high, low := v / TWO_16, v % TWO_16;
    RoundTrip16(high, b);
    Prefix16(Encode16(high), Encode16(low));
    RoundTrip16(low, Encode16(low));
    if |b| >= 4 {
      RoundTrip16(0, b[2..]);
      assert b[..4] == b[..2] + b[2..][..2];
    }
  }

  lemma Prefix16(a: seq<Octet>, b: seq<Octet>)
    requires |a| == 2
    ensures Decode16(a + b) == Decode16(a) && (a + b)[2..] == b
  {
  }
}
