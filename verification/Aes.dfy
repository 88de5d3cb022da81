/** CAes: a message in 16-byte blocks with its length at the very end, enciphered, in Base64. */
module AesEnvelope {
  import opened Octets
  import Base64

  const BLOCK: nat := 16

  type Block = b: seq<Octet> | |b| == BLOCK witness seq(BLOCK, _ => 0)

  // AES_encrypt and AES_decrypt under one key: nothing is known but that they are inverse.
  datatype Cipher = Cipher(enc: Block -> Block, dec: Block -> Block) {
    ghost predicate Valid() { forall b: Block :: dec(enc(b)) == b }
  }

  function Map(f: Block -> Block, data: seq<Octet>): (r: seq<Octet>)
    requires |data| % BLOCK == 0
    ensures |r| == |data|
    decreases |data|
  {
    if data == [] then [] else Map(f, data[..|data| - BLOCK]) + f(data[|data| - BLOCK..])
  }

  lemma MapNothing(f: Block -> Block)
    ensures Map(f, []) == []
  {
  }

  lemma MapSnoc(f: Block -> Block, data: seq<Octet>, block: Block)
    requires |data| % BLOCK == 0
    ensures Map(f, data + block) == Map(f, data) + f(block)
  {
    var d := data + block;
    assert d[..|d| - BLOCK] == data && d[|d| - BLOCK..] == block;
  }

  // Every block by itself, in its place.
  lemma {:induction false} MapAt(f: Block -> Block, data: seq<Octet>, k: nat)
    requires |data| % BLOCK == 0 && BLOCK * (k + 1) <= |data|
    ensures Map(f, data)[BLOCK * k..BLOCK * (k + 1)] == f(data[BLOCK * k..BLOCK * (k + 1)])
    decreases |data|
  {
    var n := |data| - BLOCK;
    if BLOCK * (k + 1) <= n {
      MapAt(f, data[..n], k);
      assert Map(f, data)[..n] == Map(f, data[..n]);
      assert data[..n][BLOCK * k..BLOCK * (k + 1)] == data[BLOCK * k..BLOCK * (k + 1)];
    } else {
      assert BLOCK * k == n;
      assert data[BLOCK * k..BLOCK * (k + 1)] == data[n..];
    }
  }

  lemma {:induction false} MapInverse(c: Cipher, data: seq<Octet>)
    requires c.Valid() && |data| % BLOCK == 0
    ensures Map(c.dec, Map(c.enc, data)) == data
    decreases |data|
  {
    if data != [] {
      var front, last := data[..|data| - BLOCK], data[|data| - BLOCK..];
      MapInverse(c, front);
      var e := Map(c.enc, data);
      assert e[..|e| - BLOCK] == Map(c.enc, front) && e[|e| - BLOCK..] == c.enc(last);
    }
  }

  // One more block when the length word would not fit behind the message.
  function Blocks(n: Word32): nat
    requires n < TWO_31
  {
    var blocks := (n + 15) % TWO_32 / 16;
    if n % 16 > 12 || n % 16 == 0 then blocks + 1 else blocks
  }

  function Zeros(n: nat): (z: seq<Octet>)
    ensures |z| == n
  {
    seq(n, _ => 0)
  }

  // The length word never touches the message.
  lemma LengthFits(n: Word32)
    requires n < TWO_31
    ensures n + 4 <= Blocks(n) * 16 < n + 20 && Blocks(n) * 16 < TWO_32
  {
  }

  function Padded(m: seq<Octet>): (p: seq<Octet>)
    requires |m| < TWO_31
    ensures |p| == Blocks(|m|) * 16 && |p| % BLOCK == 0
  {
    LengthFits(|m|);
    m + Zeros(Blocks(|m|) * 16 - 4 - |m|) + Encode32(|m|)
  }

  // No more blocks than it takes: the message, zeros, and its length, most significant byte first.
  lemma PaddedIs(m: seq<Octet>)
    requires |m| < TWO_31
    ensures var p := Padded(m);
            && |p| % 16 == 0 && |m| + 4 <= |p| < |m| + 20 && p[..|m|] == m
            && (forall i :: |m| <= i < |p| - 4 ==> p[i] == 0)
            && p[|p| - 4] as int * 0x100_0000 + p[|p| - 3] as int * 0x1_0000 + p[|p| - 2] as int * 0x100
               + p[|p| - 1] == |m|
  {
    hide Encode32;
    LengthFits(|m|);
    BigEndian32(|m|, []);
    var p := Padded(m);
    assert p[|p| - 4..] == Encode32(|m|);
  }

  function Seal(c: Cipher, m: seq<Octet>): seq<Octet>
    requires |m| < TWO_31
  {
    Base64.EncodeSpec(Map(c.enc, Padded(m)))
  }

  datatype Opened = Opened(message: seq<Octet>) | Refused(code: int)

  function Open(c: Cipher, text: seq<Octet>): Opened {
    if text == [] then Refused(-1) else
    var data := Base64.DecodeSpec(text);
    if data == [] then Refused(-2)
    else if |data| % BLOCK != 0 then Refused(-3)
    else
      var plain := Map(c.dec, data);
      var n := Decode32(plain[|plain| - 4..]);
      if n > |data| then Refused(-4) else Opened(plain[..n])
  }

  // What was sealed opens to the message, whatever the cipher.
  lemma OpenSeal(c: Cipher, m: seq<Octet>)
    requires c.Valid() && 0 < |m| < TWO_31
    ensures Open(c, Seal(c, m)) == Opened(m)
  {
    hide Base64.EncodeSpec, Base64.DecodeSpec, Map, Decode32, Encode32;
    var p := Padded(m);
    LengthFits(|m|);
    Base64.RoundTrip(Map(c.enc, p));
    MapInverse(c, p);
    RoundTrip32(|m|, p);
    assert p[|p| - 4..] == Encode32(|m|) && p[..|m|] == m;
  }

  class Aes {
    const cipher: Cipher

    constructor (cipher: Cipher)
      ensures this.cipher == cipher
    {
      this.cipher := cipher;
    }

    // The loop over AES_encrypt or AES_decrypt.
    method Transform(f: Block -> Block, data: array<Octet>) returns (out: array<Octet>)
      requires data.Length % BLOCK == 0
      ensures fresh(out) && out[..] == Map(f, data[..])
    {
      hide Map;
      out := new Octet[data.Length];
      MapNothing(f);
      assert out[..0] == [] && data[..0] == [];
      for i := 0 to data.Length / BLOCK
        invariant out[..i * BLOCK] == Map(f, data[..i * BLOCK])
      {
        var here, next := i * BLOCK, (i + 1) * BLOCK;
        var block := f(data[here..next]);
        assert Map(f, data[..next]) == Map(f, data[..here]) + block by {
          MapSnoc(f, data[..here], data[here..next]);
          assert data[..here] + data[here..next] == data[..next];
        }
        PutBlock(out, here, block);
      }
      assert out[..] == out[..out.Length] && data[..] == data[..data.Length];
    }

    method PutBlock(out: array<Octet>, at: nat, block: Block)
      requires at + BLOCK <= out.Length
      modifies out
      ensures out[..at + BLOCK] == old(out[..at]) + block
    {
      for j := 0 to BLOCK
        invariant out[..at] == old(out[..at]) && out[at..at + j] == block[..j]
      {
        out[at + j] := block[j];
      }
    }

    // calloc, memcpy and the length word at the end.
    method Pad(m: seq<Octet>) returns (data: array<Octet>)
      requires |m| < TWO_31
      ensures fresh(data) && data[..] == Padded(m)
    {
      LengthFits(|m|);
      var size := Blocks(|m|) * 16;
      data := new Octet[size](_ => 0);
      for i := 0 to |m|
        invariant forall j :: 0 <= j < i ==> data[j] == m[j]
        invariant forall j :: i <= j < size ==> data[j] == 0
      {
        data[i] := m[i];
      }
      var word := Encode32(|m|);
      data[size - 4], data[size - 3], data[size - 2], data[size - 1] := word[0], word[1], word[2], word[3];
    }

    // -1 for an empty message; the sealed text otherwise.
    method Encrypt(m: seq<Octet>) returns (code: int, out: seq<Octet>)
      requires |m| < TWO_31
      ensures m == [] ==> code == -1 && out == []
      ensures m != [] ==> code == 0 && out == Seal(cipher, m)
    {
      hide Base64.EncodeSpec, Map, Padded;
      if m == [] {
        return -1, [];
      }
      LengthFits(|m|);
      var data := Pad(m);
      var enc := Transform(cipher.enc, data);
      var text := Base64.Encode(enc[..]);
      code, out := 0, match text case Some(t) => t case None => [];
    }

    method Decrypt(text: seq<Octet>) returns (code: int, out: seq<Octet>)
      requires |text| < TWO_31
      ensures match Open(cipher, text)
              case Opened(m) => code == 0 && out == m
              case Refused(e) => code == e && out == []
    {
      hide Base64.DecodeSpec, Map, Decode32;
      if text == [] {
        return -1, [];
      }
      var result := Base64.Decode(text);
      if result == [] {
        return -2, [];
      }
      if |result| % 16 != 0 {
        return -3, [];
      }
      var data := new Octet[|result|](i requires 0 <= i < |result| => result[i]);
      assert data[..] == result;
      var plain := Transform(cipher.dec, data);
      var n := Decode32(plain[plain.Length - 4..]);
      if n > |result| {
        return -4, [];
      }
      return 0, plain[..n];
    }
  }
}
