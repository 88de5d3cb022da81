/** CSimpleBuffer: a growing byte buffer that is filled at the end and drained at the front. */
module SimpleBuffers {
  import opened Octets

  class SimpleBuffer {
    var data: array<Octet>
    var alloc: Word32
    var used: Word32

    ghost predicate Valid()
      reads this
    {
      alloc == data.Length && used <= alloc
    }

    ghost function Contents(): (s: seq<Octet>)
      requires Valid()
      reads this, data
      ensures |s| == used
    {
      data[..used]
    }

    constructor ()
      ensures Valid() && fresh(data) && Contents() == []
    {
      data := new Octet[0];
      alloc := 0;
      used := 0;
    }

    // Room for len more bytes, and a quarter on top; the arithmetic is in 32 bits.
    method Extend(len: Word32)
      requires Valid() && used + len < TWO_31
      modifies this`data, this`alloc
      ensures Valid() && fresh(data) && Contents() == old(Contents())
      ensures alloc - used >= len
    {
      var size: int := (used + len) % TWO_32;
      size := (size + size / 4) % TWO_32;
      var bigger := new Octet[size];
      var i := 0;
      while i < data.Length && i < size
        invariant data == old(data) && 0 <= i <= data.Length && i <= size
        invariant forall k :: 0 <= k < i ==> bigger[k] == data[k]
      {
        bigger[i] := data[i];
        i := i + 1;
      }
      assert bigger[..used] == data[..used];
      data, alloc := bigger, size;
    }

    // memcpy at the write offset
    method Fill(buf: seq<Octet>)
      requires Valid() && used + |buf| <= alloc
      modifies data
      ensures data[..used] == old(data[..used]) && data[used..used + |buf|] == buf
    {
      for i := 0 to |buf|
        invariant data[..used] == old(data[..used])
        invariant forall k :: 0 <= k < i ==> data[used + k] == buf[k]
      {
        data[used + i] := buf[i];
      }
    }

    method IncWriteOffset(len: Word32)
      requires Valid() && used + len <= alloc
      modifies this`used
      ensures Valid() && used == old(used) + len && Contents() == data[..used]
    {
      used := used + len;
    }

    method Write(buf: seq<Octet>)
      requires Valid() && used + |buf| < TWO_31
      modifies this, data
      ensures Valid() && (data == old(data) || fresh(data))
      ensures Contents() == old(Contents()) + buf
    {
      if used + |buf| > alloc {
        Extend(|buf|);
      }
      Fill(buf);
      ghost var before := data[..used];
      IncWriteOffset(|buf|);
      assert data[..used] == before + buf;
    }

    // Write(NULL, len): len bytes of whatever the memory holds.
    method WriteNothing(len: Word32)
      requires Valid() && used + len < TWO_31
      modifies this, data
      ensures Valid() && (data == old(data) || fresh(data))
      ensures used == old(used) + len && Contents()[..old(used)] == old(Contents())
    {
      if used + len > alloc {
        Extend(len);
      }
      IncWriteOffset(len);
    }

    // The first len bytes go, all of them if there are fewer, and are handed over; the rest moves to the
    // front.
    method Read(len: Word32) returns (taken: Word32, bytes: seq<Octet>)
      requires Valid()
      modifies this`used, data
      ensures Valid() && taken == if len > old(used) then old(used) else len
      ensures bytes == old(Contents())[..taken] && Contents() == old(Contents())[taken..]
    {
      taken := if len > used then used else len;
      bytes := data[..taken];
      var rest := used - taken;
      used := rest;
      ghost var was := data[..];
      for i := 0 to rest
        invariant used == rest
        invariant forall k :: 0 <= k < i ==> data[k] == was[k + taken]
        invariant forall k :: i <= k < |was| ==> data[k] == was[k]
      {
        data[i] := data[i + taken];
      }
    }
  }
}
