/** CImConn: sending over a socket that takes part of what it is offered, reading fragments. */
module ImConns {
  import opened Octets
  import opened SimpleBuffers
  import opened Pdus

  const READ_BUF_SIZE: nat := 2048
  const NETLIB_MAX_SOCKET_BUF_SIZE: nat := 128 * 1024

  // The handle behind netlib_send and netlib_recv. wire: everything it has taken, in order;
  // incoming: what has arrived and has not been read.
  class Socket {
    var wire: seq<Octet>
    var incoming: seq<Octet>
    ghost var refusals: nat   // how often either call gave nothing

    constructor ()
      ensures wire == [] && incoming == []
    {
      wire, incoming := [], [];
      refusals := 0;
    }

    // Takes any part of the data, or nothing, or fails.
    method Send(data: seq<Octet>) returns (ret: int)
      modifies this`wire, this`refusals
      ensures ret <= |data|
      ensures wire == if ret <= 0 then old(wire) else old(wire) + data[..ret]
      ensures refusals == if ret <= 0 then old(refusals) + 1 else old(refusals)
    {
      ret :| ret <= |data|;
      if ret > 0 {
        wire := wire + data[..ret];
      } else {
        refusals := refusals + 1;
      }
    }

    // Gives any part of what is there, at most `size` bytes, or nothing, or fails.
    method Recv(size: nat) returns (ret: int, data: seq<Octet>)
      modifies this`incoming, this`refusals
      ensures ret <= size && ret <= |old(incoming)|
      ensures data == (if ret <= 0 then [] else old(incoming)[..ret])
      ensures incoming == (if ret <= 0 then old(incoming) else old(incoming)[ret..])
      ensures refusals == if ret <= 0 then old(refusals) + 1 else old(refusals)
    {
      ret :| ret <= size && ret <= |incoming|;
      data := [];
      if ret > 0 {
        data := incoming[..ret];
        incoming := incoming[ret..];
      } else {
        refusals := refusals + 1;
      }
    }
  }

  class ImConn {
    const socket: Socket
    const inBuf: SimpleBuffer
    const outBuf: SimpleBuffer
    var busy: bool
    var handled: seq<Frame>   // the calls of HandlePdu
    var closed: bool          // OnClose was called by OnRead
    ghost var sent: seq<Octet>
    ghost var received: seq<Octet>

    ghost predicate Valid()
      reads this, socket, inBuf, outBuf, inBuf.data, outBuf.data
    {
      && inBuf.Valid() && outBuf.Valid() && inBuf != outBuf && inBuf.data != outBuf.data
      // What the socket took and what waits for it is what was sent; busy when something waits.
      && socket.wire + outBuf.Contents() == sent && (busy <==> outBuf.used > 0)
      // The PDUs handled, the rest buffered and the failure are those of the bytes received.
      && Parse(received) == Parsed(handled, inBuf.Contents(), closed)
    }

    constructor (socket: Socket)
      requires socket.wire == []
      ensures Valid() && this.socket == socket && sent == [] && received == [] && handled == []
      ensures fresh(inBuf) && fresh(outBuf) && fresh(inBuf.data) && fresh(outBuf.data)
    {
      this.socket := socket;
      inBuf := new SimpleBuffer();
      outBuf := new SimpleBuffer();
      busy, closed, handled := false, false, [];
      sent, received := [], [];
    }

    // The loop of Send: offer the rest in blocks until the socket refuses.
    method Offer(data: seq<Octet>) returns (offset: nat)
      modifies socket`wire, socket`refusals
      ensures offset <= |data| && socket.wire == old(socket.wire) + data[..offset]
      ensures offset == |data| || socket.refusals > old(socket.refusals)
    {
      offset := 0;
      var remain := |data|;
      while remain > 0
        invariant 0 <= remain && offset + remain == |data|
        invariant socket.wire == old(socket.wire) + data[..offset]
        invariant socket.refusals == old(socket.refusals)
      {
        var size := if remain > NETLIB_MAX_SOCKET_BUF_SIZE then NETLIB_MAX_SOCKET_BUF_SIZE else remain;
        var n := socket.Send(data[offset..offset + size]);
        if n <= 0 {
          break;
        }
        assert data[..offset] + data[offset..offset + size][..n] == data[..offset + n];
        offset, remain := offset + n, remain - n;
      }
    }

    method Send(data: seq<Octet>) returns (ret: int)
      requires Valid() && outBuf.used + |data| < TWO_31
      modifies this`busy, this`sent, socket`wire, socket`refusals, outBuf, outBuf.data
      ensures Valid() && (outBuf.data == old(outBuf.data) || fresh(outBuf.data))
      ensures sent == old(sent) + data && ret == |data|
      ensures busy ==> old(busy) || socket.refusals > old(socket.refusals)
      ensures old(socket.wire) <= socket.wire
    {
      hide Parse;
      sent := sent + data;
      ret := |data|;
      ghost var wire, out := socket.wire, outBuf.Contents();
      assert wire + out + data == wire + (out + data);
      if busy {
        outBuf.Write(data);
        return;
      }
      var offset := Offer(data);
      assert wire + data == wire + data[..offset] + data[offset..];
      if |data| - offset > 0 {
        outBuf.Write(data[offset..]);
        busy := true;
      }
    }

    // One turn of OnWrite's loop: offer a block of what waits.
    method Push() returns (n: int)
      requires outBuf.Valid() && outBuf.used > 0
      modifies socket`wire, socket`refusals, outBuf`used, outBuf.data
      ensures outBuf.Valid() && n <= |old(outBuf.Contents())|
      ensures socket.refusals == if n <= 0 then old(socket.refusals) + 1 else old(socket.refusals)
      ensures n <= 0 ==> socket.wire == old(socket.wire) && outBuf.Contents() == old(outBuf.Contents())
      ensures n > 0 ==> socket.wire == old(socket.wire) + old(outBuf.Contents())[..n]
                        && outBuf.Contents() == old(outBuf.Contents())[n..]
    {
      var size := if outBuf.used > NETLIB_MAX_SOCKET_BUF_SIZE then NETLIB_MAX_SOCKET_BUF_SIZE else outBuf.used;
      ghost var out := outBuf.Contents();
      n := socket.Send(outBuf.data[..size]);
      if n > 0 {
        assert outBuf.data[..size][..n] == out[..n];
        var _, _ := outBuf.Read(n);
      }
    }

    // The loop of OnWrite: offer what waits until nothing does or the socket refuses.
    method Flush()
      requires outBuf.Valid()
      modifies socket`wire, socket`refusals, outBuf`used, outBuf.data
      ensures outBuf.Valid() && old(socket.wire) <= socket.wire
      ensures socket.wire + outBuf.Contents() == old(socket.wire + outBuf.Contents())
      ensures outBuf.used > 0 ==> socket.refusals > old(socket.refusals)
    {
      var n := 1;
      while n > 0 && outBuf.used > 0
        invariant outBuf.Valid() && old(socket.wire) <= socket.wire
        invariant socket.refusals == if n > 0 then old(socket.refusals) else old(socket.refusals) + 1
        invariant socket.wire + outBuf.Contents() == old(socket.wire + outBuf.Contents())
        decreases outBuf.used, n
      {
        ghost var wire, out := socket.wire, outBuf.Contents();
        n := Push();
        if n > 0 {
          assert wire + out[..n] + out[n..] == wire + out;
        }
      }
    }

    method OnWrite()
      requires Valid()
      modifies this`busy, socket`wire, socket`refusals, outBuf`used, outBuf.data
      ensures Valid() && old(socket.wire) <= socket.wire
      ensures busy ==> socket.refusals > old(socket.refusals)
    {
      hide Parse;
      if !busy {
        return;
      }
      Flush();
      if outBuf.used == 0 {
        busy := false;
      }
    }

    // One turn of OnRead's first loop: make room, receive behind the bytes already buffered.
    method Fetch() returns (n: int)
      requires inBuf.Valid() && inBuf.used + |socket.incoming| + READ_BUF_SIZE < TWO_31
      modifies this`received, socket`incoming, socket`refusals, inBuf, inBuf.data
      ensures inBuf.Valid() && (inBuf.data == old(inBuf.data) || fresh(inBuf.data))
      ensures n <= |old(socket.incoming)|
      ensures socket.refusals == if n <= 0 then old(socket.refusals) + 1 else old(socket.refusals)
      ensures n <= 0 ==> socket.incoming == old(socket.incoming) && received == old(received)
                         && inBuf.Contents() == old(inBuf.Contents())
      ensures n > 0 ==> var data := old(socket.incoming)[..n];
                        && socket.incoming == old(socket.incoming)[n..] && received == old(received) + data
                        && inBuf.Contents() == old(inBuf.Contents()) + data
    {
      if inBuf.alloc - inBuf.used < READ_BUF_SIZE {
        inBuf.Extend(READ_BUF_SIZE);
      }
      var data;
      n, data := socket.Recv(READ_BUF_SIZE);
      if n > 0 {
        ghost var before := inBuf.Contents();
        inBuf.Fill(data);
        inBuf.IncWriteOffset(n);
        assert inBuf.Contents() == before + data;
        received := received + data;
      }
    }

    // OnRead's first loop, up to the first receive that gives nothing.
    method Drain()
      requires inBuf.Valid() && inBuf.used + |socket.incoming| + READ_BUF_SIZE < TWO_31
      modifies this`received, socket`incoming, socket`refusals, inBuf, inBuf.data
      ensures inBuf.Valid() && (inBuf.data == old(inBuf.data) || fresh(inBuf.data))
      ensures inBuf.used < TWO_31
      ensures old(received) <= received && received + socket.incoming == old(received + socket.incoming)
      ensures inBuf.Contents() == old(inBuf.Contents()) + received[|old(received)|..]
      ensures socket.refusals == old(socket.refusals) + 1
    {
      var n := 1;
      while n > 0
        invariant inBuf.Valid() && (inBuf.data == old(inBuf.data) || fresh(inBuf.data))
        invariant inBuf.used + |socket.incoming| + READ_BUF_SIZE < TWO_31
        invariant old(received) <= received && received + socket.incoming == old(received + socket.incoming)
        invariant inBuf.Contents() == old(inBuf.Contents()) + received[|old(received)|..]
        invariant socket.refusals == if n > 0 then old(socket.refusals) else old(socket.refusals) + 1
        decreases |socket.incoming|, n
      {
        ghost var r0, i0 := received, socket.incoming;
        n := Fetch();
        if n > 0 {
          assert r0 + i0 == r0 + i0[..n] + i0[n..];
        }
      }
    }

    method HandlePdu(pdu: ImPdu)
      requires pdu.Valid()
      modifies this`handled
      ensures handled == old(handled) + [Frame(pdu.header, pdu.Bytes())]
    {
      handled := handled + [Frame(pdu.header, pdu.buf.data[..pdu.buf.used])];
    }

    // One turn of OnRead's second loop: hand over the first PDU if it is complete.
    method TakeOne() returns (more: bool)
      requires inBuf.Valid() && inBuf.used < TWO_31 && !closed
      modifies this`handled, this`closed, inBuf`used, inBuf.data
      ensures inBuf.Valid() && inBuf.used <= old(inBuf.used)
      ensures !more ==> handled == old(handled) && Parse(old(inBuf.Contents())) == Parsed([], inBuf.Contents(), closed)
      ensures more ==>
                && !closed && inBuf.used < old(inBuf.used) && |handled| == |old(handled)| + 1 && old(handled) <= handled
                && var p := Parse(inBuf.Contents());
                   Parse(old(inBuf.Contents())) == p.(frames := [handled[|old(handled)|]] + p.frames)
    {
      hide Parse, DecodeHeader;
      ghost var b := inBuf.Contents();
      ParseStep(b);
      var r := ImPdu.ReadPdu(inBuf.data[..inBuf.used]);
      more := r.Pdu?;
      if r.Thrown? {
        closed := true;
      }
      if r.Pdu? {
        var n := r.pdu.buf.used;
        HandlePdu(r.pdu);
        var _, _ := inBuf.Read(n);
      }
    }

    // OnRead's second loop: hand over every PDU that is complete.
    method Dispatch()
      requires inBuf.Valid() && inBuf.used < TWO_31 && !closed
      modifies this`handled, this`closed, inBuf`used, inBuf.data
      ensures inBuf.Valid()
      ensures var p := Parse(old(inBuf.Contents()));
              && handled == old(handled) + p.frames && inBuf.Contents() == p.rest && closed == p.broken
    {
      hide Parse;
      ghost var p := Parse(inBuf.Contents());
      assert handled + [] == handled;
      var more := true;
      while more
        invariant inBuf.Valid() && inBuf.used < TWO_31 && (more ==> !closed)
        invariant more ==> var q := Parse(inBuf.Contents());
                           && q.rest == p.rest && q.broken == p.broken && handled + q.frames == old(handled) + p.frames
        invariant !more ==> handled == old(handled) + p.frames && inBuf.Contents() == p.rest && closed == p.broken
        decreases inBuf.used, more
      {
        ghost var h := handled;
        more := TakeOne();
        ghost var q := Parse(inBuf.Contents());
        if more {
          assert handled == h + [handled[|h|]];
          assert h + ([handled[|h|]] + q.frames) == h + [handled[|h|]] + q.frames;
        } else {
          assert h + [] == h;
        }
      }
    }

    method OnRead()
      requires Valid() && !closed && inBuf.used + |socket.incoming| + READ_BUF_SIZE < TWO_31
      modifies this`received, this`handled, this`closed, socket`incoming, socket`refusals, inBuf, inBuf.data
      ensures Valid() && (inBuf.data == old(inBuf.data) || fresh(inBuf.data))
      ensures old(received) <= received && received + socket.incoming == old(received + socket.incoming)
      ensures socket.refusals == old(socket.refusals) + 1
    {
      hide Parse;
      Drain();
      assert received == old(received) + received[|old(received)|..];
      ParseConcat(old(received), received[|old(received)|..]);
      Dispatch();
    }
  }

  lemma ParseStep(b: seq<Octet>)
    ensures Parse(b) == match IsPduAvailable(b)
                        case TooShort => Parsed([], b, false)
                        case ZeroLength => Parsed([], b, true)
                        case Ready(n) =>
                          Parse(b[n..]).(frames := [Frame(DecodeHeader(b), b[..n])] + Parse(b[n..]).frames)
  {
  }
}
