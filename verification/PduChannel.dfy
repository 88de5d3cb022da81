/** Two connections and the network between them: PDUs arrive whole, unchanged and in order. */
module PduChannel {
  import opened Octets
  import opened Pdus
  import opened ImConns

  // What a receiver has handled when it has read a prefix of what the sender's socket took.
  lemma EndToEnd(tx: ImConn, rx: ImConn, pdus: seq<seq<Octet>>)
    requires tx.Valid() && rx.Valid() && (forall b <- pdus :: WellFramed(b))
    requires tx.sent == Stream(pdus) && rx.received <= tx.socket.wire
    ensures !rx.closed && rx.handled <= Frames(pdus)
    ensures CutsExactly(pdus, rx.received, Parsed(rx.handled, rx.inBuf.Contents(), false))
    ensures !tx.busy && rx.received == tx.socket.wire ==> rx.handled == Frames(pdus)
  {
    hide Parse, Frames, WellFramed;
    assert tx.socket.wire <= tx.sent;
    ParsePrefix(pdus, rx.received);
    if !tx.busy && rx.received == tx.socket.wire {
      assert tx.socket.wire + [] == tx.socket.wire;
      ParseStream(pdus);
    }
  }

  class Channel {
    const tx: ImConn
    const rx: ImConn
    ghost var pdus: seq<seq<Octet>>   // what SendPdu was called with
    var moved: nat                    // how much of the sender's bytes the network has delivered

    ghost predicate Apart()
      reads this, tx, rx, tx.inBuf, tx.outBuf, rx.inBuf, rx.outBuf
    {
      && tx != rx && tx.socket != rx.socket
      && {tx.inBuf, tx.outBuf} !! {rx.inBuf, rx.outBuf}
      && {tx.inBuf.data, tx.outBuf.data} !! {rx.inBuf.data, rx.outBuf.data}
    }

    ghost predicate Valid()
      reads this, tx, rx, tx.socket, rx.socket, tx.inBuf, tx.outBuf, rx.inBuf, rx.outBuf,
            tx.inBuf.data, tx.outBuf.data, rx.inBuf.data, rx.outBuf.data
    {
      && Apart() && tx.Valid() && rx.Valid()
      && (forall b <- pdus :: WellFramed(b)) && tx.sent == Stream(pdus)
      && moved <= |tx.socket.wire| && rx.received + rx.socket.incoming == tx.socket.wire[..moved]
    }

    constructor ()
      ensures Valid() && pdus == []
    {
      hide Parse, Frames, WellFramed, ImConn.Valid;
      var a := new Socket();
      var b := new Socket();
      tx := new ImConn(a);
      rx := new ImConn(b);
      pdus, moved := [], 0;
    }

    // CImConn::SendPdu
    method SendPdu(pdu: ImPdu)
      requires Valid() && pdu.Valid() && WellFramed(pdu.Bytes()) && tx.outBuf.used + pdu.buf.used < TWO_31
      modifies this`pdus, tx`busy, tx`sent, tx.socket`wire, tx.socket`refusals, tx.outBuf, tx.outBuf.data
      ensures Valid() && pdus == old(pdus) + [old(pdu.Bytes())]
    {
      hide Parse, WellFramed;
      StreamSnoc(pdus, pdu.Bytes());
      pdus := pdus + [pdu.Bytes()];
      var _ := tx.Send(pdu.buf.data[..pdu.buf.used]);
    }

    method OnWrite()
      requires Valid()
      modifies tx`busy, tx.socket`wire, tx.socket`refusals, tx.outBuf`used, tx.outBuf.data
      ensures Valid()
    {
      hide Parse, WellFramed;
      tx.OnWrite();
    }

    // The network delivers some more bytes.
    method Move(n: nat)
      requires Valid() && moved + n <= |tx.socket.wire|
      modifies this`moved, rx.socket`incoming
      ensures Valid() && moved == old(moved) + n
    {
      hide Parse, WellFramed;
      rx.socket.incoming := rx.socket.incoming + tx.socket.wire[moved..moved + n];
      moved := moved + n;
    }

    method OnRead()
      requires Valid() && rx.inBuf.used + |rx.socket.incoming| + READ_BUF_SIZE < TWO_31
      modifies rx`received, rx`handled, rx`closed, rx.socket`incoming, rx.socket`refusals, rx.inBuf, rx.inBuf.data
      ensures Valid()
    {
      hide Parse, WellFramed;
      NeverCloses();
      rx.OnRead();
    }

    lemma NeverCloses()
      requires Valid()
      ensures rx.received <= tx.socket.wire
      ensures !rx.closed && rx.handled <= Frames(pdus)
      ensures !tx.busy && rx.received == tx.socket.wire ==> rx.handled == Frames(pdus)
    {
      hide Parse, Frames, WellFramed;
      EndToEnd(tx, rx, pdus);
    }
  }

  lemma {:induction false} StreamSnoc(pdus: seq<seq<Octet>>, b: seq<Octet>)
    ensures Stream(pdus + [b]) == Stream(pdus) + b
    decreases |pdus|
  {
    if pdus == [] {
      assert [b][1..] == [];
    } else {
      assert (pdus + [b])[1..] == pdus[1..] + [b];
      StreamSnoc(pdus[1..], b);
    }
  }
}
