/** CImPdu: the 16-byte header, the length-prefixed framing, and cutting a stream back into PDUs. */
module Pdus {
  import opened Octets
  import opened SimpleBuffers

  const HEADER_LEN: nat := 16

  datatype Header = Header(length: Word32, version: Word16, flag: Word16, serviceId: Word16,
                           commandId: Word16, seqNum: Word16, reversed: Word16)

  // The constructor's defaults: IM_PDU_VERSION and SID_OTHER; length is left uninitialised.
  function DefaultHeader(length: Word32): Header { Header(length, 1, 0, 7, 0, 0, 0) }

  function EncodeHeader(h: Header): (b: seq<Octet>)
    ensures |b| == HEADER_LEN
  {
    Encode32(h.length) + Encode16(h.version) + Encode16(h.flag) + Encode16(h.serviceId)
    + Encode16(h.commandId) + Encode16(h.seqNum) + Encode16(h.reversed)
  }

  function DecodeHeader(b: seq<Octet>): Header
    requires |b| >= HEADER_LEN
  {
    Header(Decode32(b), Decode16(b[4..]), Decode16(b[6..]), Decode16(b[8..]),
           Decode16(b[10..]), Decode16(b[12..]), Decode16(b[14..]))
  }

  // The header in the first 16 bytes: each field at its offset, most significant byte first.
  predicate OnWire(h: Header, b: seq<Octet>)
    requires |b| >= 16
  {
    && h.length as int == b[0] as int * 0x100_0000 + b[1] as int * 0x1_0000 + b[2] as int * 0x100 + b[3]
    && h.version as int == b[4] as int * 256 + b[5] && h.flag as int == b[6] as int * 256 + b[7]
    && h.serviceId as int == b[8] as int * 256 + b[9] && h.commandId as int == b[10] as int * 256 + b[11]
    && h.seqNum as int == b[12] as int * 256 + b[13] && h.reversed as int == b[14] as int * 256 + b[15]
  }

  // Writing and reading the header agree with it, and nothing else does.
  lemma WireFormat(h: Header, b: seq<Octet>)
    requires |b| >= HEADER_LEN
    ensures OnWire(h, EncodeHeader(h))
    ensures OnWire(h, b) <==> DecodeHeader(b) == h
  {
    hide Decode16, Decode32, Encode16, Encode32;
    BigEndian32(h.length, b);
    BigEndian16(h.version, b[4..]);
    BigEndian16(h.flag, b[6..]);
    BigEndian16(h.serviceId, b[8..]);
    BigEndian16(h.commandId, b[10..]);
    BigEndian16(h.seqNum, b[12..]);
    BigEndian16(h.reversed, b[14..]);
  }

  // Of the header written before a body.
  lemma HeaderOnWire(h: Header, body: seq<Octet>)
    ensures OnWire(h, EncodeHeader(h) + body)
  {
    hide EncodeHeader;
    WireFormat(h, EncodeHeader(h));
  }

  lemma HeaderRoundTrip(h: Header, body: seq<Octet>)
    ensures DecodeHeader(EncodeHeader(h) + body) == h
  {
    hide Encode16, Encode32, Decode16, Decode32;
    var b := EncodeHeader(h) + body;
    assert b[..4] == Encode32(h.length);
    assert b[4..][..2] == Encode16(h.version);
    assert b[6..][..2] == Encode16(h.flag);
    assert b[8..][..2] == Encode16(h.serviceId);
    assert b[10..][..2] == Encode16(h.commandId);
    assert b[12..][..2] == Encode16(h.seqNum);
    assert b[14..][..2] == Encode16(h.reversed);
    RoundTrip32(h.length, b);
    Front32(b);
    FieldAt(b, 4, h.version);
    FieldAt(b, 6, h.flag);
    FieldAt(b, 8, h.serviceId);
    FieldAt(b, 10, h.commandId);
    FieldAt(b, 12, h.seqNum);
    FieldAt(b, 14, h.reversed);
  }

  lemma Front32(b: seq<Octet>)
    requires |b| >= 4
    ensures Decode32(b[..4]) == Decode32(b)
  {
    assert b[..4][2..][..2] == b[2..][..2];
  }

  lemma FieldAt(b: seq<Octet>, at: nat, v: Word16)
    requires at + 2 <= |b| && b[at..][..2] == Encode16(v)
    ensures Decode16(b[at..]) == v
  {
    RoundTrip16(v, b);
    assert b[at..][0] == b[at..][..2][0] && b[at..][1] == b[at..][..2][1];
  }

  // Two bytes at an offset replaced.
  function Overwrite(b: seq<Octet>, at: nat, v: seq<Octet>): (r: seq<Octet>)
    requires at + |v| <= |b|
    ensures |r| == |b|
  {
    b[..at] + v + b[at + |v|..]
  }

  datatype Slot = Version | Flag | ServiceId | CommandId | SeqNum | Reversed

  function Offset(s: Slot): nat {
    match s case Version => 4 case Flag => 6 case ServiceId => 8 case CommandId => 10
    case SeqNum => 12 case Reversed => 14
  }

  function WithSlot(h: Header, s: Slot, v: Word16): Header {
    match s
    case Version => h.(version := v) case Flag => h.(flag := v) case ServiceId => h.(serviceId := v)
    case CommandId => h.(commandId := v) case SeqNum => h.(seqNum := v) case Reversed => h.(reversed := v)
  }

  // Writing a field changes that field and nothing else.
  lemma SetterMeaning(b: seq<Octet>, s: Slot, v: Word16)
    requires |b| >= HEADER_LEN
    ensures var r := Overwrite(b, Offset(s), Encode16(v));
            DecodeHeader(r) == WithSlot(DecodeHeader(b), s, v) && r[HEADER_LEN..] == b[HEADER_LEN..]
  {
    hide Encode16, Decode16, Decode32;
    var o := Offset(s);
    var r := Overwrite(b, o, Encode16(v));
    assert r[o..][..2] == Encode16(v);
    FieldAt(r, o, v);
    assert r[..4] == b[..4];
    Front32(b);
    Front32(r);
    SameElsewhere(b, r, o, 4);
    SameElsewhere(b, r, o, 6);
    SameElsewhere(b, r, o, 8);
    SameElsewhere(b, r, o, 10);
    SameElsewhere(b, r, o, 12);
    SameElsewhere(b, r, o, 14);
  }

  lemma SameElsewhere(b: seq<Octet>, r: seq<Octet>, o: nat, at: nat)
    requires |b| == |r| && o + 2 <= |b| && at + 2 <= |b| && r[..o] == b[..o] && r[o + 2..] == b[o + 2..]
    requires at + 2 <= o || o + 2 <= at || at == o
    ensures at != o ==> Decode16(r[at..]) == Decode16(b[at..])
  {
    if at + 2 <= o {
      assert r[..o][at..at + 2] == b[..o][at..at + 2];
    } else if o + 2 <= at {
      assert r[o + 2..][at - o - 2..] == b[o + 2..][at - o - 2..];
    }
  }

  // What HandlePdu is given: the header fields and the bytes of the PDU.
  datatype Frame = Frame(header: Header, bytes: seq<Octet>)

  datatype Available = TooShort | ZeroLength | Ready(pduLen: Word32)

  // IsPduAvailable; ZeroLength is the exception it throws.
  function IsPduAvailable(buf: seq<Octet>): (a: Available)
    ensures a.Ready? ==> HEADER_LEN <= |buf| && 0 < a.pduLen <= |buf|
    ensures a.Ready? ==>
              a.pduLen as int
              == buf[0] as int * 0x100_0000 + buf[1] as int * 0x1_0000 + buf[2] as int * 0x100 + buf[3]
  {
    if |buf| < HEADER_LEN then TooShort
    else if Decode32(buf) > |buf| then TooShort
    else if Decode32(buf) == 0 then ZeroLength
    else Ready(Decode32(buf))
  }

  datatype Parsed = Parsed(frames: seq<Frame>, rest: seq<Octet>, broken: bool)

  // Every PDU that a stream holds, what is left over, and whether a zero length broke it.
  function Parse(b: seq<Octet>): Parsed
    decreases |b|
  {
    match IsPduAvailable(b)
    case TooShort => Parsed([], b, false)
    case ZeroLength => Parsed([], b, true)
    case Ready(n) =>
      var p := Parse(b[n..]);
      p.(frames := [Frame(DecodeHeader(b), b[..n])] + p.frames)
  }

  lemma AvailableStays(a: seq<Octet>, b: seq<Octet>)
    requires !IsPduAvailable(a).TooShort?
    ensures IsPduAvailable(a + b) == IsPduAvailable(a) && DecodeHeader(a + b) == DecodeHeader(a)
  {
    var c := a + b;
    assert c[2..][..2] == a[2..][..2];
    assert c[4..][..12] == a[4..][..12];
    assert forall i | 0 <= i < 16 :: c[i] == a[i];
  }

  // Parsing can stop and go on anywhere.
  lemma {:induction false} ParseConcat(a: seq<Octet>, b: seq<Octet>)
    ensures var p := Parse(a);
            var q := Parse(p.rest + b);
            Parse(a + b) == if p.broken then p.(rest := p.rest + b) else q.(frames := p.frames + q.frames)
    decreases |a|
  {
    hide DecodeHeader, IsPduAvailable;
    match IsPduAvailable(a)
    case TooShort => assert [] + Parse(a + b).frames == Parse(a + b).frames;
    case ZeroLength => AvailableStays(a, b);
    case Ready(n) =>
      AvailableStays(a, b);
      assert (a + b)[n..] == a[n..] + b && (a + b)[..n] == a[..n];
      ParseConcat(a[n..], b);
      var p := Parse(a[n..]);
      var q := Parse(p.rest + b);
      assert [Frame(DecodeHeader(a), a[..n])] + (p.frames + q.frames)
          == ([Frame(DecodeHeader(a), a[..n])] + p.frames) + q.frames;
  }

  // A PDU that a sender built: a header whose length counts everything, and a body.
  predicate WellFramed(b: seq<Octet>) { HEADER_LEN <= |b| < TWO_31 && Decode32(b) == |b| }

  function Stream(pdus: seq<seq<Octet>>): seq<Octet> {
    if pdus == [] then [] else pdus[0] + Stream(pdus[1..])
  }

  function Frames(pdus: seq<seq<Octet>>): (f: seq<Frame>)
    requires forall b <- pdus :: WellFramed(b)
    ensures |f| == |pdus|
  {
    if pdus == [] then []
    else
      assert WellFramed(pdus[0]) && forall c <- pdus[1..] :: c in pdus;
      [Frame(DecodeHeader(pdus[0]), pdus[0])] + Frames(pdus[1..])
  }

  lemma ParseOne(b: seq<Octet>, later: seq<Octet>)
    requires WellFramed(b)
    ensures var p := Parse(later);
            Parse(b + later) == p.(frames := [Frame(DecodeHeader(b), b)] + p.frames)
  {
    hide DecodeHeader, Decode32;
    assert IsPduAvailable(b) == Ready(|b|);
    AvailableStays(b, later);
    assert (b + later)[|b|..] == later && (b + later)[..|b|] == b;
  }

  lemma ParsePart(b: seq<Octet>, part: seq<Octet>)
    requires WellFramed(b) && part < b
    ensures Parse(part) == Parsed([], part, false)
  {
    hide DecodeHeader, Decode32;
    assert b == part + b[|part|..];
    if !IsPduAvailable(part).TooShort? {
      AvailableStays(part, b[|part|..]);
    }
  }

  lemma {:induction false} ParseStream(pdus: seq<seq<Octet>>)
    requires forall b <- pdus :: WellFramed(b)
    ensures Parse(Stream(pdus)) == Parsed(Frames(pdus), [], false)
    decreases |pdus|
  {
    hide DecodeHeader, WellFramed, Parse;
    if pdus == [] {
      ParseNothing();
    } else {
      assert WellFramed(pdus[0]) && forall c <- pdus[1..] :: c in pdus;
      ParseStream(pdus[1..]);
      ParseOne(pdus[0], Stream(pdus[1..]));
    }
  }

  lemma ParseNothing()
    ensures Parse([]) == Parsed([], [], false)
  {
  }

  // p holds exactly the PDUs that `received` completes, in order, and less than one PDU is left over.
  predicate CutsExactly(pdus: seq<seq<Octet>>, received: seq<Octet>, p: Parsed)
    requires forall b <- pdus :: WellFramed(b)
  {
    var k := |p.frames|;
    && !p.broken && p.frames <= Frames(pdus)
    && received == Stream(pdus[..k]) + p.rest
    && (k < |pdus| ==> |p.rest| < |pdus[k]|)
  }

  lemma CutsOneMore(pdus: seq<seq<Octet>>, later: seq<Octet>, p: Parsed)
    requires pdus != [] && forall b <- pdus :: WellFramed(b)
    requires WellFramed(pdus[0]) && CutsExactly(pdus[1..], later, p)
    ensures CutsExactly(pdus, pdus[0] + later, p.(frames := [Frame(DecodeHeader(pdus[0]), pdus[0])] + p.frames))
  {
    hide WellFramed, DecodeHeader, Stream;
    var k := |p.frames|;
    StreamMore(pdus, k);
    assert pdus[0] + (Stream(pdus[1..][..k]) + p.rest) == (pdus[0] + Stream(pdus[1..][..k])) + p.rest;
  }

  // Whatever prefix of the stream has arrived, it is cut exactly.
  lemma {:induction false} ParsePrefix(pdus: seq<seq<Octet>>, received: seq<Octet>)
    requires forall b <- pdus :: WellFramed(b)
    requires received <= Stream(pdus)
    ensures CutsExactly(pdus, received, Parse(received))
    decreases |pdus|
  {
    hide DecodeHeader, WellFramed, Parse, CutsExactly;
    if pdus == [] {
      ParseNothing();
      CutsNothing(pdus, received);
    } else {
      var b, rest := pdus[0], pdus[1..];
      assert WellFramed(b) && forall c <- rest :: c in pdus;
      if |received| < |b| {
        assert received == Stream(pdus)[..|received|] == b[..|received|];
        ParsePart(b, received);
        CutsNothing(pdus, received);
      } else {
        var later := received[|b|..];
        PrefixSplit(received, b, Stream(rest));
        ParseOne(b, later);
        ParsePrefix(rest, later);
        CutsOneMore(pdus, later, Parse(later));
      }
    }
  }

  lemma CutsNothing(pdus: seq<seq<Octet>>, part: seq<Octet>)
    requires forall b <- pdus :: WellFramed(b)
    requires pdus != [] ==> |part| < |pdus[0]|
    ensures CutsExactly(pdus, part, Parsed([], part, false))
  {
    assert Stream(pdus[..0]) == [];
  }

  lemma PrefixSplit(received: seq<Octet>, b: seq<Octet>, rest: seq<Octet>)
    requires received <= b + rest && |received| >= |b|
    ensures received == b + received[|b|..] && received[|b|..] <= rest
  {
    assert received[..|b|] == (b + rest)[..|b|] == b;
  }

  lemma StreamMore(pdus: seq<seq<Octet>>, k: nat)
    requires pdus != [] && k < |pdus|
    ensures Stream(pdus[..k + 1]) == pdus[0] + Stream(pdus[1..][..k])
  {
    assert pdus[..k + 1][1..] == pdus[1..][..k];
  }

  // One more field of a header that is being written from the front.
  lemma OverwriteNext(done: seq<Octet>, b: seq<Octet>, v: seq<Octet>)
    requires |done| + |v| <= HEADER_LEN <= |b| && b[..|done|] == done
    ensures Overwrite(b, |done|, v)[..|done| + |v|] == done + v
    ensures Overwrite(b, |done|, v)[HEADER_LEN..] == b[HEADER_LEN..]
  {
  }

  // NULL, the exception, or a new PDU.
  datatype ReadResult = Null | Thrown | Pdu(pdu: ImPdu)

  class ImPdu {
    const buf: SimpleBuffer
    var header: Header

    ghost predicate Valid()
      reads this, buf
    {
      buf.Valid()
    }

    ghost function Bytes(): seq<Octet>
      requires Valid()
      reads this, buf, buf.data
    {
      buf.Contents()
    }

    constructor ()
      ensures Valid() && fresh(buf) && fresh(buf.data) && Bytes() == []
      ensures header == DefaultHeader(header.length)
      ensures header.version == 1 && header.serviceId == 7 && header.flag == header.commandId == 0
      ensures header.seqNum == header.reversed == 0
    {
      buf := new SimpleBuffer();
      var length: Word32 := *;
      header := DefaultHeader(length);
    }

    method WriteUint16(at: nat, v: Word16)
      requires Valid() && at + 2 <= buf.used
      modifies buf.data
      ensures Valid() && Bytes() == Overwrite(old(Bytes()), at, Encode16(v))
    {
      buf.data[at] := v / 256;
      buf.data[at + 1] := v % 256;
    }

    method WriteInt32(at: nat, v: Word32)
      requires Valid() && at + 4 <= buf.used
      modifies buf.data
      ensures Valid() && Bytes() == Overwrite(old(Bytes()), at, Encode32(v))
    {
      buf.data[at], buf.data[at + 1] := v / TWO_16 / 256, v / TWO_16 % 256;
      buf.data[at + 2], buf.data[at + 3] := v % TWO_16 / 256, v % 256;
      assert v % 256 == v % TWO_16 % 256;
    }

    // The length written is that of the buffer; m_pdu_header.length is not consulted.
    method WriteHeader()
      requires Valid() && HEADER_LEN <= buf.used
      modifies buf.data
      ensures Valid() && |Bytes()| == |old(Bytes())|
      ensures Bytes() == EncodeHeader(header.(length := |Bytes()|)) + old(Bytes())[HEADER_LEN..]
      ensures OnWire(header.(length := |Bytes()|), Bytes())
    {
      hide Encode16, Encode32, Overwrite, OnWire;
      var h := header;
      ghost var b0 := Bytes();
      WriteInt32(0, buf.used);
      OverwriteNext([], b0, Encode32(buf.used));
      ghost var b1 := Bytes();
      WriteUint16(4, h.version);
      OverwriteNext(b1[..4], b1, Encode16(h.version));
      ghost var b2 := Bytes();
      WriteUint16(6, h.flag);
      OverwriteNext(b2[..6], b2, Encode16(h.flag));
      ghost var b3 := Bytes();
      WriteUint16(8, h.serviceId);
      OverwriteNext(b3[..8], b3, Encode16(h.serviceId));
      ghost var b4 := Bytes();
      WriteUint16(10, h.commandId);
      OverwriteNext(b4[..10], b4, Encode16(h.commandId));
      ghost var b5 := Bytes();
      WriteUint16(12, h.seqNum);
      OverwriteNext(b5[..12], b5, Encode16(h.seqNum));
      ghost var b6 := Bytes();
      WriteUint16(14, h.reversed);
      OverwriteNext(b6[..14], b6, Encode16(h.reversed));
      assert [] + Encode32(buf.used) == Encode32(buf.used);
      assert Bytes()[..HEADER_LEN] == EncodeHeader(h.(length := buf.used));
      assert Bytes() == Bytes()[..HEADER_LEN] + Bytes()[HEADER_LEN..];
      HeaderOnWire(h.(length := buf.used), old(Bytes())[HEADER_LEN..]);
    }

    // SetVersion, SetFlag, SetServiceId, SetCommandId, SetSeqNum (and SetError) and SetReversed:
    // they change the bytes, not m_pdu_header. SetReversed takes 32 bits and keeps 16.
    method Set(s: Slot, v: Word32)
      requires Valid() && HEADER_LEN <= buf.used && (s.Reversed? || v < TWO_16)
      modifies buf.data
      ensures Valid() && |Bytes()| == |old(Bytes())|
      ensures DecodeHeader(Bytes()) == WithSlot(DecodeHeader(old(Bytes())), s, v % TWO_16)
      ensures Bytes()[HEADER_LEN..] == old(Bytes())[HEADER_LEN..]
      ensures OnWire(WithSlot(DecodeHeader(old(Bytes())), s, v % TWO_16), Bytes())
    {
      SetterMeaning(Bytes(), s, v % TWO_16);
      WriteUint16(Offset(s), v % TWO_16);
      WireFormat(DecodeHeader(Bytes()), Bytes());
    }

    // msg: the serialised protobuf message
    method SetPBMsg(msg: seq<Octet>)
      requires Valid() && HEADER_LEN + |msg| < TWO_31
      modifies buf, buf.data
      ensures Valid() && WellFramed(Bytes()) && (buf.data == old(buf.data) || fresh(buf.data))
      ensures Bytes() == EncodeHeader(header.(length := HEADER_LEN + |msg|)) + msg
      ensures |Bytes()| == 16 + |msg| && OnWire(header.(length := |Bytes()|), Bytes()) && Bytes()[16..] == msg
    {
      var _, _ := buf.Read(buf.used);
      buf.WriteNothing(HEADER_LEN);
      buf.Write(msg);
      assert Bytes()[HEADER_LEN..] == msg;
      WriteHeader();
      HeaderRoundTrip(header.(length := |Bytes()|), msg);
    }

    // -1 if there are not 16 bytes.
    method ReadPduHeader(b: seq<Octet>) returns (ret: int)
      modifies this`header
      ensures ret == (if |b| >= HEADER_LEN then 0 else -1)
      ensures header == if |b| >= HEADER_LEN then DecodeHeader(b) else old(header)
      ensures |b| >= 16 ==> OnWire(header, b)
    {
      ret := -1;
      if |b| >= HEADER_LEN {
        var length := Decode32(b);
        var version, flag := Decode16(b[4..]), Decode16(b[6..]);
        var service, command := Decode16(b[8..]), Decode16(b[10..]);
        var seqNum, reversed := Decode16(b[12..]), Decode16(b[14..]);
        header := Header(length, version, flag, service, command, seqNum, reversed);
        WireFormat(header, b);
        ret := 0;
      }
    }

    static method ReadPdu(b: seq<Octet>) returns (r: ReadResult)
      requires |b| < TWO_31
      ensures r == match IsPduAvailable(b) case TooShort => Null case ZeroLength => Thrown case Ready(_) => r
      ensures r.Pdu? <==> IsPduAvailable(b).Ready?
      ensures r.Pdu? ==> fresh(r.pdu) && fresh(r.pdu.buf) && fresh(r.pdu.buf.data) && r.pdu.Valid()
      ensures r.Pdu? ==> r.pdu.header == DecodeHeader(b) && r.pdu.Bytes() == b[..IsPduAvailable(b).pduLen]
      ensures r.Pdu? ==> OnWire(r.pdu.header, b) && r.pdu.header.length == |r.pdu.Bytes()|
    {
      match IsPduAvailable(b)
      case TooShort => r := Null;
      case ZeroLength => r := Thrown;
      case Ready(n) =>
        var pdu := new ImPdu();
        pdu.buf.Write(b[..n]);
        var _ := pdu.ReadPduHeader(b[..HEADER_LEN]);
        HeaderIsFront(b);
        WireFormat(DecodeHeader(b), b);
        r := Pdu(pdu);
    }
  }

  lemma HeaderIsFront(b: seq<Octet>)
    requires |b| >= HEADER_LEN
    ensures DecodeHeader(b[..HEADER_LEN]) == DecodeHeader(b)
  {
  }
}
