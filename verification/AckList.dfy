/** The messages a msg_server has pushed to a client and that wait for its acknowledgement. */
module AckList {
  const TIMEOUT: nat := 15_000   // TIMEOUT_WAITING_MSG_DATA_ACK, in milliseconds

  datatype Ack = Ack(msgId: nat, fromId: nat, timestamp: nat)

  predicate Expired(a: Ack, now: nat) { now >= a.timestamp + TIMEOUT }

  predicate Sorted(acks: seq<Ack>) {
    forall i, j :: 0 <= i < j < |acks| ==> acks[i].timestamp <= acks[j].timestamp
  }

  // The whole list filtered.
  function Pending(acks: seq<Ack>, now: nat): (r: seq<Ack>)
    ensures |r| <= |acks|
  {
    if acks == [] then []
    else if Expired(acks[0], now) then Pending(acks[1..], now)
    else [acks[0]] + Pending(acks[1..], now)
  }

  // If the first has not expired, none has.
  lemma {:induction false} NoneExpired(acks: seq<Ack>, now: nat)
    requires Sorted(acks) && (acks != [] ==> !Expired(acks[0], now))
    ensures Pending(acks, now) == acks
    decreases |acks|
  {
    if |acks| > 1 {
      assert acks[0].timestamp <= acks[1].timestamp;
      NoneExpired(acks[1..], now);
    }
  }

  predicate Matches(a: Ack, msgId: nat, fromId: nat) { a.msgId == msgId && a.fromId == fromId }

  // Without the first match.
  function Without(acks: seq<Ack>, msgId: nat, fromId: nat): (r: seq<Ack>)
    ensures |acks| - 1 <= |r| <= |acks|
    ensures |r| == |acks| <==> forall a <- acks :: !Matches(a, msgId, fromId)
  {
    if acks == [] then []
    else if Matches(acks[0], msgId, fromId) then acks[1..]
    else [acks[0]] + Without(acks[1..], msgId, fromId)
  }

  lemma {:induction false} WithoutAt(acks: seq<Ack>, msgId: nat, fromId: nat, k: nat)
    requires k <= |acks| && forall j :: 0 <= j < k ==> !Matches(acks[j], msgId, fromId)
    ensures k == |acks| ==> Without(acks, msgId, fromId) == acks
    ensures k < |acks| && Matches(acks[k], msgId, fromId) ==> Without(acks, msgId, fromId) == acks[..k] + acks[k + 1..]
    decreases k
  {
    if k > 0 {
      WithoutAt(acks[1..], msgId, fromId, k - 1);
    }
  }

  lemma WithoutOne(acks: seq<Ack>, i: nat, clock: nat)
    requires Sorted(acks) && i < |acks| && forall a <- acks :: a.timestamp <= clock
    ensures Sorted(acks[..i] + acks[i + 1..]) && forall a <- acks[..i] + acks[i + 1..] :: a.timestamp <= clock
  {
  }

  // The part of CMsgConn that keeps the list. The counters are those of one connection; the
  // source adds them up over all connections in 32 bits.
  class SendList {
    var acks: seq<Ack>           // m_send_msg_list
    ghost var clock: nat
    ghost var added: nat         // g_down_msg_total_cnt
    ghost var missed: nat        // g_down_msg_miss_cnt
    ghost var acked: nat
    ghost var dropped: nat       // thrown away when the connection is reset

    ghost predicate Valid()
      reads this
    {
      && Sorted(acks) && (forall a <- acks :: a.timestamp <= clock)
      && added == |acks| + missed + acked + dropped
    }

    constructor ()
      ensures Valid() && acks == [] && added == 0 && dropped == 0
    {
      acks := [];
      clock, added, missed, acked, dropped := 0, 0, 0, 0, 0;
    }

    method AddToSendList(msgId: nat, fromId: nat, now: nat)
      requires Valid() && clock <= now
      modifies this
      ensures Valid() && clock == now && acks == old(acks) + [Ack(msgId, fromId, now)]
      ensures added == old(added) + 1 && missed == old(missed) && acked == old(acked) && dropped == old(dropped)
    {
      acks := acks + [Ack(msgId, fromId, now)];
      added := added + 1;
      clock := now;
    }

    // An acknowledgement takes out the first entry it fits, and is ignored if it fits none.
    method DelFromSendList(msgId: nat, fromId: nat)
      requires Valid()
      modifies this
      ensures Valid() && acks == Without(old(acks), msgId, fromId)
      ensures acked == old(acked) + |old(acks)| - |acks|
      ensures added == old(added) && missed == old(missed) && dropped == old(dropped) && clock == old(clock)
    {
      hide Sorted, Without;
      var i := 0;
      while i < |acks| && !(acks[i].msgId == msgId && acks[i].fromId == fromId)
        invariant 0 <= i <= |acks| && forall j :: 0 <= j < i ==> !Matches(acks[j], msgId, fromId)
      {
        i := i + 1;
      }
      WithoutAt(acks, msgId, fromId, i);
      if i < |acks| {
        WithoutOne(acks, i, clock);
        acks := acks[..i] + acks[i + 1..];
        acked := acked + 1;
      }
    }

    // The loop at the end of OnTimer: it stops at the first entry that has not expired, and has
    // then taken out every entry that has.
    method Expire(now: nat)
      requires Valid() && clock <= now
      modifies this
      ensures Valid() && acks == Pending(old(acks), now)
      ensures missed == old(missed) + |old(acks)| - |acks|
      ensures added == old(added) && acked == old(acked) && dropped == old(dropped) && clock == now
    {
      clock := now;
      while acks != []
        invariant Valid() && clock == now
        invariant Pending(acks, now) == Pending(old(acks), now)
        invariant missed == old(missed) + |old(acks)| - |acks|
        invariant added == old(added) && acked == old(acked) && dropped == old(dropped)
        decreases |acks|
      {
        if acks[0].timestamp + TIMEOUT <= now {
          missed := missed + 1;
          acks := acks[1..];
        } else {
          break;
        }
      }
      NoneExpired(acks, now);
    }

    // m_send_msg_list.clear() in the constructor of a connection.
    method Clear()
      requires Valid()
      modifies this
      ensures Valid() && acks == [] && dropped == old(dropped) + |old(acks)|
      ensures added == old(added) && missed == old(missed) && acked == old(acked) && clock == old(clock)
    {
      dropped := dropped + |acks|;
      acks := [];
    }
  }
}
