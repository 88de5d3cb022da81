/** The online counters that a login_server keeps of its msg_servers, and the links that feed them. */
module LoginCounter {
  import opened Counting
  import opened Octets
  import opened Wrappers

  datatype ServInfo = ServInfo(maxConn: Word32, curConn: Word32)

  // The sum of the counters.
  ghost function Sum(info: map<nat, ServInfo>): nat {
    if info == map[] then 0
    else var h :| h in info; info[h].curConn + Sum(info - {h})
  }

  lemma {:induction false} SumWithout(info: map<nat, ServInfo>, h: nat)
    requires h in info
    ensures Sum(info) == info[h].curConn + Sum(info - {h})
    decreases |info|
  {
    var k :| k in info && Sum(info) == info[k].curConn + Sum(info - {k});
    if k != h {
      SumWithout(info - {k}, h);
      SumWithout(info - {h}, k);
      assert info - {k} - {h} == info - {h} - {k};
    }
  }

  lemma SumWith(info: map<nat, ServInfo>, h: nat, i: ServInfo)
    requires h !in info
    ensures Sum(info[h := i]) == i.curConn + Sum(info)
  {
    SumWithout(info[h := i], h);
    assert info[h := i] - {h} == info;
  }

  lemma SumChanged(info: map<nat, ServInfo>, h: nat, i: ServInfo)
    requires h in info
    ensures Sum(info[h := i]) == Sum(info) - info[h].curConn + i.curConn
  {
    SumWithout(info, h);
    SumWithout(info[h := i], h);
    assert info[h := i] - {h} == info - {h};
  }

  lemma SumNone()
    ensures Sum(map[]) == 0
  {
  }

  // ++ and -- on a uint32_t
  function Bump(v: Word32, inc: bool): Word32 {
    if inc then (v + 1) % TWO_32 else (v + TWO_32 - 1) % TWO_32
  }

  // Congruent numbers have the same remainder.
  lemma SameMod(a: int, b: int, k: int)
    requires a == b + k * TWO_32
    ensures a % TWO_32 == b % TWO_32
  {
  }

  lemma BumpTotal(sum: nat, cur: Word32, inc: bool)
    requires cur <= sum
    ensures Bump(sum % TWO_32, inc) == (sum - cur + Bump(cur, inc)) % TWO_32
  {
    var q := sum / TWO_32;
    if inc {
      SameMod(sum + 1, sum % TWO_32 + 1, q);
      SameMod(sum + 1, sum - cur + Bump(cur, inc), if cur == TWO_32 - 1 then 1 else 0);
    } else {
      SameMod(sum - 1, sum % TWO_32 + TWO_32 - 1, q - 1);
      SameMod(sum - 1, sum - cur + Bump(cur, inc), if cur == 0 then -1 else 0);
    }
  }

  lemma CloseTotal(sum: nat, cur: Word32)
    requires cur <= sum
    ensures (sum % TWO_32 + TWO_32 - cur) % TWO_32 == (sum - cur) % TWO_32
  {
    SameMod(sum - cur, sum % TWO_32 + TWO_32 - cur, sum / TWO_32 - 1);
  }

  datatype Answer = NoMsgServer | AllFull | Use(handle: nat)

  class LoginServer {
    var info: map<nat, ServInfo>   // g_msg_serv_info
    var total: Word32              // g_total_online_user_cnt

    // The total is the sum of the counters, in 32 bits.
    ghost predicate Valid()
      reads this
    {
      total == Sum(info) % TWO_32
    }

    constructor ()
      ensures Valid() && info == map[]
    {
      info, total := map[], 0;
      new;
      SumNone();
    }

    // _HandleMsgServInfo. The map does not replace an entry, the total grows in any case: that is
    // right if and only if the link had not registered before, or brings nobody.
    method HandleMsgServInfo(handle: nat, i: ServInfo)
      requires Valid()
      modifies this
      ensures info == if handle in old(info) then old(info) else old(info)[handle := i]
      ensures Valid() <==> handle !in old(info) || i.curConn == 0
    {
      if handle !in info {
        SumWith(info, handle, i);
        info := info[handle := i];
      }
      total := (total + i.curConn) % TWO_32;
    }

    // _HandleUserCntUpdate: anything but an increment decrements; a link that has not registered
    // is ignored.
    method HandleUserCntUpdate(handle: nat, inc: bool)
      requires Valid()
      modifies this
      ensures Valid()
      ensures info == if handle !in old(info) then old(info)
                      else var i := old(info)[handle];
                        old(info)[handle := i.(curConn := Bump(i.curConn, inc))]
    {
      hide Bump, Sum;
      if handle in info {
        var i := info[handle];
        var j := i.(curConn := Bump(i.curConn, inc));
        SumChanged(info, handle, j);
        SumWithout(info, handle);
        BumpTotal(Sum(info), i.curConn, inc);
        info := info[handle := j];
        total := Bump(total, inc);
      }
    }

    // Close: only a link to a msg_server takes its entry along.
    method Close(handle: nat, toMsgServer: bool)
      requires Valid()
      modifies this
      ensures Valid() && info == if toMsgServer then old(info) - {handle} else old(info)
    {
      if toMsgServer && handle in info {
        hide Sum;
        SumWithout(info, handle);
        CloseTotal(Sum(info), info[handle].curConn);
        total := (total + TWO_32 - info[handle].curConn) % TWO_32;
        info := info - {handle};
      }
    }

    predicate HasRoom(h: nat)
      requires h in info
      reads this
    {
      info[h].curConn < info[h].maxConn
    }

    // std::map iterates in the order of the keys.
    method Smallest(keys: set<nat>) returns (h: nat)
      requires keys != {}
      ensures h in keys && forall k <- keys :: h <= k
    {
      var rest := keys;
      h :| h in rest;
      rest := rest - {h};
      while rest != {}
        invariant h in keys && rest <= keys && forall k <- keys :: k in rest || h <= k
        decreases |rest|
      {
        var k :| k in rest;
        rest := rest - {k};
        if k < h {
          h := k;
        }
      }
    }

    // The choice of _HandleMsgServRequest: the fewest users among those with room, the smallest
    // handle among equals.
    method HandleMsgServRequest() returns (a: Answer)
      ensures a.NoMsgServer? <==> info == map[]
      ensures a.AllFull? <==> info != map[] && forall k <- info :: !HasRoom(k)
      ensures a.Use? ==> a.handle in info && HasRoom(a.handle) && forall k <- info :: HasRoom(k) ==>
                info[a.handle].curConn < info[k].curConn || (info[a.handle].curConn == info[k].curConn && a.handle <= k)
    {
      if info == map[] {
        return NoMsgServer;
      }
      a := AllFull;
      var minUser := TWO_32 - 1;
      var rest := info.Keys;
      while rest != {}
        invariant rest <= info.Keys
        invariant a.AllFull? ==> minUser == TWO_32 - 1 && forall k <- info :: k !in rest ==> !HasRoom(k)
        invariant a.Use? ==> a.handle in info && HasRoom(a.handle) && minUser == info[a.handle].curConn
        invariant a.Use? ==> forall k <- rest :: a.handle < k
        invariant a.Use? ==> forall k <- info :: k !in rest && HasRoom(k) ==>
                    minUser < info[k].curConn || (minUser == info[k].curConn && a.handle <= k)
        invariant !a.NoMsgServer?
        decreases |rest|
      {
        var h := Smallest(rest);
        rest := rest - {h};
        if info[h].curConn < info[h].maxConn && info[h].curConn < minUser {
          a := Use(h);
          minUser := info[h].curConn;
        }
      }
    }
  }

  // A link, in the order of its messages: first the snapshot, while it is under way, then the updates.
  // open: as the msg_server sees it
  datatype Link = Link(server: nat, open: bool, snapshot: Option<ServInfo>, queue: seq<bool>)

  function Delta(inc: bool): int { if inc then 1 else -1 }

  // The counter, moved by any beginning of the queue, is a 32-bit number.
  predicate InRange(cur: int, queue: seq<bool>)
    decreases |queue|
  {
    0 <= cur < TWO_32 && (queue != [] ==> InRange(cur + Delta(queue[0]), queue[1..]))
  }

  lemma {:induction false} QueueSnoc(cur: int, queue: seq<bool>, inc: bool)
    requires InRange(cur, queue) && 0 <= cur + Net(queue) + Delta(inc) < TWO_32
    ensures InRange(cur, queue + [inc])
    decreases |queue|
  {
    if queue == [] {
      assert [inc][1..] == [];
    } else {
      assert (queue + [inc])[1..] == queue[1..] + [inc];
      QueueSnoc(cur + Delta(queue[0]), queue[1..], inc);
    }
  }

  // No beginning of the queue takes the counter below zero, or past 32 bits.
  lemma {:induction false} InRangeAll(cur: int, queue: seq<bool>, k: nat)
    requires InRange(cur, queue) && k <= |queue|
    ensures 0 <= cur + Net(queue[..k]) < TWO_32
    decreases k
  {
    if k > 0 {
      assert queue[..k][1..] == queue[1..][..k - 1];
      InRangeAll(cur + Delta(queue[0]), queue[1..], k - 1);
    }
  }

  // What the login_server will count from: its entry, or the snapshot that will make it.
  function Counted(l: Link, info: map<nat, ServInfo>, h: nat): int {
    if l.snapshot.Some? then l.snapshot.value.curConn else if h in info then info[h].curConn else 0
  }

  // The login_server's copy of a link, its messages under way, and the msg_server's own count.
  predicate LinkGood(l: Link, info: map<nat, ServInfo>, h: nat, online: map<nat, nat>) {
    && l.server in online && (l.snapshot.None? <==> h in info)
    && InRange(Counted(l, info, h), l.queue)
    && (l.open ==> Counted(l, info, h) + Net(l.queue) == online[l.server])
  }

  function Pushed(l: Link, server: nat, inc: bool): Link {
    if l.server == server && l.open then l.(queue := l.queue + [inc]) else l
  }

  lemma PushKeeps(l: Link, info: map<nat, ServInfo>, h: nat, online: map<nat, nat>, server: nat, inc: bool)
    requires LinkGood(l, info, h, online) && server in online
    requires 0 <= online[server] + Delta(inc) < TWO_32
    ensures LinkGood(Pushed(l, server, inc), info, h, online[server := online[server] + Delta(inc)])
  {
    if l.server == server && l.open {
      QueueSnoc(Counted(l, info, h), l.queue, inc);
      NetSnoc(l.queue, inc);
    }
  }

  // The link and the counters after the next message has been handled.
  function Advanced(l: Link): Link {
    if l.snapshot.Some? then l.(snapshot := None) else if l.queue != [] then l.(queue := l.queue[1..]) else l
  }

  function Handled(info: map<nat, ServInfo>, h: nat, l: Link): map<nat, ServInfo> {
    if l.snapshot.Some? then (if h in info then info else info[h := l.snapshot.value])
    else if h in info && l.queue != [] then info[h := info[h].(curConn := Bump(info[h].curConn, l.queue[0]))]
    else info
  }

  lemma DeliverKeeps(l: Link, info: map<nat, ServInfo>, h: nat, online: map<nat, nat>)
    requires LinkGood(l, info, h, online) && (l.snapshot.Some? || l.queue != [])
    ensures LinkGood(Advanced(l), Handled(info, h, l), h, online)
  {
    if l.snapshot.None? {
      var v := info[h].curConn + Delta(l.queue[0]);
      assert InRange(v, l.queue[1..]) && 0 <= v < TWO_32;
      assert Bump(info[h].curConn, l.queue[0]) == v;
    }
  }

  lemma OthersKeep(l: Link, info: map<nat, ServInfo>, info': map<nat, ServInfo>, k: nat, online: map<nat, nat>)
    requires LinkGood(l, info, k, online) && (k in info <==> k in info') && (k in info ==> info[k] == info'[k])
    ensures LinkGood(l, info', k, online)
  {
  }

  // A login_server, the number of open connections of every msg_server, and the links between them.
  class Replication {
    const login: LoginServer
    var links: map<nat, Link>     // by the login_server's handle
    var online: map<nat, nat>     // open connections by msg_server

    ghost predicate Valid()
      reads this, login
    {
      && login.Valid() && (forall h <- login.info :: h in links)
      && (forall s <- online :: online[s] < TWO_32)
      && (forall h <- links :: LinkGood(links[h], login.info, h, online))
    }

    constructor (servers: set<nat>)
      ensures Valid() && online == (map s | s in servers :: 0) && links == map[] && fresh(login)
    {
      login := new LoginServer();
      links := map[];
      online := map s | s in servers :: 0;
    }

    // CLoginServConn::OnConfirm: the link opens and a snapshot is sent.
    method Confirm(h: nat, server: nat, maxConn: Word32, count: nat)
      requires Valid() && h !in links && server in online && count == online[server]
      modifies this`links
      ensures Valid() && links == old(links)[h := Link(server, true, Some(ServInfo(maxConn, count)), [])]
    {
      links := links[h := Link(server, true, Some(ServInfo(maxConn, count)), [])];
    }

    // send_to_all_login_server: a change is written to every open link.
    method Change(server: nat, inc: bool)
      requires Valid() && server in online && (if inc then online[server] + 1 < TWO_32 else online[server] > 0)
      modifies this`links, this`online
      ensures Valid() && online == old(online)[server := old(online)[server] + Delta(inc)]
      ensures links == map h | h in old(links) :: Pushed(old(links)[h], server, inc)
    {
      hide LinkGood, Pushed, Sum;
      forall h <- links ensures LinkGood(Pushed(links[h], server, inc), login.info, h,
                                         online[server := online[server] + Delta(inc)]) {
        PushKeeps(links[h], login.info, h, online, server, inc);
      }
      links := map h | h in links :: Pushed(links[h], server, inc);
      online := online[server := online[server] + Delta(inc)];
    }

    // The next message of a link reaches the login_server.
    method Deliver(h: nat)
      requires Valid() && h in links && (links[h].snapshot.Some? || links[h].queue != [])
      modifies this`links, login
      ensures Valid() && links == old(links)[h := Advanced(old(links)[h])]
      ensures login.info == Handled(old(login.info), h, old(links)[h])
    {
      hide Advanced, InRange, Net, Bump;
      var l := links[h];
      var before := login.info;
      DeliverKeeps(l, before, h, online);
      if l.snapshot.Some? {
        login.HandleMsgServInfo(h, l.snapshot.value);
      } else {
        login.HandleUserCntUpdate(h, l.queue[0]);
      }
      forall k <- links | k != h ensures LinkGood(links[k], login.info, k, online) {
        OthersKeep(links[k], before, login.info, k, online);
      }
      links := links[h := Advanced(l)];
    }

    // CLoginServConn::Close: nothing is written to the link any more; what is under way arrives.
    method MsgServerCloses(h: nat)
      requires Valid() && h in links
      modifies this`links
      ensures Valid() && links == old(links)[h := old(links)[h].(open := false)]
    {
      links := links[h := links[h].(open := false)];
    }

    // CLoginConn::Close: the counter goes, and what is under way is lost.
    method LoginServerCloses(h: nat)
      requires Valid() && h in links
      modifies this`links, login
      ensures Valid() && links == old(links) - {h} && h !in login.info
    {
      login.Close(h, true);
      links := links - {h};
    }

    // On an open link, once everything has arrived, both sides agree; and at any time the messages
    // under way make up the difference and never take the counter out of its range.
    lemma Agreement(h: nat, k: nat)
      requires Valid() && h in links && h in login.info && k <= |links[h].queue|
      ensures links[h].open ==> login.info[h].curConn + Net(links[h].queue) == online[links[h].server]
      ensures links[h].open && links[h].queue == [] ==> login.info[h].curConn == online[links[h].server]
      ensures 0 <= login.info[h].curConn + Net(links[h].queue[..k]) < TWO_32
      ensures login.total == Sum(login.info) % TWO_32
    {
      InRangeAll(login.info[h].curConn, links[h].queue, k);
    }
  }
}
