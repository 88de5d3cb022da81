/** A msg_server with its registry of users, and what the login_servers know of it. */
module OnlineCount {
  import opened Counting
  import opened LoginCounter
  import opened Octets
  import opened UserRegistry
  import opened Wrappers

  predicate IsSuffix(q: seq<bool>, u: seq<bool>) { |q| <= |u| && u[|u| - |q|..] == q }

  class MsgServer {
    const me: nat
    const users: ImUserManager
    const repl: Replication

    // What waits on an open link is the end of what has been sent.
    ghost predicate QueuesOk()
      reads users`updates, repl`links
    {
      forall h <- repl.links :: repl.links[h].server == me && repl.links[h].open ==>
          IsSuffix(repl.links[h].queue, users.updates)
    }

    ghost predicate Valid()
      reads this, users, users.users, users.conns, repl, repl.login
    {
      && users.Valid() && repl.Valid() && QueuesOk()
      && me in repl.online && repl.online[me] == |users.OpenConns()|
    }

    constructor (me: nat, others: set<nat>, idOf: string -> nat)
      ensures Valid() && repl.links == map[] && repl.online.Keys == others + {me} && users.conns == {}
    {
      this.me := me;
      users := new ImUserManager(idOf);
      repl := new Replication(others + {me});
      new;
      assert users.OpenConns() == {};
    }

    // The updates that a step of the registry has sent go to every open link.
    method Publish(ghost before: seq<bool>, n: nat)
      requires users.Valid() && repl.Valid() && me in repl.online && |before| == n
      requires users.updates == before || (|users.updates| == n + 1 && users.updates == before + [users.updates[n]])
      requires repl.online[me] == Net(before) && Net(users.updates) < TWO_32
      requires forall h <- repl.links :: repl.links[h].server == me && repl.links[h].open ==>
                 IsSuffix(repl.links[h].queue, before)
      modifies repl`links, repl`online
      ensures Valid() && repl.online.Keys == old(repl.online.Keys)
    {
      hide ImUserManager.Valid, Replication.Valid, LinkGood, Net, ImUserManager.OpenConns;
      Counts();
      if |users.updates| > n {
        var inc := users.updates[n];
        NetSnoc(before, inc);
        ghost var links := repl.links;
        SomeOnline(me);
        repl.Change(me, inc);
        forall h <- repl.links | repl.links[h].server == me && repl.links[h].open
          ensures IsSuffix(repl.links[h].queue, users.updates)
        {
          assert repl.links[h] == Pushed(links[h], me, inc);
          SuffixSnoc(links[h].queue, before, inc);
        }
      }
    }

    lemma Counts()
      requires users.Valid()
      ensures Net(users.updates) == |users.OpenConns()|
    {
    }

    lemma SomeOnline(s: nat)
      requires repl.Valid() && s in repl.online
      ensures repl.online[s] < TWO_32
    {
    }

    method Accept(handle: nat) returns (c: MsgConn)
      requires Valid() && forall d <- users.conns :: d.alive ==> d.handle != handle
      modifies users`conns
      ensures Valid() && fresh(c) && c.alive && !c.open && users.conns == old(users.conns) + {c}
    {
      hide ImUserManager.Valid, Replication.Valid, Net, ImUserManager.OpenConns;
      Counts();
      c := users.Accept(handle);
      Counts();
    }

    // Sound afterwards exactly if the registry is: a connection that waits under the empty name may not
    // log in again. No update is sent then, so the counters stay right in any case.
    method HandleLoginRequest(c: MsgConn, name: string, available: bool)
      requires Valid() && c in users.conns && c.alive
      modifies users`byId, users`byName, users`updates, users`users, c`alive, c`loginName
      modifies users.users`connMap, users.users`unvalidated, repl`links, repl`online
      ensures Valid() <==> old(c.loginName) != "" || !available || old(users.MayLogIn(c, name))
      ensures repl.Valid() && QueuesOk() && me in repl.online && repl.online[me] == |users.OpenConns()|
    {
      hide ImUserManager.Valid, Replication.Valid, Net, ImUserManager.OpenConns, LinkGood, ImUserManager.MayLogIn;
      Counts();
      ghost var before := users.updates;
      var n := |users.updates|;
      NetSnoc(before, false);
      SomeOnline(me);
      users.HandleLoginRequest(c, name, available);
      if |users.updates| > n {
        Publish(before, n);
      } else if users.Valid() {
        assert users.updates == before;
        Counts();
      } else {
        OpenStay(c);
      }
    }

    twostate lemma OpenStay(new c: MsgConn)
      requires users.conns == old(users.conns) && c in users.conns && c.alive && old(c.alive)
      requires forall d | d in old(users.conns) :: d.open == old(d.open) && (d != c ==> d.alive == old(d.alive))
      ensures users.OpenConns() == old(users.OpenConns())
    {
    }

    method HandleValidateResponse(name: string, handle: nat, result: nat, userId: nat)
      requires Valid() && (result == 0 ==> userId == users.idOf(name) && userId > 0) && |users.OpenConns()| + 1 < TWO_32
      modifies users`byId, users`byName, users`updates, users.conns`alive, users.conns`userId, users.conns`open
      modifies users.users`userId, users.users`validated, users.users`connMap, users.users`unvalidated
      modifies repl`links, repl`online
      ensures Valid()
    {
      hide ImUserManager.Valid, Replication.Valid, Net, ImUserManager.OpenConns, LinkGood;
      Counts();
      ghost var before := users.updates;
      var n := |users.updates|;
      NetSnoc(before, true);
      users.HandleValidateResponse(name, handle, result, userId);
      Publish(before, n);
    }

    method Close(c: MsgConn)
      requires Valid() && c in users.conns && c.alive
      modifies users`byId, users`byName, users`updates, c`alive, users.users`connMap, users.users`unvalidated
      modifies repl`links, repl`online
      ensures Valid() && !c.alive
    {
      hide ImUserManager.Valid, Replication.Valid, Net, ImUserManager.OpenConns, LinkGood;
      Counts();
      ghost var before := users.updates;
      var n := |users.updates|;
      NetSnoc(before, false);
      SomeOnline(me);
      users.Close(c);
      Publish(before, n);
    }

    // CLoginServConn::OnConfirm: the snapshot is what GetUserConnCnt counts.
    method Confirm(h: nat, maxConn: Word32)
      requires Valid() && h !in repl.links
      modifies repl`links
      ensures Valid()
      ensures repl.links
           == old(repl.links)[h := Link(me, true, Some(ServInfo(maxConn, |users.OpenConns()|)), [])]
    {
      hide ImUserManager.Valid, Replication.Valid, Net, ImUserManager.OpenConns, LinkGood;
      var count := users.GetUserConnCnt();
      repl.Confirm(h, me, maxConn, count);
    }

    // The next message of any link arrives.
    method Deliver(h: nat)
      requires Valid() && h in repl.links && (repl.links[h].snapshot.Some? || repl.links[h].queue != [])
      modifies repl`links, repl.login
      ensures Valid() && repl.links == old(repl.links)[h := Advanced(old(repl.links)[h])]
    {
      hide ImUserManager.Valid, Replication.Valid, Net, ImUserManager.OpenConns, LinkGood;
      repl.Deliver(h);
    }

    // A link closes, on this side or on the other.
    method MsgServerCloses(h: nat)
      requires Valid() && h in repl.links
      modifies repl`links
      ensures Valid() && repl.links == old(repl.links)[h := old(repl.links)[h].(open := false)]
    {
      hide ImUserManager.Valid, Replication.Valid, ImUserManager.OpenConns, LinkGood;
      repl.MsgServerCloses(h);
    }

    method LoginServerCloses(h: nat)
      requires Valid() && h in repl.links
      modifies repl`links, repl.login
      ensures Valid() && repl.links == old(repl.links) - {h}
    {
      hide ImUserManager.Valid, Replication.Valid, ImUserManager.OpenConns, LinkGood;
      repl.LoginServerCloses(h);
    }

    // Another msg_server's connections come, go and link up.
    method Elsewhere(server: nat, inc: bool)
      requires Valid() && server != me && server in repl.online
      requires if inc then repl.online[server] + 1 < TWO_32 else repl.online[server] > 0
      modifies repl`links, repl`online
      ensures Valid()
    {
      hide ImUserManager.Valid, Replication.Valid, ImUserManager.OpenConns, LinkGood;
      repl.Change(server, inc);
    }

    method ConfirmElsewhere(h: nat, server: nat, maxConn: Word32)
      requires Valid() && h !in repl.links && server != me && server in repl.online
      modifies repl`links
      ensures Valid()
    {
      hide ImUserManager.Valid, Replication.Valid, ImUserManager.OpenConns, LinkGood;
      repl.Confirm(h, server, maxConn, repl.online[server]);
    }

    // On every open link of this msg_server that has registered, the login_server's counter and the
    // updates under way make up the number of connections that are open in its registry; the counter
    // is the net of all updates sent before those.
    lemma Agreement(h: nat)
      requires Valid() && h in repl.links && repl.links[h].server == me && repl.links[h].open && h in repl.login.info
      ensures var q := repl.links[h].queue;
              && repl.login.info[h].curConn + Net(q) == |users.OpenConns()|
              && IsSuffix(q, users.updates)
              && repl.login.info[h].curConn == Net(users.updates[..|users.updates| - |q|])
    {
      hide ImUserManager.Valid, Replication.Valid, ImUserManager.OpenConns, LinkGood, Net;
      var q := repl.links[h].queue;
      repl.Agreement(h, 0);
      Counts();
      var k := |users.updates| - |q|;
      NetConcat(users.updates[..k], q);
      assert users.updates[..k] + q == users.updates;
    }
  }

  lemma SuffixSnoc(q: seq<bool>, u: seq<bool>, inc: bool)
    requires IsSuffix(q, u)
    ensures IsSuffix(q + [inc], u + [inc])
  {
  }
}
