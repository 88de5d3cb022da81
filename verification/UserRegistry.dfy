/**
 * Who is logged in at a msg_server: the user objects, found by id and by login name, and their
 * connections, waiting for validation or open.
 */
module UserRegistry {
  import opened Counting

  class MsgConn {
    const handle: nat
    var loginName: string
    var userId: nat
    var open: bool
    var alive: bool   // until Close

    constructor (handle: nat)
      ensures this.handle == handle && loginName == "" && userId == 0 && !open && alive
    {
      this.handle, loginName, userId, open, alive := handle, "", 0, false, true;
    }
  }

  class ImUser {
    const loginName: string
    var userId: nat
    var validated: bool
    var connMap: map<nat, MsgConn>      // m_conn_map
    var unvalidated: set<MsgConn>       // m_unvalidate_conn_set

    constructor (loginName: string)
      ensures this.loginName == loginName && userId == 0 && !validated && connMap == map[] && unvalidated == {}
    {
      this.loginName, userId, validated, connMap, unvalidated := loginName, 0, false, map[], {};
    }
  }

  class ImUserManager {
    var byId: map<nat, ImUser>          // m_im_user_map
    var byName: map<string, ImUser>     // m_im_user_map_by_name
    var updates: seq<bool>              // USER_CNT_INC (true) and USER_CNT_DEC sent to the login servers
    ghost const idOf: string -> nat     // the id the database has for a login name
    ghost var users: set<ImUser>        // every object ever registered
    ghost var conns: set<MsgConn>       // every connection ever accepted

    // A user found by id is validated, has a connection, and is the one found under its name.
    ghost predicate IdGood(i: nat, u: ImUser)
      reads this`byName, u`userId, u`validated
    {
      && i > 0 && u.userId == i && u.validated && i == idOf(u.loginName)
      && u.loginName in byName && byName[u.loginName] == u
    }

    // Every user found by id has a connection, but perhaps the one that is losing its last.
    ghost predicate IdsBut(but: ImUser?)
      reads this`users, this`byId, this`byName, users`userId, users`validated, users`connMap
    {
      forall i <- byId :: byId[i] in users && IdGood(i, byId[i]) && (byId[i] == but || byId[i].connMap != map[])
    }

    // A user found by name either waits for its first validation or is found by its id.
    ghost predicate NameGood(u: ImUser)
      reads this`byId, u`userId, u`validated, u`connMap
    {
      if u.userId == 0 then u.connMap == map[] && !u.validated else u.userId in byId && byId[u.userId] == u
    }

    ghost predicate NamesBut(but: ImUser?)
      reads this`users, this`byId, this`byName, users`userId, users`validated, users`connMap
    {
      forall n <- byName :: byName[n] in users && byName[n].loginName == n && (byName[n] == but || NameGood(byName[n]))
    }

    // The connections of a user are open, alive, but perhaps the one that is closing, and know
    // their user and their handle.
    ghost predicate MapGood(i: nat, u: ImUser, but: MsgConn?)
      reads this`conns, u`connMap, conns`alive, conns`open, conns`userId
    {
      forall h <- u.connMap :: u.connMap[h] in conns
        && (var c := u.connMap[h]; (c.alive || c == but) && c.open && c.handle == h && c.userId == i)
    }

    ghost predicate MapsBut(but: MsgConn?)
      reads this`users, this`byId, this`conns, users`connMap, conns`alive, conns`open, conns`userId
    {
      forall i <- byId :: byId[i] in users && MapGood(i, byId[i], but)
    }

    // An open connection is found by user id and handle.
    ghost predicate Found(c: MsgConn)
      reads this`users, this`byId, users`connMap, c`userId
    {
      && c.userId in byId && byId[c.userId] in users && c.handle in byId[c.userId].connMap
      && byId[c.userId].connMap[c.handle] == c
    }

    ghost predicate ConnGood(c: MsgConn)
      reads this`users, this`byId, users`connMap, c`userId, c`open, c`loginName
    {
      if c.open then Found(c) && c.userId == idOf(c.loginName) else c.userId == 0
    }

    ghost predicate ConnsGood()
      reads this`users, this`byId, this`conns, users`connMap, conns`alive, conns`open, conns`userId, conns`loginName
    {
      forall c <- conns :: c.alive ==> ConnGood(c)
    }

    // The handles of live connections differ.
    ghost predicate HandlesDiffer()
      reads this`conns, conns`alive
    {
      forall c, d :: c in conns && d in conns && c.alive && d.alive && c.handle == d.handle ==> c == d
    }

    // A connection that waits does so under its own name, and is neither open nor closed.
    ghost predicate WaitsRightly(c: MsgConn, n: string)
      reads this`conns, c`alive, c`open, c`loginName
    {
      c in conns && c.alive && !c.open && c.loginName == n
    }

    // Every pending connection waits rightly, but perhaps the one that is closing.
    ghost predicate PendingBut(but: MsgConn?)
      reads this`users, this`byName, this`conns, users`unvalidated, conns`alive, conns`open, conns`loginName
    {
      forall n <- byName :: byName[n] in users
        && forall c <- byName[n].unvalidated :: c in conns && (c == but || WaitsRightly(c, n))
    }

    // A connection is pending under its own name at most.
    ghost predicate PendingOwn(c: MsgConn)
      reads this`users, this`byName, users`unvalidated, c`loginName
    {
      forall n <- byName :: byName[n] in users && (c in byName[n].unvalidated ==> n == c.loginName)
    }

    // Who waits under a name.
    ghost function Waiting(n: string): set<MsgConn>
      reads this`users, this`byName, users`unvalidated
    {
      if n in byName && byName[n] in users then byName[n].unvalidated else {}
    }

    ghost function OpenConns(): set<MsgConn>
      reads this`conns, conns`alive, conns`open
    {
      set c <- conns | c.alive && c.open
    }

    // The login servers were told of every open connection, and of every one that closed.
    ghost predicate UpdatesGood(late: int)
      reads this`updates, this`conns, conns`alive, conns`open
    {
      Net(updates) == |OpenConns()| + late
    }

    ghost predicate Valid()
      reads this, users, conns
    {
      && IdsBut(null) && NamesBut(null) && MapsBut(null) && ConnsGood() && HandlesDiffer() && PendingBut(null)
      && UpdatesGood(0)
    }

    constructor (idOf: string -> nat)
      ensures Valid() && byId == map[] && byName == map[] && updates == [] && this.idOf == idOf
      ensures users == {} && conns == {}
    {
      byId, byName, updates := map[], map[], [];
      this.idOf := idOf;
      users, conns := {}, {};
    }

    // A closed connection is in no map and in no set that can be reached.
    lemma ClosedIsNowhere(c: MsgConn)
      requires Valid() && !c.alive
      ensures forall i <- byId, h <- byId[i].connMap :: byId[i].connMap[h] != c
      ensures forall n <- byName :: c !in byName[n].unvalidated
    {
      forall n, d | n in byName && d in byName[n].unvalidated ensures d.alive {
        assert WaitsRightly(d, n);
      }
    }

    // An open connection is in the map of exactly one user, under exactly one handle.
    lemma OpenIsFoundOnce(c: MsgConn, i: nat, h: nat)
      requires Valid() && c in conns && c.alive && i in byId && h in byId[i].connMap
      ensures byId[i].connMap[h] == c <==> c.open && i == c.userId && h == c.handle
    {
      hide NamesBut, PendingBut, IdGood, HandlesDiffer;
    }

    method NewConn(handle: nat) returns (c: MsgConn)
      requires Valid()
      ensures Valid() && fresh(c) && c.alive && !c.open && c.loginName == "" && c.userId == 0 && c.handle == handle
    {
      hide IdsBut, NamesBut, MapsBut, HandlesDiffer, ConnsGood, PendingBut, UpdatesGood;
      c := new MsgConn(handle);
    }

    method AddConn(c: MsgConn)
      requires Valid() && c !in conns && c.alive && !c.open && c.loginName == "" && c.userId == 0
      requires forall d <- conns :: d.alive ==> d.handle != c.handle
      modifies this`conns
      ensures Valid() && conns == old(conns) + {c}
    {
      hide IdsBut, NamesBut, Found;
      conns := conns + {c};
      assert OpenConns() == old(OpenConns());
      assert UpdatesGood(0);
      assert HandlesDiffer();
      assert ConnsGood();
      assert PendingBut(null);
      assert MapsBut(null);
    }

    method Accept(handle: nat) returns (c: MsgConn)
      requires Valid() && forall d <- conns :: d.alive ==> d.handle != handle
      modifies this`conns
      ensures Valid() && fresh(c) && c.alive && !c.open && c.loginName == "" && c.handle == handle
      ensures conns == old(conns) + {c}
    {
      hide Valid;
      c := NewConn(handle);
      AddConn(c);
    }

    method SetLoginName(c: MsgConn, name: string, ghost g: bool)
      requires c in conns && (g ==> Valid() && c.alive && !c.open)
      requires g ==> name == c.loginName || forall n <- byName :: c !in byName[n].unvalidated
      modifies c`loginName
      ensures c.loginName == name && (g ==> Valid())
    {
      hide IdsBut, NamesBut, MapsBut, HandlesDiffer, Found;
      c.loginName := name;
    }

    method NewUser(name: string, ghost g: bool) returns (u: ImUser)
      requires g ==> Valid()
      modifies this`users
      ensures fresh(u) && u.loginName == name && u.userId == 0 && !u.validated
      ensures u.connMap == map[] && u.unvalidated == {} && users == old(users) + {u} && (g ==> Valid())
    {
      hide IdsBut, NamesBut, MapsBut, HandlesDiffer, ConnsGood, PendingBut, UpdatesGood;
      u := new ImUser(name);
      Own(u, g);
    }

    ghost method Own(u: ImUser, g: bool)
      requires g ==> Valid()
      modifies this`users
      ensures users == old(users) + {u} && (g ==> Valid())
    {
      hide HandlesDiffer, UpdatesGood, WaitsRightly, IdGood, NameGood, MapGood;
      users := users + {u};
    }

    // AddImUserByLoginName of a new object.
    method AddByName(u: ImUser, ghost g: bool)
      requires u in users && u.loginName !in byName && (g ==> Valid())
      requires u.userId == 0 && !u.validated && u.connMap == map[] && u.unvalidated == {}
      modifies this`byName
      ensures byName == old(byName)[u.loginName := u] && (g ==> Valid())
    {
      hide MapsBut, ConnsGood, WaitsRightly, HandlesDiffer, UpdatesGood;
      assert NameGood(u);
      hide NameGood;
      byName := byName[u.loginName := u];
    }

    method FindOrAdd(name: string, ghost g: bool) returns (u: ImUser)
      requires (forall n <- byName :: byName[n] in users && byName[n].loginName == n) && (g ==> Valid())
      modifies this`byName, this`users
      ensures (forall n <- byName :: byName[n] in users && byName[n].loginName == n) && (g ==> Valid())
      ensures byName == old(byName)[name := u] && users == old(users) + {u}
      ensures if name in old(byName) then u == old(byName)[name] else fresh(u) && u.unvalidated == {}
    {
      hide IdsBut, NamesBut, MapsBut, HandlesDiffer, ConnsGood, PendingBut, UpdatesGood;
      if name in byName {
        u := byName[name];
      } else {
        u := NewUser(name, g);
        AddByName(u, g);
      }
    }

    method AddPending(u: ImUser, c: MsgConn, ghost g: bool)
      requires u.loginName in byName && byName[u.loginName] == u
      requires g ==> Valid() && WaitsRightly(c, u.loginName)
      modifies u`unvalidated
      ensures u.unvalidated == old(u.unvalidated) + {c} && (g ==> Valid())
    {
      hide IdsBut, MapsBut, HandlesDiffer, ConnsGood, UpdatesGood;
      u.unvalidated := u.unvalidated + {c};
    }

    // Whether a login request may be handled: the connection is not open, and it does not wait
    // under the empty name, which the source takes for "has not asked yet", to ask under another.
    ghost predicate MayLogIn(c: MsgConn, name: string)
      reads this`users, this`byName, users`unvalidated, c`open
    {
      !c.open && (name == "" || "" !in byName || (byName[""] in users && c !in byName[""].unvalidated))
    }

    // c waits under the name, and everybody else goes on waiting.
    twostate predicate Entered(new c: MsgConn, new name: string)
      reads this`users, this`byName, users`unvalidated
    {
      && byName.Keys == old(byName.Keys) + {name} && (forall n <- old(byName) :: byName[n] == old(byName)[n])
      && (forall n <- byName :: Waiting(n) == old(Waiting(n)) + if n == name then {c} else {})
    }

    twostate lemma EntersSo(new c: MsgConn, new name: string, new u: ImUser)
      requires old(users) <= users && byName == old(byName)[name := u] && u in users
      requires forall n <- old(byName) :: old(byName)[n] in old(users) && old(byName)[n].loginName == n
      requires if name in old(byName) then u == old(byName)[name] && u.unvalidated == old(u.unvalidated) + {c}
               else u.unvalidated == {c}
      requires forall v <- old(users) :: v != u ==> v.unvalidated == old(v.unvalidated)
      requires u.loginName == name
      ensures Entered(c, name)
    {
    }

    // The part of _HandleLoginRequest that is left when nothing speaks against it: the connection waits
    // under its name. The registry stays sound exactly if this was allowed.
    method Enter(c: MsgConn, name: string)
      requires Valid() && c in conns && c.alive && c.loginName == ""
      modifies this`byName, this`users, c`loginName, users`unvalidated
      ensures fresh(users - old(users))
      ensures c.loginName == name && name in byName && c in byName[name].unvalidated
      ensures Valid() <==> old(MayLogIn(c, name))
      ensures Entered(c, name)
    {
      hide IdsBut, MapsBut, HandlesDiffer, ConnsGood, IdGood, MapGood, UpdatesGood, Waiting, Entered;
      ghost var g := MayLogIn(c, name);
      ghost var waits := "" in byName && c in byName[""].unvalidated;
      SetLoginName(c, name, g);
      var u := FindOrAdd(name, g);
      assert byName[name] == u && u.loginName == name;
      AddPending(u, c, g);
      EntersSo(c, name, u);
      if !g {
        assert byName[name] == u && c in u.unvalidated;
        assert !c.open ==> waits && name != "" && c in byName[""].unvalidated;
        assert !WaitsRightly(c, if c.open then name else "");
        assert !PendingBut(null);
      }
    }

    // CImUserManager::RemoveImUser
    method RemoveImUser(u: ImUser)
      modifies this`byId, this`byName
      ensures byId == old(byId) - {u.userId} && byName == old(byName) - {u.loginName}
    {
      byId := byId - {u.userId};
      byName := byName - {u.loginName};
    }

    // netlib_close: the connection is gone, and its traces are still there.
    method MarkClosed(c: MsgConn)
      requires Valid() && c in conns && c.alive
      modifies c`alive
      ensures IdsBut(null) && NamesBut(null) && MapsBut(c) && ConnsGood() && HandlesDiffer() && PendingBut(c)
                && PendingOwn(c)
      ensures UpdatesGood(if c.open then 1 else 0) && !c.alive
    {
      hide IdsBut, NamesBut, Found, Net;
      c.alive := false;
      assert OpenConns() == old(OpenConns()) - {c};
    }

    // pImUser->DelMsgConn(GetHandle())
    method LeaveMap(c: MsgConn, u: ImUser)
      requires IdsBut(null) && NamesBut(null) && MapsBut(c) && ConnsGood()
      requires !c.alive && c.userId in byId && u == byId[c.userId] && c.handle in u.connMap && u.connMap[c.handle] == c
      modifies u`connMap
      ensures IdsBut(u) && NamesBut(null) && MapsBut(null) && ConnsGood()
      ensures u.connMap == old(u.connMap) - {c.handle}
    {
      hide IdGood;
      u.connMap := u.connMap - {c.handle};
    }

    method LeavePending(c: MsgConn, u: ImUser)
      requires PendingBut(c) && PendingOwn(c)
      modifies u`unvalidated
      ensures PendingBut(c) && PendingOwn(c) && u.unvalidated == old(u.unvalidated) - {c}
    {
      u.unvalidated := u.unvalidated - {c};
    }

    method RemoveIfEmpty(u: ImUser, ghost c: MsgConn)
      requires IdsBut(u) && NamesBut(null) && MapsBut(null) && ConnsGood() && u.loginName in byName
                 && byName[u.loginName] == u
      requires PendingBut(c) && PendingOwn(c)
      modifies this`byId, this`byName
      ensures IdsBut(null) && NamesBut(null) && MapsBut(null) && ConnsGood() && PendingBut(c) && PendingOwn(c)
      ensures u.connMap != map[] ==> byId == old(byId) && byName == old(byName)
      ensures u.connMap == map[] ==> byId == old(byId) - {u.userId} && byName == old(byName) - {u.loginName}
    {
      hide WaitsRightly, MapGood;
      if u.connMap == map[] {
        RemoveImUser(u);
      }
    }

    // SendUserStatusUpdate, the part for the login servers.
    method SendUserStatusUpdate(c: MsgConn, online: bool)
      modifies this`updates
      ensures updates == old(updates) + if c.open && c.userId in byId then [online] else []
    {
      if !c.open || c.userId !in byId {
        return;
      }
      updates := updates + [online];
    }

    // What an open connection's user looks like, and what an unopened one's id does.
    lemma Whereabouts(c: MsgConn)
      requires IdsBut(null) && ConnsGood() && c in conns && c.alive
      ensures c.open <==> c.userId in byId
      ensures c.open ==> byId[c.userId] in users
      ensures c.open ==> c.handle in byId[c.userId].connMap && byId[c.userId].connMap[c.handle] == c
      ensures c.open ==>
                var u := byId[c.userId]; u.loginName in byName && byName[u.loginName] == u && u.userId == c.userId
    {
    }

    // A user without connections is not found by id.
    lemma EmptyIsNew(n: string)
      requires IdsBut(null) && NamesBut(null) && n in byName
      ensures var v := byName[n];
              v in users && v.loginName == n && IdsBut(v) && (v.connMap == map[] ==> v.userId !in byId)
    {
    }

    lemma NotInMaps(c: MsgConn)
      requires MapsBut(c) && !c.open
      ensures MapsBut(null)
    {
    }

    lemma NoneLeft(c: MsgConn)
      requires PendingBut(c) && PendingOwn(c) && (c.loginName in byName ==> c !in byName[c.loginName].unvalidated)
      ensures PendingBut(null)
    {
    }

    // Everything but the counter, with c closed and perhaps still pending.
    ghost predicate SoundBut(c: MsgConn)
      reads this, users, conns, c
    {
      && IdsBut(null) && NamesBut(null) && MapsBut(null) && ConnsGood() && HandlesDiffer()
      && PendingBut(c) && PendingOwn(c)
    }

    // The first half of CMsgConn::Close: the user found by id.
    method LeaveById(c: MsgConn)
      requires Valid() && c in conns && c.alive
      modifies this`byId, this`byName, this`updates, c`alive, users`connMap, users`unvalidated
      ensures SoundBut(c) && UpdatesGood(0) && !c.alive
      ensures updates == old(updates) + if c.open then [false] else []
      ensures c.open ==> var u := old(byId)[c.userId];
                && u.connMap == old(u.connMap) - {c.handle}
                && byId == if u.connMap == map[] then old(byId) - {c.userId} else old(byId)
      ensures !c.open ==> byId == old(byId)
      ensures forall u <- old(users) :: u.userId != c.userId ==> u.connMap == old(u.connMap)
      ensures byName == if c.open && old(byId)[c.userId].connMap == map[]
                        then old(byName) - {old(byId)[c.userId].loginName} else old(byName)
      ensures forall v <- users :: v.unvalidated == old(v.unvalidated) || v.unvalidated == old(v.unvalidated) - {c}
    {
      hide IdsBut, NamesBut, MapsBut, ConnsGood, HandlesDiffer, PendingBut, PendingOwn, UpdatesGood, Net;
      Whereabouts(c);
      MarkClosed(c);
      if c.userId in byId {
        var u := byId[c.userId];
        LeaveMap(c, u);
        LeavePending(c, u);
        CountDown(c);
        RemoveIfEmpty(u, c);
      } else {
        NotInMaps(c);
      }
    }

    method CountDown(c: MsgConn)
      requires c.open && c.userId in byId && UpdatesGood(1)
      modifies this`updates
      ensures UpdatesGood(0) && updates == old(updates) + [false]
    {
      hide Net, OpenConns;
      SendUserStatusUpdate(c, false);
      NetSnoc(old(updates), false);
    }

    // The second half: the user found by name.
    method LeaveByName(c: MsgConn)
      requires SoundBut(c) && UpdatesGood(0)
      modifies this`byId, this`byName, users`unvalidated
      ensures Valid() && byId == old(byId)
      ensures var n := c.loginName;
              && byName == (if n in old(byName) && old(byName)[n].connMap == map[]
                            then old(byName) - {n} else old(byName))
              && (n in byName ==> byName[n].unvalidated == old(byName[n].unvalidated) - {c})
      ensures forall v <- users :: v.unvalidated == old(v.unvalidated) || v.unvalidated == old(v.unvalidated) - {c}
    {
      hide IdsBut, NamesBut, MapsBut, ConnsGood, HandlesDiffer, PendingBut, PendingOwn, UpdatesGood;
      if c.loginName in byName {
        var v := byName[c.loginName];
        EmptyIsNew(c.loginName);
        LeavePending(c, v);
        RemoveIfEmpty(v, c);
      }
      NoneLeft(c);
    }

    // c waits no more, and all others do, unless the user of that name, or c's user, has no connection
    // left: then the name is gone, and whoever waited under it.
    twostate predicate Left(new c: MsgConn)
      reads this`users, this`byName, users`unvalidated, users`connMap, c
    {
      && (forall n <- byName :: n in old(byName) && byName[n] == old(byName)[n]
                                && Waiting(n) == old(Waiting(n)) - {c})
      && (forall n <- old(byName) :: old(byName)[n] in users &&
            (n !in byName <==>
              && old(byName)[n].connMap == map[]
              && (n == c.loginName || (c.open && c.userId in old(byId) && old(byName)[n] == old(byId)[c.userId]))))
    }

    lemma OwnNameOnly(c: MsgConn)
      requires PendingBut(null) && NamesBut(null)
      ensures forall n <- byName :: n != c.loginName ==> c !in byName[n].unvalidated
    {
    }

    // CMsgConn::Close: the connection leaves its user; a user without connections is removed, also
    // when others wait under its name.
    method Close(c: MsgConn)
      requires Valid() && c in conns && c.alive
      modifies this`byId, this`byName, this`updates, c`alive
      modifies users`connMap, users`unvalidated
      ensures Valid() && !c.alive
      ensures updates == old(updates) + if c.open then [false] else []
      ensures c.open ==> var u := old(byId)[c.userId];
                && u.connMap == old(u.connMap) - {c.handle}
                && byId == if u.connMap == map[] then old(byId) - {c.userId} else old(byId)
      ensures !c.open ==> byId == old(byId)
      ensures forall u <- old(users) :: u.userId != c.userId ==> u.connMap == old(u.connMap)
      ensures Left(c)
    {
      hide IdsBut, NamesBut, MapsBut, ConnsGood, HandlesDiffer, PendingBut, PendingOwn, UpdatesGood, Net, SoundBut;
      hide Waiting, Left;
      NamesKnown();
      OwnNameOnly(c);
      Whereabouts(c);
      LeaveById(c);
      ghost var u := if c.open then old(byId)[c.userId] else null;
      assert c.open ==> u.connMap == old(u.connMap) - {c.handle};
      LeaveByName(c);
      assert c.open ==> u.connMap == old(u.connMap) - {c.handle};
      LeavesSo(c);
    }

    twostate lemma LeavesSo(new c: MsgConn)
      requires users == old(users) && forall n <- old(byName) :: old(byName)[n] in users
      requires forall n <- byName :: n in old(byName) && byName[n] == old(byName)[n]
      requires forall n <- byName :: n != c.loginName ==> c !in old(byName[n].unvalidated)
      requires forall v <- users :: v.unvalidated == old(v.unvalidated) || v.unvalidated == old(v.unvalidated) - {c}
      requires c.loginName in byName ==> c !in byName[c.loginName].unvalidated
      requires forall n <- old(byName) ::
                 n !in byName <==>
                   && old(byName)[n].connMap == map[]
                   && (n == c.loginName || (c.open && c.userId in old(byId) && old(byName)[n] == old(byId)[c.userId]))
      ensures Left(c)
    {
    }

    // CMsgConn::_HandleLoginRequest: a second request is refused by the length of the name; without a
    // database, login or route server the connection is closed. The registry stays sound exactly if
    // the request was refused, turned away or allowed.
    method HandleLoginRequest(c: MsgConn, name: string, available: bool)
      requires Valid() && c in conns && c.alive
      modifies this`byId, this`byName, this`updates, this`users, c`alive, c`loginName, users`connMap, users`unvalidated
      ensures old(c.loginName) != "" ==>
                && Valid() && byId == old(byId) && byName == old(byName) && updates == old(updates)
                && c.loginName == old(c.loginName) && c.alive
                && forall u <- old(users) :: u.unvalidated == old(u.unvalidated) && u.connMap == old(u.connMap)
      ensures old(c.loginName) == "" && !available ==>
                Valid() && !c.alive && updates == old(updates) + (if c.open then [false] else []) && Left(c)
      ensures old(c.loginName) == "" && available ==>
                c.alive && updates == old(updates) && byId == old(byId) && c.loginName == name && name in byName
                    && c in byName[name].unvalidated
      ensures old(c.loginName) == "" && available ==> Entered(c, name)
      ensures fresh(users - old(users))
      ensures Valid() <==> old(c.loginName) != "" || !available || old(MayLogIn(c, name))
    {
      hide Valid, MayLogIn;
      if c.loginName != "" {
        return;
      }
      if !available {
        Close(c);
        return;
      }
      Enter(c, name);
    }

    // CImUser::GetUnValidateMsgConn
    method GetUnValidateMsgConn(u: ImUser, handle: nat) returns (c: MsgConn?)
      ensures c == null ==> forall d <- u.unvalidated :: d.handle != handle
      ensures c != null ==> c in u.unvalidated && c.handle == handle
    {
      c := null;
      var rest := u.unvalidated;
      while rest != {}
        invariant rest <= u.unvalidated && c == null
        invariant forall d <- u.unvalidated :: d.handle == handle ==> d in rest
        decreases |rest|
      {
        var d :| d in rest;
        if d.handle == handle {
          return d;
        }
        rest := rest - {d};
      }
    }

    // c is pending with u only.
    ghost predicate PendingWith(c: MsgConn, u: ImUser)
      reads this`byName, this`users, users`unvalidated
    {
      forall n <- byName :: byName[n] in users && (c in byName[n].unvalidated ==> byName[n] == u)
    }

    lemma PendingKnown(c: MsgConn, u: ImUser)
      requires PendingBut(null) && NamesBut(null) && u.loginName in byName && byName[u.loginName] == u
                 && c in u.unvalidated
      ensures PendingBut(c) && PendingWith(c, u) && u in users && c in conns && c.alive && !c.open
                && c.loginName == u.loginName
    {
    }

    // pUser->AddUnValidateMsgConn, pImUser->DelUnValidateMsgConn
    method MovePending(c: MsgConn, u: ImUser, p: ImUser)
      requires PendingBut(c) && PendingWith(c, u) && u in users && p in users && c in conns
      modifies p`unvalidated, u`unvalidated
      ensures PendingBut(c) && PendingWith(c, p) && u.unvalidated == old(u.unvalidated) - {c}
      ensures p != u ==> p.unvalidated == old(p.unvalidated) + {c}
    {
      hide WaitsRightly;
      p.unvalidated := p.unvalidated + {c};
      u.unvalidated := u.unvalidated - {c};
    }

    // RemoveImUserByLoginName of an object without connections.
    method DropAlias(u: ImUser, p: ImUser, ghost c: MsgConn)
      requires IdsBut(null) && NamesBut(null) && PendingBut(c) && PendingWith(c, p)
      requires u.userId !in byId && u.loginName in byName && byName[u.loginName] == u && p != u
      modifies this`byName
      ensures IdsBut(null) && NamesBut(null) && PendingBut(c) && PendingWith(c, p)
      ensures byName == old(byName) - {u.loginName}
    {
      hide WaitsRightly;
      byName := byName - {u.loginName};
    }

    lemma UserOfId(i: nat)
      requires IdsBut(null) && i in byId
      ensures var p := byId[i];
              && p in users && p.loginName in byName && byName[p.loginName] == p && idOf(p.loginName) == i && i > 0
              && p.userId == i && p.connMap != map[]
    {
    }

    lemma NameOfUser(n: string)
      requires Valid() && n in byName
      ensures byName[n] in users && byName[n].loginName == n
    {
    }

    lemma UserOfName(n: string)
      requires IdsBut(null) && NamesBut(null) && n in byName
      ensures var v := byName[n];
              && v in users && v.loginName == n && (v.connMap == map[] ==> v.userId !in byId)
              && (idOf(n) !in byId ==> v.userId == 0 && v.connMap == map[] && !v.validated)
    {
    }

    // Two users for one id: the one found by it, and one without connections.
    lemma OneOfName(u: ImUser, i: nat)
      requires IdsBut(null) && NamesBut(null) && u.loginName in byName && byName[u.loginName] == u
      requires i == idOf(u.loginName) && i in byId
      ensures u.connMap == map[] <==> u != byId[i]
    {
    }

    // The user that a validated connection goes to: the one with its id if there is one, and then
    // the object of an alias, which nobody else has an open connection with, is dropped.
    method Choose(c: MsgConn, u: ImUser, userId: nat) returns (p: ImUser)
      requires Valid() && u.loginName in byName && byName[u.loginName] == u && c in u.unvalidated
      requires userId == idOf(u.loginName) && userId > 0
      modifies this`byName, users`unvalidated
      ensures IdsBut(null) && NamesBut(null) && MapsBut(null) && ConnsGood() && HandlesDiffer() && UpdatesGood(0)
      ensures PendingBut(c) && PendingWith(c, p)
      ensures p in users && p.loginName in byName && byName[p.loginName] == p && idOf(p.loginName) == userId
      ensures if userId in byId then p == byId[userId] else p == u && p.userId == 0 && p.connMap == map[]
      ensures forall v <- users :: v != p && v != u ==> v.unvalidated == old(v.unvalidated)
      ensures p != u ==> p.unvalidated == old(p.unvalidated) + {c}
      ensures p == u ==> u.unvalidated - {c} == old(u.unvalidated) - {c}
      ensures byName == if p == u then old(byName) else old(byName) - {u.loginName}
    {
      hide IdsBut, NamesBut, MapsBut, ConnsGood, HandlesDiffer, PendingBut, UpdatesGood, PendingWith;
      PendingKnown(c, u);
      UserOfName(u.loginName);
      if userId in byId {
        UserOfId(userId);
        p := byId[userId];
        OneOfName(u, userId);
        MovePending(c, u, p);
        if u.connMap == map[] {
          DropAlias(u, p, c);
        }
      } else {
        p := u;
      }
    }

    // SetUserId and SetValidated change nothing for a user already found by its id.
    method SetUser(p: ImUser, userId: nat)
      requires p.userId == userId && p.validated
      modifies p`userId, p`validated
      ensures p.userId == userId && p.validated
    {
      p.userId := userId;
      p.validated := true;
    }

    lemma NotById(p: ImUser)
      requires IdsBut(null) && p.userId == 0
      ensures forall i <- byId :: byId[i] != p
    {
    }

    // SetUserId and SetValidated for a new one.
    method SetNewUser(p: ImUser, userId: nat)
      requires IdsBut(null) && NamesBut(null) && p.userId == 0
      modifies p`userId, p`validated
      ensures p.userId == userId && p.validated && IdsBut(null) && NamesBut(p) && forall i <- byId :: byId[i] != p
    {
      NotById(p);
      p.userId := userId;
      p.validated := true;
    }

    // AddImUserById
    method AddById(p: ImUser)
      requires IdsBut(null) && NamesBut(p) && MapsBut(null) && ConnsGood() && p.userId !in byId
      requires p in users && p.loginName in byName && byName[p.loginName] == p && idOf(p.loginName) == p.userId
      requires p.userId > 0 && p.validated && p.connMap == map[]
      modifies this`byId
      ensures IdsBut(p) && NamesBut(null) && MapsBut(null) && ConnsGood()
      ensures byId == old(byId)[p.userId := p]
    {
      EmptyMap(p);
      hide MapGood;
      byId := byId[p.userId := p];
    }

    lemma EmptyMap(p: ImUser)
      requires p.connMap == map[]
      ensures MapGood(p.userId, p, null)
    {
    }

    // SetUserId, SetValidated, AddImUserById
    method Admit(p: ImUser, userId: nat)
      requires IdsBut(null) && NamesBut(null) && MapsBut(null) && ConnsGood()
      requires p in users && p.loginName in byName && byName[p.loginName] == p && idOf(p.loginName) == userId
                 && userId > 0
      requires if userId in byId then p == byId[userId] else p.userId == 0 && p.connMap == map[]
      modifies this`byId, p`userId, p`validated
      ensures IdsBut(p) && NamesBut(null) && MapsBut(null) && ConnsGood() && p.userId == userId
      ensures byId == old(byId)[userId := p]
    {
      hide NamesBut, MapsBut, ConnsGood;
      if userId in byId {
        SetUser(p, userId);
      } else {
        SetNewUser(p, userId);
        AddById(p);
      }
    }

    // An open connection that its user does not list yet is the only one that cannot be found.
    ghost predicate ConnsBut(but: MsgConn)
      reads this`byId, this`users, this`conns, users`connMap, conns`alive, conns`open, conns`userId, conns`loginName
    {
      forall c <- conns :: c.alive && c != but ==> ConnGood(c)
    }

    // SetUserId, SetOpen
    method MarkOpen(c: MsgConn, userId: nat)
      requires MapsBut(null) && ConnsGood() && PendingBut(c) && UpdatesGood(0)
      requires c in conns && c.alive && !c.open
      modifies c`userId, c`open
      ensures c.userId == userId && c.open
      ensures MapsBut(null) && ConnsBut(c) && PendingBut(c) && UpdatesGood(-1)
    {
      hide Net, Found;
      c.userId := userId;
      c.open := true;
      assert OpenConns() == old(OpenConns()) + {c};
    }

    method CountUp(c: MsgConn)
      requires c.open && c.userId in byId && UpdatesGood(-1)
      modifies this`updates
      ensures UpdatesGood(0) && updates == old(updates) + [true]
    {
      hide Net, OpenConns;
      SendUserStatusUpdate(c, true);
      NetSnoc(old(updates), true);
    }

    // CImUser::AddMsgConn; nobody live has the same handle.
    method AddMsgConn(c: MsgConn, p: ImUser)
      requires IdsBut(p) && NamesBut(null) && MapsBut(null) && ConnsBut(c) && HandlesDiffer()
      requires c in conns && c.alive && c.open && c.userId in byId && byId[c.userId] == p && p.userId != 0
      requires p in users && c.userId == idOf(c.loginName)
      modifies p`connMap
      ensures IdsBut(null) && NamesBut(null) && MapsBut(null) && ConnsGood()
      ensures p.connMap == old(p.connMap)[c.handle := c]
    {
      OneId(p);
      hide IdGood, ConnsGood, ConnsBut;
      HandleFree(c, p);
      p.connMap := p.connMap[c.handle := c];
      assert c.handle in p.connMap;
      assert p.connMap != map[];
      AllFound(c, p);
    }

    twostate lemma AllFound(new c: MsgConn, new p: ImUser)
      requires c in old(conns) && p in old(users) && old(ConnsBut(c))
                 && old(c.handle in p.connMap ==> p.connMap[c.handle] == c)
      requires unchanged(this) && (forall d <- conns :: unchanged(d))
                 && (forall u <- users :: u != p ==> unchanged(u`connMap))
      requires p.connMap == old(p.connMap)[c.handle := c] && p in users
      requires c.open && c.userId in byId && byId[c.userId] == p && c.userId == idOf(c.loginName)
      ensures ConnsGood()
    {
    }

    lemma OneId(p: ImUser)
      requires IdsBut(p)
      ensures forall i <- byId :: byId[i] == p ==> i == p.userId
    {
    }

    lemma HandleFree(c: MsgConn, p: ImUser)
      requires MapsBut(null) && HandlesDiffer() && c in conns && c.alive && c.userId in byId && byId[c.userId] == p
      ensures c.handle in p.connMap ==> p.connMap[c.handle] == c
    {
    }

    // The end of CImUser::ValidateMsgConn.
    method DelUnValidateMsgConn(c: MsgConn, p: ImUser)
      requires PendingBut(c) && PendingWith(c, p)
      modifies p`unvalidated
      ensures PendingBut(null) && p.unvalidated == old(p.unvalidated) - {c}
    {
      hide WaitsRightly;
      p.unvalidated := p.unvalidated - {c};
    }

    // SetUserId, SetOpen, SendUserStatusUpdate and ValidateMsgConn
    method Join(c: MsgConn, p: ImUser, userId: nat)
      requires IdsBut(p) && NamesBut(null) && MapsBut(null) && ConnsGood() && HandlesDiffer()
      requires PendingBut(c) && PendingWith(c, p) && UpdatesGood(0)
      requires c in conns && c.alive && !c.open && p in users && p.userId == userId == idOf(c.loginName)
      requires userId in byId && byId[userId] == p && userId > 0
      modifies this`updates, c`userId, c`open, p`connMap, p`unvalidated
      ensures Valid() && c.open && c.userId == userId && updates == old(updates) + [true]
      ensures p.connMap == old(p.connMap)[c.handle := c] && p.unvalidated == old(p.unvalidated) - {c}
    {
      hide IdsBut, NamesBut, MapsBut, ConnsGood, ConnsBut, HandlesDiffer, PendingBut, PendingWith, UpdatesGood;
      MarkOpen(c, userId);
      CountUp(c);
      AddMsgConn(c, p);
      DelUnValidateMsgConn(c, p);
    }

    // c has left those who wait, and nobody else has, unless its name was another one of a user that was
    // there already: then the name is gone, and whoever waited under it.
    twostate predicate Admitted(new c: MsgConn, new u: ImUser, new userId: nat)
      requires old(allocated(u))
      reads this`users, this`byName, users`unvalidated
    {
      var alias := userId in old(byId) && old(byId)[userId] != u;
      && byName == (if alias then old(byName) - {u.loginName} else old(byName))
      && (!alias ==> Waiting(u.loginName) == old(Waiting(u.loginName)) - {c})
      && (forall n | n in old(byName) && n != u.loginName :: Waiting(n) == old(Waiting(n)))
    }

    twostate lemma AdmittedSo(new c: MsgConn, new u: ImUser, new p: ImUser, new userId: nat)
      requires old(allocated(u)) && old(allocated(p)) && users == old(users) && p in users && u in users
      requires forall n <- old(byName) :: old(byName)[n] in users && old(byName)[n].loginName == n
      requires u.loginName in old(byName) && old(byName)[u.loginName] == u
      requires p == if userId in old(byId) then old(byId)[userId] else u
      requires byName == if p == u then old(byName) else old(byName) - {u.loginName}
      requires forall v <- users :: v != p && v != u ==> v.unvalidated == old(v.unvalidated)
      requires p != u ==> p.unvalidated == old(p.unvalidated) + {c} - {c}
      requires p == u ==> u.unvalidated == old(u.unvalidated) - {c}
      requires forall n <- old(byName) :: n != u.loginName ==> c !in old(byName[n].unvalidated)
      ensures Admitted(c, u, userId)
    {
    }

    lemma NamesKnown()
      requires NamesBut(null)
      ensures forall n <- byName :: byName[n] in users && byName[n].loginName == n
    {
    }

    lemma WaitsOnce(c: MsgConn, u: ImUser)
      requires PendingBut(null) && NamesBut(null) && u.loginName in byName && byName[u.loginName] == u
      requires c in u.unvalidated
      ensures forall n <- byName :: n != u.loginName ==> c !in byName[n].unvalidated
    {
    }

    // _HandleValidateResponse for a connection that was let in.
    method LetIn(c: MsgConn, u: ImUser, userId: nat)
      requires Valid() && u.loginName in byName && byName[u.loginName] == u && c in u.unvalidated
      requires userId == idOf(u.loginName) && userId > 0
      modifies this`byId, this`byName, this`updates, c`userId, c`open
      modifies users`userId, users`validated, users`connMap, users`unvalidated
      ensures Valid() && c.open && c.userId == userId && updates == old(updates) + [true]
      ensures byId.Keys == old(byId).Keys + {userId} && (userId in old(byId) ==> byId[userId] == old(byId)[userId])
      ensures byId[userId].connMap == (if userId in old(byId) then old(byId[userId].connMap) else map[])[c.handle := c]
      ensures forall v <- users :: v != byId[userId] ==> v.connMap == old(v.connMap)
      ensures Admitted(c, u, userId)
    {
      hide IdsBut, NamesBut, MapsBut, ConnsGood, ConnsBut, HandlesDiffer, PendingBut, PendingWith, UpdatesGood;
      hide Waiting, Admitted;
      PendingKnown(c, u);
      WaitsOnce(c, u);
      NamesKnown();
      var p := Choose(c, u, userId);
      Admit(p, userId);
      Join(c, p, userId);
      AdmittedSo(c, u, p, userId);
    }

    twostate predicate AsBefore(e: MsgConn)
      reads e
    {
      e.alive == old(e.alive) && e.open == old(e.open) && e.userId == old(e.userId) && e.loginName == old(e.loginName)
    }

    // CDBServConn::_HandleValidateResponse. The database gives a fixed id above 0 to a name.
    method HandleValidateResponse(name: string, handle: nat, result: nat, userId: nat)
      requires Valid() && (result == 0 ==> userId == idOf(name) && userId > 0)
      modifies this`byId, this`byName, this`updates, conns`alive, conns`userId, conns`open
      modifies users`userId, users`validated, users`connMap, users`unvalidated
      ensures Valid()
      ensures name !in old(byName) || (forall d <- old(byName[name].unvalidated) :: d.handle != handle) ==>
                && byId == old(byId) && byName == old(byName) && updates == old(updates)
                && (forall n <- byName :: Waiting(n) == old(Waiting(n))) && (forall e <- conns :: AsBefore(e))
      ensures name in old(byName) ==> forall d <- old(byName[name].unvalidated) :: d.handle == handle ==>
                && (forall e <- conns :: e != d ==> AsBefore(e))
                && if result == 0 then
                     d.open && d.alive && d.userId == userId && updates == old(updates) + [true]
                     && Admitted(d, old(byName)[name], userId)
                   else !d.alive && updates == old(updates) && Left(d)
    {
      hide IdsBut, NamesBut, MapsBut, ConnsGood, HandlesDiffer, PendingBut, UpdatesGood;
      if name !in byName {
        return;
      }
      var u := byName[name];
      UserOfName(name);
      var c := GetUnValidateMsgConn(u, handle);
      if c == null || c.open {
        NeverOpen(u);
        return;
      }
      OnlyOne(u, c);
      Answer(c, u, result, userId);
    }

    // The answer for the connection that is found.
    method Answer(c: MsgConn, u: ImUser, result: nat, userId: nat)
      requires Valid() && u.loginName in byName && byName[u.loginName] == u && c in u.unvalidated
      requires result == 0 ==> userId == idOf(u.loginName) && userId > 0
      modifies this`byId, this`byName, this`updates, conns`alive, conns`userId, conns`open
      modifies users`userId, users`validated, users`connMap, users`unvalidated
      ensures Valid() && forall e <- conns :: e != c ==> AsBefore(e)
      ensures if result == 0 then
                c.open && c.alive && c.userId == userId && updates == old(updates) + [true] && Admitted(c, u, userId)
              else !c.alive && updates == old(updates) && Left(c)
    {
      hide IdsBut, NamesBut, MapsBut, ConnsGood, HandlesDiffer, PendingBut, UpdatesGood;
      PendingKnown(c, u);
      if result == 0 {
        LetIn(c, u, userId);
      } else {
        Close(c);
      }
    }

    lemma NeverOpen(u: ImUser)
      requires PendingBut(null) && NamesBut(null) && u.loginName in byName && byName[u.loginName] == u
      ensures forall d <- u.unvalidated :: !d.open
    {
    }

    lemma OnlyOne(u: ImUser, c: MsgConn)
      requires PendingBut(null) && NamesBut(null) && HandlesDiffer()
      requires u.loginName in byName && byName[u.loginName] == u && c in u.unvalidated
      ensures forall d <- u.unvalidated :: d.handle == c.handle ==> d == c
    {
      PendingKnown(c, u);
      forall d <- u.unvalidated ensures d.handle == c.handle ==> d == c {
        PendingKnown(d, u);
      }
    }

    ghost function OpenOf(ids: set<nat>): set<MsgConn>
      reads this`conns, conns`alive, conns`open, conns`userId
    {
      set c <- conns | c.alive && c.open && c.userId in ids
    }

    // CImUser::GetUserConn: the open connections of a user.
    method GetUserConn(i: nat) returns (count: nat)
      requires Valid() && i in byId
      ensures count == |OpenOf({i})|
    {
      hide IdsBut, NamesBut, MapsBut, ConnsGood, HandlesDiffer, PendingBut, UpdatesGood, OpenOf;
      var u := byId[i];
      UserOfId(i);
      var rest := u.connMap.Keys;
      ghost var counted: set<MsgConn> := {};
      count := 0;
      while rest != {}
        invariant rest <= u.connMap.Keys && count == |counted|
        invariant forall h <- u.connMap :: h !in rest <==> u.connMap[h] in counted
        invariant forall c <- counted :: c.handle in u.connMap && u.connMap[c.handle] == c
        decreases |rest|
      {
        var h :| h in rest;
        rest := rest - {h};
        MapEntry(i, h);
        if u.connMap[h].open {
          count := count + 1;
          counted := counted + {u.connMap[h]};
        }
        HandlesApart(i, h);
      }
      CountedAll(i, counted);
    }

    lemma MapEntry(i: nat, h: nat)
      requires Valid() && i in byId && h in byId[i].connMap
      ensures var c := byId[i].connMap[h]; c in conns && c.alive && c.open && c.handle == h && c.userId == i
    {
    }

    lemma HandlesApart(i: nat, h: nat)
      requires Valid() && i in byId && h in byId[i].connMap
      ensures forall k <- byId[i].connMap :: k != h ==> byId[i].connMap[k] != byId[i].connMap[h]
    {
      MapEntry(i, h);
      forall k <- byId[i].connMap ensures k != h ==> byId[i].connMap[k] != byId[i].connMap[h] {
        MapEntry(i, k);
      }
    }

    lemma CountedAll(i: nat, counted: set<MsgConn>)
      requires Valid() && i in byId
      requires forall h <- byId[i].connMap :: byId[i].connMap[h] in counted
      requires forall c <- counted :: c.handle in byId[i].connMap && byId[i].connMap[c.handle] == c
      ensures counted == OpenOf({i})
    {
      forall c <- counted ensures c in OpenOf({i}) {
        MapEntry(i, c.handle);
      }
      forall c <- OpenOf({i}) ensures c in counted {
        assert ConnGood(c) && Found(c);
      }
    }

    // CImUserManager::GetUserConnCnt, which a new login server is told, counts the open connections,
    // and so it is what the updates sent before add up to.
    method GetUserConnCnt() returns (total: nat)
      requires Valid()
      ensures total == |OpenConns()| == Net(updates)
    {
      hide IdsBut, NamesBut, MapsBut, ConnsGood, HandlesDiffer, PendingBut, UpdatesGood, OpenConns, Net, OpenOf;
      total := 0;
      var rest := byId.Keys;
      ghost var done: set<nat> := {};
      NoneDone();
      while rest != {}
        invariant rest <= byId.Keys && done == byId.Keys - rest && total == |OpenOf(done)|
        decreases |rest|
      {
        var i :| i in rest;
        rest := rest - {i};
        UserOfId(i);
        Validated(i);
        if byId[i].validated {
          var count := GetUserConn(i);
          total := total + count;
        }
        OneMore(done, i);
        done := done + {i};
      }
      AllCounted(done);
      Told();
    }

    lemma NoneDone()
      ensures |OpenOf({})| == 0
    {
      assert OpenOf({}) == {};
    }

    lemma Told()
      requires UpdatesGood(0)
      ensures Net(updates) == |OpenConns()|
    {
    }

    lemma Validated(i: nat)
      requires Valid() && i in byId
      ensures byId[i].validated
    {
    }

    lemma OneMore(done: set<nat>, i: nat)
      requires i !in done
      ensures |OpenOf(done + {i})| == |OpenOf(done)| + |OpenOf({i})|
    {
      assert OpenOf(done + {i}) == OpenOf(done) + OpenOf({i});
      assert OpenOf(done) !! OpenOf({i});
    }

    lemma AllCounted(done: set<nat>)
      requires Valid() && done == byId.Keys
      ensures OpenOf(done) == OpenConns()
    {
      forall c <- OpenConns() ensures c in OpenOf(done) {
        assert ConnGood(c) && Found(c);
      }
    }
  }

  // Two requests on one connection, the first with an empty name: it then waits under two names.
  method EmptyNameTwice(idOf: string -> nat) returns (m: ImUserManager)
    ensures fresh(m) && !m.Valid()
  {
    m := new ImUserManager(idOf);
    var c := m.Accept(1);
    m.HandleLoginRequest(c, "", true);
    m.HandleLoginRequest(c, "alice", true);
  }

  // A registry of users whose ids are given by idOf, with two connections that wait under one name.
  method TwoWait(idOf: string -> nat) returns (m: ImUserManager, a: MsgConn, b: MsgConn)
    ensures fresh(m) && m.Valid() && m.idOf == idOf && a != b && a in m.conns && b in m.conns && a.alive && b.alive
    ensures a.handle == 1 && b.handle == 2 && m.Waiting("alice") == {a, b} && "alice" in m.byName && m.byId == map[]
    ensures m.byName["alice"] in m.users && fresh(m.users) && fresh(m.conns)
  {
    hide ImUserManager.Valid;
    m, a, b := TwoConnected(idOf);
    m.HandleLoginRequest(a, "alice", true);
    m.HandleLoginRequest(b, "alice", true);
  }

  method TwoConnected(idOf: string -> nat) returns (m: ImUserManager, a: MsgConn, b: MsgConn)
    ensures fresh(m) && m.Valid() && m.idOf == idOf && m.conns == {a, b} && fresh(a) && fresh(b) && a != b
    ensures a.handle == 1 && b.handle == 2 && a.alive && b.alive && !a.open && !b.open
    ensures a.loginName == b.loginName == "" && m.byName == map[] && m.byId == map[] && m.users == {}
  {
    hide ImUserManager.Valid;
    m := new ImUserManager(idOf);
    a := m.Accept(1);
    b := m.Accept(2);
  }

  // The answer for one of them lets it in, and the other goes on waiting.
  method FirstIn(idOf: string -> nat) returns (m: ImUserManager, a: MsgConn, b: MsgConn)
    requires idOf("alice") > 0
    ensures fresh(m) && m.Valid() && m.idOf == idOf && a != b && a in m.conns && b in m.conns
    ensures a.open && a.alive && a.userId == idOf("alice") && b.alive && b.handle == 2
    ensures "alice" in m.byName && m.byName["alice"] in m.users && m.Waiting("alice") == {b}
    ensures fresh(m.users) && fresh(m.conns)
  {
    hide ImUserManager.Valid;
    m, a, b := TwoWait(idOf);
    var u := m.byName["alice"];
    m.NameOfUser("alice");
    assert u.unvalidated == {a, b};
    label Before:
    m.HandleValidateResponse("alice", 1, 0, idOf("alice"));
    assert a in old@Before(m.byName["alice"].unvalidated) && a.handle == 1;
    assert m.AsBefore@Before(b);
    assert m.byName == old@Before(m.byName);
    assert m.Waiting("alice") == {a, b} - {a};
  }

  // Both are let in: the answer for one does not disturb the other.
  method BothLoggedIn(idOf: string -> nat) returns (m: ImUserManager, a: MsgConn, b: MsgConn)
    requires idOf("alice") > 0
    ensures m.Valid() && a != b && a.open && a.alive && b.open && b.alive && a.userId == b.userId == idOf("alice")
  {
    hide ImUserManager.Valid;
    m, a, b := FirstIn(idOf);
    assert m.byName["alice"].unvalidated == {b};
    label Before:
    m.HandleValidateResponse("alice", 2, 0, idOf("alice"));
    assert b in old@Before(m.byName["alice"].unvalidated) && b.handle == 2;
    assert m.AsBefore@Before(a);
  }
}
