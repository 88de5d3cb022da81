/** The route server connections of a msg_server, and which of them is the master. */
module RouteMaster {
  const NEVER: nat := 0xffff_ffff_ffff_ffff   // (uint64_t)-1

  class RouteServConn {
    var open: bool
    var connectTime: nat
    var roleSent: bool   // it was sent IMRoleSet(master = 1)
    const servIdx: nat

    constructor (servIdx: nat)
      ensures !open && !roleSent && this.servIdx == servIdx
    {
      this.servIdx := servIdx;
      open, roleSent, connectTime := false, false, 0;
    }
  }

  class RouteServers {
    var list: seq<RouteServConn?>     // serv_conn of every entry of g_route_server_list
    var master: RouteServConn?
    ghost var clock: nat              // no connection was confirmed later than this

    // The connections that are there and open.
    ghost predicate IsOpen(c: RouteServConn?)
      reads this, set d <- list | d != null :: d
    {
      c != null && c in list && c.open
    }

    ghost predicate Structure()
      reads this, set d <- list | d != null :: d
    {
      && (forall i :: 0 <= i < |list| && list[i] != null ==> list[i].servIdx == i)
      && (forall c <- list :: IsOpen(c) ==> c.connectTime <= clock && c.connectTime < NEVER)
      && (master == null <==> forall c <- list :: !IsOpen(c))
      && (master != null ==> IsOpen(master) && master.roleSent)
    }

    ghost predicate Oldest()
      reads this, master, set d <- list | d != null :: d
    {
      master != null ==> forall c <- list :: IsOpen(c) ==> master.connectTime <= c.connectTime
    }

    ghost predicate Valid()
      reads this, master, set d <- list | d != null :: d
    {
      Structure() && Oldest()
    }

    constructor (count: nat)
      ensures Valid() && |list| == count && master == null
    {
      list := seq(count, _ => null);
      master := null;
      clock := 0;
    }

    // update_master_route_serv_conn
    method Update()
      requires forall i :: 0 <= i < |list| && list[i] != null ==> list[i].servIdx == i
      requires forall c <- list :: IsOpen(c) ==> c.connectTime <= clock && c.connectTime < NEVER
      modifies this`master, (set d <- list | d != null :: d)`roleSent
      ensures Valid() && forall c <- list :: c != null && c != master ==> c.roleSent == old(c.roleSent)
    {
      var oldestTime := NEVER;
      var oldest: RouteServConn? := null;
      for i := 0 to |list|
        invariant oldest == null ==> oldestTime == NEVER && forall j :: 0 <= j < i ==> !IsOpen(list[j])
        invariant oldest != null ==> IsOpen(oldest) && oldest.connectTime == oldestTime
        invariant forall j :: 0 <= j < i && IsOpen(list[j]) ==> oldestTime <= list[j].connectTime
        modifies {}
      {
        var conn := list[i];
        if conn != null && conn.open && conn.connectTime < oldestTime {
          oldest := conn;
          oldestTime := conn.connectTime;
        }
      }
      master := oldest;
      if master != null {
        master.roleSent := true;
      }
    }

    // serv_check_reconnect puts a new connection into an empty slot.
    method Reconnect(i: nat)
      requires Valid() && i < |list| && list[i] == null
      modifies this`list
      ensures Valid() && |list| == |old(list)| && list == old(list)[i := list[i]]
      ensures list[i] != null && fresh(list[i]) && !list[i].open
      ensures master == old(master)
    {
      var conn := new RouteServConn(i);
      ghost var before := list;
      list := list[i := conn];
      assert forall c <- list :: c == conn || c in before;
      assert forall c <- before :: c != null ==> c in list by {
        forall c <- before | c != null ensures c in list {
          var j :| 0 <= j < |before| && before[j] == c;
          assert list[j] == c;
        }
      }
    }

    // OnConfirm, which a connection sees once. The master is still the oldest if and only if the
    // clock has not gone back behind it.
    method OnConfirm(conn: RouteServConn, now: nat)
      requires Valid() && conn in list && !conn.open && now < NEVER
      modifies this`master, this`clock, conn, (set d <- list | d != null :: d)`roleSent
      ensures Structure() && conn.open && conn.connectTime == now
      ensures Oldest() <==> old(master) == null || old(master.connectTime) <= now
      ensures now >= old(clock) ==> Oldest()
      ensures forall c <- list :: c != null && c != master ==> c.roleSent == old(c.roleSent)
    {
      conn.open := true;
      conn.connectTime := now;
      if clock < now {
        clock := now;
      }
      assert IsOpen(conn);
      if master == null {
        Update();
      }
    }

    // Close, which runs once: the slot is emptied, and if it was the master's, a new one is chosen.
    method Close(conn: RouteServConn)
      requires Valid() && conn in list
      modifies this`list, this`master, conn, (set d <- list | d != null :: d)`roleSent
      ensures Valid() && list == old(list)[conn.servIdx := null] && !conn.open
      ensures old(master) != conn ==> master == old(master)
      ensures forall c <- list :: c != null && c != master ==> c.roleSent == old(c.roleSent)
    {
      ghost var before := list;
      list := list[conn.servIdx := null];
      conn.open := false;
      assert forall c <- list :: c == null || c in before;
      assert conn !in list;
      assert forall c <- before :: c != conn && c != null ==> c in list by {
        forall c <- before | c != conn && c != null ensures c in list {
          var j :| 0 <= j < |before| && before[j] == c;
          assert list[j] == c;
        }
      }
      if master == conn {
        Update();
      }
    }
  }
}
