/**
 * CDBPool and CachePool: connections handed out and taken back under one lock, with waiting.
 * Every method is what a thread does from taking the lock to giving it up or waiting, so a run of
 * the program is a sequence of these calls by any threads in any order.
 */
module ConnPools {
  const MIN_CONN_CNT: nat := 2

  type Thread = nat

  class Conn {
    constructor () {}
  }

  datatype Found = Ready | MustWait | NotOpened
  datatype Attempted = Got(conn: Conn) | Waits | Failed

  class Pool {
    var free: seq<Conn>            // m_free_list
    var cur: int                   // m_db_cur_conn_cnt, m_cur_conn_cnt
    const max: int                 // m_db_max_conn_cnt, m_max_conn_cnt
    ghost var holder: map<Conn, Thread>
    ghost var waiting: set<Thread>     // in Wait, and not signalled
    ghost var signalled: set<Thread>   // woken, and not yet running

    ghost predicate Distinct()
      reads this`free, this`holder
    {
      && (forall i, j :: 0 <= i < j < |free| ==> free[i] != free[j])
      && (forall c <- free :: c !in holder)
    }

    ghost predicate Valid()
      reads this
    {
      && Distinct() && |free| + |holder| == cur && (cur <= MIN_CONN_CNT || cur <= max)
      && waiting !! signalled
      && (waiting != {} || signalled != {} ==> cur >= max)
      // No wakeup is lost: whoever still sleeps, every free connection has somebody coming for it.
      && (waiting != {} ==> |free| <= |signalled|)
    }

    constructor (max: int)
      ensures this.max == max && free == [] && cur == MIN_CONN_CNT
      ensures holder == map[] && waiting == {} && signalled == {}
    {
      this.max := max;
      free, cur := [], MIN_CONN_CNT;
      holder, waiting, signalled := map[], {}, {};
    }

    // 0, or the error of the connection that could not be opened.
    method Init() returns (ret: int)
      requires free == [] && cur == MIN_CONN_CNT && holder == map[] && waiting == {} && signalled == {}
      modifies this`free
      ensures ret == 0 ==> Valid() && |free| == MIN_CONN_CNT
    {
      for i := 0 to cur
        invariant |free| == i && Distinct() && cur == MIN_CONN_CNT
        invariant fresh(set c <- free :: c)
      {
        var conn := new Conn();
        ret := InitConn();
        if ret != 0 {
          return;
        }
        free := free + [conn];
      }
      ret := 0;
    }

    // CDBConn::Init talks to the database.
    method InitConn() returns (ret: int)
    {
      ret := *;
    }

    // A new connection is put on the free list and counted, unless it cannot be opened.
    method Grow() returns (ret: int)
      requires Distinct() && free == [] && |holder| == cur < max
      modifies this`free, this`cur
      ensures Distinct() && |free| + |holder| == cur
      ensures if ret == 0 then |free| == 1 && fresh(free[0]) && cur == old(cur) + 1 else free == [] && cur == old(cur)
    {
      var conn := new Conn();
      ret := InitConn();
      if ret == 0 {
        free := [conn];
        cur := cur + 1;
      }
    }

    method TakeFront(t: Thread) returns (conn: Conn)
      requires free != [] && Distinct()
      modifies this`free, this`holder
      ensures conn == old(free)[0] && free == old(free)[1..] && conn !in old(holder)
      ensures holder == old(holder)[conn := t] && |holder| == |old(holder)| + 1 && Distinct()
    {
      conn := free[0];
      assert conn in free;
      free := free[1..];
      holder := holder[conn := t];
    }

    // The loop of GetDBConn, up to a free connection, a wait or a failure.
    method FindFree() returns (found: Found)
      requires Distinct() && |free| + |holder| == cur && (cur <= MIN_CONN_CNT || cur <= max)
      modifies this`free, this`cur
      ensures Distinct() && |free| + |holder| == cur && (cur <= MIN_CONN_CNT || cur <= max)
      ensures found.Ready? <==> free != []
      ensures found.MustWait? <==> old(free) == [] && old(cur) >= max
      ensures old(free) != [] || !found.Ready? ==> free == old(free) && cur == old(cur)
      ensures old(free) == [] && found.Ready? ==> |free| == 1 && fresh(free[0]) && cur == old(cur) + 1 <= max
    {
      hide Distinct;
      while free == []
        invariant Distinct() && |free| + |holder| == cur && (cur <= MIN_CONN_CNT || cur <= max)
        invariant (free == old(free) && cur == old(cur))
               || (old(free) == [] && |free| == 1 && fresh(free[0]) && cur == old(cur) + 1 <= max)
        decreases free == []
      {
        if cur >= max {
          return MustWait;
        }
        var ret := Grow();
        if ret != 0 {
          return NotOpened;
        }
      }
      return Ready;
    }

    // What thread t gets: the front of the free list, or a new connection if the list is empty and the
    // limit not reached, or a failure to open it; it waits exactly if it must.
    twostate predicate Given(new r: Attempted, t: Thread)
      reads this
    {
      && (r.Got? ==> r.conn !in old(holder) && holder == old(holder)[r.conn := t])
      && (r.Got? && old(free) != [] ==> r.conn == old(free)[0] && free == old(free)[1..] && cur == old(cur))
      && (r.Got? && old(free) == [] ==> fresh(r.conn) && free == [] && cur == old(cur) + 1 <= max)
      && (!r.Got? ==> old(free) == free == [] && holder == old(holder) && cur == old(cur))
      && (r.Waits? <==> old(free) == [] && old(cur) >= max)
    }

    // GetDBConn by thread t, which holds the lock: on the way in or after a wait.
    method Attempt(t: Thread) returns (r: Attempted)
      requires Valid() && t !in waiting
      modifies this
      ensures Valid() && signalled == old(signalled) - {t}
      ensures waiting == if r.Waits? then old(waiting) + {t} else old(waiting)
      ensures Given(r, t)
    {
      hide Distinct;
      OneLess(signalled, t);
      signalled := signalled - {t};
      var found := FindFree();
      match found
      case MustWait =>
        waiting := waiting + {t};
        r := Waits;
      case NotOpened =>
        r := Failed;
      case Ready =>
        var conn := TakeFront(t);
        r := Got(conn);
    }

    lemma OneLess(s: set<Thread>, t: Thread)
      ensures |s - {t}| >= |s| - 1 && (t !in s ==> s - {t} == s)
    {
    }

    // GetDBConn, up to its return or its first wait.
    method GetConn(t: Thread) returns (r: Attempted)
      requires Valid() && t !in waiting && t !in signalled
      modifies this
      ensures Valid() && signalled == old(signalled)
      ensures waiting == if r.Waits? then old(waiting) + {t} else old(waiting)
      ensures Given(r, t)
    {
      r := Attempt(t);
    }

    // A signalled thread gets the lock back.
    method Resume(t: Thread) returns (r: Attempted)
      requires Valid() && t in signalled
      modifies this
      ensures Valid() && signalled == old(signalled) - {t}
      ensures waiting == if r.Waits? then old(waiting) + {t} else old(waiting)
      ensures Given(r, t)
    {
      r := Attempt(t);
    }

    // If anybody sleeps with nobody on the way, then every connection the pool may have is lent.
    lemma SleepersHaveReason()
      requires Valid() && waiting != {} && signalled == {}
      ensures free == [] && |holder| == cur >= max
    {
    }

    // A condition variable may also wake a thread for no reason.
    ghost method WakeUp(t: Thread)
      requires Valid() && t in waiting
      modifies this`waiting, this`signalled
      ensures Valid() && waiting == old(waiting) - {t} && signalled == old(signalled) + {t}
    {
      waiting, signalled := waiting - {t}, signalled + {t};
    }

    // pthread_cond_signal wakes at least one waiting thread.
    method Signal()
      modifies this`waiting, this`signalled
      requires waiting !! signalled
      ensures waiting <= old(waiting) && signalled == old(signalled) + (old(waiting) - waiting)
      ensures old(waiting) != {} ==> waiting < old(waiting) && |signalled| > |old(signalled)|
      ensures waiting !! signalled && (old(waiting) == {} ==> waiting == {} && signalled == old(signalled))
    {
      ghost var woken: set<Thread> :| woken <= waiting && (waiting != {} ==> woken != {});
      assert |signalled + woken| == |signalled| + |woken|;
      waiting, signalled := waiting - woken, signalled + woken;
    }

    // The scan of the free list.
    method Listed(conn: Conn) returns (found: bool)
      ensures found <==> conn in free
    {
      for i := 0 to |free|
        invariant conn !in free[..i]
      {
        if free[i] == conn {
          return true;
        }
      }
      return false;
    }

    // Whether t may return the connection: it holds it, or it is free already.
    ghost predicate Returnable(t: Thread, conn: Conn)
      reads this`free, this`holder
    {
      conn in free || (conn in holder && holder[conn] == t)
    }

    // The thread no longer regards the connection as its own.
    ghost method GiveUp(t: Thread, conn: Conn)
      modifies this`holder
      ensures holder == if conn in old(holder) && old(holder)[conn] == t then old(holder) - {conn} else old(holder)
      ensures |holder| == if conn in old(holder) && old(holder)[conn] == t then |old(holder)| - 1 else |old(holder)|
    {
      if conn in holder && holder[conn] == t {
        assert holder.Keys == (holder - {conn}).Keys + {conn};
        holder := holder - {conn};
      }
    }

    // The list after the scan: the connection is on it.
    method Return(t: Thread, conn: Conn)
      requires Distinct() && |free| + |holder| == cur
      modifies this`free, this`holder
      ensures holder == if conn in old(holder) && old(holder)[conn] == t then old(holder) - {conn} else old(holder)
      ensures free == if conn in old(free) then old(free) else old(free) + [conn]
      ensures Distinct() && |free| + |holder| == cur <==> old(Returnable(t, conn))
      ensures |free| <= |old(free)| + 1
    {
      var listed := Listed(conn);
      GiveUp(t, conn);
      if !listed {
        free := free + [conn];
        assert free[|free| - 1] == conn;
      }
    }

    // RelDBConn by thread t, whether or not it holds the connection. The pool stays sound exactly if it
    // does, or the connection is free already; else the connection is from then on free and lent.
    method RelConn(t: Thread, conn: Conn)
      requires Valid()
      modifies this
      ensures cur == old(cur) && free == if conn in old(free) then old(free) else old(free) + [conn]
      ensures holder == if conn in old(holder) && old(holder)[conn] == t then old(holder) - {conn} else old(holder)
      ensures waiting <= old(waiting) && (old(waiting) != {} ==> waiting < old(waiting))
      ensures signalled == old(signalled) + (old(waiting) - waiting)
      ensures Valid() <==> old(Returnable(t, conn))
    {
      hide Distinct, Returnable;
      Return(t, conn);
      Signal();
    }
  }

  // Thread 1 has taken a connection of a new pool and returned it.
  method Returned(max: int) returns (ret: int, p: Pool, conn: Conn?)
    ensures ret == 0 ==> p.Valid() && conn != null && |p.free| == 2 && p.free[1] == conn
    ensures fresh(p) && (ret == 0 ==> p.waiting == p.signalled == {})
  {
    hide Pool.Distinct;
    conn := null;
    p := new Pool(max);
    ret := p.Init();
    if ret != 0 {
      return;
    }
    var one := p.GetConn(1);
    conn := one.conn;
    p.RelConn(1, conn);
  }

  // What RelConn is not safe from: threads 2 and 3 take both connections after that, and thread 1 returns
  // its own again. It is then at the front of the free list, while thread 3 holds it.
  method ReturnedTwice(max: int) returns (ret: int, p: Pool, conn: Conn?)
    ensures ret == 0 ==> !p.Valid() && conn != null && p.free == [conn] && conn in p.holder && p.holder[conn] == 3
  {
    hide Pool.Distinct;
    ret, p, conn := Returned(max);
    if ret != 0 {
      return;
    }
    var two := p.GetConn(2);
    var three := p.GetConn(3);
    p.RelConn(1, conn);
  }
}
