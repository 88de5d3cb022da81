/**
 * The DB proxy: requests are queued for worker threads, responses are queued back and sent by the
 * main thread, and a connection is named by a number that socket handles cannot stand in for.
 * Every method is one atomic step of one thread; a run is any sequence of them.
 */
module ProxyPipeline {
  import opened Wrappers
  import opened Octets

  const CID_OTHER_HEARTBEAT: nat := 0x0701

  // The uuid of the n-th connection, counted from 0: the 32-bit counter never gives out 0.
  const PERIOD: nat := 0xffff_ffff

  function Uuid(n: nat): (u: Word32)
    ensures u != 0
  {
    n % PERIOD + 1
  }

  // Two connections share a uuid if and only if a multiple of 2^32 - 1 lies between them.
  lemma UuidRepeats(m: nat, n: nat)
    ensures Uuid(m) == Uuid(n) <==> (m - n) % PERIOD == 0
  {
    var q, r := m / PERIOD, n / PERIOD;
    assert m - n == (q - r) * PERIOD + (m % PERIOD - n % PERIOD);
  }

  lemma UuidNames(m: nat, n: nat)
    requires m < PERIOD && n < PERIOD && Uuid(m) == Uuid(n)
    ensures m == n
  {
  }

  // origin is a label that the program does not carry: the connection the request came in on.
  datatype Request = Request(commandId: nat, body: seq<Octet>)
  datatype Task = Task(uuid: Word32, request: Request, origin: nat)
  datatype Response = Response(uuid: Word32, pdu: Option<seq<Octet>>, origin: nat)

  class ProxyConn {
    const serial: nat
    const uuid: Word32
    var open: bool
    var sent: seq<Response>

    constructor (serial: nat, uuid: Word32)
      ensures this.serial == serial && this.uuid == uuid && open && sent == []
    {
      this.serial, this.uuid, open, sent := serial, uuid, true, [];
    }
  }

  // A worker thread with its task list. started and pushed keep what ever went through it.
  datatype Worker = Worker(queue: seq<Task>, running: Option<Task>, pushed: seq<Task>, started: seq<Task>)

  // First in, first out; each task is started once; at most the last one is still running.
  predicate WorkerInOrder(w: Worker) {
    && w.pushed == w.started + w.queue
    && (w.running.Some? ==> w.started != [] && w.started[|w.started| - 1] == w.running.value)
  }

  predicate Named(uuid: Word32, origin: nat, created: nat) { uuid == Uuid(origin) && origin < created }

  class ProxyServer {
    var allocator: Word32                   // s_uuid_alloctor
    var uuidMap: map<Word32, ProxyConn>     // g_uuid_conn_map
    var workers: seq<Worker>
    var responses: seq<Response>            // s_response_pdu_list
    const handlers: set<nat>
    var created: nat                        // how many connections there have been
    ghost var conns: set<ProxyConn>
    ghost var queued: seq<Response>         // every response ever queued, and every one consumed
    ghost var consumed: seq<Response>

    ghost predicate ConnsNamed()
      reads this, conns
    {
      && (forall c <- conns :: Named(c.uuid, c.serial, created))
      && (forall c, d :: c in conns && d in conns && c.serial == d.serial ==> c == d)
      && (forall c <- conns, r <- c.sent :: r.uuid == c.uuid && Named(r.uuid, r.origin, created))
    }

    ghost predicate MapCorrect()
      reads this, conns
    {
      && (forall u <- uuidMap :: uuidMap[u] in conns && uuidMap[u].uuid == u && uuidMap[u].open)
      && (created <= PERIOD ==> forall c <- conns :: c.open ==> c.uuid in uuidMap && uuidMap[c.uuid] == c)
    }

    ghost predicate QueuesNamed()
      reads this
    {
      && (forall w <- workers :: WorkerInOrder(w) && forall t <- w.pushed :: Named(t.uuid, t.origin, created))
      && (forall r <- queued :: Named(r.uuid, r.origin, created))
      && queued == consumed + responses
    }

    ghost predicate Valid()
      reads this, conns
    {
      && allocator == (if created == 0 then 0 else Uuid(created - 1))
      && ConnsNamed() && MapCorrect() && QueuesNamed()
    }

    constructor (workerCount: nat, handlers: set<nat>)
      ensures Valid() && workers == seq(workerCount, _ => Worker([], None, [], [])) && this.handlers == handlers
      ensures conns == {} && uuidMap == map[] && created == 0 && responses == []
    {
      allocator, uuidMap, responses := 0, map[], [];
      workers := seq(workerCount, _ => Worker([], None, [], []));
      this.handlers := handlers;
      created, conns, queued, consumed := 0, {}, [], [];
    }

    // m_uuid = ++s_uuid_alloctor, twice when it comes out as 0
    method Allocate() returns (uuid: Word32)
      requires allocator == if created == 0 then 0 else Uuid(created - 1)
      modifies this`allocator
      ensures uuid == allocator == Uuid(created)
    {
      NextUuid(created);
      allocator := (allocator + 1) % TWO_32;
      if allocator == 0 {
        allocator := (allocator + 1) % TWO_32;
      }
      uuid := allocator;
    }

    lemma UuidIsNew()
      requires ConnsNamed() && created < PERIOD
      ensures forall c <- conns :: c.uuid != Uuid(created)
    {
      forall c <- conns ensures c.uuid != Uuid(created) {
        if c.uuid == Uuid(created) { UuidNames(c.serial, created); }
      }
    }

    method Register(conn: ProxyConn)
      requires ConnsNamed() && MapCorrect() && QueuesNamed()
      requires conn !in conns && conn.open && conn.sent == [] && conn.serial == created && conn.uuid == Uuid(created)
      modifies this`uuidMap, this`created, this`conns
      ensures ConnsNamed() && MapCorrect() && QueuesNamed()
      ensures created == old(created) + 1 && conns == old(conns) + {conn}
      ensures uuidMap == if conn.uuid in old(uuidMap) then old(uuidMap) else old(uuidMap)[conn.uuid := conn]
    {
      hide Uuid, WorkerInOrder;
      if created < PERIOD {
        UuidIsNew();
      }
      if conn.uuid !in uuidMap {   // std::map::insert does not replace
        uuidMap := uuidMap[conn.uuid := conn];
      }
      created := created + 1;
      conns := conns + {conn};
    }

    // The constructor of CProxyConn, and OnConnect.
    method Connect() returns (conn: ProxyConn)
      requires Valid()
      modifies this`allocator, this`uuidMap, this`created, this`conns
      ensures Valid() && fresh(conn) && conn.open && conn.sent == [] && conn.uuid == Uuid(conn.serial)
      ensures conn.serial == old(created) && created == old(created) + 1 && conns == old(conns) + {conn}
      ensures uuidMap == if conn.uuid in old(uuidMap) then old(uuidMap) else old(uuidMap)[conn.uuid := conn]
    {
      hide Uuid, WorkerInOrder, Named;
      var uuid := Allocate();
      conn := new ProxyConn(created, uuid);
      Register(conn);
    }

    // Close, which runs once for a connection.
    method Close(conn: ProxyConn)
      requires Valid() && conn in conns && conn.open
      modifies this`uuidMap, conn`open
      ensures Valid() && !conn.open && uuidMap == old(uuidMap) - {conn.uuid}
    {
      conn.open := false;
      uuidMap := uuidMap - {conn.uuid};
      if created <= PERIOD {
        forall c <- conns | c.uuid == conn.uuid ensures c == conn {
          UuidNames(c.serial, conn.serial);
        }
      }
    }

    // HandlePduBuf, with the worker that AddTask draws.
    method HandlePdu(conn: ProxyConn, request: Request, idx: nat)
      requires Valid() && conn in conns && conn.open && idx < |workers|
      modifies this`workers
      ensures Valid()
      ensures workers == if request.commandId == CID_OTHER_HEARTBEAT || request.commandId !in handlers then old(workers)
                         else var w, t := old(workers)[idx], Task(conn.uuid, request, conn.serial);
                           old(workers)[idx := w.(queue := w.queue + [t], pushed := w.pushed + [t])]
    {
      if request.commandId == CID_OTHER_HEARTBEAT || request.commandId !in handlers {
        return;
      }
      var w, t := workers[idx], Task(conn.uuid, request, conn.serial);
      assert w in workers;
      assert w.started + (w.queue + [t]) == w.started + w.queue + [t];
      workers := workers[idx := w.(queue := w.queue + [t], pushed := w.pushed + [t])];
    }

    // One turn of CWorkerThread::Execute up to the call of run().
    method StartTask(idx: nat)
      requires Valid() && idx < |workers| && workers[idx].running.None? && workers[idx].queue != []
      modifies this`workers
      ensures Valid()
      ensures var w := old(workers)[idx];
              workers == old(workers)[idx := w.(queue := w.queue[1..], running := Some(w.queue[0]),
                                               started := w.started + [w.queue[0]])]
    {
      var w := workers[idx];
      assert w in workers;
      assert w.started + w.queue == w.started + [w.queue[0]] + w.queue[1..];
      workers := workers[idx := w.(queue := w.queue[1..], running := Some(w.queue[0]),
                                   started := w.started + [w.queue[0]])];
    }

    // AddResponsePdu from within a running task; None asks for the connection to be closed.
    method AddResponse(idx: nat, pdu: Option<seq<Octet>>)
      requires Valid() && idx < |workers| && workers[idx].running.Some?
      modifies this`responses, this`queued
      ensures Valid()
      ensures var t := workers[idx].running.value;
              responses == old(responses) + [Response(t.uuid, pdu, t.origin)]
    {
      var w := workers[idx];
      var r := Response(w.running.value.uuid, pdu, w.running.value.origin);
      assert w in workers && w.running.value in w.started && w.running.value in w.pushed;
      assert consumed + (responses + [r]) == consumed + responses + [r];
      responses := responses + [r];
      queued := queued + [r];
    }

    method FinishTask(idx: nat)
      requires Valid() && idx < |workers| && workers[idx].running.Some?
      modifies this`workers
      ensures Valid() && workers == old(workers)[idx := old(workers)[idx].(running := None)]
    {
      assert workers[idx] in workers;
      workers := workers[idx := workers[idx].(running := None)];
    }

    // One turn of SendResponsePduList: the front response is consumed; the lock is given up while
    // it is sent, so responses may be queued between any two turns.
    method SendResponse()
      requires Valid() && responses != []
      modifies this`responses, this`consumed, this`uuidMap, conns
      ensures Valid() && responses == old(responses)[1..] && consumed == old(consumed) + [old(responses)[0]]
      ensures var r := old(responses)[0];
              if r.uuid !in old(uuidMap) then uuidMap == old(uuidMap) && forall c <- conns :: unchanged(c)
              else
                var conn := old(uuidMap)[r.uuid];
                && (forall c <- conns :: c != conn ==> unchanged(c))
                && (if r.pdu.Some? then uuidMap == old(uuidMap) && conn.open && conn.sent == old(conn.sent) + [r]
                    else uuidMap == old(uuidMap) - {r.uuid} && !conn.open && conn.sent == old(conn.sent))
    {
      var r := responses[0];
      assert consumed + responses == consumed + [r] + responses[1..];
      assert r in queued;
      responses := responses[1..];
      consumed := consumed + [r];
      assert QueuesNamed();
      if r.uuid in uuidMap {
        Deliver(uuidMap[r.uuid], r);
      }
    }

    method Deliver(conn: ProxyConn, r: Response)
      requires Valid() && conn in conns && conn.open && r.uuid == conn.uuid && Named(r.uuid, r.origin, created)
      modifies this`uuidMap, conn
      ensures Valid()
      ensures if r.pdu.Some? then uuidMap == old(uuidMap) && conn.open && conn.sent == old(conn.sent) + [r]
              else uuidMap == old(uuidMap) - {r.uuid} && !conn.open && conn.sent == old(conn.sent)
    {
      if r.pdu.Some? {
        conn.sent := conn.sent + [r];
      } else {
        Close(conn);
      }
    }

    // Whatever was sent on a connection answers a request of a connection with the same uuid. So, up
    // to 2^32 - 1 connections, it answers one of its own, and the connection a response is looked up
    // for is the one that asked, if that is still open.
    lemma NoCrossTalk(conn: ProxyConn, r: Response)
      requires Valid() && conn in conns
      ensures r in conn.sent ==> (r.origin - conn.serial) % PERIOD == 0
      ensures created <= PERIOD && r in conn.sent ==> r.origin == conn.serial
      ensures created <= PERIOD && r in queued ==>
                (r.uuid in uuidMap && uuidMap[r.uuid] == conn <==> conn.open && r.origin == conn.serial)
    {
      if r in conn.sent {
        UuidRepeats(r.origin, conn.serial);
        if created <= PERIOD { UuidNames(r.origin, conn.serial); }
      }
      if created <= PERIOD && r in queued && r.uuid == conn.uuid {
        UuidNames(r.origin, conn.serial);
      }
    }

    // n connections come and go.
    method ComeAndGo(n: nat)
      requires Valid() && uuidMap == map[]
      modifies this`allocator, this`uuidMap, this`created, this`conns
      ensures Valid() && uuidMap == map[] && created == old(created) + n && old(conns) <= conns
      ensures forall c <- conns :: c in old(conns) || fresh(c)
    {
      hide Valid;
      for i := 0 to n
        invariant Valid() && uuidMap == map[] && created == old(created) + i && old(conns) <= conns
        invariant forall c <- conns :: c in old(conns) || fresh(c)
      {
        var c := Connect();
        Close(c);
        assert uuidMap == map[];
      }
    }
  }

  // The bound is exact: a connection asks and goes, 2^32 - 2 others come and go, and the answer is
  // sent to the next.
  method WrongDelivery() returns (s: ProxyServer, conn: ProxyConn)
    ensures s.Valid() && conn in s.conns && s.created == PERIOD + 1
    ensures exists r :: r in conn.sent && r.origin != conn.serial
  {
    hide ProxyServer.Valid, Uuid;
    s := new ProxyServer(1, {1});
    var first := s.Connect();
    s.HandlePdu(first, Request(1, []), 0);
    s.StartTask(0);
    s.Close(first);
    assert s.uuidMap == map[];
    s.ComeAndGo(PERIOD - 1);
    conn := s.Connect();
    UuidReused();
    assert conn.uuid == first.uuid && s.uuidMap[first.uuid] == conn;
    s.AddResponse(0, Some([]));
    s.SendResponse();
    assert conn.sent == [Response(first.uuid, Some([]), 0)];
    assert conn.sent[0] in conn.sent && conn.sent[0].origin != conn.serial;
  }

  // The counter as it is advanced, and the uuid it then holds.
  lemma NextUuid(n: nat)
    ensures var a := if n == 0 then 0 else Uuid(n - 1);
            var b := (a + 1) % TWO_32;
            Uuid(n) == if b == 0 then 1 else b
  {
  }

  lemma UuidReused()
    ensures Uuid(PERIOD) == Uuid(0)
  {
  }
}
