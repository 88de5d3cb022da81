/** OnlineTransferTask, FileClientConn and the task table: two clients and the task they share. */
module OnlineTransfer {
  import opened Octets

  datatype State = Invalid | Ready | WaitingSender | WaitingReceiver | WaitingTransfer | Transfering

  datatype Role = RealtimeSender | RealtimeReceiver | OfflineUpload | OfflineDownload

  datatype Stat = PeerReady | Cancel | Done | Refuse

  datatype Message =
    | LoginRsp(code: nat)
    | FileState(stat: Stat, taskId: seq<Octet>, user: Word32)
    | PullReq(taskId: seq<Octet>, user: Word32, seqNum: Word32, offset: Word32, size: Word32)
    | PullRsp(taskId: seq<Octet>, user: Word32, seqNum: Word32, offset: Word32, data: seq<Octet>)

  datatype Event =
    | Login(user: Word32, id: seq<Octet>, role: Role)
    | State(user: Word32, id: seq<Octet>, stat: Stat)
    | Request(user: Word32, id: seq<Octet>, seqNum: Word32, offset: Word32, size: Word32)
    | Response(user: Word32, id: seq<Octet>, offset: Word32, data: seq<Octet>)
    | Timer(timedOut: bool)
    | Hangup

  // What was passed on, and how many logins had been accepted then.
  datatype Passed = Passed(m: Message, after: nat)

  // What a task may be told, by whomever.
  datatype Call = Join(user: Word32, role: Role) | Recv(user: Word32) | Pull | Over

  datatype Input = Make(id: seq<Octet>, fromUser: Word32, toUser: Word32) | Connect | At(k: nat, e: Event)

  // What a checked login makes of a state: the first to come waits for the other role.
  function Awaited(s: State, role: Role): State {
    match s
    case Ready => if role.RealtimeSender? then WaitingReceiver else WaitingSender
    case WaitingReceiver => if role.RealtimeReceiver? then WaitingTransfer else WaitingReceiver
    case WaitingSender => if role.RealtimeSender? then WaitingTransfer else WaitingSender
    case Invalid | WaitingTransfer | Transfering => s
  }

  predicate BothIn(logins: seq<(Word32, Role)>, fromUser: Word32, toUser: Word32) {
    (fromUser, RealtimeSender) in logins && (toUser, RealtimeReceiver) in logins
  }

  predicate Explained(s: State, logins: seq<(Word32, Role)>, fromUser: Word32, toUser: Word32) {
    match s
    case Ready => logins == []
    case WaitingReceiver => logins != [] && forall l <- logins :: l == (fromUser, RealtimeSender)
    case WaitingSender => logins != [] && forall l <- logins :: l == (toUser, RealtimeReceiver)
    case WaitingTransfer | Transfering => BothIn(logins, fromUser, toUser)
    case Invalid => true
  }

  lemma StillExplained(s: State, logins: seq<(Word32, Role)>, fromUser: Word32, toUser: Word32, l: (Word32, Role))
    requires Explained(s, logins, fromUser, toUser)
    requires l == (fromUser, RealtimeSender) || l == (toUser, RealtimeReceiver)
    ensures Explained(Awaited(s, l.1), logins + [l], fromUser, toUser)
  {
    var more := logins + [l];
    assert more[|logins|] == l && l in more;
    assert forall k <- logins :: k in more;
    if logins != [] {
      assert logins[0] in logins && logins[0] in more;
    }
  }

  class OnlineTransferTask {
    const taskId: seq<Octet>
    const fromUser: Word32
    const toUser: Word32
    var state: State
    var fromConn: FileClientConn?
    var toConn: FileClientConn?
    var seqNum: Word32
    ghost var logins: seq<(Word32, Role)> // the logins accepted, in order
    ghost var forwarded: seq<Passed>      // the requests and the data passed on, in order
    ghost var endedAt: nat                // how many logins had been accepted when the task ended

    // What the accepted logins say about the state, and about what has been passed on: data flows after
    // a login of the sender and one of the receiver only, in either order, and comes from the right side.
    // Of a user with itself, the receiver never gets a connection.
    ghost predicate Ordered()
      reads this`state, this`logins, this`forwarded, this`endedAt, this`toConn
    {
      && (fromUser == toUser ==> toConn == null)
      && (forall l <- logins :: Checked(l.0, l.1))
      && Explained(state, logins, fromUser, toUser) && (state.Invalid? ==> endedAt <= |logins|)
      && (forall f <- forwarded :: f.after <= |logins| && BothIn(logins[..f.after], fromUser, toUser) && RightSide(f.m))
    }

    predicate RightSide(m: Message) {
      && (m.PullReq? || m.PullRsp?) && m.taskId == taskId && m.user == if m.PullReq? then toUser else fromUser
    }

    constructor (taskId: seq<Octet>, fromUser: Word32, toUser: Word32)
      ensures this.taskId == taskId && this.fromUser == fromUser && this.toUser == toUser && Ordered()
      ensures state == Ready && fromConn == null && toConn == null && seqNum == 0 && logins == [] && forwarded == []
    {
      this.taskId, this.fromUser, this.toUser := taskId, fromUser, toUser;
      state, fromConn, toConn, seqNum, logins, forwarded, endedAt := Ready, null, null, 0, [], [], 0;
    }

    // CheckByUserIDAndFileRole
    predicate Checked(user: Word32, role: Role) {
      (role.RealtimeSender? && user == fromUser) || (role.RealtimeReceiver? && user == toUser)
    }

    function ConnByUser(user: Word32): FileClientConn?
      reads this`fromConn, this`toConn
    {
      if fromUser == user then fromConn else if toUser == user then toConn else null
    }

    function OpponentConn(user: Word32): FileClientConn?
      reads this`fromConn, this`toConn
    {
      if user == fromUser then toConn else fromConn
    }

    method SetConnByUser(user: Word32, conn: FileClientConn?)
      modifies this`fromConn, this`toConn
      ensures fromConn == if fromUser == user then conn else old(fromConn)
      ensures toConn == if fromUser != user && toUser == user then conn else old(toConn)
      ensures old(Ordered()) ==> Ordered()
    {
      if fromUser == user {
        fromConn := conn;
      } else if toUser == user {
        toConn := conn;
      }
    }

    // The check decides the answer: a state that does not expect the role stays as it is, and the
    // answer is still true.
    method ChangePullState(user: Word32, role: Role) returns (rv: bool)
      modifies this`state, this`logins
      ensures rv == Checked(user, role)
      ensures !rv ==> state == old(state) && logins == old(logins)
      ensures rv ==> state == Awaited(old(state), role) && logins == old(logins) + [(user, role)]
      ensures old(Ordered()) ==> Ordered()
    {
      rv := Checked(user, role);
      if !rv {
        return;
      }
      OneMore((user, role));
      if Ordered() {
        StillExplained(state, logins, fromUser, toUser, (user, role));
      }
      logins := logins + [(user, role)];
      if !(state.Ready? || state.WaitingSender? || state.WaitingReceiver?) {
        return;
      }
      if state.Ready? {
        state := if role.RealtimeSender? then WaitingReceiver else WaitingSender;
      } else {
        if state.WaitingReceiver? {
          if !role.RealtimeReceiver? {
            return;
          }
        } else if !role.RealtimeSender? {
          return;
        }
        state := WaitingTransfer;
      }
    }

    lemma OneMore(l: (Word32, Role))
      ensures forall k: nat | k <= |logins| :: (logins + [l])[..k] == logins[..k]
    {
    }

    predicate Active()
      reads this`state
    {
      state.WaitingTransfer? || state.Transfering?
    }

    method DoRecvData(user: Word32) returns (rv: int)
      modifies this`state
      ensures rv == if user == fromUser && old(Active()) then 0 else -1
      ensures state == if rv == 0 then Transfering else old(state)
      ensures old(Ordered()) ==> Ordered()
    {
      rv := -1;
      if user == fromUser && Active() {
        state := Transfering;
        rv := 0;
      }
    }

    method DoPullFileRequest() returns (rv: int)
      modifies this`state
      ensures rv == if old(Active()) then 0 else -1
      ensures state == if rv == 0 then Transfering else old(state)
      ensures old(Ordered()) ==> Ordered()
    {
      rv := -1;
      if Active() {
        state := Transfering;
        rv := 0;
      }
    }

    // set_state(kTransferTaskStateInvalid)
    method End()
      modifies this`state, this`endedAt
      ensures state == Invalid && endedAt == if old(state).Invalid? then old(endedAt) else |logins|
      ensures old(Ordered()) ==> Ordered()
    {
      if state != Invalid {
        endedAt := |logins|;
      }
      state := Invalid;
    }

    ghost method Pass(m: Message)
      requires Ordered() && Active() && RightSide(m)
      modifies this`forwarded
      ensures Ordered() && forwarded == old(forwarded) + [Passed(m, |logins|)]
    {
      assert logins[..|logins|] == logins;
      forwarded := forwarded + [Passed(m, |logins|)];
    }

    // Whatever a task is told, in whatever order, by whatever connections: it waits for a transfer or
    // transfers only after a login of each side, and once it has ended it stays so.
    method Drive(calls: seq<Call>)
      requires Ordered()
      modifies this`state, this`logins, this`endedAt
      ensures Ordered() && old(logins) <= logins
      ensures Active() ==> BothIn(logins, fromUser, toUser)
      ensures old(state).Invalid? ==> state.Invalid?
    {
      hide Ordered;
      for i := 0 to |calls|
        invariant Ordered() && old(logins) <= logins && (old(state).Invalid? ==> state.Invalid?)
      {
        match calls[i] {
          case Join(user, role) =>
            var ok := ChangePullState(user, role);
          case Recv(user) =>
            var rv := DoRecvData(user);
          case Pull =>
            var rv := DoPullFileRequest();
          case Over =>
            End();
        }
      }
      BothBefore();
    }

    lemma BothBefore()
      requires Ordered()
      ensures Active() ==> BothIn(logins, fromUser, toUser)
    {
    }
  }

  class FileClientConn {
    var auth: bool
    var task: OnlineTransferTask?
    var user: Word32
    var outbox: seq<Message> // what has been sent to this client

    constructor ()
      ensures !auth && task == null && user == 0 && outbox == []
    {
      auth, task, user, outbox := false, null, 0, [];
    }

    method SendPdu(m: Message)
      modifies this`outbox
      ensures outbox == old(outbox) + [m]
    {
      outbox := outbox + [m];
    }
  }

  twostate predicate Same(t: OnlineTransferTask)
    reads t
  {
    && t.state == old(t.state) && t.fromConn == old(t.fromConn) && t.toConn == old(t.toConn)
    && t.seqNum == old(t.seqNum)
    && t.logins == old(t.logins) && t.forwarded == old(t.forwarded) && t.endedAt == old(t.endedAt)
  }

  // The connections of a task: none before the first login; both while data flows; a task that has
  // been logged in to has at least one as long as it is in the table, and both after its end only if
  // one has come back.
  ghost predicate Attended(t: OnlineTransferTask)
    reads t`state, t`fromConn, t`toConn, t`logins, t`endedAt
  {
    match t.state
    case Ready => t.fromConn == null && t.toConn == null && t.logins == []
    case WaitingReceiver => t.fromConn != null && t.toConn == null && t.logins != []
    case WaitingSender => t.ConnByUser(t.toUser) != null && t.OpponentConn(t.toUser) == null && t.logins != []
    case WaitingTransfer | Transfering => t.fromConn != null && t.toConn != null && t.logins != []
    case Invalid => (if t.fromConn != null && t.toConn != null then t.endedAt < |t.logins|
                     else t.endedAt <= |t.logins| && t.logins != [] && (t.fromConn != null || t.toConn != null))
  }

  ghost function Slots(t: OnlineTransferTask): (cs: set<FileClientConn>)
    reads t`fromConn, t`toConn
  {
    (if t.fromConn == null then {} else {t.fromConn}) + (if t.toConn == null then {} else {t.toConn})
  }

  ghost function TaskOf(c: FileClientConn): (ts: set<OnlineTransferTask>)
    reads c`task
  {
    if c.task == null then {} else {c.task}
  }

  // The connections of a connection's task.
  ghost function PeersOf(c: FileClientConn): (cs: set<FileClientConn>)
    reads c`task, TaskOf(c)`fromConn, TaskOf(c)`toConn
  {
    if c.task == null then {} else Slots(c.task)
  }

  ghost predicate TaskOk(t: OnlineTransferTask)
    reads t, Slots(t)`task, Slots(t)`user
  {
    && Attended(t)
    && (t.fromConn != null ==> t.fromConn.task == t && t.fromConn.user == t.fromUser)
    && (t.toConn != null ==> t.toConn.task == t && t.toConn.user == t.toUser && t.fromUser != t.toUser)
  }

  // A logged-in connection sits in the slot of its user.
  ghost predicate ConnOk(c: FileClientConn)
    reads c`task, c`auth, c`user, TaskOf(c)`fromConn, TaskOf(c)`toConn
  {
    (c.auth <==> c.task != null) && (c.task != null ==> c.task.ConnByUser(c.user) == c)
  }

  predicate In(c: FileClientConn?, cs: set<FileClientConn>) { c != null ==> c in cs }

  predicate Deserted(t: OnlineTransferTask)
    reads t`fromConn, t`toConn
  {
    t.fromConn == null && t.toConn == null
  }

  class FileServer {
    var tasks: map<seq<Octet>, OnlineTransferTask> // transfer_tasks_
    var conns: set<FileClientConn>                 // g_file_client_conn_map
    ghost var made: set<OnlineTransferTask>        // every task ever made, and every connection
    ghost var ever: set<FileClientConn>

    // What holds whatever clients do: every task is in order, also one that has been deleted.
    ghost predicate Ordered()
      reads this, made, ever`task, ever`auth
    {
      && tasks.Values <= made && conns <= ever
      && (forall id | id in tasks :: tasks[id].taskId == id)
      && (forall t | t in made :: t.Ordered() && In(t.fromConn, ever) && In(t.toConn, ever))
      && (forall c | c in ever :: (c.task != null ==> c.task in made) && (c.auth <==> c.task != null))
    }

    // A task in the table refers to open connections.
    ghost predicate TaskFits(id: seq<Octet>)
      requires id in tasks
      reads this, tasks.Values, conns`task, conns`user
    {
      tasks[id].taskId == id && Slots(tasks[id]) <= conns && TaskOk(tasks[id])
    }

    // No connection holds a task that has been deleted.
    ghost predicate ConnFits(c: FileClientConn)
      reads this, c`task, c`user, c`auth, tasks.Values
    {
      (c.task != null ==> c.task.taskId in tasks && tasks[c.task.taskId] == c.task) && ConnOk(c)
    }

    ghost predicate Valid()
      reads this, tasks.Values, conns`task, conns`user, conns`auth
    {
      && (forall id | id in tasks :: TaskFits(id))
      && (forall c | c in conns :: ConnFits(c))
    }

    constructor ()
      ensures Ordered() && Valid() && SelfIdle() && tasks == map[] && conns == {} && made == {} && ever == {}
    {
      tasks, conns, made, ever := map[], {}, {}, {};
    }

    lemma AllFit()
      requires (forall id | id in tasks :: TaskFits(id)) && (forall c | c in conns :: ConnFits(c))
      ensures Valid()
    {
    }

    // A task that nothing happens to stays in order, and so does a connection.
    twostate lemma TaskStays(new id: seq<Octet>)
      requires old(Valid()) && id in old(tasks) && id in tasks && tasks[id] == old(tasks[id]) && Same(tasks[id])
      requires forall d | d in old(conns) && d in old(Slots(tasks[id])) ::
                 d in conns && d.task == old(d.task) && d.user == old(d.user)
      ensures TaskFits(id)
    {
    }

    twostate lemma ConnStays(new d: FileClientConn)
      requires old(Valid()) && d in old(conns) && d.task == old(d.task) && d.auth == old(d.auth)
                 && d.user == old(d.user)
      requires d.task != null ==> Same(d.task) && d.task.taskId in tasks && tasks[d.task.taskId] == d.task
      ensures ConnFits(d)
    {
    }

    // What Valid said about the table.
    twostate lemma Listed()
      requires old(Valid())
      ensures forall i | i in old(tasks) :: old(tasks[i]).taskId == i
      ensures forall d | d in old(conns) && old(d.task) != null ::
                old(d.task.taskId in tasks && tasks[d.task.taskId] == d.task)
    {
    }

    lemma NewFits(t: OnlineTransferTask)
      requires t.taskId in tasks && tasks[t.taskId] == t && Slots(t) == {} && Attended(t)
      ensures TaskFits(t.taskId)
    {
    }

    // NewTransferTask for FILE_TYPE_ONLINE
    method NewTask(id: seq<Octet>, fromUser: Word32, toUser: Word32) returns (t: OnlineTransferTask?)
      requires Ordered()
      modifies this`tasks, this`made
      ensures Ordered() && (old(Valid()) ==> Valid()) && (t == null <==> id in old(tasks))
      ensures t == null ==> tasks == old(tasks) && made == old(made)
      ensures t != null ==> fresh(t) && tasks == old(tasks)[id := t] && made == old(made) + {t}
      ensures t != null ==> t.taskId == id && t.fromUser == fromUser && t.toUser == toUser && t.state == Ready
      ensures t != null ==> t.fromConn == null && t.toConn == null && t.logins == [] && t.forwarded == []
    {
      t := null;
      if id !in tasks {
        t := new OnlineTransferTask(id, fromUser, toUser);
        AddTask(t);
      }
    }

    method AddTask(t: OnlineTransferTask)
      requires Ordered() && t !in made && t.taskId !in tasks && t.Ordered()
      requires t.state == Ready && t.fromConn == null && t.toConn == null && t.logins == []
      modifies this`tasks, this`made
      ensures Ordered() && (old(Valid()) ==> Valid())
      ensures tasks == old(tasks)[t.taskId := t] && made == old(made) + {t}
    {
      hide Ordered, Valid;
      tasks := tasks[t.taskId := t];
      made := made + {t};
      OrderedWith(t);
      if old(Valid()) { ValidWith(t); }
    }

    twostate lemma OrderedWith(new t: OnlineTransferTask)
      requires old(Ordered()) && t !in old(made) && t.taskId !in old(tasks) && t.Ordered() && Slots(t) == {}
      requires tasks == old(tasks)[t.taskId := t] && made == old(made) + {t} && conns == old(conns) && ever == old(ever)
      requires forall u | u in old(made) :: Same(u)
      requires forall d | d in ever :: d.task == old(d.task) && d.auth == old(d.auth)
      ensures Ordered()
    {
    }

    twostate lemma ValidWith(new t: OnlineTransferTask)
      requires old(Ordered()) && old(Valid()) && t !in old(made) && t.taskId !in old(tasks) && Slots(t) == {}
                 && Attended(t)
      requires tasks == old(tasks)[t.taskId := t] && conns == old(conns)
      requires forall i | i in old(tasks) :: Same(old(tasks[i]))
      requires forall d | d in conns :: d.task == old(d.task) && d.auth == old(d.auth) && d.user == old(d.user)
      ensures Valid()
    {
      hide Valid, TaskFits, ConnFits, Ordered, Attended;
      Listed();
      forall i | i in tasks ensures TaskFits(i) {
        if i == t.taskId {
          NewFits(t);
        } else {
          TaskStays(i);
        }
      }
      forall d | d in conns ensures ConnFits(d) {
        ConnStays(d);
      }
      AllFit();
    }

    method OnConnect() returns (c: FileClientConn)
      requires Ordered()
      modifies this`conns, this`ever
      ensures Ordered() && (old(Valid()) ==> Valid())
      ensures fresh(c) && conns == old(conns) + {c} && ever == old(ever) + {c} && c.task == null && c.outbox == []
    {
      hide Ordered, Valid;
      c := new FileClientConn();
      AddConn(c);
    }

    method AddConn(c: FileClientConn)
      requires Ordered() && c !in ever && c.task == null && !c.auth
      modifies this`conns, this`ever
      ensures Ordered() && (old(Valid()) ==> Valid()) && conns == old(conns) + {c} && ever == old(ever) + {c}
    {
      assert ConnOk(c);
      hide TaskOk, ConnOk;
      conns, ever := conns + {c}, ever + {c};
    }

    // A step that concerns one task keeps the order of all.
    twostate lemma StillOrdered(new t: OnlineTransferTask?)
      requires old(Ordered()) && made == old(made) && ever == old(ever) && conns <= old(conns)
      requires forall i | i in tasks :: i in old(tasks) && tasks[i] == old(tasks[i])
      requires forall u | u in made && u != t :: Same(u)
      requires t != null ==> t.Ordered() && In(t.fromConn, ever) && In(t.toConn, ever)
      requires forall d | d in ever :: (d.task != null ==> d.task in made) && (d.auth <==> d.task != null)
      ensures Ordered()
    {
      hide OnlineTransferTask.Ordered;
    }

    lemma Known(c: FileClientConn)
      requires Ordered() && c in conns
      ensures c in ever && conns <= ever && (c.task != null ==> c.task in made) && (c.auth <==> c.task != null)
      ensures c.task != null ==> c.task.Ordered() && In(c.task.fromConn, ever) && In(c.task.toConn, ever)
      ensures forall d | d in ever :: (d.task != null ==> d.task in made) && (d.auth <==> d.task != null)
    {
    }

    // What a close leaves behind: a task ended, the slot of the user empty, and the task that has the
    // table's entry of its name out of it if it has no connection.
    twostate predicate Closed(c: FileClientConn, t: OnlineTransferTask?)
      reads this, c, if t == null then {} else {t}, made`fromConn, made`toConn
    {
      && !c.auth && c.task == null && c.user == old(c.user) && conns == old(conns) - {c} && made == old(made)
      && ever == old(ever)
      && (t == null ==> tasks == old(tasks))
      && (t != null ==> Ended(t, c.user))
    }

    twostate predicate Ended(t: OnlineTransferTask, user: Word32)
      reads this`tasks, this`made, t, made`fromConn, made`toConn
    {
      && t.state == Invalid && t.logins == old(t.logins) && t.forwarded == old(t.forwarded)
      && t.endedAt == (if old(t.state).Invalid? then old(t.endedAt) else |t.logins|)
      && t.fromConn == (if t.fromUser == user then null else old(t.fromConn))
      && t.toConn == (if t.fromUser != user && t.toUser == user then null else old(t.toConn))
      && tasks == if t.taskId in old(tasks) && old(tasks)[t.taskId] in made && Deserted(old(tasks)[t.taskId])
                  then old(tasks) - {t.taskId} else old(tasks)
    }

    // The part of Close that concerns the task, and DeleteTransferTaskByConnClose.
    method EndTask(t: OnlineTransferTask, user: Word32)
      requires tasks.Values <= made
      modifies this`tasks, t`state, t`endedAt, t`fromConn, t`toConn
      ensures Ended(t, user) && (old(t.Ordered()) ==> t.Ordered())
    {
      hide OnlineTransferTask.Ordered;
      t.End();
      t.SetConnByUser(user, null);
      if t.taskId in tasks {
        var it := tasks[t.taskId];
        if it.fromConn == null && it.toConn == null {
          tasks := tasks - {t.taskId};
        }
      }
    }

    // Either side's close ends the task for good; it is deleted once both sides are gone.
    method Close(c: FileClientConn)
      requires Ordered() && c in conns
      modifies this`tasks, this`conns, c`auth, c`task, TaskOf(c)`state, TaskOf(c)`endedAt, TaskOf(c)`fromConn,
                 TaskOf(c)`toConn
      ensures Ordered() && Closed(c, old(c.task))
      ensures old(Valid()) ==> Valid()
    {
      hide Ordered, Valid, OnlineTransferTask.Ordered, Ended, Deserted;
      Known(c);
      TableMade();
      ghost var t := c.task;
      if c.task != null {
        EndTask(c.task, c.user);
        c.task := null;
      }
      c.auth := false;
      conns := conns - {c};
      if t != null { SlotsStay(t, c.user); }
      StillOrdered(t);
      assert Closed(c, t);
      hide Closed;
      if old(Valid()) { Leaves(c, t); }
    }

    twostate lemma SlotsStay(t: OnlineTransferTask, new user: Word32)
      requires Ended(t, user)
      ensures (t.fromConn == null || t.fromConn == old(t.fromConn)) && (t.toConn == null || t.toConn == old(t.toConn))
      ensures forall i | i in tasks :: i in old(tasks) && tasks[i] == old(tasks[i])
    {
    }

    lemma TableMade()
      requires Ordered()
      ensures tasks.Values <= made
    {
    }

    // The step of a close, seen from both its ends.
    twostate predicate Left(new c: FileClientConn, new t: OnlineTransferTask?)
      reads this, tasks.Values, conns`task, conns`user, conns`auth, c, made, if t == null then {} else {t}
    {
      && c in old(conns) && old(Ordered()) && old(Valid()) && t == old(c.task) && Closed(c, t)
      && (forall i | i in tasks && tasks[i] != t :: Same(tasks[i]))
      && (forall d | d in conns :: d.task == old(d.task) && d.user == old(d.user) && d.auth == old(d.auth))
    }

    twostate lemma LeftTable(new c: FileClientConn, new t: OnlineTransferTask?)
      requires Left(c, t)
      ensures t != null ==> t.taskId in old(tasks) && old(tasks)[t.taskId] == t && t in made
      ensures forall i | i in tasks :: i in old(tasks) && tasks[i] == old(tasks[i]) && tasks[i].taskId == i
      ensures t != null ==> (t.taskId in tasks <==> Slots(t) != {})
    {
    }

    twostate lemma LeftTask(new c: FileClientConn, new t: OnlineTransferTask)
      requires Left(c, t) && t.taskId in tasks && tasks[t.taskId] == t && t.taskId in old(tasks)
                 && old(tasks)[t.taskId] == t
      ensures TaskFits(t.taskId)
    {
    }

    twostate lemma LeftConns(new c: FileClientConn, new t: OnlineTransferTask?)
      requires Left(c, t)
      requires t != null ==>
                 t.taskId in old(tasks) && old(tasks)[t.taskId] == t && (t.taskId in tasks <==> Slots(t) != {})
      ensures forall d | d in conns && d.task != null ::
                d.task.taskId in tasks && tasks[d.task.taskId] == d.task && d.auth && d.task.ConnByUser(d.user) == d
    {
      hide Valid, Ordered;
      WasFit(c);
      forall d | d in conns && d.task != null
        ensures d.task.taskId in tasks && tasks[d.task.taskId] == d.task && d.auth && d.task.ConnByUser(d.user) == d
      {
        WasFit(d);
      }
    }

    twostate lemma WasFit(new d: FileClientConn)
      requires d in old(conns) && old(Valid())
      ensures old(d.task) != null ==>
                && old(d.task.taskId in tasks && tasks[d.task.taskId] == d.task)
                && old(d.auth) && old(d.task.ConnByUser(d.user)) == d
    {
    }

    twostate lemma Leaves(new c: FileClientConn, new t: OnlineTransferTask?)
      requires Left(c, t)
      ensures Valid()
    {
      hide Valid, TaskFits, ConnFits, Ordered;
      LeftTable(c, t);
      LeftConns(c, t);
      forall i | i in tasks ensures TaskFits(i) {
        if tasks[i] != t {
          TaskKept(i, c);
        } else {
          LeftTask(c, t);
        }
      }
      forall d | d in conns ensures ConnFits(d) {
        if d.task == null {
          ConnStays(d);
        } else {
          Seated(d);
        }
      }
      AllFit();
    }

    // A step that concerns c and its task leaves the other tasks in order.
    twostate lemma TaskKept(new id: seq<Octet>, new c: FileClientConn)
      requires old(Valid()) && c in old(conns) && id in old(tasks) && id in tasks && tasks[id] == old(tasks[id])
      requires tasks[id] != old(c.task) && Same(tasks[id]) && old(conns) - {c} <= conns
      requires forall d | d in old(conns) && d != c :: d.task == old(d.task) && d.user == old(d.user)
      ensures TaskFits(id)
    {
    }

    lemma Seated(d: FileClientConn)
      requires d.auth && d.task != null && d.task.taskId in tasks && tasks[d.task.taskId] == d.task
      requires d.task.ConnByUser(d.user) == d
      ensures ConnFits(d)
    {
    }

    // A segment or a request that is passed on changes nothing but its task's progress.
    twostate predicate Flowed(new c: FileClientConn)
      reads this, tasks.Values, conns`task, conns`user, conns`auth, c, TaskOf(c)
    {
      && c in old(conns) && old(Valid()) && c.task != null && c.task == old(c.task) && old(c.task.Active())
      && tasks == old(tasks) && conns == old(conns)
      && (forall i | i in tasks && tasks[i] != c.task :: Same(tasks[i]))
      && (forall d | d in conns :: d.task == old(d.task) && d.user == old(d.user) && d.auth == old(d.auth))
      && var t := c.task;
      && t.state.Transfering? && t.fromConn == old(t.fromConn) && t.toConn == old(t.toConn)
      && t.logins == old(t.logins) && t.endedAt == old(t.endedAt)
    }

    twostate lemma FlowedTask(new c: FileClientConn)
      requires Flowed(c) && c.task.taskId in tasks && tasks[c.task.taskId] == c.task
      ensures TaskFits(c.task.taskId)
    {
    }

    twostate lemma Flows(new c: FileClientConn)
      requires Flowed(c)
      ensures Valid()
    {
      hide Valid, TaskFits, ConnFits;
      WasFit(c);
      Listed();
      FlowedTask(c);
      forall i | i in tasks ensures TaskFits(i) {
        if tasks[i] != c.task {
          TaskKept(i, c);
        }
      }
      forall d | d in conns ensures ConnFits(d) {
        if d.task == null {
          ConnStays(d);
        } else {
          WasFit(d);
          Seated(d);
        }
      }
      AllFit();
    }

    predicate About(c: FileClientConn, user: Word32, id: seq<Octet>)
      reads c`task, c`user
    {
      c.task != null && user == c.user && c.task.taskId == id
    }

    twostate lemma BothThere(new c: FileClientConn)
      requires c in old(conns) && old(Valid() && c.task != null && c.task.Active())
      ensures old(c.task.fromConn) != null && old(c.task.toConn) != null
    {
    }

    // The sender's data goes to the receiver while the task is active; anything else ends the task. If
    // the clients keep to one connection for each side, the receiver is there.
    method HandlePullRsp(c: FileClientConn, user: Word32, id: seq<Octet>, offset: Word32, data: seq<Octet>)
      requires Ordered() && c in conns
      modifies this`tasks, this`conns, c`auth, c`task, TaskOf(c), PeersOf(c)`outbox
      ensures Ordered() && (old(Valid()) ==> Valid())
      ensures old(c.task) == null ==> tasks == old(tasks) && conns == old(conns)
      ensures var t := old(c.task);
              t != null && old(About(c, user, id)) && user == t.fromUser && old(t.Active()) ==>
                var m := PullRsp(id, user, old(t.seqNum), offset, data);
                && tasks == old(tasks) && conns == old(conns) && c.task == t && t.toConn == old(t.toConn)
                && t.state == Transfering && t.forwarded == old(t.forwarded) + [Passed(m, |t.logins|)]
                && t.logins == old(t.logins)
                && (old(Valid()) ==> t.toConn != null)
                && forall d | d in old(ever) :: d.outbox == if d == t.toConn then old(d.outbox) + [m] else old(d.outbox)
      ensures var t := old(c.task);
              t != null && !(old(About(c, user, id)) && user == t.fromUser && old(t.Active())) ==>
                && Closed(c, t) && forall d | d in old(ever) :: d.outbox == old(d.outbox)
    {
      hide Ordered, Valid, OnlineTransferTask.Ordered;
      Known(c);
      if !c.auth || c.task == null {
        return;
      }
      var t := c.task;
      var rv := -1;
      if user == c.user && t.taskId == id {
        rv := t.DoRecvData(user);
        if rv != -1 {
          var m := PullRsp(id, user, t.seqNum, offset, data);
          t.Pass(m);
          if t.toConn != null {
            t.toConn.SendPdu(m);
          }
          StillOrdered(t);
          if old(Valid()) {
            BothThere(c);
            Flows(c);
          }
        }
      }
      if rv != 0 {
        Close(c);
      }
    }

    // The receiver's request goes to the sender, whose next segments carry its number.
    method HandlePullReq(c: FileClientConn, user: Word32, id: seq<Octet>, seqNum: Word32, offset: Word32, size: Word32)
      requires Ordered() && c in conns
      modifies this`tasks, this`conns, c`auth, c`task, TaskOf(c), PeersOf(c)`outbox
      ensures Ordered() && (old(Valid()) ==> Valid())
      ensures old(c.task) == null ==> tasks == old(tasks) && conns == old(conns)
      ensures var t := old(c.task);
              t != null && old(About(c, user, id)) && user == t.toUser && old(t.Active()) ==>
                var m := PullReq(id, user, seqNum, offset, size);
                && tasks == old(tasks) && conns == old(conns) && c.task == t && t.fromConn == old(t.fromConn)
                && t.toConn == old(t.toConn)
                && t.state == Transfering && t.forwarded == old(t.forwarded) + [Passed(m, |t.logins|)]
                && t.logins == old(t.logins)
                && t.seqNum == seqNum && (old(Valid()) ==> t.fromConn != null && t.OpponentConn(user) == t.fromConn)
                && forall d | d in old(ever) ::
                     d.outbox == if d == t.OpponentConn(user) then old(d.outbox) + [m] else old(d.outbox)
      ensures var t := old(c.task);
              t != null && !(old(About(c, user, id)) && user == t.toUser && old(t.Active())) ==>
                && Closed(c, t) && forall d | d in old(ever) :: d.outbox == old(d.outbox)
    {
      hide Ordered, Valid, OnlineTransferTask.Ordered;
      Known(c);
      if !c.auth || c.task == null {
        return;
      }
      var t := c.task;
      var rv := -1;
      if user == c.user && t.taskId == id && t.toUser == user {
        rv := t.DoPullFileRequest();
        if rv != -1 {
          t.seqNum := seqNum;
          var m := PullReq(id, user, seqNum, offset, size);
          t.Pass(m);
          var conn := t.OpponentConn(user);
          if conn != null {
            conn.SendPdu(m);
          }
          StillOrdered(t);
          if old(Valid()) {
            BothThere(c);
            TwoUsers(c);
            Flows(c);
          }
        }
      }
      if rv != 0 {
        Close(c);
      }
    }

    twostate lemma TwoUsers(new c: FileClientConn)
      requires c in old(conns) && old(Valid() && c.task != null && c.task.Active())
      ensures old(c.task).fromUser != old(c.task).toUser
    {
    }

    // A client that cancels, refuses or is done tells the other side, if there is one; whatever the
    // notice says, its connection is closed, and with it the task is over.
    method HandleState(c: FileClientConn, user: Word32, id: seq<Octet>, stat: Stat)
      requires Ordered() && c in conns
      modifies this`tasks, this`conns, c`auth, c`task, TaskOf(c), PeersOf(c)`outbox
      ensures Ordered() && (old(Valid()) ==> Valid())
      ensures old(c.task) == null ==> tasks == old(tasks) && conns == old(conns)
      ensures old(c.task) != null ==> Closed(c, old(c.task))
      ensures forall d | d in old(ever) ::
                d.outbox == if old(About(c, user, id)) && !stat.PeerReady? && d == old(c.task.OpponentConn(user))
                            then old(d.outbox) + [FileState(stat, id, user)] else old(d.outbox)
      ensures (exists d | d in old(ever) :: d.outbox != old(d.outbox)) <==>
                old(About(c, user, id)) && !stat.PeerReady? && old(c.task.OpponentConn(user)) != null
      ensures old(Valid() && About(c, user, id) && c.task.state.Invalid?) && old(c.task.OpponentConn(user)) != null ==>
                old(c.task.endedAt < |c.task.logins|)
    {
      hide Ordered, Valid, OnlineTransferTask.Ordered;
      Known(c);
      if !c.auth || c.task == null {
        return;
      }
      if user == c.user && c.task.taskId == id && !stat.PeerReady? {
        var conn := c.task.OpponentConn(user);
        if conn != null {
          conn.SendPdu(FileState(stat, id, user));
          assert conn.outbox != old(conn.outbox);
        }
      }
      if old(Valid()) { Returned(c); }
      Close(c);
    }

    // An ended task has both its connections only if somebody has logged in since.
    twostate lemma Returned(new c: FileClientConn)
      requires c in old(conns) && old(Valid() && c.task != null)
      ensures old(c.task.state.Invalid? && c.task.OpponentConn(c.user) != null) ==>
                old(c.task.endedAt < |c.task.logins|)
    {
    }

    // An ended task takes its other connection with it; timedOut tells that the client has been silent.
    method OnTimer(c: FileClientConn, timedOut: bool)
      requires Ordered() && c in conns
      modifies this`tasks, this`conns, c`auth, c`task, TaskOf(c)
      ensures Ordered() && (old(Valid()) ==> Valid())
      ensures conns == if timedOut || (old(c.task) != null && old(c.task.state) == Invalid) then old(conns) - {c}
                else old(conns)
      ensures c in conns ==> c.task == old(c.task) && tasks == old(tasks) && (c.task != null ==> Same(c.task))
      ensures c !in conns ==> Closed(c, old(c.task))
    {
      hide Ordered, Valid;
      if c.task != null {
        if c.task.state == Invalid {
          Close(c);
          return;
        }
      }
      if timedOut {
        Close(c);
      }
    }

    // What clients are expected to do: a connection logs in to one task as one user, and a user of a
    // task has one connection at a time.
    predicate OneEach(c: FileClientConn, user: Word32, id: seq<Octet>)
      requires id in tasks
      reads this`tasks, c`task, c`user, tasks.Values`fromConn, tasks.Values`toConn
    {
      (c.task == null && tasks[id].ConnByUser(user) == null) || (c.task == tasks[id] && c.user == user)
    }

    // The effect of an accepted login on the task and the connection.
    twostate predicate LoggedIn(new t: OnlineTransferTask, new c: FileClientConn, new user: Word32, new role: Role)
      requires old(allocated(t))
      reads t, c
    {
      && c.auth && c.task == t && c.user == user
      && t.state == Awaited(old(t.state), role) && t.logins == old(t.logins) + [(user, role)]
      && t.forwarded == old(t.forwarded) && t.endedAt == old(t.endedAt) && t.seqNum == old(t.seqNum)
      && t.fromConn == (if t.fromUser == user then c else old(t.fromConn))
      && t.toConn == (if t.fromUser != user && t.toUser == user then c else old(t.toConn))
    }

    // The part of the login handler before the answer.
    method Attach(c: FileClientConn, user: Word32, id: seq<Octet>, role: Role) returns (rv: bool)
      requires Ordered() && c in conns
      modifies c`auth, c`task, c`user, if id in tasks then {tasks[id]} else {}
      ensures Ordered() && rv == (id in tasks && tasks[id].Checked(user, role))
      ensures !rv ==> c.auth == old(c.auth) && c.task == old(c.task) && c.user == old(c.user)
      ensures !rv && id in tasks ==> Same(tasks[id])
      ensures rv ==> LoggedIn(tasks[id], c, user, role)
      ensures !rv && old(Valid()) ==> Valid()
    {
      hide Ordered, OnlineTransferTask.Ordered, Valid;
      Known(c);
      rv := false;
      if id in tasks {
        var t := tasks[id];
        Entry(id);
        rv := t.ChangePullState(user, role);
        if rv {
          c.auth := true;
          c.task := t;
          c.user := user;
          t.SetConnByUser(user, c);
          StillOrdered(t);
        }
      }
    }

    lemma Keyed()
      requires Ordered()
      ensures forall i | i in tasks :: tasks[i].taskId == i && tasks[i] in made
    {
    }

    lemma Entry(id: seq<Octet>)
      requires Ordered() && id in tasks
      ensures tasks[id] in made && tasks[id].Ordered() && tasks[id].taskId == id
      ensures In(tasks[id].fromConn, ever) && In(tasks[id].toConn, ever)
    {
    }

    // A login has been accepted, and nothing else has happened.
    twostate predicate Entered(new id: seq<Octet>, new c: FileClientConn, new user: Word32, new role: Role)
      reads this, tasks.Values, conns`task, conns`user, conns`auth, c
    {
      && c in old(conns) && c in conns && old(Valid()) && tasks == old(tasks) && conns == old(conns)
      && id in tasks && tasks[id].Checked(user, role) && LoggedIn(tasks[id], c, user, role)
      && (forall i | i in tasks && i != id :: Same(tasks[i]))
      && (forall d | d in conns && d != c :: d.task == old(d.task) && d.user == old(d.user) && d.auth == old(d.auth))
    }

    // Both logins are there, but no receiver's connection: sender and receiver are the same user.
    twostate predicate Alone(new t: OnlineTransferTask, new user: Word32, new role: Role)
      requires old(allocated(t))
    {
      Awaited(old(t.state), role).WaitingTransfer? && !(t.fromUser != user && t.toUser == user) && old(t.toConn) == null
    }

    twostate lemma EnteredTask(new id: seq<Octet>, new c: FileClientConn, new user: Word32, new role: Role)
      requires Entered(id, c, user, role) && old(OneEach(c, user, id)) && !Alone(tasks[id], user, role)
      ensures TaskFits(id)
    {
    }

    twostate lemma EnteredConns(new id: seq<Octet>, new c: FileClientConn, new user: Word32, new role: Role)
      requires Entered(id, c, user, role) && old(OneEach(c, user, id))
      ensures forall i | i in tasks :: tasks[i].taskId == i
      ensures forall d | d in conns && d.task == tasks[id] :: d.auth && tasks[id].ConnByUser(d.user) == d
      ensures c.task == old(c.task) || old(c.task) == null
    {
      hide Valid, TaskFits;
      Listed();
      WasFit(c);
      forall d | d in conns && d.task == tasks[id] ensures d.auth && tasks[id].ConnByUser(d.user) == d {
        WasFit(d);
      }
    }

    twostate lemma EntersWell(new id: seq<Octet>, new c: FileClientConn, new user: Word32, new role: Role)
      requires Entered(id, c, user, role) && old(OneEach(c, user, id)) && !Alone(tasks[id], user, role)
      ensures Valid()
    {
      hide Valid, TaskFits, ConnFits;
      EnteredTask(id, c, user, role);
      EnteredConns(id, c, user, role);
      forall i | i in tasks ensures TaskFits(i) {
        if i != id {
          TaskKept(i, c);
        }
      }
      forall d | d in conns ensures ConnFits(d) {
        WasFit(d);
        if d == c || d.task == tasks[id] {
          Seated(d);
        } else {
          ConnStays(d);
        }
      }
      AllFit();
    }

    // The slot of the user was taken, or the connection sat in another: somebody is now out of place.
    twostate lemma EntersBadly(new id: seq<Octet>, new c: FileClientConn, new user: Word32, new role: Role)
      requires Entered(id, c, user, role) && !old(OneEach(c, user, id))
      ensures !Valid()
    {
      hide Valid;
      Listed();
      WasFit(c);
      var t := tasks[id];
      if old(c.task) == null {
        var d := old(t.ConnByUser(user));
        SlotWas(id, user);
        OutOfPlace(d);
      } else if old(c.task) == t {
        Misplaced(id);
      } else {
        Misplaced(old(c.task).taskId);
      }
    }

    twostate lemma SlotWas(new id: seq<Octet>, new user: Word32)
      requires old(Valid()) && id in old(tasks)
      ensures var d := old(tasks[id].ConnByUser(user));
              d != null ==> d in old(conns) && old(d.task) == old(tasks[id]) && old(d.user) == user
    {
    }

    lemma OutOfPlace(d: FileClientConn)
      requires d in conns && d.task != null
      requires d.task.ConnByUser(d.user) != d || d.task.taskId !in tasks || tasks[d.task.taskId] != d.task
      ensures !Valid()
    {
      assert !ConnFits(d);
    }

    lemma Misplaced(id: seq<Octet>)
      requires id in tasks
      requires var t := tasks[id];
               || (t.fromConn != null && (t.fromConn.task != t || t.fromConn.user != t.fromUser))
               || (t.toConn != null && (t.toConn.task != t || t.toConn.user != t.toUser))
      ensures !Valid()
    {
      assert !TaskOk(tasks[id]);
      assert !TaskFits(id);
    }

    // The same user on both sides: the second login closes its connection, and the task goes.
    twostate predicate Vanished(new id: seq<Octet>, new c: FileClientConn, new user: Word32, new role: Role)
      reads this, tasks.Values, conns`task, conns`user, conns`auth
    {
      && c in old(conns) && id in old(tasks) && old(Valid()) && tasks == old(tasks) - {id} && conns == old(conns) - {c}
      && old(tasks[id]).Checked(user, role) && Alone(old(tasks[id]), user, role)
      && (forall i | i in tasks :: Same(tasks[i]))
      && (forall d | d in conns :: d.task == old(d.task) && d.user == old(d.user) && d.auth == old(d.auth))
    }

    twostate lemma SelfTransfer(new id: seq<Octet>, new c: FileClientConn, new user: Word32, new role: Role)
      requires Vanished(id, c, user, role)
      ensures var t := old(tasks[id]);
              && t.fromUser == t.toUser == user && t.taskId == id
              && old(t.fromConn) != null && old(t.fromConn in conns) && old(t.fromConn.task) == t
              && old(t.fromConn.user) == user
    {
    }

    twostate lemma Vanishes(new id: seq<Octet>, new c: FileClientConn, new user: Word32, new role: Role)
      requires Vanished(id, c, user, role)
      ensures Valid() <==> old(OneEach(c, user, id))
    {
      hide Valid, TaskFits, ConnFits;
      var t := old(tasks[id]);
      SelfTransfer(id, c, user, role);
      Listed();
      WasFit(c);
      if old(OneEach(c, user, id)) {
        forall i | i in tasks ensures TaskFits(i) {
          TaskKept(i, c);
        }
        forall d | d in conns ensures ConnFits(d) {
          WasFit(d);
          assert d.task != t;
          assert d.task != null ==> d.task.taskId in tasks && Same(tasks[d.task.taskId]);
          ConnStays(d);
        }
        AllFit();
      } else {
        OutOfPlace(old(t.fromConn));
      }
    }

    // The answer to an accepted login.
    method Welcome(c: FileClientConn, t: OnlineTransferTask)
      requires Ordered() && c in conns && c.task == t
      modifies this`tasks, this`conns, c, t, Slots(t)`outbox
      ensures Ordered()
      ensures t.state == old(t.state) ==> Same(t) && c.auth == old(c.auth) && c.task == t && c.user == old(c.user)
      ensures old(t.state).WaitingTransfer? && old(t.toConn) == null ==> Closed(c, t)
      ensures !(old(t.state).WaitingTransfer? && old(t.toConn) == null) ==>
                t.state == old(t.state) && tasks == old(tasks) && conns == old(conns)
      ensures forall d | d in old(ever) ::
                d.outbox == old(d.outbox) + (if d == c then [LoginRsp(0)] else [])
                            + (if old(t.state).WaitingTransfer? && d == old(t.toConn)
                               then [FileState(PeerReady, t.taskId, t.fromUser)] else [])
    {
      hide Ordered, Valid;
      c.SendPdu(LoginRsp(0));
      if t.state.WaitingTransfer? {
        if t.toConn != null {
          t.toConn.SendPdu(FileState(PeerReady, t.taskId, t.fromUser));
        } else {
          Close(c);
        }
      }
    }

    // What a login does, whatever clients keep to.
    method Login(c: FileClientConn, user: Word32, id: seq<Octet>, role: Role) returns (rv: bool)
      requires Ordered() && c in conns
      modifies this`tasks, this`conns, c, TaskOf(c), if id in tasks then {tasks[id]} else {}
      modifies (if id in tasks then Slots(tasks[id]) else {})`outbox
      ensures Ordered()
      ensures rv == (id in old(tasks) && old(tasks)[id].Checked(user, role))
      ensures !rv ==> Closed(c, old(c.task))
      ensures !rv && id in old(tasks) && old(tasks)[id] != old(c.task) ==> Same(old(tasks)[id])
      ensures rv ==> var t := old(tasks)[id];
                if Alone(t, user, role) then
                  && c.task == null && conns == old(conns) - {c} && tasks == old(tasks) - {id} && t.state.Invalid?
                  && t.logins == old(t.logins) + [(user, role)] && t.forwarded == old(t.forwarded)
                else LoggedIn(t, c, user, role) && tasks == old(tasks) && conns == old(conns)
      ensures rv && old(c.task) != null && old(c.task) != old(tasks)[id] ==> Same(old(c.task))
      ensures forall d | d in old(ever) ::
                d.outbox == old(d.outbox) + (if d == c then [LoginRsp(if rv then 0 else 1)] else [])
                            + (if rv && old(tasks)[id].state.WaitingTransfer? && d == old(tasks)[id].toConn
                               then [FileState(PeerReady, id, old(tasks)[id].fromUser)] else [])
      ensures !rv && old(Valid()) ==> Valid()
    {
      hide Ordered, Valid, OnlineTransferTask.Ordered, Awaited;
      Known(c);
      Keyed();
      rv := Attach(c, user, id, role);
      if rv {
        var t := tasks[id];
        Welcome(c, t);
      } else {
        c.SendPdu(LoginRsp(1));
        Close(c);
      }
    }

    // The login: on success the client joins the task, and the second to come tells the receiver that
    // its peer is ready; on failure the connection is closed. The server stays sound if and only if the
    // login was refused, or the client had no other task and its side no other connection.
    method HandleLogin(c: FileClientConn, user: Word32, id: seq<Octet>, role: Role) returns (rv: bool)
      requires Ordered() && c in conns
      modifies this`tasks, this`conns, c, TaskOf(c), if id in tasks then {tasks[id]} else {}
      modifies (if id in tasks then Slots(tasks[id]) else {})`outbox
      ensures Ordered()
      ensures rv == (id in old(tasks) && old(tasks)[id].Checked(user, role))
      ensures !rv ==> Closed(c, old(c.task))
      ensures !rv && id in old(tasks) && old(tasks)[id] != old(c.task) ==> Same(old(tasks)[id])
      ensures rv ==> var t := old(tasks)[id];
                if Alone(t, user, role) then
                  && c.task == null && conns == old(conns) - {c} && tasks == old(tasks) - {id} && t.state.Invalid?
                  && t.logins == old(t.logins) + [(user, role)] && t.forwarded == old(t.forwarded)
                else LoggedIn(t, c, user, role) && tasks == old(tasks) && conns == old(conns)
      ensures rv && old(c.task) != null && old(c.task) != old(tasks)[id] ==> Same(old(c.task))
      ensures forall d | d in old(ever) ::
                d.outbox == old(d.outbox) + (if d == c then [LoginRsp(if rv then 0 else 1)] else [])
                            + (if rv && old(tasks)[id].state.WaitingTransfer? && d == old(tasks)[id].toConn
                               then [FileState(PeerReady, id, old(tasks)[id].fromUser)] else [])
      ensures old(Valid()) ==> (Valid() <==> !rv || old(OneEach(c, user, id)))
    {
      hide Ordered, Valid;
      Keyed();
      rv := Login(c, user, id, role);
      if rv && old(Valid()) {
        LoginSound(id, c, user, role);
      }
    }

    twostate lemma LoginSound(new id: seq<Octet>, new c: FileClientConn, new user: Word32, new role: Role)
      requires id in old(tasks)
      requires || Vanished(id, c, user, role)
               || (Entered(id, c, user, role) && !Alone(old(tasks[id]), user, role))
      ensures Valid() <==> old(OneEach(c, user, id))
    {
      hide Valid;
      if Vanished(id, c, user, role) {
        Vanishes(id, c, user, role);
      } else if old(OneEach(c, user, id)) {
        EntersWell(id, c, user, role);
      } else {
        EntersBadly(id, c, user, role);
      }
    }

    // A task that has ended stays so and passes nothing on, whatever comes.
    twostate predicate StaysEnded(t: OnlineTransferTask)
      reads t
    {
      old(t.state).Invalid? ==> t.state.Invalid? && t.forwarded == old(t.forwarded)
    }

    // No user sends a file to itself.
    ghost predicate SelfIdle()
      reads this`made, made`state
    {
      forall t | t in made && t.fromUser == t.toUser :: !t.Active()
    }

    lemma SelfAlone()
      requires Ordered()
      ensures forall t | t in made && t.fromUser == t.toUser :: t.toConn == null
    {
    }

    // A login as an event; bad tells that it was accepted against OneEach.
    method Enter(c: FileClientConn, user: Word32, id: seq<Octet>, role: Role) returns (bad: bool)
      requires Ordered() && c in conns
      modifies this`tasks, this`conns, c, TaskOf(c), if id in tasks then {tasks[id]} else {}
      modifies (if id in tasks then Slots(tasks[id]) else {})`outbox
      ensures Ordered() && conns <= old(conns)
      ensures old(Valid()) ==> (Valid() <==> !bad)
      ensures forall t | t in old(made) :: StaysEnded(t)
      ensures old(SelfIdle()) ==> SelfIdle()
    {
      hide Ordered, Valid, OneEach;
      Known(c);
      SelfAlone();
      if id in tasks { Entry(id); }
      var one := id in tasks && OneEach(c, user, id);
      var rv := HandleLogin(c, user, id, role);
      bad := rv && !one;
    }

    // One event at a connection that is open; bad tells of a login that was accepted against OneEach.
    method Handle(c: FileClientConn, e: Event) returns (bad: bool)
      requires Ordered() && c in conns
      modifies this`tasks, this`conns, made, ever
      ensures Ordered() && conns <= old(conns) && (bad ==> e.Login?)
      ensures old(Valid()) ==> (Valid() <==> !bad)
      ensures forall t | t in old(made) :: StaysEnded(t)
      ensures old(SelfIdle()) ==> SelfIdle()
    {
      hide Ordered, Valid, OneEach, LoggedIn, Awaited, About;
      Known(c);
      SelfAlone();
      TableMade();
      bad := false;
      match e
      case Login(user, id, role) =>
        if id in tasks { Entry(id); }
        bad := Enter(c, user, id, role);
      case State(user, id, stat) => HandleState(c, user, id, stat);
      case Request(user, id, seqNum, offset, size) => HandlePullReq(c, user, id, seqNum, offset, size);
      case Response(user, id, offset, data) => HandlePullRsp(c, user, id, offset, data);
      case Timer(timedOut) => OnTimer(c, timedOut);
      case Hangup => Close(c);
    }

    // A run: tasks are made, clients connect, and the events of the k-th client to connect arrive. The
    // tasks keep their order whatever the clients do, and the server is sound as long as no login is bad.
    method Run(inputs: seq<Input>, known: seq<FileClientConn>) returns (all: seq<FileClientConn>, bad: bool)
      requires Ordered() && Valid() && SelfIdle()
      modifies this, made, ever
      ensures Ordered() && SelfIdle() && old(made) <= made && (!bad ==> Valid())
      ensures forall t | t in old(made) :: StaysEnded(t)
    {
      hide Ordered, Valid;
      all, bad := known, false;
      for i := 0 to |inputs|
        invariant Ordered() && SelfIdle() && old(made) <= made && (!bad ==> Valid())
        invariant forall d | d in ever :: d in old(ever) || fresh(d)
        invariant forall t | t in made :: t in old(made) || fresh(t)
        invariant forall t | t in old(made) :: StaysEnded(t)
      {
        match inputs[i] {
          case Make(id, fromUser, toUser) =>
            var t := NewTask(id, fromUser, toUser);
          case Connect =>
            var c := OnConnect();
            all := all + [c];
          case At(k, e) =>
            if k < |all| && all[k] in conns {
              var b := Handle(all[k], e);
              bad := bad || b;
            }
        }
      }
    }
  }

  // After any run at all: a task is active only after a login of the sender and one of the receiver, who
  // are two users; whatever has been passed on was passed on after both, and came from the right side.
  lemma Safety(s: FileServer, t: OnlineTransferTask)
    requires s.Ordered() && s.SelfIdle() && t in s.made
    ensures t.Active() ==> BothIn(t.logins, t.fromUser, t.toUser) && t.fromUser != t.toUser
    ensures forall l <- t.logins :: t.Checked(l.0, l.1)
    ensures forall f <- t.forwarded ::
              f.after <= |t.logins| && BothIn(t.logins[..f.after], t.fromUser, t.toUser) && t.RightSide(f.m)
  {
    assert t.Ordered();
  }

  // While no login has been bad: an active task has both its connections, open and logged in as the
  // users they should be, a task without connections has had no login, and no connection holds a task
  // that has been deleted.
  lemma Seats(s: FileServer, id: seq<Octet>, c: FileClientConn)
    requires s.Valid() && id in s.tasks && c in s.conns
    ensures var t := s.tasks[id];
            t.Active() ==>
              && t.fromUser != t.toUser
              && t.fromConn != null && t.fromConn in s.conns && t.fromConn.task == t && t.fromConn.user == t.fromUser
              && t.toConn != null && t.toConn in s.conns && t.toConn.task == t && t.toConn.user == t.toUser
    ensures var t := s.tasks[id]; t.logins == [] <==> t.fromConn == null && t.toConn == null
    ensures c.task != null ==>
              c.task.taskId in s.tasks && s.tasks[c.task.taskId] == c.task && c.task.ConnByUser(c.user) == c
  {
    assert s.TaskFits(id);
    assert Slots(s.tasks[id]) <= s.conns;
    assert s.ConnFits(c);
  }

  const NAME: seq<Octet> := [49]

  // A server with a task from user 1 to user 2, and two connections.
  method TwoClients() returns (s: FileServer, t: OnlineTransferTask, a: FileClientConn, b: FileClientConn)
    ensures fresh(s) && fresh(t) && fresh(a) && fresh(b) && a != b
    ensures s.Ordered() && s.Valid() && s.made == {t} && s.ever == {a, b} && s.conns == {a, b}
    ensures s.tasks == map[NAME := t] && t.taskId == NAME && t.fromUser == 1 && t.toUser == 2
    ensures t.state == Ready && t.fromConn == null && t.toConn == null && t.logins == [] && a.task == null
              && b.task == null
  {
    hide FileServer.Ordered, FileServer.Valid;
    s := new FileServer();
    t := s.NewTask(NAME, 1, 2);
    a := s.OnConnect();
    b := s.OnConnect();
  }

  // The first of them logs in as the sender.
  method SenderIn() returns (s: FileServer, t: OnlineTransferTask, a: FileClientConn, b: FileClientConn)
    ensures fresh(s) && fresh(t) && fresh(a) && fresh(b) && a != b
    ensures s.Ordered() && s.Valid() && s.made == {t} && s.ever == {a, b} && s.conns == {a, b}
    ensures s.tasks == map[NAME := t] && t.taskId == NAME && t.fromUser == 1 && t.toUser == 2
    ensures t.state == WaitingReceiver && t.fromConn == a && t.toConn == null
    ensures a.task == t && a.user == 1 && b.task == null
  {
    hide FileServer.Ordered, FileServer.Valid;
    s, t, a, b := TwoClients();
    var ok := s.HandleLogin(a, 1, NAME, RealtimeSender);
  }

  // What OneEach keeps away: the sender logs in on two connections and the second closes; the first
  // then holds a task that has been deleted.
  method DeletedTaskHeld() returns (s: FileServer, first: FileClientConn)
    ensures s.Ordered() && !s.Valid() && first in s.conns && first.auth
    ensures first.task != null && first.task.taskId !in s.tasks
  {
    hide FileServer.Ordered, FileServer.Valid;
    var t, second;
    s, t, first, second := SenderIn();
    var ok := s.HandleLogin(second, 1, NAME, RealtimeSender);
    s.Close(second);
    s.OutOfPlace(first);
    LoggedInIsAuth(s, first);
  }

  lemma LoggedInIsAuth(s: FileServer, c: FileClientConn)
    requires s.Ordered() && c in s.ever
    ensures c.auth <==> c.task != null
  {
  }

  // The receiver logs in too, and the sender goes.
  method SenderGone() returns (s: FileServer, t: OnlineTransferTask, receiver: FileClientConn)
    ensures fresh(s) && fresh(t) && fresh(receiver)
    ensures s.Ordered() && s.Valid() && s.made == {t} && fresh(s.ever) && receiver in s.conns && s.conns <= s.ever
    ensures s.tasks == map[NAME := t] && t.taskId == NAME && t.fromUser == 1 && t.toUser == 2
    ensures t.state == Invalid && t.fromConn == null && t.toConn == receiver && receiver.task == t && receiver.user == 2
  {
    hide FileServer.Ordered, FileServer.Valid;
    var sender;
    s, t, sender, receiver := SenderIn();
    var ok := s.HandleLogin(receiver, 2, NAME, RealtimeReceiver);
    s.Close(sender);
  }

  // Notices are not data: the sender and the receiver log in, the sender goes and comes back on a new
  // connection, and although the task has ended, the receiver's notice is passed on to it.
  method NoticeAfterEnd() returns (s: FileServer, t: OnlineTransferTask, back: FileClientConn)
    ensures s.Ordered() && s.Valid() && t.state == Invalid && FileState(Cancel, NAME, 2) in back.outbox
  {
    hide FileServer.Ordered, FileServer.Valid;
    var receiver;
    s, t, receiver := SenderGone();
    back := s.OnConnect();
    var ok := s.HandleLogin(back, 1, NAME, RealtimeSender);
    s.HandleState(receiver, 2, NAME, Cancel);
    assert FileState(Cancel, NAME, 2) in back.outbox;
  }
}
