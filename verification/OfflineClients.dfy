/** The clients of offline tasks: who holds which task, and when a close leaves somebody with a deleted one. */
module OfflineClients {
  import opened Octets
  import opened OfflineTransfer
  import opened TransferHeader
  import opened Wrappers

  class FileClientConn {
    var auth: bool
    var task: OfflineTransferTask?
    var user: Word32

    constructor ()
      ensures !auth && task == null
    {
      auth, task, user := false, null, 0;
    }
  }

  datatype Event =
    | Login(user: Word32, id: seq<Octet>, role: Role)
    | Request(user: Word32, id: seq<Octet>, pull: Pull)
    | Response(id: seq<Octet>, now: nat, reply: Reply)
    | Hangup

  // The first n bytes of what came.
  function First(data: seq<Octet>, n: int): seq<Octet> { if 0 <= n <= |data| then data[..n] else data }

  // The bytes of a file from an offset on, at most a segment of them.
  function Segment(file: seq<Octet>, fileSize: nat, offset: nat): seq<Octet>
    requires offset < fileSize == |file|
  {
    if offset + SEGMENT_SIZE <= |file| then file[offset..offset + SEGMENT_SIZE] else file[offset..]
  }

  // What a checked login in a role makes of a state.
  function After(s: State, checked: bool, role: Role): State {
    if checked && s.Ready? && role.OfflineUpload? then WaitingUpload
    else if checked && (s.UploadEnd? || s.WaitingDownload?) && role.OfflineDownload? then WaitingDownload
    else s
  }

  class FileServer {
    var files: map<seq<Octet>, DiskFile>
    var tasks: map<seq<Octet>, OfflineTransferTask>
    var conns: set<FileClientConn>

    // A file with a header has that of its task.
    ghost predicate FileOk(id: seq<Octet>)
      requires id in files
      reads this`files, files.Values
    {
      var f := files[id].content;
      f.Some? && |f.value| >= HEADER_SIZE ==>
        TaskIdOf(f.value) == id && FileSizeOf(f.value) < TWO_31 && IsText(id) && |id| < 128
    }

    ghost predicate TaskOk(id: seq<Octet>)
      requires id in tasks
      reads this`files, this`tasks, files.Values, tasks.Values
    {
      id in files && tasks[id].taskId == id && tasks[id].disk == files[id] && tasks[id].Valid()
    }

    ghost predicate Valid()
      reads this, files.Values, tasks.Values, conns`auth, conns`task
    {
      && (forall i, j | i in files && j in files && files[i] == files[j] :: i == j)
      && (forall id | id in files :: FileOk(id))
      && (forall id | id in tasks :: TaskOk(id))
      && (forall c | c in conns :: c.auth <==> c.task != null)
    }

    // The task of the connection has not been deleted.
    predicate Fits(c: FileClientConn)
      reads this`tasks, c`task
    {
      c.task != null ==> c.task.taskId in tasks && tasks[c.task.taskId] == c.task
    }

    ghost predicate AllFit()
      reads this, conns`task
    {
      forall c | c in conns :: Fits(c)
    }

    // Nobody else has the connection's task.
    predicate Alone(c: FileClientConn)
      reads this`conns, conns`task, c`task
    {
      c.task == null || forall d | d in conns && d != c :: d.task != c.task
    }

    // The connection may go: its task stays, or is nobody else's.
    predicate Leavable(c: FileClientConn)
      reads this`conns, conns`task, c`task, if c.task == null then {} else {c.task}
    {
      Alone(c) || (c.task != null && c.task.state.WaitingUpload?)
    }

    constructor ()
      ensures Valid() && AllFit() && files == map[] && tasks == map[] && conns == {}
    {
      files, tasks, conns := map[], map[], {};
    }

    method OnConnect() returns (c: FileClientConn)
      requires Valid()
      modifies this`conns
      ensures Valid() && (old(AllFit()) ==> AllFit()) && fresh(c) && conns == old(conns) + {c} && c.task == null
    {
      hide OfflineTransferTask.Valid, TaskOk, FileOk;
      c := new FileClientConn();
      conns := conns + {c};
    }

    lemma Table(c: FileClientConn)
      requires Valid() && c in conns && c.task != null && Fits(c)
      ensures c.task.Valid() && c.task.taskId in files && c.task.disk == files[c.task.taskId]
    {
      assert TaskOk(c.task.taskId);
    }

    lemma Written(t: OfflineTransferTask)
      requires t.Valid() && t.taskId in files && t.disk == files[t.taskId]
      ensures FileOk(t.taskId)
    {
    }

    // A step at one task and its file leaves all others in order.
    twostate lemma StillValid(new t: OfflineTransferTask)
      requires old(Valid()) && t.taskId in old(tasks) && old(tasks)[t.taskId] == t && t.Valid() && files == old(files)
      requires tasks == old(tasks) || tasks == old(tasks) - {t.taskId}
      requires forall u | u in old(tasks.Values) && u != t :: unchanged(u)
      requires forall f | f in old(files.Values) && f != t.disk :: unchanged(f)
      requires forall c | c in conns :: c.auth <==> c.task != null
      ensures Valid()
    {
      hide OfflineTransferTask.Valid, TaskIdOf, FileSizeOf, IsText;
      assert old(TaskOk(t.taskId));
      hide FileOk;
      Written(t);
      forall id | id in files ensures FileOk(id) {
        assert old(FileOk(id));
        assert files[id] in old(files.Values) && (id != t.taskId ==> files[id] != t.disk);
      }
      forall id | id in tasks ensures TaskOk(id) {
        assert old(TaskOk(id));
        assert files[id] in old(files.Values) && (id != t.taskId ==> files[id] != t.disk);
        assert tasks[id] in old(tasks.Values);
      }
    }

    // A new task for a file that is there, or is made for it.
    twostate lemma Added(new t: OfflineTransferTask)
      requires old(Valid()) && t.Valid() && t.taskId !in old(tasks) && tasks == old(tasks)[t.taskId := t]
      requires conns == old(conns) && t.taskId in files && files[t.taskId] == t.disk
      requires || files == old(files)
               || (t.disk !in old(files.Values) && t.taskId !in old(files) && files == old(files)[t.taskId := t.disk])
      requires forall u | u in old(tasks.Values) :: unchanged(u)
      requires forall f | f in old(files.Values) :: unchanged(f)
      requires forall c | c in conns :: c.auth == old(c.auth) && c.task == old(c.task)
      ensures Valid()
    {
      hide OfflineTransferTask.Valid, TaskIdOf, FileSizeOf, IsText;
      Written(t);
      forall id | id in files ensures FileOk(id) {
        if id != t.taskId {
          assert old(FileOk(id)) && files[id] in old(files.Values);
        }
      }
      forall id | id in tasks ensures TaskOk(id) {
        if id != t.taskId {
          assert old(TaskOk(id)) && files[id] in old(files.Values) && tasks[id] in old(tasks.Values);
        }
      }
    }

    // A task with a new id; its file is empty, or not there yet.
    method NewTask(id: seq<Octet>, fromUser: Word32, toUser: Word32, fileSize: Word32) returns (t: OfflineTransferTask)
      requires Valid() && id !in files && IsText(id) && |id| < 128 && fileSize < TWO_31
      modifies this`files, this`tasks
      ensures Valid() && (old(AllFit()) ==> AllFit()) && tasks == old(tasks)[id := t] && fresh(t) && fresh(t.disk)
      ensures files == old(files)[id := t.disk] && t.state == Ready && t.transfered == 0
      ensures t.taskId == id && t.fromUser == fromUser && t.toUser == toUser && t.fileSize == fileSize
    {
      hide Valid, IsText;
      NoFileNoTask(id);
      var f := new DiskFile();
      t := new OfflineTransferTask(id, fromUser, toUser, fileSize, f);
      StartsAtZero(t);
      hide OfflineTransferTask.Valid;
      files := files[id := f];
      tasks := tasks[id := t];
      Added(t);
    }

    lemma StartsAtZero(t: OfflineTransferTask)
      requires t.Valid() && t.state == Ready
      ensures t.transfered == 0
    {
    }

    lemma NoFileNoTask(id: seq<Octet>)
      requires Valid() && id !in files
      ensures id !in tasks
    {
      assert id in tasks ==> TaskOk(id);
    }

    // NewTransferTask for a task that is on disk only.
    method Load(id: seq<Octet>) returns (t: OfflineTransferTask?)
      requires Valid() && id !in tasks
      modifies this`tasks
      ensures Valid() && (old(AllFit()) ==> AllFit())
      ensures t != null <==> id in files && Loadable(files[id].content)
      ensures t == null ==> tasks == old(tasks)
      ensures t != null ==> fresh(t) && tasks == old(tasks)[id := t] && t.taskId == id && t.state == WaitingDownload
      ensures t != null ==> FromDisk(t, files[id].content)
    {
      hide Valid, OfflineTransferTask.Valid;
      t := null;
      if id in files {
        Filed(id);
        t := LoadFromDisk(files[id]);
        if t != null {
          tasks := tasks[id := t];
          Added(t);
        }
      }
    }

    // A task with the header and the bytes of a file.
    ghost predicate FromDisk(t: OfflineTransferTask, content: Option<seq<Octet>>)
      requires Loadable(content)
      reads t`body
    {
      && t.body == content.value[HEADER_SIZE..] && t.fileSize == FileSizeOf(content.value)
      && t.fromUser == FromUserOf(content.value) && t.toUser == ToUserOf(content.value)
    }

    lemma Filed(id: seq<Octet>)
      requires Valid() && id in files
      ensures FileOk(id)
    {
    }

    // The part of Close that concerns the task, and DeleteTransferTaskByConnClose.
    method Leave(t: OfflineTransferTask)
      requires Valid() && t.taskId in tasks && tasks[t.taskId] == t
      modifies this`tasks, t`state, t`fp
      ensures Valid() && t.Valid()
      ensures tasks == if old(t.state).WaitingUpload? then old(tasks) else old(tasks) - {t.taskId}
      ensures t.state == if Number(old(t.state)) >= Number(UploadEnd) then WaitingDownload else old(t.state)
    {
      hide OfflineTransferTask.Valid, Valid, TaskOk, FileOk;
      Entry(t.taskId);
      AuthRight();
      var deleted := t.ConnClosed();
      if deleted {
        tasks := tasks - {t.taskId};
      }
      StillValid(t);
    }

    lemma Entry(id: seq<Octet>)
      requires Valid() && id in tasks
      ensures tasks[id].taskId == id && tasks[id].Valid()
    {
      assert TaskOk(id);
    }

    lemma AuthRight()
      requires Valid()
      ensures forall c | c in conns :: c.auth <==> c.task != null
    {
    }

    method Drop(c: FileClientConn)
      requires Valid() && c in conns
      modifies this`conns, c`auth, c`task
      ensures Valid() && conns == old(conns) - {c} && c.task == null
    {
      hide TaskOk, FileOk;
      c.auth, c.task := false, null;
      conns := conns - {c};
    }

    // A task is deleted with the first close after its upload has begun, whoever else has it.
    method Close(c: FileClientConn)
      requires Valid() && c in conns && Fits(c)
      modifies this`tasks, this`conns, c`auth, c`task, (if c.task == null then {} else {c.task})`state
      modifies (if c.task == null then {} else {c.task})`fp
      ensures Valid() && conns == old(conns) - {c} && c.task == null
      ensures tasks == if old(c.task != null && !c.task.state.WaitingUpload?) then old(tasks) - {old(c.task.taskId)}
                       else old(tasks)
      ensures var t := old(c.task);
              t != null ==>
                && t.Valid()
                && t.state == if Number(old(t.state)) >= Number(UploadEnd) then WaitingDownload else old(t.state)
      ensures old(AllFit()) ==> (AllFit() <==> old(Leavable(c)))
    {
      hide Valid;
      ghost var t := c.task;
      if c.task != null {
        Leave(c.task);
      }
      Drop(c);
      if old(AllFit() && !Alone(c)) && tasks != old(tasks) {
        var d :| d in conns && d.task == t;
        assert !Fits(d);
      }
    }

    // The login, which may bring a task back from disk; if it is refused the connection is closed.
    method Login(c: FileClientConn, user: Word32, id: seq<Octet>, role: Role) returns (rv: bool)
      requires Valid() && c in conns && Fits(c)
      modifies this`tasks, this`conns, c, (if c.task == null then {} else {c.task})`state
      modifies (if c.task == null then {} else {c.task})`fp, (if id in tasks then {tasks[id]} else {})`state
      ensures Valid()
      ensures rv ==>
                && c in conns && Fits(c) && conns == old(conns) && id in tasks && c.task == tasks[id] && c.user == user
                && tasks[id].Checked(user, role) && (id in old(tasks) ==> tasks == old(tasks))
      ensures rv && id in old(tasks) ==> tasks[id].state == After(old(tasks[id].state), true, role)
      ensures id in old(tasks) ==> (rv <==> old(tasks)[id].Checked(user, role))
      ensures rv && id !in old(tasks) ==>
                && id in files && Loadable(files[id].content) && FromDisk(tasks[id], files[id].content)
                && tasks[id].state.WaitingDownload? && fresh(tasks[id])
      ensures id !in old(tasks) ==>
                (rv <==> role.OfflineDownload? && id in files && Loadable(files[id].content)
                         && user == ToUserOf(files[id].content.value))
      ensures !rv ==> conns == old(conns) - {c}
      ensures old(AllFit()) ==> (AllFit() <==> rv || old(Leavable(c)))
    {
      hide Valid, OfflineTransferTask.Valid;
      rv := false;
      var t: OfflineTransferTask? := null;
      if id in tasks {
        t := tasks[id];
        Entry(id);
      } else if role.OfflineDownload? {
        t := Load(id);
      }
      if t != null {
        rv := Admit(c, t, user, role);
      }
      if !rv {
        Close(c);
      }
    }

    // The part of the login that concerns a task of the table.
    method Admit(c: FileClientConn, t: OfflineTransferTask, user: Word32, role: Role) returns (rv: bool)
      requires Valid() && c in conns && t.taskId in tasks && tasks[t.taskId] == t
      modifies c, t`state
      ensures Valid() && rv == t.Checked(user, role) && (old(AllFit()) ==> AllFit())
      ensures !rv ==> c.task == old(c.task) && t.state == old(t.state)
      ensures rv ==> c.task == t && c.user == user
      ensures t.state == After(old(t.state), rv, role)
    {
      hide Valid, OfflineTransferTask.Valid, TaskOk, FileOk;
      Entry(t.taskId);
      AuthRight();
      rv := t.ChangePullState(user, role);
      if rv {
        c.auth, c.task, c.user := true, t, user;
      }
      StillValid(t);
    }

    ghost function Files(c: FileClientConn): (ds: set<DiskFile>)
      reads c`task
    {
      if c.task == null then {} else {c.task.disk}
    }

    // A segment from the client: the connection stays exactly if it was taken and is not the last.
    method HandlePullRsp(c: FileClientConn, id: seq<Octet>, now: nat, r: Reply) returns (rv: int)
      requires Valid() && c in conns && Fits(c) && now < 0x1_0000_0000_0000_0000
      requires c.task != null ==> Sized(c.task.fileSize, r)
      modifies this`tasks, this`conns, c`auth, c`task, (if c.task == null then {} else {c.task}), Files(c)
      ensures Valid() && conns == if rv == 0 then old(conns) else old(conns) - {c}
      ensures rv == 0 ==> tasks == old(tasks) && c.task == old(c.task)
      ensures old(c.task) != null ==>
                && (rv != -1 <==>
                      old(r.user == c.user && c.task.taskId == id && c.task.Takes(r.user, r.offset, r.opens)))
                && (rv == 0 ==> c.task.state == Uploading)
                && (rv == 1 <==> rv != -1 && old(c.task.transfered) + 1 == old(c.task).segments)
      ensures rv == -1 || rv == 0 || rv == 1
      ensures var t := old(c.task);
              t != null ==>
                && t.Valid()
                && t.body == old(t.body)
                             + (if rv == -1 then [] else First(r.data, BlockSize(t.fileSize, old(t.transfered))))
                && t.transfered == old(t.transfered) + (if rv == -1 then 0 else 1)
                && (rv == -1 ==> t.disk.content == old(t.disk.content))
                && t.state == (if rv == 0 then Uploading else if rv == 1 then WaitingDownload
                               else if Number(old(t.state)) >= Number(UploadEnd) then WaitingDownload else old(t.state))
                && tasks == (if rv == 0 || (rv == -1 && old(t.state).WaitingUpload?) then old(tasks)
                             else old(tasks) - {t.taskId})
      ensures old(AllFit()) ==>
                (AllFit() <==> rv == 0 || old(Alone(c)) || (rv == -1 && old(c.task.state.WaitingUpload?)))
    {
      hide Valid, OfflineTransferTask.Valid, TaskOk, FileOk, Sized, BlockSize, OfflineTransferTask.OnDisk;
      AuthRight();
      if !c.auth || c.task == null {
        return 0;
      }
      var t := c.task;
      Table(c);
      rv := -1;
      if r.user == c.user && t.taskId == id {
        if t.Takes(r.user, r.offset, r.opens) {
          SizedTaken(t, r);
          BlockIsSome(t.fileSize, t.transfered);
        }
        rv := t.DoRecvData(r.user, r.offset, r.data, now, r.opens);
        StillValid(t);
      }
      if rv != 0 {
        Close(c);
      }
    }

    // The segment of a request that is served.
    lemma Served(t: OfflineTransferTask, pull: Pull)
      requires t.Valid() && t.Serves(pull.offset, pull.opens)
      ensures var size := BlockSize(t.fileSize, t.Next());
              && pull.offset == t.Next() * SEGMENT_SIZE < t.fileSize == |t.body| && t.segments == Segments(t.fileSize)
              && 0 < size && pull.offset + size <= t.fileSize
              && Segment(t.body, t.fileSize, pull.offset) == t.body[pull.offset..pull.offset + size]
              && (pull.offset + size == t.fileSize <==> t.Next() + 1 == t.segments)
    {
      Tiling(t.fileSize, t.Next());
    }

    // A request of the client: the connection stays exactly if it is served and not with the last segment.
    method HandlePullReq(c: FileClientConn, user: Word32, id: seq<Octet>, pull: Pull)
      returns (rv: int, data: seq<Octet>)
      requires Valid() && c in conns && Fits(c)
      modifies this`tasks, this`conns, c`auth, c`task, if c.task == null then {} else {c.task}
      ensures Valid() && conns == if rv == 0 then old(conns) else old(conns) - {c}
      ensures rv == 0 ==> tasks == old(tasks) && c.task == old(c.task)
      ensures old(c.task) != null ==>
                (rv != -1 <==> old(user == c.user && c.task.taskId == id && user == c.task.toUser
                                   && c.task.Serves(pull.offset, pull.opens)))
      ensures rv == -1 || rv == 0 || rv == 1
      ensures var t := old(c.task);
              t != null ==>
                && t.Valid() && t.body == old(t.body)
                && (rv == 0 ==> t.state.Downloading? && t.transfered == pull.offset / SEGMENT_SIZE + 1)
                && if rv == -1 then data == [] else
                     && pull.offset % SEGMENT_SIZE == 0 && pull.offset < t.fileSize == |t.body|
                     && data == Segment(t.body, t.fileSize, pull.offset)
                     && (rv == 1 <==> pull.offset + |data| == t.fileSize)
      ensures old(c.task) == null ==> rv == 0 && data == []
      ensures old(AllFit()) ==> (AllFit() <==> rv == 0 || old(Leavable(c)))
    {
      hide Valid, OfflineTransferTask.Valid, TaskOk, FileOk, BlockSize, OfflineTransferTask.OnDisk;
      AuthRight();
      data := [];
      if !c.auth || c.task == null {
        return 0, [];
      }
      var t := c.task;
      Table(c);
      rv := -1;
      if user == c.user && t.taskId == id && t.toUser == user {
        if t.Serves(pull.offset, pull.opens) { Served(t, pull); }
        rv, data := t.DoPullFileRequest(pull.offset, pull.opens);
        StillValid(t);
      }
      if rv != 0 {
        Close(c);
      }
    }

    // One event; bad tells of a close that left somebody else with the deleted task.
    method Handle(c: FileClientConn, e: Event) returns (bad: bool)
      requires Valid() && c in conns && Fits(c)
      requires e.Response? ==> e.now < 0x1_0000_0000_0000_0000 && (c.task != null ==> Sized(c.task.fileSize, e.reply))
      modifies this`tasks, this`conns, c, (if c.task == null then {} else {c.task}), Files(c)
      modifies if e.Login? && e.id in tasks then {tasks[e.id]} else {}
      ensures Valid() && (old(AllFit()) ==> (AllFit() <==> !bad))
    {
      hide Valid, AllFit, OfflineTransferTask.Valid, Sized;
      var alone := Alone(c);
      var waits := c.task != null && c.task.state.WaitingUpload?;
      match e
      case Login(user, id, role) =>
        var ok := Login(c, user, id, role);
        bad := !ok && !alone && !waits;
      case Request(user, id, pull) =>
        var rv, data := HandlePullReq(c, user, id, pull);
        bad := rv != 0 && !alone && !waits;
      case Response(id, now, reply) =>
        var rv := HandlePullRsp(c, id, now, reply);
        bad := rv != 0 && !alone && !(rv == -1 && waits);
      case Hangup =>
        Close(c);
        bad := !alone && !waits;
    }
  }

  const NAME: seq<Octet> := [49]

  lemma TwoSegments(t: OfflineTransferTask)
    requires t.Valid() && t.fileSize == 65536
    ensures t.segments == 2
  {
  }

  // The sender is in the middle of an upload of two segments.
  method HalfUploaded() returns (s: FileServer, t: OfflineTransferTask, sender: FileClientConn)
    ensures s.Valid() && s.AllFit() && s.conns == {sender} && s.tasks == map[NAME := t] && t.taskId == NAME
    ensures t.fromUser == 1 && t.toUser == 2 && t.state == Uploading && sender.task == t
    ensures fresh(s) && fresh(t) && fresh(sender)
  {
    hide FileServer.Valid, OfflineTransferTask.Valid, FileServer.AllFit;
    s := new FileServer();
    assert IsText(NAME);
    t := s.NewTask(NAME, 1, 2, 65536);
    sender := s.OnConnect();
    var ok := s.Login(sender, 1, NAME, OfflineUpload);
    s.Table(sender);
    TwoSegments(t);
    var rv := s.HandlePullRsp(sender, NAME, 0, Reply(1, 0, seq(SEGMENT_SIZE, _ => 0), true));
  }

  // What Leavable keeps away: the receiver logs in during the upload and hangs up, and the sender is left
  // with a deleted task.
  method DeletedUnderSender() returns (s: FileServer, sender: FileClientConn)
    ensures s.Valid() && !s.AllFit() && sender in s.conns && sender.task != null && sender.task.state == Uploading
    ensures sender.task.taskId !in s.tasks
  {
    hide FileServer.Valid, OfflineTransferTask.Valid;
    var t;
    s, t, sender := HalfUploaded();
    var receiver := s.OnConnect();
    var ok := s.Login(receiver, 2, NAME, OfflineDownload);
    s.Close(receiver);
  }

  // The blocks are the segments that the sender's replies hold, one from each, in order.
  predicate FromSender(user: Word32, fileSize: nat, replies: seq<Reply>, taken: seq<seq<Octet>>) {
    && |taken| <= |replies|
    && forall i :: 0 <= i < |taken| ==>
         && replies[i].user == user && replies[i].offset == i * SEGMENT_SIZE
         && taken[i] == First(replies[i].data, BlockSize(fileSize, i))
  }

  // The sender's replies, until the server closes the connection or there are no more and it hangs up.
  method SendAll(s: FileServer, c: FileClientConn, t: OfflineTransferTask, replies: seq<Reply>, now: nat)
    returns (taken: seq<seq<Octet>>)
    requires s.Valid() && c in s.conns && s.Fits(c) && c.task == t && c.user == t.fromUser && t.state == WaitingUpload
    requires now < 0x1_0000_0000_0000_0000 && forall r <- replies :: Sized(t.fileSize, r)
    modifies s`tasks, s`conns, c`auth, c`task, t, t.disk
    ensures s.Valid() && t.Valid() && s.conns == old(s.conns) - {c}
    ensures s.tasks == if taken == [] then old(s.tasks) else old(s.tasks) - {t.taskId}
    ensures t.body == Concat(taken) && FromSender(t.fromUser, t.fileSize, replies, taken)
    ensures taken == [] ==> t.state == WaitingUpload
    ensures Loadable(t.disk.content) <==> Complete(t, taken)
    ensures InOrder(t.fromUser, replies) && t.fileSize > 0 && |replies| >= t.segments ==> Complete(t, taken)
  {
    hide FileServer.Valid, OfflineTransferTask.Valid, FileServer.AllFit, Sized, BlockSize, Concat, First;
    taken := [];
    var rv, k := 0, 0;
    s.Table(c);
    Starts(t);
    ConcatEmpty();
    while k < |replies| && rv == 0
      invariant k <= |replies| && s.Valid() && t.Valid() && t.body == Concat(taken)
                  && FromSender(t.fromUser, t.fileSize, replies, taken)
      invariant |taken| == t.transfered && (rv == 0 || rv == 1 ==> |taken| == k)
      invariant rv == 0 || rv == 1 || rv == -1
      invariant rv == 0 ==> s.conns == old(s.conns) && s.tasks == old(s.tasks) && c.task == t
      invariant rv == 0 ==> t.state == (if taken == [] then WaitingUpload else Uploading)
      invariant rv == 1 ==> t.state == WaitingDownload && |taken| == t.segments && taken != []
      invariant rv == -1 ==> t.state == (if taken == [] then WaitingUpload else Uploading)
      invariant rv != 0 ==> s.conns == old(s.conns) - {c}
      invariant rv != 0 ==> s.tasks == if taken == [] then old(s.tasks) else old(s.tasks) - {t.taskId}
      invariant InOrder(t.fromUser, replies) ==> rv != -1
    {
      var r := replies[k];
      rv := s.HandlePullRsp(c, t.taskId, now, r);
      if rv != -1 {
        ConcatSnoc(taken, First(r.data, BlockSize(t.fileSize, |taken|)));
        taken := taken + [First(r.data, BlockSize(t.fileSize, |taken|))];
      }
      k := k + 1;
    }
    if rv == 0 {
      s.Close(c);
    }
    t.LoadableIffUploaded();
    Progressed(t);
  }

  lemma Starts(t: OfflineTransferTask)
    requires t.Valid() && t.state == WaitingUpload
    ensures t.transfered == 0 && t.body == []
  {
  }

  // An upload that goes on has not reached the last segment.
  lemma Progressed(t: OfflineTransferTask)
    requires t.Valid()
    ensures t.state.Uploading? && t.fileSize > 0 ==> t.transfered < t.segments
    ensures t.state.WaitingUpload? ==> t.transfered == 0 && (t.fileSize > 0 ==> 0 < t.segments)
    ensures t.fileSize == 0 ==> t.segments == 0
  {
  }

  // The segments of a file, one after the other, up to n of them.
  predicate Pieces(file: seq<Octet>, got: seq<seq<Octet>>) {
    && Concat(got) <= file && (|got| * SEGMENT_SIZE <= |file| ==> Concat(got) == file[..|got| * SEGMENT_SIZE])
    && (|got| * SEGMENT_SIZE > |file| ==> Concat(got) == file)
  }

  lemma OnePiece(file: seq<Octet>, got: seq<seq<Octet>>, data: seq<Octet>)
    requires Pieces(file, got) && |got| * SEGMENT_SIZE < |file|
    requires data == Segment(file, |file|, |got| * SEGMENT_SIZE)
    ensures Pieces(file, got + [data])
    ensures Concat(got + [data]) == file <==> (|got| + 1) * SEGMENT_SIZE >= |file|
    ensures |got| * SEGMENT_SIZE + |data| == |file| <==> (|got| + 1) * SEGMENT_SIZE >= |file|
  {
    hide Concat;
    ConcatSnoc(got, data);
    NextSegment(file, |got|);
  }

  lemma NextSegment(file: seq<Octet>, k: nat)
    requires k * SEGMENT_SIZE < |file|
    ensures var data := Segment(file, |file|, k * SEGMENT_SIZE);
            && (k * SEGMENT_SIZE + |data| == |file| <==> (k + 1) * SEGMENT_SIZE >= |file|)
            && file[..k * SEGMENT_SIZE] + data
               == if (k + 1) * SEGMENT_SIZE <= |file| then file[..(k + 1) * SEGMENT_SIZE] else file
  {
  }

  // The receiver's requests, until the server closes the connection or there are no more and it hangs up.
  method FetchAll(s: FileServer, c: FileClientConn, t: OfflineTransferTask, pulls: seq<Pull>)
    returns (got: seq<seq<Octet>>)
    requires s.Valid() && c in s.conns && s.Fits(c) && c.task == t && c.user == t.toUser
    requires t.state == WaitingUpload || t.state == WaitingDownload
    modifies s`tasks, s`conns, c`auth, c`task, t
    ensures s.Valid() && s.conns == old(s.conns) - {c}
    ensures Concat(got) <= old(t.body) && (old(t.state) == WaitingUpload ==> got == [])
    ensures old(t.state) == WaitingDownload && AllPulled(pulls) && |pulls| * SEGMENT_SIZE >= t.fileSize ==>
              Concat(got) == old(t.body)
  {
    hide FileServer.Valid, OfflineTransferTask.Valid, FileServer.AllFit, Segment, Concat, Pieces;
    got := [];
    var rv, k := 0, 0;
    s.Table(c);
    NoPieces(t.body);
    ghost var whole := t.state == WaitingDownload;
    if whole { FullBody(t); }
    while k < |pulls| && rv == 0
      invariant k <= |pulls| && s.Valid() && t.Valid() && t.body == old(t.body) && Pieces(t.body, got)
      invariant rv == 0 || rv == 1 || rv == -1
      invariant rv == 0 ==> s.conns == old(s.conns) && c in s.conns && s.Fits(c) && c.task == t
      invariant rv == 0 ==> |got| == k && (got == [] ==> t.state == old(t.state))
      invariant rv == 0 && got != [] ==> t.state == Downloading && t.transfered == k && k * SEGMENT_SIZE < t.fileSize
      invariant rv == 1 ==> Concat(got) == t.body
      invariant rv != 0 ==> s.conns == old(s.conns) - {c}
      invariant !whole ==> got == []
      invariant whole && AllPulled(pulls) && rv == -1 ==> t.fileSize == 0
    {
      var rv', data := s.HandlePullReq(c, t.toUser, t.taskId, pulls[k]);
      rv := rv';
      if rv != -1 {
        OnePiece(t.body, got, data);
        got := got + [data];
      }
      k := k + 1;
    }
    if rv == 0 {
      s.Close(c);
    }
    PiecesEnd(t.body, got);
  }

  lemma NoPieces(file: seq<Octet>)
    ensures Pieces(file, [])
  {
  }

  lemma PiecesEnd(file: seq<Octet>, got: seq<seq<Octet>>)
    requires Pieces(file, got)
    ensures Concat(got) <= file && (|got| * SEGMENT_SIZE >= |file| ==> Concat(got) == file)
  {
  }

  lemma FullBody(t: OfflineTransferTask)
    requires t.Valid() && t.state == WaitingDownload
    ensures |t.body| == t.fileSize
  {
  }

  // The sender answers every request with the bytes of a file.
  predicate OfFile(file: seq<Octet>, fromUser: Word32, replies: seq<Reply>) {
    |replies| * SEGMENT_SIZE >= |file|
    && forall i :: 0 <= i < |replies| ==>
         && replies[i].user == fromUser && replies[i].offset == i * SEGMENT_SIZE && replies[i].opens
         && (i * SEGMENT_SIZE < |file| ==> replies[i].data == Segment(file, |file|, i * SEGMENT_SIZE))
  }

  lemma {:induction false} TakenOfFile(user: Word32, file: seq<Octet>, replies: seq<Reply>, taken: seq<seq<Octet>>)
    requires 0 < |file| < TWO_31 && OfFile(file, user, replies) && FromSender(user, |file|, replies, taken)
    requires |taken| <= Segments(|file|)
    ensures Pieces(file, taken)
    decreases |taken|
  {
    hide Segment, Concat, Pieces, Segments, BlockSize;
    if taken == [] {
      NoPieces(file);
    } else {
      var n := |taken| - 1;
      TakenOfFile(user, file, replies, taken[..n]);
      Tiling(|file|, n);
      OneSegment(file, n);
      OnePiece(file, taken[..n], taken[n]);
      assert taken == taken[..n] + [taken[n]];
    }
  }

  lemma OneSegment(file: seq<Octet>, i: nat)
    requires 0 < |file| < TWO_31 && i < Segments(|file|)
    ensures i * SEGMENT_SIZE < |file| && |Segment(file, |file|, i * SEGMENT_SIZE)| == BlockSize(|file|, i)
    ensures First(Segment(file, |file|, i * SEGMENT_SIZE), BlockSize(|file|, i))
              == Segment(file, |file|, i * SEGMENT_SIZE)
  {
    Tiling(|file|, i);
  }

  // A task is made, its sender logs in, is read and leaves.
  method Uploaded(s: FileServer, id: seq<Octet>, fromUser: Word32, toUser: Word32, fileSize: Word32,
      replies: seq<Reply>, now: nat)
    returns (t: OfflineTransferTask, taken: seq<seq<Octet>>)
    requires s.Valid() && id !in s.files && IsText(id) && |id| < 128 && fileSize < TWO_31
    requires now < 0x1_0000_0000_0000_0000 && forall r <- replies :: Sized(fileSize, r)
    modifies s
    ensures s.Valid() && s.conns == old(s.conns) && fresh(t) && t.Valid() && t.body == Concat(taken)
    ensures t.fileSize == fileSize && t.toUser == toUser && s.files == old(s.files)[id := t.disk]
    ensures if taken == [] then id in s.tasks && s.tasks[id] == t && t.state == WaitingUpload else id !in s.tasks
    ensures Loadable(t.disk.content) <==> t.fileSize > 0 && |taken| == Segments(fileSize)
    ensures FromSender(fromUser, fileSize, replies, taken)
    ensures InOrder(fromUser, replies) && fileSize > 0 && |replies| >= Segments(fileSize) ==>
              |taken| == Segments(fileSize)
  {
    hide FileServer.Valid, OfflineTransferTask.Valid, FileServer.AllFit, Sized, BlockSize, Concat, First, FromSender;
    t := s.NewTask(id, fromUser, toUser, fileSize);
    var sender := s.OnConnect();
    var ok := s.Login(sender, fromUser, id, OfflineUpload);
    taken := SendAll(s, sender, t, replies, now);
    UploadedWhole(t);
  }

  // Then the receiver logs in, reads and leaves. Whatever either sends, the receiver gets the first bytes
  // of what was taken from the sender, and none unless all of it was.
  method ThereAndBack(s: FileServer, id: seq<Octet>, fromUser: Word32, toUser: Word32, fileSize: Word32,
      replies: seq<Reply>, now: nat, pulls: seq<Pull>)
    returns (taken: seq<seq<Octet>>, got: seq<seq<Octet>>)
    requires s.Valid() && id !in s.files && IsText(id) && |id| < 128 && fileSize < TWO_31
    requires now < 0x1_0000_0000_0000_0000 && forall r <- replies :: Sized(fileSize, r)
    modifies s
    ensures s.Valid() && s.conns == old(s.conns) && FromSender(fromUser, fileSize, replies, taken)
    ensures Concat(got) <= Concat(taken) && (got != [] ==> |Concat(taken)| == fileSize)
    ensures |Concat(taken)| == fileSize > 0 && AllPulled(pulls) && |pulls| * SEGMENT_SIZE >= fileSize ==>
              Concat(got) == Concat(taken)
    ensures InOrder(fromUser, replies) && fileSize > 0 && |replies| >= Segments(fileSize) ==>
              |taken| == Segments(fileSize) && |Concat(taken)| == fileSize
  {
    hide FileServer.Valid, OfflineTransferTask.Valid, FileServer.AllFit, Sized, BlockSize, Concat, First, FromSender;
    var t;
    t, taken := Uploaded(s, id, fromUser, toUser, fileSize, replies, now);
    UploadedWhole(t);
    got := [];
    ConcatEmpty();
    var receiver := s.OnConnect();
    var ok := s.Login(receiver, toUser, id, OfflineDownload);
    if ok {
      got := FetchAll(s, receiver, receiver.task, pulls);
    }
  }

  // Clients that do their part get any file across.
  method FileCrosses(s: FileServer, id: seq<Octet>, fromUser: Word32, toUser: Word32, file: seq<Octet>,
      replies: seq<Reply>, now: nat, pulls: seq<Pull>)
    returns (got: seq<seq<Octet>>)
    requires s.Valid() && id !in s.files && IsText(id) && |id| < 128 && 0 < |file| < TWO_31
    requires now < 0x1_0000_0000_0000_0000
    requires OfFile(file, fromUser, replies) && AllPulled(pulls) && |pulls| * SEGMENT_SIZE >= |file|
    modifies s
    ensures s.Valid() && Concat(got) == file
  {
    hide FileServer.Valid, BlockSize, Segments, Concat, First, FromSender, Sized;
    OfFileIsSized(file, fromUser, replies);
    var taken;
    taken, got := ThereAndBack(s, id, fromUser, toUser, |file|, replies, now, pulls);
    TakenOfFile(fromUser, file, replies, taken);
    PiecesEnd(file, taken);
  }

  lemma Ceiling(n: nat)
    requires 0 < n < TWO_31
    ensures 0 < Segments(n) == (n + SEGMENT_SIZE - 1) / SEGMENT_SIZE
  {
  }

  lemma OfFileIsSized(file: seq<Octet>, user: Word32, replies: seq<Reply>)
    requires 0 < |file| < TWO_31 && OfFile(file, user, replies)
    ensures (forall r <- replies :: Sized(|file|, r)) && InOrder(user, replies) && |replies| >= Segments(|file|)
  {
    hide Segments, BlockSize, Segment, First;
    Ceiling(|file|);
    forall i: nat | i < |replies| ensures Sized(|file|, replies[i]) {
      if i * SEGMENT_SIZE < |file| {
        OneSegment(file, i);
      }
    }
  }

  // The file on disk is the whole of what was taken, if it can be loaded.
  lemma UploadedWhole(t: OfflineTransferTask)
    requires t.Valid()
    ensures t.segments == Segments(t.fileSize)
    ensures |t.body| == t.fileSize > 0 ==> Loadable(t.disk.content)
    ensures Loadable(t.disk.content) ==>
              && t.disk.content.value[HEADER_SIZE..] == t.body && |t.body| == t.fileSize
              && FileSizeOf(t.disk.content.value) == t.fileSize && ToUserOf(t.disk.content.value) == t.toUser
  {
    t.LoadableIffUploaded();
    if t.state.Uploading? && t.fileSize > 0 {
      Tiling(t.fileSize, t.transfered - 1);
    }
  }
}
