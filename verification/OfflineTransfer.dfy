/** OfflineTransferTask: upload in segments to a file, reload it, download it again. */
module OfflineTransfer {
  import opened Wrappers
  import opened Octets
  import opened TransferHeader

  const SEGMENT_SIZE: nat := 32768

  // The states an offline task can be in; their order is that of the source's numbers.
  datatype State = Ready | WaitingUpload | Uploading | UploadEnd | WaitingDownload | Downloading

  function Number(s: State): nat {
    match s case Ready => 1 case WaitingUpload => 7 case Uploading => 8
    case UploadEnd => 9 case WaitingDownload => 10 case Downloading => 11
  }

  datatype Role = RealtimeSender | RealtimeReceiver | OfflineUpload | OfflineDownload

  // SetMaxSegmentSize
  function Segments(fileSize: nat): nat {
    if fileSize % SEGMENT_SIZE != 0 then fileSize / SEGMENT_SIZE + 1 else fileSize / SEGMENT_SIZE
  }

  // GetNextSegmentBlockSize
  function BlockSize(fileSize: nat, idx: nat): int {
    if idx + 1 == Segments(fileSize) then fileSize - idx * SEGMENT_SIZE else SEGMENT_SIZE
  }

  // The segments are non-empty and tile the file; there are as many as the rounded-up quotient.
  lemma Tiling(fileSize: nat, idx: nat)
    requires 0 < fileSize < TWO_31 && idx < Segments(fileSize)
    ensures Segments(fileSize) == (fileSize + SEGMENT_SIZE - 1) / SEGMENT_SIZE
    ensures 0 < BlockSize(fileSize, idx) <= SEGMENT_SIZE
    ensures idx * SEGMENT_SIZE + BlockSize(fileSize, idx) <= fileSize < TWO_31
    ensures idx * SEGMENT_SIZE + BlockSize(fileSize, idx) == fileSize <==> idx + 1 == Segments(fileSize)
    ensures idx + 1 < Segments(fileSize) ==> BlockSize(fileSize, idx) == SEGMENT_SIZE
  {
  }

  // An empty file has no last segment, and is asked for whole ones.
  lemma EmptyHasNoEnd(idx: nat)
    ensures Segments(0) == 0 && BlockSize(0, idx) == SEGMENT_SIZE
  {
  }

  // The one file of a task; the path is made of the task id.
  class DiskFile {
    var content: Option<seq<Octet>>

    constructor ()
      ensures content == None
    {
      content := None;
    }
  }

  // fp_: closed, appending, or reading from a position
  datatype Stream = Closed | Appending | Reading(pos: nat)

  class OfflineTransferTask {
    const taskId: seq<Octet>
    const fromUser: Word32
    const toUser: Word32
    const fileSize: Word32
    const segments: nat
    const disk: DiskFile
    var state: State
    var fp: Stream
    var transfered: nat        // transfered_idx_
    ghost var body: seq<Octet> // the bytes accepted so far, or found on disk

    // The file holds a header of this task and the bytes accepted.
    ghost predicate OnDisk()
      reads this, disk
    {
      && disk.content.Some? && |disk.content.value| == HEADER_SIZE + |body|
      && disk.content.value[HEADER_SIZE..] == body
      && TaskIdOf(disk.content.value) == taskId && FileSizeOf(disk.content.value) == fileSize
      && FromUserOf(disk.content.value) == fromUser && ToUserOf(disk.content.value) == toUser
    }

    ghost predicate Valid()
      reads this, disk
    {
      && fileSize < TWO_31 && segments == Segments(fileSize)
      && IsText(taskId) && |taskId| < 128
      && match state
         case Ready | WaitingUpload =>
           transfered == 0 && fp == Closed && body == [] && (disk.content == None || disk.content == Some([]))
         case Uploading =>
           && 0 < transfered && (fileSize > 0 ==> transfered < segments) && fp == Appending
           && OnDisk() && |body| == transfered * SEGMENT_SIZE
         case UploadEnd => fileSize > 0 && fp == Closed && OnDisk() && |body| == fileSize
         case WaitingDownload => OnDisk() && |body| == fileSize
         case Downloading =>
           && (transfered < segments || fileSize == transfered == 0)
           && fp == Reading(HEADER_SIZE + transfered * SEGMENT_SIZE)
           && OnDisk() && |body| == fileSize
    }

    // A task that a client has asked for; its id is new, so there is no file yet.
    constructor (taskId: seq<Octet>, fromUser: Word32, toUser: Word32, fileSize: Word32, disk: DiskFile)
      requires fileSize < TWO_31 && IsText(taskId) && |taskId| < 128 && disk.content == None
      ensures Valid() && state == Ready && this.disk == disk && body == [] && this.taskId == taskId
      ensures this.fromUser == fromUser && this.toUser == toUser && this.fileSize == fileSize
    {
      this.taskId, this.fromUser, this.toUser, this.fileSize := taskId, fromUser, toUser, fileSize;
      this.segments := Segments(fileSize);
      this.disk := disk;
      state, fp, transfered, body := Ready, Closed, 0, [];
    }

    // A task that LoadFromDisk has read.
    constructor Loaded(disk: DiskFile, b: seq<Octet>)
      requires disk.content == Some(b) && |b| >= HEADER_SIZE && |b| - HEADER_SIZE == FileSizeOf(b)
      ensures taskId == TaskIdOf(b) && fromUser == FromUserOf(b) && toUser == ToUserOf(b) && fileSize == FileSizeOf(b)
      ensures state == WaitingDownload && this.disk == disk && body == b[HEADER_SIZE..] && transfered == 0
      ensures FileSizeOf(b) < TWO_31 && IsText(TaskIdOf(b)) && |TaskIdOf(b)| < 128 ==> Valid()
    {
      this.taskId, this.fromUser, this.toUser := TaskIdOf(b), FromUserOf(b), ToUserOf(b);
      this.fileSize := FileSizeOf(b);
      this.segments := Segments(FileSizeOf(b));
      this.disk := disk;
      state, fp, transfered, body := WaitingDownload, Closed, 0, b[HEADER_SIZE..];
    }

    predicate Checked(user: Word32, role: Role) {
      (role.OfflineUpload? && user == fromUser) || (role.OfflineDownload? && user == toUser)
    }

    // The check decides the answer: a wrong state leaves the task as it is and still answers true.
    method ChangePullState(user: Word32, role: Role) returns (rv: bool)
      requires Valid()
      modifies this`state
      ensures Valid() && rv == Checked(user, role)
      ensures state == if Checked(user, role) && old(state).Ready? && role.OfflineUpload? then WaitingUpload
                       else if Checked(user, role) && role.OfflineDownload?
                               && (old(state).UploadEnd? || old(state).WaitingDownload?) then WaitingDownload
                       else old(state)
    {
      rv := Checked(user, role);
      if !rv || !(state.Ready? || state.UploadEnd? || state.WaitingDownload?) {
        return;
      }
      if state.Ready? {
        if role.OfflineUpload? {
          state := WaitingUpload;
        }
      } else if role.OfflineDownload? {
        state := WaitingDownload;
      }
    }

    // Whether DoRecvData takes a segment: the sender, in order, while uploading; opens tells whether
    // the file can be opened when that is still to be done.
    predicate Takes(user: Word32, offset: Word32, opens: bool)
      reads this
    {
      && user == fromUser && (state.WaitingUpload? || state.Uploading?) && offset == transfered * SEGMENT_SIZE
      && (state.WaitingUpload? ==> opens)
    }

    // fwrite, in append mode
    method Append(b: seq<Octet>)
      modifies disk
      ensures disk.content == Some((if old(disk.content).Some? then old(disk.content).value else []) + b)
    {
      disk.content := Some((match disk.content case Some(c) => c case None => []) + b);
    }

    method WriteHeader(now: nat)
      requires IsText(taskId) && |taskId| < 128 && body == [] && (disk.content == None || disk.content == Some([]))
      requires now < 0x1_0000_0000_0000_0000
      modifies disk
      ensures OnDisk()
    {
      var h := Header(taskId, fromUser, toUser, now, fileSize);
      var b := Encode(h);
      HeaderRoundTrip(h, []);
      assert b + [] == b;
      Append(b);
      assert [] + b == b;
    }

    // data is the memory at the reply's bytes, which holds at least the segment that was asked for: the
    // number of bytes written is the segment's, however long the reply was. 1 on the last segment, 0
    // before, -1 if it was not taken.
    method DoRecvData(user: Word32, offset: Word32, data: seq<Octet>, now: nat, opens: bool) returns (rv: int)
      requires Valid() && now < 0x1_0000_0000_0000_0000
      requires Takes(user, offset, opens) ==> |data| >= BlockSize(fileSize, transfered)
      modifies this, disk
      ensures Valid()
      ensures !old(Takes(user, offset, opens)) ==>
                rv == -1 && state == old(state) && transfered == old(transfered) && body == old(body)
                    && disk.content == old(disk.content)
      ensures old(Takes(user, offset, opens)) ==>
                && transfered == old(transfered) + 1
                && body == old(body) + data[..BlockSize(fileSize, old(transfered))] && OnDisk()
                && rv == (if transfered == segments then 1 else 0)
                && state == (if transfered == segments then UploadEnd else Uploading)
    {
      hide Encode, TaskIdOf, FromUserOf, ToUserOf, FileSizeOf, Segments;
      rv := -1;
      if user != fromUser || !(state.WaitingUpload? || state.Uploading?) || offset != transfered * SEGMENT_SIZE {
        return;
      }
      SegmentsPositive();
      if fileSize > 0 {
        Tiling(fileSize, transfered);
      } else {
        EmptyHasNoEnd(transfered);
      }
      var size := BlockSize(fileSize, transfered);
      if state.WaitingUpload? {
        if !opens {
          return;
        }
        fp := Appending;
        WriteHeader(now);
        state := Uploading;
      }
      StoreBlock(data[..size]);
      transfered := transfered + 1;
      if transfered == segments {
        state := UploadEnd;
        fp := Closed;
        rv := 1;
      } else {
        rv := 0;
      }
    }

    lemma SegmentsPositive()
      requires Valid()
      ensures if fileSize > 0 then segments > 0 else segments == 0
    {
    }

    method StoreBlock(block: seq<Octet>)
      requires OnDisk()
      modifies this`body, disk
      ensures OnDisk() && body == old(body) + block
    {
      HeaderStays(disk.content.value, block);
      Append(block);
      body := body + block;
    }

    // fread: what is left of the file, at most n bytes
    method ReadOn(n: nat) returns (b: seq<Octet>)
      requires fp.Reading? && disk.content.Some? && fp.pos <= |disk.content.value|
      modifies this`fp
      ensures b <= disk.content.value[old(fp.pos)..] && fp == Reading(old(fp.pos) + |b|)
      ensures |b| == if old(fp.pos) + n <= |disk.content.value| then n else |disk.content.value| - old(fp.pos)
    {
      var end := if fp.pos + n <= |disk.content.value| then fp.pos + n else |disk.content.value|;
      b := disk.content.value[fp.pos..end];
      fp := Reading(end);
    }

    // OpenByRead and the reading of the header; fails only if the file cannot be opened.
    method Reopen(opens: bool) returns (ok: bool)
      requires Valid() && state.WaitingDownload?
      modifies this`state, this`fp, this`transfered
      ensures Valid() && transfered == 0 && ok == opens
      ensures state == if opens then Downloading else WaitingDownload
    {
      hide Segments, TaskIdOf, FromUserOf, ToUserOf, FileSizeOf;
      SegmentsPositive();
      transfered := 0;
      fp := Closed;
      ok := opens;
      if opens {
        fp := Reading(0);
        var header := ReadOn(HEADER_SIZE);
        if |header| != HEADER_SIZE {
          assert false; // every file that a task downloads has a header
        }
        state := Downloading;
      }
    }

    // Whether DoPullFileRequest answers with data.
    predicate Serves(offset: Word32, opens: bool)
      reads this
    {
      && fileSize > 0
      && (|| (state.Downloading? && offset == transfered * SEGMENT_SIZE)
          || (state.WaitingDownload? && opens && offset == 0))
    }

    // The segment that a pull is answered with.
    ghost function Next(): (i: nat)
      reads this
    {
      if state.Downloading? then transfered else 0
    }

    // 1 with the last segment, 0 with an earlier one, -1 and no data if the request is not served.
    method DoPullFileRequest(offset: Word32, opens: bool) returns (rv: int, data: seq<Octet>)
      requires Valid()
      modifies this`state, this`fp, this`transfered
      ensures Valid()
      ensures !old(Serves(offset, opens)) ==>
                rv == -1 && data == [] && (transfered == old(transfered) || transfered == 0)
      ensures !old(Serves(offset, opens)) ==>
                state == old(state) || (old(state).WaitingDownload? && state.Downloading? && transfered == 0)
      ensures !old(Serves(offset, opens)) && old(state).Downloading? ==> transfered == old(transfered)
      ensures old(Serves(offset, opens)) ==>
                && transfered == old(Next()) + 1 <= segments
                && 0 < BlockSize(fileSize, old(Next())) && offset + BlockSize(fileSize, old(Next())) <= |body|
                && data == body[offset..offset + BlockSize(fileSize, old(Next()))]
                && rv == (if transfered == segments then 1 else 0)
                && state == (if transfered == segments then UploadEnd else Downloading)
    {
      hide Segments, TaskIdOf, FromUserOf, ToUserOf, FileSizeOf, BlockSize;
      rv, data := -1, [];
      if !state.WaitingDownload? && !state.Downloading? {
        return;
      }
      if state.WaitingDownload? {
        var ok := Reopen(opens);
        if !ok {
          return;
        }
      }
      if offset != transfered * SEGMENT_SIZE {
        return;
      }
      if fileSize > 0 {
        Tiling(fileSize, transfered);
      } else {
        EmptyHasNoEnd(transfered);
      }
      var size := BlockSize(fileSize, transfered);
      var block := ReadOn(size);
      if |block| != size {
        return;
      }
      BodyAt(disk.content.value, offset, size);
      data := block;
      transfered := transfered + 1;
      if transfered == segments {
        state := UploadEnd;
        fp := Closed;
        rv := 1;
      } else {
        rv := 0;
      }
    }

    // FileClientConn::Close and DeleteTransferTaskByConnClose: true if the task is deleted.
    method ConnClosed() returns (deleted: bool)
      requires Valid()
      modifies this`state, this`fp
      ensures Valid() && deleted == !state.WaitingUpload?
      ensures state == if Number(old(state)) >= Number(UploadEnd) then WaitingDownload else old(state)
    {
      if Number(state) >= Number(UploadEnd) {
        state := WaitingDownload;
      }
      deleted := !state.WaitingUpload?;
    }

    // LoadFromDisk for a task's file accepts it if and only if the upload was finished.
    lemma LoadableIffUploaded()
      requires Valid()
      ensures Loadable(disk.content) <==> !state.Ready? && !state.WaitingUpload? && !state.Uploading?
    {
      if state.Uploading? && fileSize > 0 {
        Tiling(fileSize, transfered - 1);
      }
    }
  }

  lemma HeaderStays(b: seq<Octet>, more: seq<Octet>)
    requires |b| >= HEADER_SIZE
    ensures TaskIdOf(b + more) == TaskIdOf(b) && FromUserOf(b + more) == FromUserOf(b)
    ensures ToUserOf(b + more) == ToUserOf(b) && FileSizeOf(b + more) == FileSizeOf(b)
  {
    assert (b + more)[..128] == b[..128] && (b + more)[128..192] == b[128..192];
    assert (b + more)[192..256] == b[192..256] && (b + more)[896..960] == b[896..960];
  }

  lemma BodyAt(b: seq<Octet>, at: nat, n: nat)
    requires HEADER_SIZE + at + n <= |b|
    ensures b[HEADER_SIZE + at..][..n] == b[HEADER_SIZE..][at..at + n]
  {
  }

  // The tests of LoadFromDisk.
  predicate Loadable(content: Option<seq<Octet>>) {
    content.Some? && |content.value| >= HEADER_SIZE && |content.value| - HEADER_SIZE == FileSizeOf(content.value)
  }

  method LoadFromDisk(disk: DiskFile) returns (t: OfflineTransferTask?)
    ensures t != null <==> Loadable(disk.content)
    ensures t != null ==> var b := disk.content.value;
              && fresh(t) && t.disk == disk && t.state == WaitingDownload && t.body == b[HEADER_SIZE..]
              && t.transfered == 0
              && t.taskId == TaskIdOf(b) && t.fromUser == FromUserOf(b) && t.toUser == ToUserOf(b)
              && t.fileSize == FileSizeOf(b)
              && (FileSizeOf(b) < TWO_31 && IsText(TaskIdOf(b)) && |TaskIdOf(b)| < 128 ==> t.Valid())
  {
    t := null;
    if disk.content.None? || |disk.content.value| < HEADER_SIZE {
      return;
    }
    var b := disk.content.value;
    if |b| - HEADER_SIZE == FileSizeOf(b) {
      t := new OfflineTransferTask.Loaded(disk, b);
    }
  }

  // What comes from the network for a task: a segment from some user at some offset, or a request for
  // one; opens is the answer of the file system, should it be asked.
  datatype Reply = Reply(user: Word32, offset: Word32, data: seq<Octet>, opens: bool)
  datatype Pull = Pull(offset: Word32, opens: bool)

  // A reply to the request for a segment of this file has that segment's size.
  predicate Sized(fileSize: Word32, r: Reply) {
    r.offset % SEGMENT_SIZE == 0 && (r.offset < fileSize || fileSize == 0) ==>
        |r.data| >= BlockSize(fileSize, r.offset / SEGMENT_SIZE)
  }

  predicate InOrder(fromUser: Word32, replies: seq<Reply>) {
    forall i :: 0 <= i < |replies| ==>
      replies[i].user == fromUser && replies[i].offset == i * SEGMENT_SIZE && replies[i].opens
  }

  predicate AllPulled(pulls: seq<Pull>) {
    forall i :: 0 <= i < |pulls| ==> pulls[i].offset == i * SEGMENT_SIZE && pulls[i].opens
  }

  function Concat(blocks: seq<seq<Octet>>): (r: seq<Octet>) {
    if blocks == [] then [] else Concat(blocks[..|blocks| - 1]) + blocks[|blocks| - 1]
  }

  lemma ConcatEmpty()
    ensures Concat([]) == []
  {
  }

  lemma ConcatSnoc(blocks: seq<seq<Octet>>, b: seq<Octet>)
    ensures Concat(blocks + [b]) == Concat(blocks) + b
  {
    assert (blocks + [b])[..|blocks|] == blocks;
  }

  // One more segment of the file.
  lemma NextBlock(file: seq<Octet>, fileSize: nat, at: nat, got: seq<seq<Octet>>)
    requires |file| == fileSize && 0 < fileSize < TWO_31 && at < Segments(fileSize)
    requires at * SEGMENT_SIZE <= |file| && Concat(got) == file[..at * SEGMENT_SIZE]
    ensures at * SEGMENT_SIZE + BlockSize(fileSize, at) <= |file| && 0 < BlockSize(fileSize, at)
    ensures var block := file[at * SEGMENT_SIZE..at * SEGMENT_SIZE + BlockSize(fileSize, at)];
            && (at + 1 == Segments(fileSize) ==> Concat(got + [block]) == file)
            && (at + 1 < Segments(fileSize) ==>
                  (at + 1) * SEGMENT_SIZE <= |file| && Concat(got + [block]) == file[..(at + 1) * SEGMENT_SIZE])
  {
    hide Concat, Segments, BlockSize;
    Tiling(fileSize, at);
    ConcatSnoc(got, file[at * SEGMENT_SIZE..at * SEGMENT_SIZE + BlockSize(fileSize, at)]);
  }

  // All segments of a file that has any.
  predicate Complete(t: OfflineTransferTask, blocks: seq<seq<Octet>>) { t.fileSize > 0 && |blocks| == t.segments }

  lemma SizedTaken(t: OfflineTransferTask, r: Reply)
    requires t.Valid() && t.Takes(r.user, r.offset, r.opens) && Sized(t.fileSize, r)
    ensures |r.data| >= BlockSize(t.fileSize, t.transfered) && (t.fileSize > 0 ==> t.transfered < t.segments)
  {
    t.SegmentsPositive();
    if t.fileSize > 0 {
      Tiling(t.fileSize, t.transfered);
    }
    assert r.offset / SEGMENT_SIZE == t.transfered && r.offset % SEGMENT_SIZE == 0;
  }

  // The segments taken are bytes of the replies src, which came in this order from the sender, each at
  // the offset of its segment.
  ghost predicate Stored(fromUser: Word32, replies: seq<Reply>, taken: seq<seq<Octet>>, src: seq<nat>) {
    && |src| == |taken|
    && (forall i, j :: 0 <= i < j < |src| ==> src[i] < src[j])
    && (forall i :: 0 <= i < |src| ==>
          && src[i] < |replies| && replies[src[i]].user == fromUser && replies[src[i]].offset == i * SEGMENT_SIZE
          && taken[i] <= replies[src[i]].data)
  }

  lemma NothingStored(fromUser: Word32)
    ensures Stored(fromUser, [], [], [])
  {
  }

  // One more reply has come; it was taken, or not.
  lemma StoredNext(fromUser: Word32, replies: seq<Reply>, k: nat, taken: seq<seq<Octet>>, src: seq<nat>, size: nat)
    requires k < |replies| && Stored(fromUser, replies[..k], taken, src)
    ensures Stored(fromUser, replies[..k + 1], taken, src)
    ensures replies[k].user == fromUser && replies[k].offset == |taken| * SEGMENT_SIZE && size <= |replies[k].data| ==>
              Stored(fromUser, replies[..k + 1], taken + [replies[k].data[..size]], src + [k])
  {
    assert forall i | 0 <= i < k :: replies[..k + 1][i] == replies[..k][i];
    assert replies[..k + 1][k] == replies[k];
  }

  // Whatever replies come, those taken are stored in their order, each in its place; 1 is the answer to
  // the last segment and to no other, and after it nothing more is taken. An empty file's upload goes on
  // for ever.
  method Upload(t: OfflineTransferTask, replies: seq<Reply>, now: nat)
    returns (taken: seq<seq<Octet>>, ones: nat, ghost src: seq<nat>)
    requires t.Valid() && t.state.WaitingUpload? && now < 0x1_0000_0000_0000_0000
    requires forall r | r in replies :: Sized(t.fileSize, r)
    modifies t, t.disk
    ensures t.Valid() && t.body == Concat(taken) && (t.fileSize > 0 ==> |taken| <= t.segments)
    ensures forall i :: 0 <= i < |taken| ==> |taken[i]| == BlockSize(t.fileSize, i)
    ensures Stored(t.fromUser, replies, taken, src)
    ensures ones == if Complete(t, taken) then 1 else 0
    ensures t.state == if taken == [] then WaitingUpload else if Complete(t, taken) then UploadEnd else Uploading
    ensures t.fileSize == 0 ==> ones == 0 && !t.state.UploadEnd?
    ensures t.fileSize == 0 ==> forall i :: 0 <= i < |taken| ==> |taken[i]| == SEGMENT_SIZE
    ensures InOrder(t.fromUser, replies) ==>
              |taken| == if t.fileSize == 0 || |replies| <= t.segments then |replies| else t.segments
    ensures InOrder(t.fromUser, replies) ==>
                forall i :: 0 <= i < |taken| ==> i < |replies| && taken[i] <= replies[i].data
  {
    hide OfflineTransferTask.OnDisk, Sized, Stored;
    hide Concat, Segments, BlockSize, TaskIdOf, FromUserOf, ToUserOf, FileSizeOf;
    taken, ones, src := [], 0, [];
    t.SegmentsPositive();
    ConcatEmpty();
    NothingStored(t.fromUser);
    assert replies[..0] == [];
    for k := 0 to |replies|
      invariant t.Valid() && t.body == Concat(taken) && |taken| == t.transfered
                  && (t.fileSize > 0 ==> |taken| <= t.segments)
      invariant forall i :: 0 <= i < |taken| ==> |taken[i]| == BlockSize(t.fileSize, i)
      invariant Stored(t.fromUser, replies[..k], taken, src)
      invariant ones == if Complete(t, taken) then 1 else 0
      invariant t.state == if taken == [] then WaitingUpload else if Complete(t, taken) then UploadEnd else Uploading
      invariant InOrder(t.fromUser, replies) ==> |taken| == if t.fileSize == 0 || k <= t.segments then k else t.segments
      invariant InOrder(t.fromUser, replies) ==>
                forall i :: 0 <= i < |taken| ==> i < |replies| && taken[i] <= replies[i].data
    {
      var r := replies[k];
      var takes := t.Takes(r.user, r.offset, r.opens);
      if takes {
        SizedTaken(t, r);
        BlockIsSome(t.fileSize, t.transfered);
        ConcatSnoc(taken, r.data[..BlockSize(t.fileSize, t.transfered)]);
      }
      var size := if takes then BlockSize(t.fileSize, t.transfered) else 0;
      StoredNext(t.fromUser, replies, k, taken, src, size);
      var rv := t.DoRecvData(r.user, r.offset, r.data, now, r.opens);
      if rv != -1 {
        taken := taken + [r.data[..size]];
        src := src + [k];
      }
      if rv == 1 {
        ones := ones + 1;
      }
    }
    assert replies[..|replies|] == replies;
    if t.fileSize == 0 {
      forall i | 0 <= i < |taken| ensures |taken[i]| == SEGMENT_SIZE {
        EmptyHasNoEnd(i);
      }
    }
  }

  lemma BlockIsSome(fileSize: nat, idx: nat)
    requires fileSize < TWO_31 && (fileSize > 0 ==> idx < Segments(fileSize))
    ensures 0 < BlockSize(fileSize, idx) <= SEGMENT_SIZE
  {
    if fileSize > 0 {
      Tiling(fileSize, idx);
    }
  }

  // The requests that are answered get the segments of the file from the start of it, whatever other
  // requests come between; 1 is the answer to the last segment and to no other.
  method Download(t: OfflineTransferTask, pulls: seq<Pull>) returns (got: seq<seq<Octet>>, ones: nat)
    requires t.Valid() && t.state.WaitingDownload?
    modifies t
    ensures t.Valid() && |got| <= t.segments && t.body == old(t.body)
    ensures ones == if Complete(t, got) then 1 else 0
    ensures t.state.UploadEnd? <==> Complete(t, got)
    ensures Concat(got) <= t.body && (|got| == t.segments ==> Concat(got) == t.body)
    ensures AllPulled(pulls) ==> |got| == if |pulls| <= t.segments then |pulls| else t.segments
  {
    hide Concat, Segments, BlockSize, TaskIdOf, FromUserOf, ToUserOf, FileSizeOf;
    got, ones := [], 0;
    ConcatEmpty();
    t.SegmentsPositive();
    for k := 0 to |pulls|
      invariant t.Valid() && t.body == old(t.body) && |got| <= t.segments
      invariant t.state.WaitingDownload? ==> got == []
      invariant t.state.WaitingDownload? || t.state.Downloading? || t.state.UploadEnd?
      invariant t.state.Downloading? ==>
                  t.transfered == |got| && |got| * SEGMENT_SIZE <= |t.body|
                      && Concat(got) == t.body[..|got| * SEGMENT_SIZE]
      invariant t.state.UploadEnd? <==> Complete(t, got)
      invariant t.state.UploadEnd? ==> Concat(got) == t.body
      invariant ones == if Complete(t, got) then 1 else 0
      invariant AllPulled(pulls) ==> |got| == if k <= t.segments then k else t.segments
    {
      var p := pulls[k];
      ghost var at := t.Next();
      if t.Serves(p.offset, p.opens) {
        NextBlock(t.body, t.fileSize, at, got);
      }
      var rv, data := t.DoPullFileRequest(p.offset, p.opens);
      if rv != -1 {
        got := got + [data];
      }
      if rv == 1 {
        ones := ones + 1;
      }
    }
  }

  // A fresh task is uploaded, its connection closes, the file is loaded again by the server and
  // downloaded: it loads exactly if all of it was uploaded, and then gives back the bytes of the
  // sender's replies, segment by segment.
  method ThereAndBack(t: OfflineTransferTask, replies: seq<Reply>, now: nat, pulls: seq<Pull>)
    returns (taken: seq<seq<Octet>>, loaded: bool, got: seq<seq<Octet>>, ghost src: seq<nat>)
    requires t.Valid() && t.state.Ready? && now < 0x1_0000_0000_0000_0000
    requires forall r | r in replies :: Sized(t.fileSize, r)
    modifies t, t.disk
    ensures t.fileSize > 0 ==> |taken| <= (t.fileSize + SEGMENT_SIZE - 1) / SEGMENT_SIZE
    ensures Stored(t.fromUser, replies, taken, src)
    ensures forall i :: 0 <= i < |taken| ==> |taken[i]| == BlockSize(t.fileSize, i)
    ensures loaded <==> t.fileSize > 0 && |taken| == (t.fileSize + SEGMENT_SIZE - 1) / SEGMENT_SIZE
    ensures loaded ==> |Concat(taken)| == t.fileSize && Concat(got) <= Concat(taken) && |got| <= |taken|
    ensures loaded && |got| == |taken| ==> Concat(got) == Concat(taken)
    ensures loaded && AllPulled(pulls) && |pulls| >= |taken| ==>
              Concat(got) == Concat(taken)
    ensures InOrder(t.fromUser, replies) ==>
              (loaded <==> t.fileSize > 0 && |replies| >= (t.fileSize + SEGMENT_SIZE - 1) / SEGMENT_SIZE)
  {
    hide Stored, Concat, Segments, BlockSize, TaskIdOf, FromUserOf, ToUserOf, FileSizeOf;
    t.SegmentsPositive();
    if t.fileSize > 0 {
      Tiling(t.fileSize, 0);
    }
    got := [];
    var ok := t.ChangePullState(t.fromUser, OfflineUpload);
    var ones: nat;
    taken, ones, src := Upload(t, replies, now);
    var deleted := t.ConnClosed();
    t.LoadableIffUploaded();
    var u := LoadFromDisk(t.disk);
    loaded := u != null;
    if u != null {
      assert u.Valid();
      ok := u.ChangePullState(u.toUser, OfflineDownload);
      got, ones := Download(u, pulls);
    }
  }
}
