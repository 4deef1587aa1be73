// What single events do to the host, field by field: how transfers end other than by their last
// ACK, which confirmation answers which command, and what requests are refused with.

module HostOutcomes {
  import opened Bytes
  import opened HostModel
  import opened HostRuns
  import opened Transfers
  import FolderUpload

  /** No transfer is active and no timer is armed. */
  predicate AllStopped(h: Host) {
    && AllIdle(h)
    && !h.file.timerArmed && !h.fw.timerArmed && !h.esp.timerArmed
  }

  predicate AllIdle(h: Host) {
    h.file.phase == Idle && h.fw.phase == Idle && h.esp.phase == Idle
  }

  predicate QueuesEmpty(h: Host) {
    h.queue == [] && h.queueIndex == -1 && h.dirs == [] && h.dirIndex == -1
  }

  predicate SameQueues(h: Host, h': Host) {
    h'.queue == h.queue && h'.queueIndex == h.queueIndex && h'.dirs == h.dirs && h'.dirIndex == h.dirIndex
  }

  /** The bank operations, the pending command and the rest are as they were. */
  predicate SameRest(h: Host, h': Host) {
    && h'.erasePending == h.erasePending && h'.swapPending == h.swapPending && h'.staleNack == h.staleNack
    && h'.flashAddr == h.flashAddr && h'.pendingCmd == h.pendingCmd && h'.sdMounted == h.sdMounted
  }

  /** The machines other than k are as they were. */
  predicate SameOthers(k: Kind, h: Host, h': Host) {
    forall j: Kind :: j != k ==> Get(h', j) == Get(h, j)
  }

  // ---------------------------------------------------------------------------
  // Endings
  // ---------------------------------------------------------------------------

  /** The ACK of FINISH ends a transfer that no queue waits for with its completion, and nothing else changes. */
  lemma LastAckEnds(disk: Disk, h: Host, k: Kind)
    requires Inv(h) && Exclusively(h, k) && Get(h, k).phase == WaitingFinishAck
    ensures var h' := OnAck(disk, h);
            && AllStopped(h') && Get(h', k).data == [] && SameOthers(k, h, h') && SameQueues(h, h') && SameRest(h, h')
            && h'.out == h.out + [Completed(k)]
  {
    hide NextChunk, AdvanceQueue;
    assert h.out + [] == h.out;
  }

  /** A NACK ends the running transfer with its error; an upload takes both queues with it. */
  lemma NackEnds(h: Host, k: Kind, code: byte)
    requires Inv(h) && Active(h, k) && !h.swapPending
    ensures var h' := OnNack(h, code);
            && AllStopped(h') && Get(h', k).data == [] && SameOthers(k, h, h') && SameRest(h, h')
            && (if k == File then QueuesEmpty(h') else SameQueues(h, h'))
            && h'.out == h.out + [Failed(Transfer(k), Refused(code))]
  {}

  /** Without a transfer, a NACK is for the bank operation, or absorbed as stale, or for a file command. */
  lemma NackWithoutTransfer(h: Host, code: byte)
    requires AllStopped(h)
    ensures var h' := OnNack(h, code);
            && AllStopped(h') && SameQueues(h, h') && h'.sdMounted == h.sdMounted && h'.flashAddr == h.flashAddr
            && (h.erasePending ==>
                  SameRest(h, h'.(erasePending := true)) && !h'.erasePending
                  && h'.out == h.out + [Failed(BankErase, Refused(code))])
            && (!h.erasePending && h.swapPending ==>
                  SameRest(h, h'.(swapPending := true)) && !h'.swapPending
                  && h'.out == h.out + [Failed(BankSwap, Refused(code))])
            && (!h.erasePending && !h.swapPending && h.staleNack ==>
                  SameRest(h, h'.(staleNack := true)) && !h'.staleNack && h'.out == h.out)
            && (!h.erasePending && !h.swapPending && !h.staleNack ==>
                  SameRest(h.(pendingCmd := 0), h') && h'.out == h.out + [Failed(Other, Refused(code))])
  {}

  /** A swap that is pending takes a NACK before any transfer does. */
  lemma NackOfSwap(h: Host, code: byte)
    requires h.swapPending && !h.erasePending
    ensures OnNack(h, code) == h.(swapPending := false, out := h.out + [Failed(BankSwap, Refused(code))])
  {}

  /**
   * A timer that fires ends its transfer with an error and leaves the queues as they are; the ESP32's
   * sends FINISH (0x54) first and expects one stale reply.
   */
  lemma TimeoutEnds(h: Host, k: Kind)
    requires Inv(h) && Active(h, k)
    ensures var h' := OnTimeout(h, k);
            && AllStopped(h') && Get(h', k).data == [] && SameOthers(k, h, h') && SameQueues(h, h')
            && SameRest(h.(staleNack := h.staleNack || k == Esp), h')
            && h'.out == h.out + (if k == Esp then [Send(0x54, [])] else []) + [Failed(Transfer(k), TimedOut)]
  {
    assert h.out + [] == h.out;
  }

  lemma NoTimeoutWithoutTransfer(h: Host, k: Kind)
    requires Inv(h) && !Active(h, k)
    ensures OnTimeout(h, k) == h
  {}

  /**
   * A disconnect stops everything, empties the queues and drops a pending swap; what was running is
   * reported, and only a pending erase stays.
   */
  lemma DisconnectEnds(h: Host)
    requires Inv(h)
    ensures var h' := OnDisconnect(h);
            && AllStopped(h') && QueuesEmpty(h') && !h'.swapPending && !h'.staleNack && h'.sdMounted
            && h'.erasePending == h.erasePending && h'.pendingCmd == h.pendingCmd && h'.flashAddr == h.flashAddr
            && h'.out == h.out + (if Active(h, Fw) then [Failed(Transfer(Fw), Disconnected)]
                                  else if Active(h, Esp) then [Failed(Transfer(Esp), Disconnected)]
                                  else if Active(h, File) then [Failed(Transfer(File), Disconnected)]
                                  else [])
  {
    hide Drop;
    var h0 := h.(swapPending := false);
    DropEnds(h0, Fw);
    var h1 := Drop(h0, Fw).(staleNack := false);
    DropEnds(h1, Esp);
    var h2 := Drop(h1, Esp);
    DropEnds(h2, File);
    var h3 := Drop(h2, File);
    assert Get(h0, Esp) == Get(h1, Esp) && Get(h0, File) == Get(h1, File) == Get(h2, File);
    assert Get(h3, Fw) == Get(h2, Fw) == Get(h1, Fw) && Get(h3, Esp) == Get(h2, Esp);
  }

  lemma DropEnds(h: Host, k: Kind)
    ensures var h' := Drop(h, k);
            && Get(h', k).phase == Idle && !Get(h', k).timerArmed && SameOthers(k, h, h')
            && SameQueues(h, h') && SameRest(h, h')
            && h'.out == h.out + if Active(h, k) then [Failed(Transfer(k), Disconnected)] else []
  {}

  // ---------------------------------------------------------------------------
  // Commands and their confirmations
  // ---------------------------------------------------------------------------

  /** What the user is told when a file command has been acknowledged. */
  function Confirmation(cmd: byte): seq<Output> {
    if cmd == 0x37 || cmd == 0x3E then [FileDeleted]
    else if cmd == 0x3D then [FileRenamed]
    else if cmd == 0x38 then [DirMade]
    else if cmd == 0x3B then [SdMount(false)]
    else if cmd == 0x3C then [SdMount(true)]
    else []
  }

  /** A file command goes out, and its ACK brings its confirmation, once; mounting is remembered. */
  lemma CommandIsConfirmed(disk: Disk, h: Host, cmd: byte, payload: seq<byte>)
    requires AllStopped(h) && !h.erasePending && !h.swapPending && h.dirIndex == -1
    ensures var h1 := FileCommand(h, cmd, payload);
            var h' := OnAck(disk, h1);
            && h1.out == h.out + [Send(cmd, payload)]
            && h'.out == h1.out + Confirmation(cmd)
            && AllStopped(h') && SameQueues(h, h') && h'.pendingCmd == 0
            && h'.sdMounted == (if cmd == 0x3B then false else if cmd == 0x3C then true else h.sdMounted)
            && OnAck(disk, h').out == h'.out
  {
    hide AdvanceDirs;
  }

  /** Erasing and swapping send their command, and their ACK is reported before any other's. */
  lemma BankOperations(disk: Disk, h: Host)
    ensures SwapBanks(h) == h.(swapPending := true, out := h.out + [Send(0x45, [])])
    ensures !Busy(h) ==> EraseBank(h) == h.(erasePending := true, out := h.out + [Send(0x47, [])])
    ensures h.erasePending ==> OnAck(disk, h) == h.(erasePending := false, out := h.out + [BankErased])
    ensures !h.erasePending && h.swapPending ==>
              OnAck(disk, h) == h.(swapPending := false, out := h.out + [SwapStarted])
  {}

  /** The command numbers of the protocol, by which the other end tells the commands apart. */
  lemma CommandNumbers()
    ensures CMD_ACK == 0x06 && CMD_NACK == 0x07
    ensures StartCmd(File) == 0x34 && DataCmd(File) == 0x35 && FinishCmd(File) == 0x36
    ensures StartCmd(Fw) == 0x42 && DataCmd(Fw) == 0x43 && FinishCmd(Fw) == 0x44
    ensures StartCmd(Esp) == 0x52 && DataCmd(Esp) == 0x53 && FinishCmd(Esp) == 0x54
    ensures CMD_FILE_MKDIR == 0x38
  {}

  // ---------------------------------------------------------------------------
  // Requests
  // ---------------------------------------------------------------------------

  /** What an accepted start announces: the size, then the path, or a zero word, or the flash address. */
  predicate Announces(e: Event, data: seq<byte>, payload: seq<byte>) {
    && |payload| >= 4
    && payload[0] as int + 0x100 * (payload[1] as int) + 0x1_0000 * (payload[2] as int)
       + 0x100_0000 * (payload[3] as int) == |data| % 0x1_0000_0000
    && match e
       case DoUploadFile(_, remotePath) => payload[4..] == remotePath + [0]
       case DoStartFw(_) => payload[4..] == [0, 0, 0, 0]
       case DoStartEsp(_, addr, _) =>
         && |payload| == 8
         && payload[4] as int + 0x100 * (payload[5] as int) + 0x1_0000 * (payload[6] as int)
            + 0x100_0000 * (payload[7] as int) == addr
       case _ => false
  }

  /** An accepted start sends START with its announcement; the updates report a progress of nothing. */
  lemma StartAnnounces(disk: Disk, h: Host, e: Event, k: Kind)
    requires match k case File => e.DoUploadFile? case Fw => e.DoStartFw? case Esp => e.DoStartEsp?
    requires !Busy(h) && Source(e) in disk && Acceptable(e, disk[Source(e)])
    ensures exists payload ::
              && Announces(e, disk[Source(e)], payload)
              && Next(disk, h, e).out
                 == h.out + [Send(StartCmd(k), payload)] + if k == File then [] else [Progress(k, 0)]
  {
    hide ImageFault;
    var size := ToUint32(|disk[Source(e)]|);
    var tail := if k == File then e.remotePath + [0] else if k == Esp then LE32(e.addr) else LE32(0);
    var payload := LE32(size) + tail;
    assert payload[4..] == tail;
    assert LE32(0) == [0, 0, 0, 0];
    hide LE32;
    assert k == File ==> payload == LE32(size) + e.remotePath + [0];
    assert Announces(e, disk[Source(e)], payload);
    assert h.out + [Send(StartCmd(k), payload)] + [] == h.out + [Send(StartCmd(k), payload)];
  }

  /** A start has failed: one error is reported, and nothing runs that did not run before. */
  ghost predicate RefusedStart(k: Kind, h: Host, h': Host, missing: bool) {
    && AllIdle(h') && SameOthers(k, h, h') && SameQueues(h, h')
    && exists why :: h'.out == h.out + [Failed(Transfer(k), why)] && (why == CannotOpen <==> missing)
  }

  lemma RefusedUpload(disk: Disk, h: Host, localPath: Text, remotePath: Text)
    requires !Busy(h) && (localPath in disk ==> ToUint32(|disk[localPath]|) == 0)
    ensures var h' := UploadFile(disk, h, localPath, remotePath);
            RefusedStart(File, h, h', localPath !in disk) && (localPath in disk ==> h'.file.data == [])
  {
    hide LE32, ToUint32;
  }

  lemma RefusedFw(disk: Disk, h: Host, path: Text)
    requires !Busy(h) && (path in disk ==> !Acceptable(DoStartFw(path), disk[path]))
    ensures var h' := StartFw(disk, h, path);
            RefusedStart(Fw, h, h', path !in disk) && (path in disk ==> h'.fw.data == disk[path])
  {
    hide LE32, ToUint32;
  }

  lemma RefusedEsp(disk: Disk, h: Host, path: Text, addr: uint32, force: bool)
    requires !Busy(h) && (path in disk ==> !Acceptable(DoStartEsp(path, addr, force), disk[path]))
    ensures var h' := StartEsp(disk, h, path, addr, force);
            RefusedStart(Esp, h, h', path !in disk) && (path in disk ==> h'.esp.data == [])
  {
    hide LE32, ToUint32, ImageFault;
  }

  /**
   * A start that is not accepted though nothing runs sends nothing and reports why. A rejected M1 image
   * stays in memory; the other two are dropped.
   */
  lemma RefusedStartReports(disk: Disk, h: Host, e: Event, k: Kind)
    requires match k case File => e.DoUploadFile? case Fw => e.DoStartFw? case Esp => e.DoStartEsp?
    requires !Busy(h) && !(Source(e) in disk && Acceptable(e, disk[Source(e)]))
    ensures var h' := Next(disk, h, e);
            && RefusedStart(k, h, h', Source(e) !in disk)
            && (Source(e) in disk ==> Get(h', k).data == if k == Fw then disk[Source(e)] else [])
  {
    hide UploadFile, StartFw, StartEsp, RefusedStart, ToUint32, ImageFault;
    match e
    case DoUploadFile(localPath, remotePath) => RefusedUpload(disk, h, localPath, remotePath);
    case DoStartFw(path) => RefusedFw(disk, h, path);
    case DoStartEsp(path, addr, force) => RefusedEsp(disk, h, path, addr, force);
    case _ =>
  }

  /**
   * What an ESP32 image must contain: at the factory address a bootloader and a partition table, at
   * the application's address an image without one and of at most 1600 KiB; elsewhere nothing.
   */
  lemma AcceptedImages(data: seq<byte>, size: uint32)
    ensures var table := |data| > 0x8001 && data[0x8000] == 0xAA && data[0x8001] == 0x50;
            && (ImageFault(data, size, 0) == None <==> data != [] && data[0] == 0xE9 && table)
            && (ImageFault(data, size, 0x6_0000) == None
                <==> data != [] && data[0] == 0xE9 && !table && size <= 1638400)
    ensures forall addr: uint32 :: addr != 0 && addr != 0x6_0000 ==> ImageFault(data, size, addr) == None
  {}

  /** An upload of files or of a folder while one is queued or running changes nothing. */
  lemma RejectedUploads(disk: Disk, h: Host, e: Event)
    requires h.queueIndex >= 0 || Active(h, File)
    requires e.DoUploadFiles? || e.DoUploadFolder?
    ensures Next(disk, h, e) == h.(out := h.out + [Failed(Transfer(File), AlreadyRunning)])
  {}

  /** Nothing to upload: one report, and no queue starts. */
  lemma EmptyUploads(disk: Disk, h: Host, remotePath: Text, baseName: Text)
    requires h.queueIndex < 0 && !Active(h, File)
    ensures UploadFiles(disk, h, [], remotePath)
         == h.(queue := [], dirs := [], dirIndex := -1, out := h.out + [Failed(Transfer(File), NoFiles)])
    ensures UploadFolder(h, None, baseName, remotePath) == h.(out := h.out + [Failed(Transfer(File), NoFolder)])
  {}

  /**
   * Files that are queued while an update or an erase runs are not uploaded, and block every later
   * upload: the queue stands at its first file although nothing of it is under way.
   */
  lemma QueueBehindUpdateStalls(disk: Disk, h: Host, files: seq<LocalFile>, remotePath: Text, later: Event)
    requires h.queueIndex < 0 && !Active(h, File) && Busy(h) && files != []
    requires later.DoUploadFiles? || later.DoUploadFolder?
    ensures var h' := UploadFiles(disk, h, files, remotePath);
            && h'.queueIndex == 0 && h'.file == h.file
            && h'.out == h.out + [QueueProgress(1, |files|, files[0].localPath), Failed(Transfer(File), OtherTransfer)]
            && Next(disk, h', later) == h'.(out := h'.out + [Failed(Transfer(File), AlreadyRunning)])
  {
    hide LE32, ToUint32, WithSlash;
  }

  // ---------------------------------------------------------------------------
  // Remote names
  // ---------------------------------------------------------------------------

  /** The directory that a path names, with or without a slash at its end. */
  predicate Names(path: Text, dir: Text) {
    path == dir + [0x2F] || (path == dir && (dir == [] || dir[|dir| - 1] != 0x2F))
  }

  /** Whichever way the directory is written, there is one slash behind it. */
  lemma OneSlash(path: Text, dir: Text)
    requires Names(path, dir)
    ensures WithSlash(path) == dir + [0x2F]
  {}

  /** Each file of an upload gets its own name in that directory. */
  lemma {:induction false} FilesAreNamed(files: seq<LocalFile>, path: Text, dir: Text, i: nat)
    requires Names(path, dir) && i < |files|
    ensures RemoteItems(files, path)[i] == QueueItem(files[i].localPath, dir + [0x2F] + files[i].name)
    decreases |files|
  {
    hide WithSlash;
    OneSlash(path, dir);
    if i > 0 {
      FilesAreNamed(files[1..], path, dir, i - 1);
    }
  }

  /** A folder and all that is in it lie under its own name in that directory. */
  lemma FolderIsNamed(disk: Disk, h: Host, entries: seq<Entry>, baseName: Text, path: Text, dir: Text)
    requires Names(path, dir) && h.queueIndex < 0 && !Active(h, File)
    ensures var h' := UploadFolder(h, Some(entries), baseName, path);
            var base := dir + [0x2F] + baseName;
            && multiset(h'.dirs) == multiset([base] + RemoteDirs(base, entries))
            && h'.queue == RemoteFiles(base, entries)
  {
    hide WithSlash, SortByLength, RemoteDirs, RemoteFiles, MkdirPayload;
    OneSlash(path, dir);
    var base := dir + [0x2F] + baseName;
    FolderUpload.SortSorts([base] + RemoteDirs(base, entries));
    assert base in multiset([base] + RemoteDirs(base, entries));
  }

  lemma {:induction false} RemoteNames(base: Text, entries: seq<Entry>, p: Text)
    ensures p in RemoteDirs(base, entries)
            <==> exists e <- entries :: e.isDir && p == base + [0x2F] + e.relPath
    ensures (exists item <- RemoteFiles(base, entries) :: item.remotePath == p)
            <==> exists e <- entries :: !e.isDir && p == base + [0x2F] + e.relPath
  {
    if entries != [] {
      var rest := entries[1..];
      assert entries == [entries[0]] + rest;
      RemoteNames(base, rest, p);
      assert forall e <- rest :: e in entries;
    }
  }
}
