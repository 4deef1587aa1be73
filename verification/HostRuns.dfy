// What every run of the host keeps: mutual exclusion, armed timers, bounded queues, and a
// ledger in which every accepted transfer ends exactly once.

module HostRuns {
  import opened Bytes
  import opened HostModel

  predicate MachineOk(m: Machine) {
    && (m.phase == Idle <==> !m.timerArmed)
    && (m.phase != Idle ==> 0 < m.size == ToUint32(|m.data|) && m.offset <= m.size)
    && (m.phase == WaitingStartAck ==> m.offset == 0)
    && (m.phase == SendingData ==> m.offset > 0)
    && (m.phase == WaitingFinishAck ==> m.offset == m.size)
  }

  predicate Busy(h: Host) {
    Active(h, File) || Active(h, Fw) || Active(h, Esp) || h.erasePending
  }

  predicate IndexOk(index: int, length: nat) {
    index == -1 || 0 <= index < length
  }

  /** At most one of the three transfers and the bank erase is under way. */
  predicate Exclusive(h: Host) {
    && (h.erasePending ==> !Active(h, File) && !Active(h, Fw) && !Active(h, Esp))
    && !(Active(h, File) && Active(h, Fw))
    && !(Active(h, File) && Active(h, Esp))
    && !(Active(h, Fw) && Active(h, Esp))
  }

  predicate Inv(h: Host) {
    && Exclusive(h)
    && MachineOk(h.file) && MachineOk(h.fw) && MachineOk(h.esp)
    && (Active(h, Fw) ==> h.fw.size <= FW_MAX_SIZE && h.fw.size % 4 == 0)
    && IndexOk(h.queueIndex, |h.queue|)
    && IndexOk(h.dirIndex, |h.dirs|)
  }

  lemma NextChunkOk(k: Kind, m: Machine)
    requires m.timerArmed && m.phase == SendingData && 0 < m.size == ToUint32(|m.data|) && m.offset <= m.size
    ensures var m' := NextChunk(k, m).0;
            MachineOk(m') && m'.phase != Idle && m'.size == m.size && m'.data == m.data
  {
    hide ToUint32, LE32, Mid, Percent;
    if m.offset < m.size {
      var chunkLen := MinInt(ChunkSize(k), AsInt32(m.size - m.offset));
      if chunkLen > 0 {
        ToUint32Fits(m.offset + chunkLen);
      } else {
        ToUint32Fits(m.size);
      }
    }
  }

  lemma AckMachineOk(k: Kind, m: Machine)
    requires MachineOk(m) && m.phase != Idle
    ensures var m' := AckMachine(k, m).0;
            && MachineOk(m') && m'.size == m.size
            && (m'.phase == Idle <==> m.phase == WaitingFinishAck)
            && (m'.phase != Idle ==> m'.data == m.data)
  {
    if m.phase != WaitingFinishAck {
      NextChunkOk(k, m.(phase := SendingData, timerArmed := true));
    }
  }

  // The ways a step changes the state, each of which keeps the invariant.

  lemma EmitKeepsInv()
    ensures forall h, o {:trigger Emit(h, o)} :: Inv(h) ==> Inv(Emit(h, o))
  {}

  lemma IdleMachineKeepsInv(h: Host, k: Kind, m: Machine)
    requires Inv(h) && m.phase == Idle && !m.timerArmed
    ensures Inv(With(h, k, m))
  {}

  lemma BusyMachineKeepsInv(h: Host, k: Kind, m: Machine)
    requires Inv(h) && Active(h, k) && MachineOk(m) && m.size == Get(h, k).size
    ensures Inv(With(h, k, m))
  {}

  lemma ArmedKeepsInv(h: Host, k: Kind, data: seq<byte>)
    requires Inv(h) && !Busy(h) && ToUint32(|data|) != 0
    requires k == Fw ==> ToUint32(|data|) <= FW_MAX_SIZE && ToUint32(|data|) % 4 == 0
    ensures Inv(Armed(h, k, data))
  {
    hide ToUint32;
  }

  /** Fields outside the machines, the erase flag and the queues are free. */
  predicate SameTransfers(h: Host, h': Host) {
    && h'.file == h.file && h'.fw == h.fw && h'.esp == h.esp
    && (h'.erasePending ==> h.erasePending)
  }

  lemma OtherFieldsKeepInv(h: Host, h': Host)
    requires Inv(h) && SameTransfers(h, h')
    requires IndexOk(h'.queueIndex, |h'.queue|) && IndexOk(h'.dirIndex, |h'.dirs|)
    ensures Inv(h')
  {
    hide MachineOk;
  }

  lemma UploadFileKeepsInv(disk: Disk, h: Host, localPath: Text, remotePath: Text)
    requires Inv(h)
    ensures Inv(UploadFile(disk, h, localPath, remotePath))
  {
    hide Inv, Emit, Armed, ToUint32, LE32;
    EmitKeepsInv();
    if localPath in disk && !Busy(h) {
      if ToUint32(|disk[localPath]|) == 0 {
        IdleUntimed(h, File);
        IdleMachineKeepsInv(h, File, h.file.(data := [], offset := 0, size := 0));
      } else {
        ArmedKeepsInv(h, File, disk[localPath]);
      }
    }
  }

  lemma IdleUntimed(h: Host, k: Kind)
    requires Inv(h)
    ensures Active(h, k) <==> Get(h, k).timerArmed
  {}

  lemma StartFwKeepsInv(disk: Disk, h: Host, path: Text)
    requires Inv(h)
    ensures Inv(StartFw(disk, h, path))
  {
    hide Inv, Emit, Armed, ToUint32, LE32;
    EmitKeepsInv();
    if path in disk && !Busy(h) {
      var data := disk[path];
      var size := ToUint32(|data|);
      IdleUntimed(h, Fw);
      IdleMachineKeepsInv(h, Fw, h.fw.(data := data, size := size));
      if size != 0 && size % 4 == 0 && size <= FW_MAX_SIZE {
        ArmedKeepsInv(h, Fw, data);
      }
    }
  }

  lemma StartEspKeepsInv(disk: Disk, h: Host, path: Text, addr: uint32, force: bool)
    requires Inv(h)
    ensures Inv(StartEsp(disk, h, path, addr, force))
  {
    hide Inv, Emit, Armed, ToUint32, LE32, ImageFault;
    EmitKeepsInv();
    if path in disk && !Busy(h) {
      var data := disk[path];
      var size := ToUint32(|data|);
      var addressed := h.(flashAddr := addr);
      IndicesOk(h);
      OtherFieldsKeepInv(h, addressed);
      IdleUntimed(h, Esp);
      IdleMachineKeepsInv(addressed, Esp, h.esp.(data := [], size := size));
      if size != 0 {
        ArmedKeepsInv(addressed, Esp, data);
      }
    }
  }

  lemma IndicesOk(h: Host)
    requires Inv(h)
    ensures IndexOk(h.queueIndex, |h.queue|) && IndexOk(h.dirIndex, |h.dirs|)
  {}

  lemma StartQueueKeepsInv(disk: Disk, h: Host)
    requires Inv(h)
    ensures Inv(StartQueue(disk, h))
  {
    hide Inv, Emit, UploadFile;
    EmitKeepsInv();
    if h.queue != [] {
      IndicesOk(h);
      OtherFieldsKeepInv(h, h.(queueIndex := 0));
      var item := h.queue[0];
      UploadFileKeepsInv(disk, Emit(h.(queueIndex := 0), QueueProgress(1, |h.queue|, item.localPath)),
                         item.localPath, item.remotePath);
    }
  }

  lemma AdvanceQueueKeepsInv(disk: Disk, h: Host)
    requires Inv(h)
    ensures Inv(AdvanceQueue(disk, h))
  {
    hide Inv, Emit, UploadFile;
    EmitKeepsInv();
    IndicesOk(h);
    var i := h.queueIndex + 1;
    if i >= |h.queue| {
      OtherFieldsKeepInv(h, h.(queue := [], queueIndex := -1));
    } else {
      OtherFieldsKeepInv(h, h.(queueIndex := i));
      var item := h.queue[i];
      UploadFileKeepsInv(disk, Emit(h.(queueIndex := i), QueueProgress(i + 1, |h.queue|, item.localPath)),
                         item.localPath, item.remotePath);
    }
  }

  lemma AdvanceDirsKeepsInv(disk: Disk, h: Host)
    requires Inv(h)
    ensures Inv(AdvanceDirs(disk, h))
  {
    hide Inv, Emit, StartQueue, MkdirPayload;
    EmitKeepsInv();
    IndicesOk(h);
    var i := h.dirIndex + 1;
    if i >= |h.dirs| {
      OtherFieldsKeepInv(h, h.(dirs := [], dirIndex := -1));
      StartQueueKeepsInv(disk, h.(dirs := [], dirIndex := -1));
    } else {
      OtherFieldsKeepInv(h, h.(dirIndex := i).(pendingCmd := CMD_FILE_MKDIR));
    }
  }

  lemma AckOwnedKeepsInv(disk: Disk, h: Host, k: Kind)
    requires Inv(h) && Active(h, k)
    ensures Inv(AckOwned(disk, h, k))
  {
    hide Inv, Emit, AdvanceQueue, AckMachine;
    EmitKeepsInv();
    MachinesOk(h, k);
    AckMachineOk(k, Get(h, k));
    var (m, outs) := AckMachine(k, Get(h, k));
    BusyMachineKeepsInv(h, k, m);
    var h' := With(h, k, m).(out := h.out + outs);
    IndicesOk(With(h, k, m));
    OtherFieldsKeepInv(With(h, k, m), h');
    AdvanceQueueKeepsInv(disk, h');
  }

  lemma MachinesOk(h: Host, k: Kind)
    requires Inv(h)
    ensures MachineOk(Get(h, k))
  {}

  lemma AckFileCommandKeepsInv(disk: Disk, h: Host)
    requires Inv(h)
    ensures Inv(AckFileCommand(disk, h))
  {
    hide Inv, Emit, AdvanceDirs;
    EmitKeepsInv();
    IndicesOk(h);
    var h' := h.(pendingCmd := 0);
    OtherFieldsKeepInv(h, h');
    AdvanceDirsKeepsInv(disk, h');
    OtherFieldsKeepInv(h', h'.(sdMounted := false));
    OtherFieldsKeepInv(h', h'.(sdMounted := true));
    OtherFieldsKeepInv(h', h'.(staleNack := false));
  }

  lemma AckKeepsInv(disk: Disk, h: Host)
    requires Inv(h)
    ensures Inv(OnAck(disk, h))
  {
    hide Inv, Emit, AckOwned, AckFileCommand;
    EmitKeepsInv();
    IndicesOk(h);
    OtherFieldsKeepInv(h, h.(erasePending := false));
    OtherFieldsKeepInv(h, h.(swapPending := false));
    match Owner(h)
    case Some(k) => AckOwnedKeepsInv(disk, h, k);
    case None => AckFileCommandKeepsInv(disk, h);
  }

  lemma NackKeepsInv(h: Host, code: byte)
    requires Inv(h)
    ensures Inv(OnNack(h, code))
  {
    hide Inv, Emit;
    EmitKeepsInv();
    IndicesOk(h);
    OtherFieldsKeepInv(h, h.(erasePending := false));
    OtherFieldsKeepInv(h, h.(swapPending := false));
    OtherFieldsKeepInv(h, h.(staleNack := false));
    OtherFieldsKeepInv(h, h.(pendingCmd := 0));
    match Owner(h)
    case Some(k) =>
      var h' := With(h, k, Stopped(Get(h, k)));
      IdleMachineKeepsInv(h, k, Stopped(Get(h, k)));
      OtherFieldsKeepInv(h', WithoutQueues(h'));
    case None =>
  }

  lemma TimeoutKeepsInv(h: Host, k: Kind)
    requires Inv(h)
    ensures Inv(OnTimeout(h, k))
  {
    hide Inv, Emit;
    EmitKeepsInv();
    IdleUntimed(h, k);
    var h' := With(h, k, Stopped(Get(h, k)));
    IdleMachineKeepsInv(h, k, Stopped(Get(h, k)));
    IndicesOk(h');
    OtherFieldsKeepInv(h', h'.(staleNack := true));
  }

  lemma DropKeepsInv(h: Host, k: Kind)
    requires Inv(h)
    ensures Inv(Drop(h, k))
  {
    hide Inv, Emit;
    EmitKeepsInv();
    IdleMachineKeepsInv(h, k, Stopped(Get(h, k)));
    if !Active(h, k) {
      IdleMachineKeepsInv(h, k, Get(h, k).(timerArmed := false));
    }
  }

  lemma DisconnectKeepsInv(h: Host)
    requires Inv(h)
    ensures Inv(OnDisconnect(h))
  {
    hide Inv, Drop;
    var h0 := h.(swapPending := false);
    IndicesOk(h);
    OtherFieldsKeepInv(h, h0);
    DropKeepsInv(h0, Fw);
    var h1 := Drop(h0, Fw);
    IndicesOk(h1);
    OtherFieldsKeepInv(h1, h1.(staleNack := false));
    DropKeepsInv(h1.(staleNack := false), Esp);
    var h2 := Drop(h1.(staleNack := false), Esp);
    DropKeepsInv(h2, File);
    var h3 := Drop(h2, File);
    OtherFieldsKeepInv(h3, WithoutQueues(h3).(sdMounted := true));
  }

  lemma UploadFilesKeepsInv(disk: Disk, h: Host, files: seq<LocalFile>, remotePath: Text)
    requires Inv(h)
    ensures Inv(UploadFiles(disk, h, files, remotePath))
  {
    hide Inv, Emit, StartQueue, RemoteItems;
    EmitKeepsInv();
    IndicesOk(h);
    var queued := h.(queue := RemoteItems(files, remotePath), dirs := [], dirIndex := -1);
    if h.queueIndex < 0 {
      OtherFieldsKeepInv(h, queued);
      StartQueueKeepsInv(disk, queued);
    }
  }

  lemma UploadFolderKeepsInv(h: Host, folder: Option<seq<Entry>>, baseName: Text, remotePath: Text)
    requires Inv(h)
    ensures Inv(UploadFolder(h, folder, baseName, remotePath))
  {
    hide Inv, Emit, SortByLength, RemoteDirs, RemoteFiles, MkdirPayload, FileCommand, WithSlash;
    EmitKeepsInv();
    IndicesOk(h);
    if h.queueIndex < 0 && folder.Some? {
      var base := WithSlash(remotePath) + baseName;
      var dirs := SortByLength([base] + RemoteDirs(base, folder.value));
      var files := RemoteFiles(base, folder.value);
      if dirs != [] {
        var queued := h.(queue := files, dirs := dirs, dirIndex := 0);
        OtherFieldsKeepInv(h, queued);
        CommandsKeepInv(Emit(queued, QueueProgress(0, |files|, [])), CMD_FILE_MKDIR, MkdirPayload(dirs[0]));
      }
    }
  }

  lemma EraseKeepsInv(h: Host)
    requires Inv(h)
    ensures Inv(EraseBank(h))
  {
    hide Inv, Emit;
    EmitKeepsInv();
    if !Busy(h) {
      ErasingKeepsInv(h);
    }
  }

  lemma ErasingKeepsInv(h: Host)
    requires Inv(h) && !Busy(h)
    ensures Inv(h.(erasePending := true))
  {}

  lemma CommandsKeepInv(h: Host, cmd: byte, payload: seq<byte>)
    requires Inv(h)
    ensures Inv(FileCommand(h, cmd, payload)) && Inv(SwapBanks(h))
  {
    hide Inv, Emit;
    EmitKeepsInv();
    IndicesOk(h);
    OtherFieldsKeepInv(h, h.(pendingCmd := cmd));
    OtherFieldsKeepInv(h, h.(swapPending := true));
  }

  lemma StepKeepsInv(disk: Disk, h: Host, e: Event)
    requires Inv(h)
    ensures Inv(Next(disk, h, e))
  {
    hide Inv, UploadFile, UploadFiles, UploadFolder, StartFw, StartEsp, EraseBank, SwapBanks, FileCommand,
         OnAck, OnNack, OnTimeout, OnDisconnect;
    match e
    case DoUploadFile(localPath, remotePath) => UploadFileKeepsInv(disk, h, localPath, remotePath);
    case DoUploadFiles(files, remotePath) => UploadFilesKeepsInv(disk, h, files, remotePath);
    case DoUploadFolder(folder, baseName, remotePath) => UploadFolderKeepsInv(h, folder, baseName, remotePath);
    case DoStartFw(path) => StartFwKeepsInv(disk, h, path);
    case DoStartEsp(path, addr, force) => StartEspKeepsInv(disk, h, path, addr, force);
    case DoEraseBank => EraseKeepsInv(h);
    case DoSwapBanks => CommandsKeepInv(h, 0, []);
    case DoFileCommand(cmd, payload) => CommandsKeepInv(h, cmd, payload);
    case Ack => AckKeepsInv(disk, h);
    case Nack(code) => NackKeepsInv(h, code);
    case Timeout(k) => TimeoutKeepsInv(h, k);
    case Disconnect => DisconnectKeepsInv(h);
  }

  /** The invariant of all runs, over any interleaving of requests, replies, timers and disconnects. */
  lemma {:induction false} RunKeepsInv(disk: Disk, h: Host, es: seq<Event>)
    requires Inv(h)
    ensures Inv(Run(disk, h, es))
  {
    hide Next, Inv;
    if es != [] {
      RunKeepsInv(disk, h, es[..|es| - 1]);
      StepKeepsInv(disk, Run(disk, h, es[..|es| - 1]), es[|es| - 1]);
    }
  }

  // ---------------------------------------------------------------------------
  // Rejected requests
  // ---------------------------------------------------------------------------

  /** A start or erase while anything is under way is answered with one error and changes nothing else. */
  lemma RejectedStartChangesNothing(disk: Disk, h: Host, e: Event)
    requires Busy(h) && (e.DoUploadFile? || e.DoStartFw? || e.DoStartEsp? || e.DoEraseBank?)
    ensures exists op, why {:trigger Failed(op, why)} ::
              Next(disk, h, e) == Fail(h, op, why) && (why == AlreadyRunning || why == OtherTransfer)
  {
    hide ImageFault;
    match e
    case DoUploadFile(localPath, remotePath) =>
      assert Next(disk, h, e) == Fail(h, Transfer(File), if Active(h, File) then AlreadyRunning else OtherTransfer);
    case DoStartFw(path) =>
      assert Next(disk, h, e) == Fail(h, Transfer(Fw), if Active(h, Fw) then AlreadyRunning else OtherTransfer);
    case DoStartEsp(path, addr, force) =>
      assert Next(disk, h, e) == Fail(h, Transfer(Esp), if Active(h, Esp) then AlreadyRunning else OtherTransfer);
    case DoEraseBank =>
      assert Next(disk, h, e) == Fail(h, BankErase, OtherTransfer);
  }

  // ---------------------------------------------------------------------------
  // ESP32 images
  // ---------------------------------------------------------------------------

  /**
   * An image that passes at one of the two checked addresses never passes at the other; a factory
   * image at the application's address is what would leave the ESP32 unable to boot.
   */
  lemma ImagePassesAtOneAddress(data: seq<byte>, size: uint32)
    ensures ImageFault(data, size, FACTORY_ADDR).Some? || ImageFault(data, size, APP_ADDR).Some?
  {}

  /** Unless forced, a start with an image for the other address is refused and sends nothing. */
  lemma WrongImageIsNotFlashed(disk: Disk, h: Host, path: Text, addr: uint32, other: uint32)
    requires path in disk && !Busy(h)
    requires (addr == FACTORY_ADDR && other == APP_ADDR) || (addr == APP_ADDR && other == FACTORY_ADDR)
    requires ImageFault(disk[path], ToUint32(|disk[path]|), other).None?
    ensures var h' := StartEsp(disk, h, path, addr, false);
            !Busy(h') && exists why :: h'.out == h.out + [Failed(Transfer(Esp), why)]
  {
    hide ImageFault, ToUint32, LE32;
    ImagePassesAtOneAddress(disk[path], ToUint32(|disk[path]|));
  }

  // ---------------------------------------------------------------------------
  // The ledger
  // ---------------------------------------------------------------------------

  /** START commands of a machine in an output log: its accepted transfers. */
  function Starts(k: Kind, out: seq<Output>): nat {
    if out == [] then 0
    else
      var last := out[|out| - 1];
      Starts(k, out[..|out| - 1]) + if last.Send? && last.cmd == StartCmd(k) then 1 else 0
  }

  predicate ReportsAbort(k: Kind, o: Output) {
    o.Failed? && o.op == Transfer(k) && (o.why.Refused? || o.why == TimedOut || o.why == Disconnected)
  }

  /** Reported aborts of running transfers. */
  function Aborts(k: Kind, out: seq<Output>): nat {
    if out == [] then 0
    else Aborts(k, out[..|out| - 1]) + if ReportsAbort(k, out[|out| - 1]) then 1 else 0
  }

  /** The event is the ACK of the machine's FINISH command. */
  predicate Completes(k: Kind, h: Host, e: Event) {
    e.Ack? && Owner(h) == Some(k) && Get(h, k).phase == WaitingFinishAck
  }

  /** How many transfers of the machine were completed over a run. */
  function Completions(k: Kind, disk: Disk, h: Host, es: seq<Event>): nat {
    if es == [] then 0
    else
      var front := es[..|es| - 1];
      Completions(k, disk, h, front) + if Completes(k, Run(disk, h, front), es[|es| - 1]) then 1 else 0
  }

  /** Accepted transfers that have been neither aborted nor are still under way. */
  function Balance(k: Kind, h: Host): int {
    Starts(k, h.out) - Aborts(k, h.out) - if Active(h, k) then 1 else 0
  }

  lemma CountsOfAppend(k: Kind, out: seq<Output>, o: Output)
    ensures Starts(k, out + [o]) == Starts(k, out) + (if o.Send? && o.cmd == StartCmd(k) then 1 else 0)
    ensures Aborts(k, out + [o]) == Aborts(k, out) + (if ReportsAbort(k, o) then 1 else 0)
  {
    assert (out + [o])[..|out + [o]| - 1] == out;
  }

  /** What one output adds to the balance. */
  function Delta(k: Kind, o: Output): int {
    (if o.Send? && o.cmd == StartCmd(k) then 1 else 0) - (if ReportsAbort(k, o) then 1 else 0)
  }

  lemma EmitBalance(k: Kind)
    ensures forall h, o {:trigger Emit(h, o)} :: Balance(k, Emit(h, o)) == Balance(k, h) + Delta(k, o)
  {
    forall h: Host, o
      ensures Balance(k, Emit(h, o)) == Balance(k, h) + Delta(k, o)
    {
      hide Starts, Aborts;
      CountsOfAppend(k, h.out, o);
    }
  }

  function Busyness(m: Machine): int {
    if m.phase != Idle then 1 else 0
  }

  lemma WithBalance(k: Kind, h: Host, j: Kind, m: Machine)
    ensures Balance(k, With(h, j, m)) == Balance(k, h) + if j == k then Busyness(Get(h, k)) - Busyness(m) else 0
  {
    hide Starts, Aborts;
  }

  lemma OtherFieldsBalance(k: Kind, h: Host, h': Host)
    requires h'.file == h.file && h'.fw == h.fw && h'.esp == h.esp && h'.out == h.out
    ensures Balance(k, h') == Balance(k, h)
  {
    hide Starts, Aborts;
  }

  lemma ArmedBalance(k: Kind, h: Host, j: Kind, data: seq<byte>)
    requires !Active(h, j)
    ensures Balance(k, Armed(h, j, data)) == Balance(k, h) - if j == k then 1 else 0
  {
    hide Balance, ToUint32;
    WithBalance(k, h, j, Machine(WaitingStartAck, data, 0, ToUint32(|data|), true));
  }

  lemma UploadFileBalance(k: Kind, disk: Disk, h: Host, localPath: Text, remotePath: Text)
    ensures Balance(k, UploadFile(disk, h, localPath, remotePath)) == Balance(k, h)
  {
    hide Balance, Emit, Armed, ToUint32, LE32;
    EmitBalance(k);
    if localPath in disk && !Busy(h) {
      WithBalance(k, h, File, h.file.(data := [], offset := 0, size := 0));
      ArmedBalance(k, h, File, disk[localPath]);
    }
  }

  lemma StartFwBalance(k: Kind, disk: Disk, h: Host, path: Text)
    ensures Balance(k, StartFw(disk, h, path)) == Balance(k, h)
  {
    hide Balance, Emit, Armed, ToUint32, LE32;
    EmitBalance(k);
    if path in disk && !Busy(h) {
      WithBalance(k, h, Fw, h.fw.(data := disk[path], size := ToUint32(|disk[path]|)));
      ArmedBalance(k, h, Fw, disk[path]);
    }
  }

  lemma StartEspBalance(k: Kind, disk: Disk, h: Host, path: Text, addr: uint32, force: bool)
    ensures Balance(k, StartEsp(disk, h, path, addr, force)) == Balance(k, h)
  {
    hide Balance, Emit, Armed, ToUint32, LE32, ImageFault;
    EmitBalance(k);
    if path in disk && !Busy(h) {
      var data := disk[path];
      var addressed := h.(flashAddr := addr);
      OtherFieldsBalance(k, h, addressed);
      WithBalance(k, addressed, Esp, h.esp.(data := [], size := ToUint32(|data|)));
      ArmedBalance(k, addressed, Esp, data);
    }
  }

  lemma StartQueueBalance(k: Kind, disk: Disk, h: Host)
    ensures Balance(k, StartQueue(disk, h)) == Balance(k, h)
  {
    hide Balance, Emit, UploadFile;
    EmitBalance(k);
    if h.queue != [] {
      OtherFieldsBalance(k, h, h.(queueIndex := 0));
      var item := h.queue[0];
      UploadFileBalance(k, disk, Emit(h.(queueIndex := 0), QueueProgress(1, |h.queue|, item.localPath)),
                        item.localPath, item.remotePath);
    }
  }

  lemma AdvanceQueueBalance(k: Kind, disk: Disk, h: Host)
    ensures Balance(k, AdvanceQueue(disk, h)) == Balance(k, h)
  {
    hide Balance, Emit, UploadFile;
    EmitBalance(k);
    var i := h.queueIndex + 1;
    OtherFieldsBalance(k, h, h.(queue := [], queueIndex := -1));
    if 0 <= i < |h.queue| {
      OtherFieldsBalance(k, h, h.(queueIndex := i));
      var item := h.queue[i];
      UploadFileBalance(k, disk, Emit(h.(queueIndex := i), QueueProgress(i + 1, |h.queue|, item.localPath)),
                        item.localPath, item.remotePath);
    }
  }

  lemma AdvanceDirsBalance(k: Kind, disk: Disk, h: Host)
    ensures Balance(k, AdvanceDirs(disk, h)) == Balance(k, h)
  {
    hide Balance, Emit, StartQueue, MkdirPayload;
    EmitBalance(k);
    var made := h.(dirs := [], dirIndex := -1);
    OtherFieldsBalance(k, h, made);
    StartQueueBalance(k, disk, made);
    OtherFieldsBalance(k, h, h.(dirIndex := h.dirIndex + 1).(pendingCmd := CMD_FILE_MKDIR));
  }

  lemma OutsOfMachine(k: Kind, j: Kind, m: Machine, out: seq<Output>)
    ensures Starts(k, out + AckMachine(j, m).1) == Starts(k, out)
    ensures Aborts(k, out + AckMachine(j, m).1) == Aborts(k, out)
  {
    hide Starts, Aborts, Mid, Percent, LE32, ToUint32;
    var outs := AckMachine(j, m).1;
    if outs == [] {
      assert out + outs == out;
    } else if |outs| == 1 {
      assert out + outs == out + [outs[0]];
      CountsOfAppend(k, out, outs[0]);
    } else {
      assert out + outs == out + [outs[0]] + [outs[1]];
      CountsOfAppend(k, out, outs[0]);
      CountsOfAppend(k, out + [outs[0]], outs[1]);
    }
  }

  lemma LogBalance(k: Kind, h: Host, outs: seq<Output>)
    requires Starts(k, h.out + outs) == Starts(k, h.out) && Aborts(k, h.out + outs) == Aborts(k, h.out)
    ensures Balance(k, h.(out := h.out + outs)) == Balance(k, h)
  {
    hide Starts, Aborts;
  }

  lemma AckOwnedBalance(k: Kind, disk: Disk, h: Host, j: Kind)
    requires Inv(h) && Active(h, j)
    ensures Balance(k, AckOwned(disk, h, j))
         == Balance(k, h) + if j == k && Get(h, j).phase == WaitingFinishAck then 1 else 0
  {
    hide Balance, Starts, Aborts, Emit, AdvanceQueue, AckMachine, Inv;
    EmitBalance(k);
    MachinesOk(h, j);
    AckMachineOk(j, Get(h, j));
    OutsOfMachine(k, j, Get(h, j), h.out);
    var (m, outs) := AckMachine(j, Get(h, j));
    WithBalance(k, h, j, m);
    LogBalance(k, With(h, j, m), outs);
    AdvanceQueueBalance(k, disk, With(h, j, m).(out := h.out + outs));
  }

  lemma AckFileCommandBalance(k: Kind, disk: Disk, h: Host)
    ensures Balance(k, AckFileCommand(disk, h)) == Balance(k, h)
  {
    hide Balance, Emit, AdvanceDirs;
    EmitBalance(k);
    var h' := h.(pendingCmd := 0);
    OtherFieldsBalance(k, h, h');
    AdvanceDirsBalance(k, disk, h');
    OtherFieldsBalance(k, h', h'.(sdMounted := false));
    OtherFieldsBalance(k, h', h'.(sdMounted := true));
    OtherFieldsBalance(k, h', h'.(staleNack := false));
  }

  lemma AckBalance(k: Kind, disk: Disk, h: Host)
    requires Inv(h)
    ensures Balance(k, OnAck(disk, h)) == Balance(k, h) + if Completes(k, h, Ack) then 1 else 0
  {
    hide Balance, Emit, AckOwned, AckFileCommand, Inv;
    EmitBalance(k);
    OtherFieldsBalance(k, h, h.(erasePending := false));
    OtherFieldsBalance(k, h, h.(swapPending := false));
    match Owner(h)
    case Some(j) => AckOwnedBalance(k, disk, h, j);
    case None => AckFileCommandBalance(k, disk, h);
  }

  lemma NackBalance(k: Kind, h: Host, code: byte)
    ensures Balance(k, OnNack(h, code)) == Balance(k, h)
  {
    hide Balance, Emit;
    EmitBalance(k);
    OtherFieldsBalance(k, h, h.(erasePending := false));
    OtherFieldsBalance(k, h, h.(swapPending := false));
    OtherFieldsBalance(k, h, h.(staleNack := false));
    OtherFieldsBalance(k, h, h.(pendingCmd := 0));
    match Owner(h)
    case Some(j) =>
      var h' := With(h, j, Stopped(Get(h, j)));
      WithBalance(k, h, j, Stopped(Get(h, j)));
      OtherFieldsBalance(k, h', WithoutQueues(h'));
    case None =>
  }

  lemma TimeoutBalance(k: Kind, h: Host, j: Kind)
    ensures Balance(k, OnTimeout(h, j)) == Balance(k, h)
  {
    hide Balance, Emit;
    EmitBalance(k);
    var h' := With(h, j, Stopped(Get(h, j)));
    WithBalance(k, h, j, Stopped(Get(h, j)));
    WithBalance(k, h, j, Get(h, j).(timerArmed := false));
    OtherFieldsBalance(k, h', h'.(staleNack := true));
  }

  lemma DropBalance(k: Kind, h: Host, j: Kind)
    ensures Balance(k, Drop(h, j)) == Balance(k, h)
  {
    hide Balance, Emit;
    EmitBalance(k);
    WithBalance(k, h, j, Stopped(Get(h, j)));
    WithBalance(k, h, j, Get(h, j).(timerArmed := false));
  }

  lemma DisconnectBalance(k: Kind, h: Host)
    ensures Balance(k, OnDisconnect(h)) == Balance(k, h)
  {
    hide Balance, Drop;
    var h0 := h.(swapPending := false);
    OtherFieldsBalance(k, h, h0);
    DropBalance(k, h0, Fw);
    var h1 := Drop(h0, Fw);
    OtherFieldsBalance(k, h1, h1.(staleNack := false));
    DropBalance(k, h1.(staleNack := false), Esp);
    var h2 := Drop(h1.(staleNack := false), Esp);
    DropBalance(k, h2, File);
    var h3 := Drop(h2, File);
    OtherFieldsBalance(k, h3, WithoutQueues(h3).(sdMounted := true));
  }

  lemma UploadFilesBalance(k: Kind, disk: Disk, h: Host, files: seq<LocalFile>, remotePath: Text)
    ensures Balance(k, UploadFiles(disk, h, files, remotePath)) == Balance(k, h)
  {
    hide Balance, Emit, StartQueue, RemoteItems;
    EmitBalance(k);
    var queued := h.(queue := RemoteItems(files, remotePath), dirs := [], dirIndex := -1);
    OtherFieldsBalance(k, h, queued);
    StartQueueBalance(k, disk, queued);
  }

  lemma UploadFolderBalance(k: Kind, h: Host, folder: Option<seq<Entry>>, baseName: Text, remotePath: Text)
    ensures Balance(k, UploadFolder(h, folder, baseName, remotePath)) == Balance(k, h)
  {
    hide Balance, Emit, SortByLength, RemoteDirs, RemoteFiles, MkdirPayload;
    EmitBalance(k);
    if folder.Some? {
      var base := WithSlash(remotePath) + baseName;
      var dirs := SortByLength([base] + RemoteDirs(base, folder.value));
      var files := RemoteFiles(base, folder.value);
      var queued := h.(queue := files, dirs := dirs, dirIndex := 0);
      OtherFieldsBalance(k, h, queued);
      var told := Emit(queued, QueueProgress(0, |files|, []));
      OtherFieldsBalance(k, told, told.(pendingCmd := CMD_FILE_MKDIR));
    }
  }

  /** Requests for single commands never issue the START of a transfer. */
  predicate Ordinary(e: Event) {
    e.DoFileCommand? ==> e.cmd != StartCmd(File) && e.cmd != StartCmd(Fw) && e.cmd != StartCmd(Esp)
  }

  lemma CommandsBalance(k: Kind, h: Host, cmd: byte, payload: seq<byte>)
    ensures Ordinary(DoFileCommand(cmd, payload)) ==> Balance(k, FileCommand(h, cmd, payload)) == Balance(k, h)
    ensures Balance(k, SwapBanks(h)) == Balance(k, h) == Balance(k, EraseBank(h))
  {
    hide Balance, Emit;
    EmitBalance(k);
    OtherFieldsBalance(k, h, h.(pendingCmd := cmd));
    OtherFieldsBalance(k, h, h.(swapPending := true));
    OtherFieldsBalance(k, h, h.(erasePending := true));
  }

  lemma StepBalance(k: Kind, disk: Disk, h: Host, e: Event)
    requires Inv(h) && Ordinary(e)
    ensures Balance(k, Next(disk, h, e)) == Balance(k, h) + if Completes(k, h, e) then 1 else 0
  {
    hide Balance, Inv, UploadFile, UploadFiles, UploadFolder, StartFw, StartEsp, EraseBank, SwapBanks, FileCommand,
         OnAck, OnNack, OnTimeout, OnDisconnect;
    match e
    case DoUploadFile(localPath, remotePath) => UploadFileBalance(k, disk, h, localPath, remotePath);
    case DoUploadFiles(files, remotePath) => UploadFilesBalance(k, disk, h, files, remotePath);
    case DoUploadFolder(folder, baseName, remotePath) => UploadFolderBalance(k, h, folder, baseName, remotePath);
    case DoStartFw(path) => StartFwBalance(k, disk, h, path);
    case DoStartEsp(path, addr, force) => StartEspBalance(k, disk, h, path, addr, force);
    case DoEraseBank => CommandsBalance(k, h, 0, []);
    case DoSwapBanks => CommandsBalance(k, h, 0, []);
    case DoFileCommand(cmd, payload) => CommandsBalance(k, h, cmd, payload);
    case Ack => AckBalance(k, disk, h);
    case Nack(code) => NackBalance(k, h, code);
    case Timeout(j) => TimeoutBalance(k, h, j);
    case Disconnect => DisconnectBalance(k, h);
  }

  lemma {:induction false} RunBalance(k: Kind, disk: Disk, h: Host, es: seq<Event>)
    requires Inv(h) && forall e <- es :: Ordinary(e)
    ensures Balance(k, Run(disk, h, es)) == Balance(k, h) + Completions(k, disk, h, es)
  {
    hide Next, Inv, Balance, Completes;
    if es != [] {
      var front := es[..|es| - 1];
      RunBalance(k, disk, h, front);
      RunKeepsInv(disk, h, front);
      StepBalance(k, disk, Run(disk, h, front), es[|es| - 1]);
    }
  }

  /**
   * Every accepted transfer ends exactly once. Over any run from the fresh state, the START commands
   * sent for a machine are its completed transfers, its reported aborts, and the one under way, if any.
   */
  lemma EveryTransferEndsOnce(k: Kind, disk: Disk, es: seq<Event>)
    requires forall e <- es :: Ordinary(e)
    ensures var h := Run(disk, FRESH_HOST, es);
            Starts(k, h.out) == Completions(k, disk, FRESH_HOST, es) + Aborts(k, h.out) + if Active(h, k) then 1 else 0
  {
    hide Run, Completions;
    RunBalance(k, disk, FRESH_HOST, es);
    assert Starts(k, []) == 0 && Aborts(k, []) == 0;
  }
}
