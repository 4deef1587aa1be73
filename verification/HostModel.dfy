// The transfer machines and queues of m1_device.cpp as functions on values: what one user
// request, one reply, one timer or one disconnect does to the host's state.
//
// The source has three copies of one stop-and-wait machine; here one `Machine` serves all
// three, and the class in M1Device is proved to be three faithful copies of it.

module HostModel {
  import opened Bytes

  /** Paths and names, as the bytes that go on the wire. */
  type Text = seq<byte>

  /** The readable local files. */
  type Disk = map<Text, seq<byte>>

  const SLASH: byte := 0x2F

  const CMD_ACK: byte := 0x06
  const CMD_NACK: byte := 0x07
  const CMD_FILE_DELETE: byte := 0x37
  const CMD_FILE_MKDIR: byte := 0x38
  const CMD_SD_UNMOUNT: byte := 0x3B
  const CMD_SD_MOUNT: byte := 0x3C
  const CMD_FILE_RENAME: byte := 0x3D
  const CMD_FILE_DELETE_TREE: byte := 0x3E
  const CMD_FW_BANK_SWAP: byte := 0x45
  const CMD_FW_BANK_ERASE: byte := 0x47

  datatype Kind = File | Fw | Esp

  function StartCmd(k: Kind): byte {
    match k case File => 0x34 case Fw => 0x42 case Esp => 0x52
  }

  function DataCmd(k: Kind): byte {
    match k case File => 0x35 case Fw => 0x43 case Esp => 0x53
  }

  function FinishCmd(k: Kind): byte {
    match k case File => 0x36 case Fw => 0x44 case Esp => 0x54
  }

  function ChunkSize(k: Kind): nat {
    match k case File => 512 case Fw => 1024 case Esp => 1024
  }

  const FW_MAX_SIZE := 0x10_0000
  const APP_MAX_SIZE := 1600 * 1024
  const PARTITION_TABLE := 0x8000
  const FACTORY_ADDR: uint32 := 0x0
  const APP_ADDR: uint32 := 0x6_0000

  datatype Phase = Idle | WaitingStartAck | SendingData | WaitingFinishAck

  datatype Machine = Machine(phase: Phase, data: seq<byte>, offset: uint32, size: uint32, timerArmed: bool)

  const IDLE_MACHINE := Machine(Idle, [], 0, 0, false)

  datatype Operation = Transfer(kind: Kind) | BankErase | BankSwap | Other

  datatype Reason =
    | AlreadyRunning | OtherTransfer | CannotOpen | EmptyFile | BadImage | TooLarge | NoFiles | NoFolder
    | Refused(code: byte) | TimedOut | Disconnected

  datatype Output =
    | Send(cmd: byte, payload: seq<byte>)
    | Failed(op: Operation, why: Reason)
    | Progress(kind: Kind, percent: int)
    | Completed(kind: Kind)
    | BankErased
    | SwapStarted
    | FileDeleted
    | FileRenamed
    | DirMade
    | SdMount(mounted: bool)
    | QueueProgress(index: int, total: nat, localPath: Text)
    | QueueCompleted(total: nat)

  datatype QueueItem = QueueItem(localPath: Text, remotePath: Text)

  datatype Host = Host(
    file: Machine, fw: Machine, esp: Machine,
    erasePending: bool, swapPending: bool, staleNack: bool, flashAddr: uint32, pendingCmd: byte,
    queue: seq<QueueItem>, queueIndex: int, dirs: seq<Text>, dirIndex: int,
    sdMounted: bool, out: seq<Output>)

  const FRESH_HOST :=
    Host(IDLE_MACHINE, IDLE_MACHINE, IDLE_MACHINE, false, false, false, 0, 0, [], -1, [], -1, true, [])

  function Get(h: Host, k: Kind): Machine {
    match k case File => h.file case Fw => h.fw case Esp => h.esp
  }

  function With(h: Host, k: Kind, m: Machine): Host {
    match k case File => h.(file := m) case Fw => h.(fw := m) case Esp => h.(esp := m)
  }

  function Emit(h: Host, o: Output): Host {
    h.(out := h.out + [o])
  }

  function Fail(h: Host, op: Operation, why: Reason): Host {
    Emit(h, Failed(op, why))
  }

  predicate Active(h: Host, k: Kind) {
    Get(h, k).phase != Idle
  }

  /** `QByteArray::mid`, with its treatment of negative arguments. */
  function Mid(data: seq<byte>, pos: int, len: int): seq<byte> {
    if pos > |data| then []
    else if pos < 0 then
      if len < 0 || len + pos >= |data| then data
      else if len + pos <= 0 then []
      else data[..len + pos]
    else if len < 0 || len > |data| - pos then data[pos..]
    else data[pos..pos + len]
  }

  function MinInt(a: int, b: int): int {
    if a <= b then a else b
  }

  // ---------------------------------------------------------------------------
  // Requests
  // ---------------------------------------------------------------------------

  function Armed(h: Host, k: Kind, data: seq<byte>): Host {
    With(h, k, Machine(WaitingStartAck, data, 0, ToUint32(|data|), true))
  }

  function UploadFile(disk: Disk, h: Host, localPath: Text, remotePath: Text): Host {
    if Active(h, File) then Fail(h, Transfer(File), AlreadyRunning)
    else if Active(h, Fw) || Active(h, Esp) || h.erasePending then Fail(h, Transfer(File), OtherTransfer)
    else if localPath !in disk then Fail(h, Transfer(File), CannotOpen)
    else
      var data := disk[localPath];
      if ToUint32(|data|) == 0 then
        Fail(h.(file := h.file.(data := [], offset := 0, size := 0)), Transfer(File), EmptyFile)
      else
        Emit(Armed(h, File, data), Send(StartCmd(File), LE32(ToUint32(|data|)) + remotePath + [0]))
  }

  function StartFw(disk: Disk, h: Host, path: Text): Host {
    if Active(h, Fw) then Fail(h, Transfer(Fw), AlreadyRunning)
    else if Active(h, File) || Active(h, Esp) || h.erasePending then Fail(h, Transfer(Fw), OtherTransfer)
    else if path !in disk then Fail(h, Transfer(Fw), CannotOpen)
    else
      var data := disk[path];
      var size := ToUint32(|data|);
      var loaded := h.(fw := h.fw.(data := data, size := size));
      if size == 0 || size % 4 != 0 then Fail(loaded, Transfer(Fw), BadImage)
      else if size > FW_MAX_SIZE then Fail(loaded, Transfer(Fw), TooLarge)
      else Emit(Emit(Armed(h, Fw, data), Send(StartCmd(Fw), LE32(size) + LE32(0))), Progress(Fw, 0))
  }

  function ByteAt(data: seq<byte>, i: nat): byte {
    if i < |data| then data[i] else 0
  }

  predicate HasPartitionTable(data: seq<byte>) {
    |data| > PARTITION_TABLE + 1 && ByteAt(data, PARTITION_TABLE) == 0xAA && ByteAt(data, PARTITION_TABLE + 1) == 0x50
  }

  /** Why an ESP32 image does not fit the flash address it was selected for. */
  function ImageFault(data: seq<byte>, size: uint32, addr: uint32): (r: Option<Reason>)
    ensures r.Some? ==> r.value == BadImage || r.value == TooLarge
  {
    if addr == FACTORY_ADDR then
      if ByteAt(data, 0) != 0xE9 || !HasPartitionTable(data) then Some(BadImage) else None
    else if addr == APP_ADDR then
      if ByteAt(data, 0) != 0xE9 || HasPartitionTable(data) then Some(BadImage)
      else if size > APP_MAX_SIZE then Some(TooLarge)
      else None
    else None
  }

  function StartEsp(disk: Disk, h: Host, path: Text, addr: uint32, force: bool): Host {
    if Active(h, Esp) then Fail(h, Transfer(Esp), AlreadyRunning)
    else if Active(h, File) || Active(h, Fw) || h.erasePending then Fail(h, Transfer(Esp), OtherTransfer)
    else if path !in disk then Fail(h, Transfer(Esp), CannotOpen)
    else
      var data := disk[path];
      var size := ToUint32(|data|);
      var addressed := h.(flashAddr := addr);
      var rejected := addressed.(esp := h.esp.(data := [], size := size));
      if size == 0 then Fail(rejected, Transfer(Esp), EmptyFile)
      else
        var fault := if force then None else ImageFault(data, size, addr);
        if fault.Some? then Fail(rejected, Transfer(Esp), fault.value)
        else
          Emit(Emit(Armed(addressed, Esp, data),
                    Send(StartCmd(Esp), LE32(size) + LE32(addr))), Progress(Esp, 0))
  }

  function EraseBank(h: Host): Host {
    if Active(h, File) || Active(h, Fw) || Active(h, Esp) || h.erasePending then Fail(h, BankErase, OtherTransfer)
    else Emit(h.(erasePending := true), Send(CMD_FW_BANK_ERASE, []))
  }

  function SwapBanks(h: Host): Host {
    Emit(h.(swapPending := true), Send(CMD_FW_BANK_SWAP, []))
  }

  /** Delete, rename, mkdir, mount and unmount: the next free ACK is attributed to `cmd`. */
  function FileCommand(h: Host, cmd: byte, payload: seq<byte>): Host {
    Emit(h.(pendingCmd := cmd), Send(cmd, payload))
  }

  function WithSlash(path: Text): Text {
    if path != [] && path[|path| - 1] == SLASH then path else path + [SLASH]
  }

  function StartQueue(disk: Disk, h: Host): Host {
    if h.queue == [] then Emit(h, QueueCompleted(0))
    else
      var item := h.queue[0];
      UploadFile(disk, Emit(h.(queueIndex := 0), QueueProgress(1, |h.queue|, item.localPath)),
                 item.localPath, item.remotePath)
  }

  datatype LocalFile = LocalFile(localPath: Text, name: Text)

  function RemoteItems(files: seq<LocalFile>, remotePath: Text): (r: seq<QueueItem>)
    ensures |r| == |files|
  {
    if files == [] then []
    else [QueueItem(files[0].localPath, WithSlash(remotePath) + files[0].name)] + RemoteItems(files[1..], remotePath)
  }

  function UploadFiles(disk: Disk, h: Host, files: seq<LocalFile>, remotePath: Text): Host {
    if h.queueIndex >= 0 || Active(h, File) then Fail(h, Transfer(File), AlreadyRunning)
    else
      var queued := h.(queue := RemoteItems(files, remotePath), dirs := [], dirIndex := -1);
      if files == [] then Fail(queued, Transfer(File), NoFiles) else StartQueue(disk, queued)
  }

  /** What a directory iterator reports below a local folder. */
  datatype Entry = Entry(isDir: bool, localPath: Text, relPath: Text)

  function RemoteDirs(base: Text, entries: seq<Entry>): seq<Text> {
    if entries == [] then []
    else (if entries[0].isDir then [base + [SLASH] + entries[0].relPath] else []) + RemoteDirs(base, entries[1..])
  }

  function RemoteFiles(base: Text, entries: seq<Entry>): seq<QueueItem> {
    if entries == [] then []
    else (if entries[0].isDir then [] else [QueueItem(entries[0].localPath, base + [SLASH] + entries[0].relPath)])
         + RemoteFiles(base, entries[1..])
  }

  function InsertByLength(d: Text, sorted: seq<Text>): seq<Text> {
    if sorted == [] || |d| <= |sorted[0]| then [d] + sorted
    else [sorted[0]] + InsertByLength(d, sorted[1..])
  }

  function SortByLength(dirs: seq<Text>): seq<Text> {
    if dirs == [] then [] else InsertByLength(dirs[0], SortByLength(dirs[1..]))
  }

  function MkdirPayload(dir: Text): seq<byte> {
    dir + [0]
  }

  function UploadFolder(h: Host, folder: Option<seq<Entry>>, baseName: Text, remotePath: Text): Host {
    if h.queueIndex >= 0 || Active(h, File) then Fail(h, Transfer(File), AlreadyRunning)
    else if folder.None? then Fail(h, Transfer(File), NoFolder)
    else
      var base := WithSlash(remotePath) + baseName;
      var dirs := SortByLength([base] + RemoteDirs(base, folder.value));
      var files := RemoteFiles(base, folder.value);
      if dirs == [] then h  // the list holds at least the folder itself
      else
        var queued := h.(queue := files, dirs := dirs, dirIndex := 0);
        FileCommand(Emit(queued, QueueProgress(0, |files|, [])), CMD_FILE_MKDIR, MkdirPayload(dirs[0]))
  }

  // ---------------------------------------------------------------------------
  // Replies, timers and disconnects
  // ---------------------------------------------------------------------------

  function Percent(offset: uint32, size: uint32): int {
    if size == 0 then 0 else ToUint32(offset * 100) / size
  }

  /** The next DATA or FINISH command of a machine, in the fixed widths of the source. */
  function NextChunk(k: Kind, m: Machine): (Machine, seq<Output>) {
    if m.offset >= m.size then
      (m.(phase := WaitingFinishAck, timerArmed := true), [Send(FinishCmd(k), [])])
    else
      var chunkLen := MinInt(ChunkSize(k), AsInt32(m.size - m.offset));
      var payload := LE32(m.offset) + Mid(m.data, AsInt32(m.offset), chunkLen);
      var offset := ToUint32(m.offset + chunkLen);
      (m.(offset := offset), [Send(DataCmd(k), payload), Progress(k, Percent(offset, m.size))])
  }

  /** A machine that was active after an ACK, and what it emitted. */
  function AckMachine(k: Kind, m: Machine): (Machine, seq<Output>) {
    if m.phase == WaitingFinishAck then (m.(phase := Idle, data := [], timerArmed := false), [])
    else NextChunk(k, m.(phase := SendingData, timerArmed := true))
  }

  function AdvanceQueue(disk: Disk, h: Host): Host {
    var i := h.queueIndex + 1;
    if i >= |h.queue| then Emit(h.(queue := [], queueIndex := -1), QueueCompleted(|h.queue|))
    else if i < 0 then h
    else
      var item := h.queue[i];
      UploadFile(disk, Emit(h.(queueIndex := i), QueueProgress(i + 1, |h.queue|, item.localPath)),
                 item.localPath, item.remotePath)
  }

  function AdvanceDirs(disk: Disk, h: Host): Host {
    var i := h.dirIndex + 1;
    if i >= |h.dirs| then
      var made := h.(dirs := [], dirIndex := -1);
      if h.queue != [] then StartQueue(disk, made) else Emit(made, QueueCompleted(0))
    else if i < 0 then h
    else FileCommand(h.(dirIndex := i), CMD_FILE_MKDIR, MkdirPayload(h.dirs[i]))
  }

  /** Which machine an ACK or NACK goes to. */
  function Owner(h: Host): Option<Kind> {
    if h.erasePending || h.swapPending then None
    else if Active(h, Fw) then Some(Fw)
    else if Active(h, Esp) then Some(Esp)
    else if Active(h, File) then Some(File)
    else None
  }

  function AckOwned(disk: Disk, h: Host, k: Kind): Host {
    var (m, outs) := AckMachine(k, Get(h, k));
    var h' := With(h, k, m).(out := h.out + outs);
    if m.phase != Idle then h'
    else if k == File && h.queueIndex >= 0 then AdvanceQueue(disk, h')
    else Emit(h', Completed(k))
  }

  function AckFileCommand(disk: Disk, h: Host): Host {
    var pending := h.pendingCmd;
    var h' := h.(pendingCmd := 0);
    if pending == CMD_FILE_DELETE || pending == CMD_FILE_DELETE_TREE then Emit(h', FileDeleted)
    else if pending == CMD_FILE_RENAME then Emit(h', FileRenamed)
    else if pending == CMD_FILE_MKDIR then
      if h.dirIndex >= 0 then AdvanceDirs(disk, h') else Emit(h', DirMade)
    else if pending == CMD_SD_UNMOUNT then Emit(h'.(sdMounted := false), SdMount(false))
    else if pending == CMD_SD_MOUNT then Emit(h'.(sdMounted := true), SdMount(true))
    else h'.(staleNack := false)
  }

  function OnAck(disk: Disk, h: Host): Host {
    if h.erasePending then Emit(h.(erasePending := false), BankErased)
    else if h.swapPending then Emit(h.(swapPending := false), SwapStarted)
    else
      match Owner(h)
      case Some(k) => AckOwned(disk, h, k)
      case None => AckFileCommand(disk, h)
  }

  function Stopped(m: Machine): Machine {
    m.(phase := Idle, data := [], timerArmed := false)
  }

  function WithoutQueues(h: Host): Host {
    h.(queue := [], queueIndex := -1, dirs := [], dirIndex := -1)
  }

  function OnNack(h: Host, code: byte): Host {
    if h.erasePending then Fail(h.(erasePending := false), BankErase, Refused(code))
    else if h.swapPending then Fail(h.(swapPending := false), BankSwap, Refused(code))
    else
      match Owner(h)
      case Some(k) =>
        var h' := With(h, k, Stopped(Get(h, k)));
        Fail(if k == File then WithoutQueues(h') else h', Transfer(k), Refused(code))
      case None =>
        if h.staleNack then h.(staleNack := false)
        else Fail(h.(pendingCmd := 0), Other, Refused(code))
  }

  function OnTimeout(h: Host, k: Kind): Host {
    if !Get(h, k).timerArmed then h
    else if !Active(h, k) then With(h, k, Get(h, k).(timerArmed := false))
    else
      var h' := With(h, k, Stopped(Get(h, k)));
      var told := if k == Esp then Emit(h'.(staleNack := true), Send(FinishCmd(Esp), [])) else h';
      Fail(told, Transfer(k), TimedOut)
  }

  /** The timer is stopped; an active transfer ends with an error. */
  function Drop(h: Host, k: Kind): Host {
    if Active(h, k) then Fail(With(h, k, Stopped(Get(h, k))), Transfer(k), Disconnected)
    else With(h, k, Get(h, k).(timerArmed := false))
  }

  function OnDisconnect(h: Host): Host {
    WithoutQueues(Drop(Drop(Drop(h.(swapPending := false), Fw).(staleNack := false), Esp), File)).(sdMounted := true)
  }

  // ---------------------------------------------------------------------------
  // Runs
  // ---------------------------------------------------------------------------

  datatype Event =
    | DoUploadFile(localPath: Text, remotePath: Text)
    | DoUploadFiles(files: seq<LocalFile>, remotePath: Text)
    | DoUploadFolder(folder: Option<seq<Entry>>, baseName: Text, remotePath: Text)
    | DoStartFw(path: Text)
    | DoStartEsp(path: Text, addr: uint32, force: bool)
    | DoEraseBank
    | DoSwapBanks
    | DoFileCommand(cmd: byte, payload: seq<byte>)
    | Ack
    | Nack(code: byte)
    | Timeout(kind: Kind)
    | Disconnect

  function Next(disk: Disk, h: Host, e: Event): Host {
    match e
    case DoUploadFile(localPath, remotePath) => UploadFile(disk, h, localPath, remotePath)
    case DoUploadFiles(files, remotePath) => UploadFiles(disk, h, files, remotePath)
    case DoUploadFolder(folder, baseName, remotePath) => UploadFolder(h, folder, baseName, remotePath)
    case DoStartFw(path) => StartFw(disk, h, path)
    case DoStartEsp(path, addr, force) => StartEsp(disk, h, path, addr, force)
    case DoEraseBank => EraseBank(h)
    case DoSwapBanks => SwapBanks(h)
    case DoFileCommand(cmd, payload) => FileCommand(h, cmd, payload)
    case Ack => OnAck(disk, h)
    case Nack(code) => OnNack(h, code)
    case Timeout(k) => OnTimeout(h, k)
    case Disconnect => OnDisconnect(h)
  }

  function Run(disk: Disk, h: Host, es: seq<Event>): Host {
    if es == [] then h else Next(disk, Run(disk, h, es[..|es| - 1]), es[|es| - 1])
  }
}
