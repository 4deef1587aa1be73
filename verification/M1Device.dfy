// m1_device.cpp: the transfer part of the device facade, field by field and branch by branch,
// with its three hand-written machines. Every method is proved to be the step of HostModel
// on the value that the fields stand for, so what HostRuns proves of all runs holds of it.

module M1Device {
  import opened Bytes
  import opened HostModel
  import opened HostRuns
  import opened HostReports

  class Device {
    /** The m_fwUpdate*, m_espUpdate* and m_fileUpload* fields, each with its timeout timer. */
    var fwUpdate: Machine
    var espUpdate: Machine
    var fileUpload: Machine
    var espUpdateFlashAddr: uint32
    var espUpdateStaleNack: bool

    var bankErasePending: bool
    var bankSwapPending: bool
    var pendingFileCmd: byte
    var uploadQueue: seq<QueueItem>
    var uploadQueueIndex: int
    var mkdirQueue: seq<Text>
    var mkdirQueueIndex: int
    var sdMounted: bool

    /** Commands sent and signals emitted so far. */
    var out: seq<Output>

    ghost function View(): Host
      reads this
    {
      Host(fileUpload, fwUpdate, espUpdate,
           bankErasePending, bankSwapPending, espUpdateStaleNack, espUpdateFlashAddr, pendingFileCmd,
           uploadQueue, uploadQueueIndex, mkdirQueue, mkdirQueueIndex, sdMounted, out)
    }

    constructor ()
      ensures View() == FRESH_HOST && Inv(View())
    {
      fwUpdate, espUpdate, fileUpload := IDLE_MACHINE, IDLE_MACHINE, IDLE_MACHINE;
      espUpdateFlashAddr, espUpdateStaleNack := 0, false;
      bankErasePending, bankSwapPending, pendingFileCmd := false, false, 0;
      uploadQueue, uploadQueueIndex, mkdirQueue, mkdirQueueIndex := [], -1, [], -1;
      sdMounted, out := true, [];
    }

    // --- file upload ---

    method UploadFile(disk: Disk, localPath: Text, remotePath: Text)
      modifies `fileUpload, `out
      ensures View() == HostModel.UploadFile(disk, old(View()), localPath, remotePath)
    {
      hide ToUint32, LE32;
      if fileUpload.phase != Idle {
        out := out + [Failed(Transfer(File), AlreadyRunning)];
        return;
      }
      if fwUpdate.phase != Idle || espUpdate.phase != Idle || bankErasePending {
        out := out + [Failed(Transfer(File), OtherTransfer)];
        return;
      }
      if localPath !in disk {
        out := out + [Failed(Transfer(File), CannotOpen)];
        return;
      }
      fileUpload := fileUpload.(data := disk[localPath]);
      fileUpload := fileUpload.(size := ToUint32(|fileUpload.data|));
      fileUpload := fileUpload.(offset := 0);
      if fileUpload.size == 0 {
        out := out + [Failed(Transfer(File), EmptyFile)];
        fileUpload := fileUpload.(data := []);
        return;
      }
      var payload := LE32(fileUpload.size) + remotePath + [0];
      fileUpload := fileUpload.(phase := WaitingStartAck, timerArmed := true);
      out := out + [Send(StartCmd(File), payload)];
    }

    method FileUploadSendNextChunk()
      modifies `fileUpload, `out
      ensures var (m, outs) := NextChunk(File, old(View()).file);
              View() == old(View()).(file := m, out := old(out) + outs)
    {
      hide ToUint32, LE32, Mid, Percent;
      if fileUpload.offset >= fileUpload.size {
        fileUpload := fileUpload.(phase := WaitingFinishAck, timerArmed := true);
        out := out + [Send(FinishCmd(File), [])];
        return;
      }
      var chunkLen := MinInt(512, AsInt32(fileUpload.size - fileUpload.offset));
      var chunkPayload := LE32(fileUpload.offset);
      chunkPayload := chunkPayload + Mid(fileUpload.data, AsInt32(fileUpload.offset), chunkLen);
      out := out + [Send(DataCmd(File), chunkPayload)];
      fileUpload := fileUpload.(offset := ToUint32(fileUpload.offset + chunkLen));
      out := out + [Progress(File, Percent(fileUpload.offset, fileUpload.size))];
    }

    method FileCommand(cmd: byte, payload: seq<byte>)
      modifies `pendingFileCmd, `out
      ensures View() == HostModel.FileCommand(old(View()), cmd, payload)
    {
      pendingFileCmd := cmd;
      out := out + [Send(cmd, payload)];
    }

    // --- queues ---

    method UploadFiles(disk: Disk, files: seq<LocalFile>, remotePath: Text)
      modifies this
      ensures View() == HostModel.UploadFiles(disk, old(View()), files, remotePath)
    {
      hide StartQueue, RemoteItems;
      if uploadQueueIndex >= 0 || fileUpload.phase != Idle {
        out := out + [Failed(Transfer(File), AlreadyRunning)];
        return;
      }
      mkdirQueue := [];
      mkdirQueueIndex := -1;
      uploadQueue := CollectItems(files, remotePath);
      if uploadQueue == [] {
        out := out + [Failed(Transfer(File), NoFiles)];
        return;
      }
      StartUploadQueue(disk);
    }

    method CollectItems(files: seq<LocalFile>, remotePath: Text) returns (items: seq<QueueItem>)
      ensures items == RemoteItems(files, remotePath)
    {
      items := [];
      for i := 0 to |files|
        invariant items + RemoteItems(files[i..], remotePath) == RemoteItems(files, remotePath)
      {
        var rp := remotePath;
        if !(rp != [] && rp[|rp| - 1] == SLASH) {
          rp := rp + [SLASH];
        }
        assert files[i..][1..] == files[i + 1..];
        items := items + [QueueItem(files[i].localPath, rp + files[i].name)];
      }
    }

    method UploadFolder(folder: Option<seq<Entry>>, baseName: Text, remotePath: Text)
      modifies `uploadQueue, `mkdirQueue, `mkdirQueueIndex, `pendingFileCmd, `out
      ensures View() == HostModel.UploadFolder(old(View()), folder, baseName, remotePath)
    {
      hide SortByLength, RemoteDirs, RemoteFiles, WithSlash, MkdirPayload;
      if uploadQueueIndex >= 0 || fileUpload.phase != Idle {
        out := out + [Failed(Transfer(File), AlreadyRunning)];
        return;
      }
      if folder.None? {
        out := out + [Failed(Transfer(File), NoFolder)];
        return;
      }
      var remoteBase := WithSlash(remotePath) + baseName;
      var dirs, files := CollectEntries(remoteBase, folder.value);
      dirs := SortDirs(dirs);
      ghost var h := View();
      if dirs == [] {
        return;
      }
      uploadQueue := files;
      mkdirQueue := dirs;
      mkdirQueueIndex := 0;
      out := out + [QueueProgress(0, |files|, [])];
      assert View() == Emit(h.(queue := files, dirs := dirs, dirIndex := 0), QueueProgress(0, |files|, []));
      FileCommand(CMD_FILE_MKDIR, MkdirPayload(dirs[0]));
    }

    method CollectEntries(remoteBase: Text, entries: seq<Entry>) returns (dirs: seq<Text>, files: seq<QueueItem>)
      ensures dirs == [remoteBase] + RemoteDirs(remoteBase, entries)
      ensures files == RemoteFiles(remoteBase, entries)
    {
      dirs, files := [remoteBase], [];
      for i := 0 to |entries|
        invariant dirs + RemoteDirs(remoteBase, entries[i..]) == [remoteBase] + RemoteDirs(remoteBase, entries)
        invariant files + RemoteFiles(remoteBase, entries[i..]) == RemoteFiles(remoteBase, entries)
      {
        assert entries[i..][1..] == entries[i + 1..];
        var remoteFull := remoteBase + [SLASH] + entries[i].relPath;
        if entries[i].isDir {
          dirs := dirs + [remoteFull];
        } else {
          files := files + [QueueItem(entries[i].localPath, remoteFull)];
        }
      }
    }

    method SortDirs(dirs: seq<Text>) returns (sorted: seq<Text>)
      ensures sorted == SortByLength(dirs)
    {
      sorted := [];
      var n := |dirs|;
      while n > 0
        invariant 0 <= n <= |dirs|
        invariant sorted == SortByLength(dirs[n..])
      {
        n := n - 1;
        assert dirs[n..][1..] == dirs[n + 1..];
        sorted := InsertByLength(dirs[n], sorted);
      }
    }

    method StartUploadQueue(disk: Disk)
      modifies `fileUpload, `uploadQueueIndex, `out
      ensures View() == StartQueue(disk, old(View()))
    {
      hide HostModel.UploadFile;
      if uploadQueue == [] {
        out := out + [QueueCompleted(0)];
        return;
      }
      uploadQueueIndex := 0;
      var item := uploadQueue[0];
      out := out + [QueueProgress(1, |uploadQueue|, item.localPath)];
      UploadFile(disk, item.localPath, item.remotePath);
    }

    method AdvanceUploadQueue(disk: Disk)
      requires uploadQueueIndex >= -1
      modifies `fileUpload, `uploadQueue, `uploadQueueIndex, `out
      ensures View() == AdvanceQueue(disk, old(View()))
    {
      hide HostModel.UploadFile;
      uploadQueueIndex := uploadQueueIndex + 1;
      if uploadQueueIndex >= |uploadQueue| {
        var total := |uploadQueue|;
        uploadQueue := [];
        uploadQueueIndex := -1;
        out := out + [QueueCompleted(total)];
        return;
      }
      var item := uploadQueue[uploadQueueIndex];
      out := out + [QueueProgress(uploadQueueIndex + 1, |uploadQueue|, item.localPath)];
      UploadFile(disk, item.localPath, item.remotePath);
    }

    method AdvanceMkdirQueue(disk: Disk)
      requires mkdirQueueIndex >= -1
      modifies this
      ensures View() == AdvanceDirs(disk, old(View()))
    {
      hide StartQueue;
      mkdirQueueIndex := mkdirQueueIndex + 1;
      if mkdirQueueIndex >= |mkdirQueue| {
        mkdirQueue := [];
        mkdirQueueIndex := -1;
        if uploadQueue != [] {
          StartUploadQueue(disk);
        } else {
          out := out + [QueueCompleted(0)];
        }
        return;
      }
      FileCommand(CMD_FILE_MKDIR, MkdirPayload(mkdirQueue[mkdirQueueIndex]));
    }

    // --- firmware update ---

    method StartFwUpdate(disk: Disk, binFilePath: Text)
      modifies `fwUpdate, `out
      ensures View() == StartFw(disk, old(View()), binFilePath)
    {
      hide ToUint32, LE32;
      if fwUpdate.phase != Idle {
        out := out + [Failed(Transfer(Fw), AlreadyRunning)];
        return;
      }
      if fileUpload.phase != Idle || espUpdate.phase != Idle || bankErasePending {
        out := out + [Failed(Transfer(Fw), OtherTransfer)];
        return;
      }
      if binFilePath !in disk {
        out := out + [Failed(Transfer(Fw), CannotOpen)];
        return;
      }
      fwUpdate := fwUpdate.(data := disk[binFilePath]);
      fwUpdate := fwUpdate.(size := ToUint32(|fwUpdate.data|));
      if fwUpdate.size == 0 || fwUpdate.size % 4 != 0 {
        out := out + [Failed(Transfer(Fw), BadImage)];
        return;
      }
      if fwUpdate.size > 0x100000 {
        out := out + [Failed(Transfer(Fw), TooLarge)];
        return;
      }
      var payload := LE32(fwUpdate.size) + LE32(0);
      fwUpdate := fwUpdate.(offset := 0, phase := WaitingStartAck, timerArmed := true);
      out := out + [Send(StartCmd(Fw), payload)];
      out := out + [Progress(Fw, 0)];
    }

    method FwUpdateSendNextChunk()
      modifies `fwUpdate, `out
      ensures var (m, outs) := NextChunk(Fw, old(View()).fw);
              View() == old(View()).(fw := m, out := old(out) + outs)
    {
      hide ToUint32, LE32, Mid, Percent;
      if fwUpdate.offset >= fwUpdate.size {
        fwUpdate := fwUpdate.(phase := WaitingFinishAck, timerArmed := true);
        out := out + [Send(FinishCmd(Fw), [])];
        return;
      }
      var chunkLen := MinInt(1024, AsInt32(fwUpdate.size - fwUpdate.offset));
      var chunkPayload := LE32(fwUpdate.offset);
      chunkPayload := chunkPayload + Mid(fwUpdate.data, AsInt32(fwUpdate.offset), chunkLen);
      out := out + [Send(DataCmd(Fw), chunkPayload)];
      fwUpdate := fwUpdate.(offset := ToUint32(fwUpdate.offset + chunkLen));
      out := out + [Progress(Fw, Percent(fwUpdate.offset, fwUpdate.size))];
    }

    method SwapBanks()
      modifies `bankSwapPending, `out
      ensures View() == HostModel.SwapBanks(old(View()))
    {
      bankSwapPending := true;
      out := out + [Send(CMD_FW_BANK_SWAP, [])];
    }

    method EraseInactiveBank()
      modifies `bankErasePending, `out
      ensures View() == EraseBank(old(View()))
    {
      if fileUpload.phase != Idle || fwUpdate.phase != Idle || espUpdate.phase != Idle || bankErasePending {
        out := out + [Failed(BankErase, OtherTransfer)];
        return;
      }
      bankErasePending := true;
      out := out + [Send(CMD_FW_BANK_ERASE, [])];
    }

    // --- ESP32 update ---

    method StartEspUpdate(disk: Disk, binFilePath: Text, flashAddr: uint32, force: bool)
      modifies `espUpdate, `espUpdateFlashAddr, `out
      ensures View() == StartEsp(disk, old(View()), binFilePath, flashAddr, force)
    {
      hide ToUint32, LE32, ImageFault;
      if espUpdate.phase != Idle {
        out := out + [Failed(Transfer(Esp), AlreadyRunning)];
        return;
      }
      if fileUpload.phase != Idle || fwUpdate.phase != Idle || bankErasePending {
        out := out + [Failed(Transfer(Esp), OtherTransfer)];
        return;
      }
      if binFilePath !in disk {
        out := out + [Failed(Transfer(Esp), CannotOpen)];
        return;
      }
      espUpdate := espUpdate.(data := disk[binFilePath]);
      espUpdate := espUpdate.(size := ToUint32(|espUpdate.data|));
      espUpdateFlashAddr := flashAddr;
      if espUpdate.size == 0 {
        out := out + [Failed(Transfer(Esp), EmptyFile)];
        espUpdate := espUpdate.(data := []);
        return;
      }
      if !force {
        var fault := CheckImage(espUpdate.data, espUpdate.size, flashAddr);
        if fault.Some? {
          out := out + [Failed(Transfer(Esp), fault.value)];
          espUpdate := espUpdate.(data := []);
          return;
        }
      }
      var payload := LE32(espUpdate.size) + LE32(espUpdateFlashAddr);
      espUpdate := espUpdate.(offset := 0, phase := WaitingStartAck, timerArmed := true);
      out := out + [Send(StartCmd(Esp), payload)];
      out := out + [Progress(Esp, 0)];
    }

    /** Does the image match the selected flash type? */
    method CheckImage(data: seq<byte>, size: uint32, flashAddr: uint32) returns (fault: Option<Reason>)
      ensures fault == ImageFault(data, size, flashAddr)
    {
      if flashAddr == 0x00000 {
        var hasBootloader := ByteAt(data, 0) == 0xE9;
        var hasPartTable := HasPartitionTable(data);
        if !hasBootloader || !hasPartTable {
          return Some(BadImage);
        }
      } else if flashAddr == 0x60000 {
        var hasEspMagic := ByteAt(data, 0) == 0xE9;
        var hasPartTable := HasPartitionTable(data);
        if !hasEspMagic {
          return Some(BadImage);
        }
        if hasPartTable {
          return Some(BadImage);
        }
        if size > 1600 * 1024 {
          return Some(TooLarge);
        }
      }
      return None;
    }

    method EspUpdateSendNextChunk()
      modifies `espUpdate, `out
      ensures var (m, outs) := NextChunk(Esp, old(View()).esp);
              View() == old(View()).(esp := m, out := old(out) + outs)
    {
      hide ToUint32, LE32, Mid, Percent;
      if espUpdate.offset >= espUpdate.size {
        espUpdate := espUpdate.(phase := WaitingFinishAck, timerArmed := true);
        out := out + [Send(FinishCmd(Esp), [])];
        return;
      }
      var chunkLen := MinInt(1024, AsInt32(espUpdate.size - espUpdate.offset));
      var chunkPayload := LE32(espUpdate.offset);
      chunkPayload := chunkPayload + Mid(espUpdate.data, AsInt32(espUpdate.offset), chunkLen);
      out := out + [Send(DataCmd(Esp), chunkPayload)];
      espUpdate := espUpdate.(offset := ToUint32(espUpdate.offset + chunkLen));
      out := out + [Progress(Esp, Percent(espUpdate.offset, espUpdate.size))];
    }

    // --- replies ---

    method HandleAck(disk: Disk)
      requires uploadQueueIndex >= -1 && mkdirQueueIndex >= -1
      modifies this
      ensures View() == OnAck(disk, old(View()))
    {
      hide NextChunk, AdvanceQueue, AdvanceDirs;
      if bankErasePending {
        bankErasePending := false;
        out := out + [BankErased];
        return;
      }
      if bankSwapPending {
        bankSwapPending := false;
        out := out + [SwapStarted];
        return;
      }
      if fwUpdate.phase != Idle {
        HandleFwAck(disk);
        return;
      }
      if espUpdate.phase != Idle {
        HandleEspAck(disk);
        return;
      }
      if fileUpload.phase != Idle {
        HandleFileAck(disk);
        return;
      }
      HandleCommandAck(disk);
    }

    method HandleFwAck(disk: Disk)
      requires fwUpdate.phase != Idle
      modifies `fwUpdate, `out
      ensures View() == AckOwned(disk, old(View()), Fw)
    {
      hide NextChunk;
      NextChunkStaysActive(Fw, View().fw);
      match fwUpdate.phase {
        case WaitingStartAck =>
          fwUpdate := fwUpdate.(phase := SendingData, timerArmed := true);
          FwUpdateSendNextChunk();
        case SendingData =>
          fwUpdate := fwUpdate.(timerArmed := true);
          FwUpdateSendNextChunk();
        case WaitingFinishAck =>
          fwUpdate := fwUpdate.(timerArmed := false, phase := Idle, data := []);
          out := out + [Completed(Fw)];
      }
    }

    method HandleEspAck(disk: Disk)
      requires espUpdate.phase != Idle
      modifies `espUpdate, `out
      ensures View() == AckOwned(disk, old(View()), Esp)
    {
      hide NextChunk;
      NextChunkStaysActive(Esp, View().esp);
      match espUpdate.phase {
        case WaitingStartAck =>
          espUpdate := espUpdate.(phase := SendingData, timerArmed := true);
          EspUpdateSendNextChunk();
        case SendingData =>
          espUpdate := espUpdate.(timerArmed := true);
          EspUpdateSendNextChunk();
        case WaitingFinishAck =>
          espUpdate := espUpdate.(timerArmed := false, phase := Idle, data := []);
          out := out + [Completed(Esp)];
      }
    }

    method HandleFileAck(disk: Disk)
      requires fileUpload.phase != Idle && uploadQueueIndex >= -1
      modifies `fileUpload, `uploadQueue, `uploadQueueIndex, `out
      ensures View() == AckOwned(disk, old(View()), File)
    {
      hide NextChunk, AdvanceQueue, WithoutQueues;
      NextChunkStaysActive(File, View().file);
      match fileUpload.phase {
        case WaitingStartAck =>
          fileUpload := fileUpload.(phase := SendingData, timerArmed := true);
          FileUploadSendNextChunk();
        case SendingData =>
          fileUpload := fileUpload.(timerArmed := true);
          FileUploadSendNextChunk();
        case WaitingFinishAck =>
          fileUpload := fileUpload.(timerArmed := false, phase := Idle, data := []);
          assert out == out + [];
          if uploadQueueIndex >= 0 {
            AdvanceUploadQueue(disk);
          } else {
            out := out + [Completed(File)];
          }
      }
    }

    method HandleCommandAck(disk: Disk)
      requires mkdirQueueIndex >= -1
      modifies this
      ensures View() == AckFileCommand(disk, old(View()))
    {
      hide AdvanceDirs;
      var pending := pendingFileCmd;
      pendingFileCmd := 0;
      if pending == CMD_FILE_DELETE || pending == CMD_FILE_DELETE_TREE {
        out := out + [FileDeleted];
      } else if pending == CMD_FILE_RENAME {
        out := out + [FileRenamed];
      } else if pending == CMD_FILE_MKDIR {
        if mkdirQueueIndex >= 0 {
          AdvanceMkdirQueue(disk);
        } else {
          out := out + [DirMade];
        }
      } else if pending == CMD_SD_UNMOUNT {
        sdMounted := false;
        out := out + [SdMount(false)];
      } else if pending == CMD_SD_MOUNT {
        sdMounted := true;
        out := out + [SdMount(true)];
      } else if espUpdateStaleNack {
        espUpdateStaleNack := false;
      }
    }

    method HandleNack(errCode: byte)
      modifies this
      ensures View() == OnNack(old(View()), errCode)
    {
      if bankErasePending {
        bankErasePending := false;
        out := out + [Failed(BankErase, Refused(errCode))];
        return;
      }
      if bankSwapPending {
        bankSwapPending := false;
        out := out + [Failed(BankSwap, Refused(errCode))];
        return;
      }
      if fwUpdate.phase != Idle || espUpdate.phase != Idle || fileUpload.phase != Idle {
        AbortTransfer(errCode);
        return;
      }
      if espUpdateStaleNack {
        espUpdateStaleNack := false;
        return;
      }
      pendingFileCmd := 0;
      out := out + [Failed(Other, Refused(errCode))];
    }

    method AbortTransfer(errCode: byte)
      requires fwUpdate.phase != Idle || espUpdate.phase != Idle || fileUpload.phase != Idle
      requires !bankErasePending && !bankSwapPending
      modifies this
      ensures View() == OnNack(old(View()), errCode)
    {
      if fwUpdate.phase != Idle {
        fwUpdate := fwUpdate.(timerArmed := false, phase := Idle, data := []);
        out := out + [Failed(Transfer(Fw), Refused(errCode))];
      } else if espUpdate.phase != Idle {
        espUpdate := espUpdate.(timerArmed := false, phase := Idle, data := []);
        out := out + [Failed(Transfer(Esp), Refused(errCode))];
      } else {
        AbortFileUpload(errCode);
      }
    }

    method AbortFileUpload(errCode: byte)
      modifies this
      ensures View() == Fail(WithoutQueues(With(old(View()), File, Stopped(old(View()).file))),
                             Transfer(File), Refused(errCode))
    {
      fileUpload := fileUpload.(timerArmed := false, phase := Idle, data := []);
      ClearQueues();
      out := out + [Failed(Transfer(File), Refused(errCode))];
    }

    method ClearQueues()
      modifies `uploadQueue, `uploadQueueIndex, `mkdirQueue, `mkdirQueueIndex
      ensures View() == WithoutQueues(old(View()))
    {
      uploadQueue := [];
      uploadQueueIndex := -1;
      mkdirQueue := [];
      mkdirQueueIndex := -1;
    }

    // --- timers (single-shot: firing disarms them) and disconnect ---

    method FwTimeoutFires()
      requires fwUpdate.timerArmed
      modifies `fwUpdate, `out
      ensures View() == OnTimeout(old(View()), Fw)
    {
      fwUpdate := fwUpdate.(timerArmed := false);
      if fwUpdate.phase != Idle {
        fwUpdate := fwUpdate.(phase := Idle, data := []);
        out := out + [Failed(Transfer(Fw), TimedOut)];
      }
    }

    method EspTimeoutFires()
      requires espUpdate.timerArmed
      modifies `espUpdate, `espUpdateStaleNack, `out
      ensures View() == OnTimeout(old(View()), Esp)
    {
      espUpdate := espUpdate.(timerArmed := false);
      if espUpdate.phase != Idle {
        out := out + [Send(FinishCmd(Esp), [])];
        espUpdate := espUpdate.(phase := Idle, data := []);
        espUpdateStaleNack := true;
        out := out + [Failed(Transfer(Esp), TimedOut)];
      }
    }

    method FileTimeoutFires()
      requires fileUpload.timerArmed
      modifies `fileUpload, `out
      ensures View() == OnTimeout(old(View()), File)
    {
      fileUpload := fileUpload.(timerArmed := false);
      if fileUpload.phase != Idle {
        fileUpload := fileUpload.(phase := Idle, data := []);
        out := out + [Failed(Transfer(File), TimedOut)];
      }
    }

    method OnTransportDisconnected()
      modifies this
      ensures View() == OnDisconnect(old(View()))
    {
      hide Drop, WithoutQueues;
      bankSwapPending := false;
      ghost var h0 := View();
      DropFw();
      espUpdateStaleNack := false;
      assert View() == Drop(h0, Fw).(staleNack := false);
      DropEsp();
      DropFile();
      ClearQueues();
      ghost var h3 := View();
      sdMounted := true;
      assert View() == h3.(sdMounted := true);
    }

    method DropFw()
      modifies `fwUpdate, `out
      ensures View() == Drop(old(View()), Fw)
    {
      fwUpdate := fwUpdate.(timerArmed := false);
      if fwUpdate.phase != Idle {
        fwUpdate := fwUpdate.(phase := Idle, data := []);
        out := out + [Failed(Transfer(Fw), Disconnected)];
      }
    }

    method DropEsp()
      modifies `espUpdate, `out
      ensures View() == Drop(old(View()), Esp)
    {
      espUpdate := espUpdate.(timerArmed := false);
      if espUpdate.phase != Idle {
        espUpdate := espUpdate.(phase := Idle, data := []);
        out := out + [Failed(Transfer(Esp), Disconnected)];
      }
    }

    method DropFile()
      modifies `fileUpload, `out
      ensures View() == Drop(old(View()), File)
    {
      fileUpload := fileUpload.(timerArmed := false);
      if fileUpload.phase != Idle {
        fileUpload := fileUpload.(phase := Idle, data := []);
        out := out + [Failed(Transfer(File), Disconnected)];
      }
    }

    /** Any event of a run: the invariant is all that the next one needs. */
    method Handle(disk: Disk, e: Event)
      requires Inv(View())
      modifies this
      ensures View() == Next(disk, old(View()), e)
      ensures Inv(View())
    {
      hide HostModel.UploadFile, HostModel.UploadFiles, HostModel.UploadFolder, StartFw, StartEsp, EraseBank,
           HostModel.SwapBanks, HostModel.FileCommand, OnAck, OnNack, OnDisconnect, Inv;
      StepKeepsInv(disk, View(), e);
      IndicesOk(View());
      match e {
        case DoUploadFile(localPath, remotePath) => UploadFile(disk, localPath, remotePath);
        case DoUploadFiles(files, remotePath) => UploadFiles(disk, files, remotePath);
        case DoUploadFolder(folder, baseName, remotePath) => UploadFolder(folder, baseName, remotePath);
        case DoStartFw(path) => StartFwUpdate(disk, path);
        case DoStartEsp(path, addr, force) => StartEspUpdate(disk, path, addr, force);
        case DoEraseBank => EraseInactiveBank();
        case DoSwapBanks => SwapBanks();
        case DoFileCommand(cmd, payload) => FileCommand(cmd, payload);
        case Ack => HandleAck(disk);
        case Nack(code) => HandleNack(code);
        case Timeout(k) =>
          match k {
            case File => if fileUpload.timerArmed { FileTimeoutFires(); }
            case Fw => if fwUpdate.timerArmed { FwTimeoutFires(); }
            case Esp => if espUpdate.timerArmed { EspTimeoutFires(); }
          }
        case Disconnect => OnTransportDisconnected();
      }
    }

    /**
     * The events of a session, in the order in which the event loop delivers them. Whatever they are,
     * the log of a device that was new balances for each of its machines.
     */
    method HandleAll(disk: Disk, events: seq<Event>)
      requires Inv(View())
      modifies this
      ensures View() == Run(disk, old(View()), events) && Inv(View())
      ensures old(View()) == FRESH_HOST && (forall e <- events :: Ordinary(e)) ==>
                LogBalances(File, View()) && LogBalances(Fw, View()) && LogBalances(Esp, View())
    {
      hide Next, Inv, LogBalances;
      ghost var before := View();
      for i := 0 to |events|
        invariant View() == Run(disk, before, events[..i]) && Inv(View())
      {
        assert events[..i + 1][..i] == events[..i] && events[..i + 1][i] == events[i];
        Handle(disk, events[i]);
      }
      assert events[..|events|] == events;
      if before == FRESH_HOST && forall e <- events :: Ordinary(e) {
        EveryEndIsReported(File, disk, events);
        EveryEndIsReported(Fw, disk, events);
        EveryEndIsReported(Esp, disk, events);
      }
    }
  }

  lemma NextChunkStaysActive(k: Kind, m: Machine)
    ensures NextChunk(k, m.(phase := SendingData, timerArmed := true)).0.phase != Idle
  {
    hide ToUint32, LE32, Mid, Percent;
  }
}
