// What the host reports of its transfers: every completed transfer is announced exactly once, so
// the ledger of starts and endings can be read off the log alone.

module HostReports {
  import opened Bytes
  import opened HostModel
  import opened HostRuns

  /**
   * The report of a completed transfer. A file of a queue is not announced by itself; what tells of
   * its end is the announcement of the next file or the end of a queue that held any.
   */
  predicate ReportsEnd(k: Kind, o: Output) {
    || o == Completed(k)
    || (k == File && ((o.QueueProgress? && o.index >= 2) || (o.QueueCompleted? && o.total >= 1)))
  }

  /** Reported completions in an output log. */
  function Ends(k: Kind, out: seq<Output>): nat {
    if out == [] then 0
    else Ends(k, out[..|out| - 1]) + if ReportsEnd(k, out[|out| - 1]) then 1 else 0
  }

  lemma EndsOfAppend(k: Kind, out: seq<Output>, o: Output)
    ensures Ends(k, out + [o]) == Ends(k, out) + if ReportsEnd(k, o) then 1 else 0
  {
    assert (out + [o])[..|out + [o]| - 1] == out;
  }

  lemma EmitEnds(k: Kind)
    ensures forall h, o {:trigger Emit(h, o)} ::
              Ends(k, Emit(h, o).out) == Ends(k, h.out) + if ReportsEnd(k, o) then 1 else 0
  {
    forall h: Host, o
      ensures Ends(k, Emit(h, o).out) == Ends(k, h.out) + if ReportsEnd(k, o) then 1 else 0
    {
      EndsOfAppend(k, h.out, o);
    }
  }

  // ---------------------------------------------------------------------------
  // Requests
  // ---------------------------------------------------------------------------

  lemma UploadFileEnds(k: Kind, disk: Disk, h: Host, localPath: Text, remotePath: Text)
    ensures Ends(k, UploadFile(disk, h, localPath, remotePath).out) == Ends(k, h.out)
  {
    hide Ends, Emit, ToUint32, LE32;
    EmitEnds(k);
  }

  lemma StartFwEnds(k: Kind, disk: Disk, h: Host, path: Text)
    ensures Ends(k, StartFw(disk, h, path).out) == Ends(k, h.out)
  {
    hide Ends, Emit, Armed, ToUint32, LE32;
    EmitEnds(k);
    if path in disk {
      ArmedLog(h, Fw, disk[path]);
    }
  }

  lemma ArmedLog(h: Host, j: Kind, data: seq<byte>)
    ensures Armed(h, j, data).out == h.out
  {}

  lemma StartEspEnds(k: Kind, disk: Disk, h: Host, path: Text, addr: uint32, force: bool)
    ensures Ends(k, StartEsp(disk, h, path, addr, force).out) == Ends(k, h.out)
  {
    hide Ends, Emit, Armed, ToUint32, LE32, ImageFault;
    EmitEnds(k);
    if path in disk {
      ArmedLog(h.(flashAddr := addr), Esp, disk[path]);
    }
  }

  lemma StartQueueEnds(k: Kind, disk: Disk, h: Host)
    ensures Ends(k, StartQueue(disk, h).out) == Ends(k, h.out)
  {
    hide Ends, Emit, UploadFile;
    EmitEnds(k);
    if h.queue != [] {
      var item := h.queue[0];
      UploadFileEnds(k, disk, Emit(h.(queueIndex := 0), QueueProgress(1, |h.queue|, item.localPath)),
                     item.localPath, item.remotePath);
    }
  }

  lemma UploadFilesEnds(k: Kind, disk: Disk, h: Host, files: seq<LocalFile>, remotePath: Text)
    ensures Ends(k, UploadFiles(disk, h, files, remotePath).out) == Ends(k, h.out)
  {
    hide Ends, Emit, StartQueue, RemoteItems;
    EmitEnds(k);
    StartQueueEnds(k, disk, h.(queue := RemoteItems(files, remotePath), dirs := [], dirIndex := -1));
  }

  lemma UploadFolderEnds(k: Kind, h: Host, folder: Option<seq<Entry>>, baseName: Text, remotePath: Text)
    ensures Ends(k, UploadFolder(h, folder, baseName, remotePath).out) == Ends(k, h.out)
  {
    hide Ends, Emit, SortByLength, RemoteDirs, RemoteFiles, MkdirPayload, WithSlash;
    EmitEnds(k);
  }

  lemma CommandsEnd(k: Kind, h: Host, cmd: byte, payload: seq<byte>)
    ensures Ends(k, FileCommand(h, cmd, payload).out) == Ends(k, h.out)
    ensures Ends(k, SwapBanks(h).out) == Ends(k, h.out) == Ends(k, EraseBank(h).out)
  {
    hide Ends, Emit;
    EmitEnds(k);
  }

  // ---------------------------------------------------------------------------
  // Replies
  // ---------------------------------------------------------------------------

  /** A queue that is running tells of the end of its current file. */
  lemma AdvanceQueueEnds(k: Kind, disk: Disk, h: Host)
    requires 0 <= h.queueIndex < |h.queue|
    ensures Ends(k, AdvanceQueue(disk, h).out) == Ends(k, h.out) + if k == File then 1 else 0
  {
    hide Ends, Emit, UploadFile;
    EmitEnds(k);
    var i := h.queueIndex + 1;
    if i < |h.queue| {
      var item := h.queue[i];
      UploadFileEnds(k, disk, Emit(h.(queueIndex := i), QueueProgress(i + 1, |h.queue|, item.localPath)),
                     item.localPath, item.remotePath);
    }
  }

  lemma MachineEnds(k: Kind, j: Kind, m: Machine, out: seq<Output>)
    ensures Ends(k, out + AckMachine(j, m).1) == Ends(k, out)
  {
    hide Ends, Mid, Percent, LE32, ToUint32;
    var outs := AckMachine(j, m).1;
    if outs == [] {
      assert out + outs == out;
    } else if |outs| == 1 {
      assert out + outs == out + [outs[0]];
      EndsOfAppend(k, out, outs[0]);
    } else {
      assert out + outs == out + [outs[0]] + [outs[1]];
      EndsOfAppend(k, out, outs[0]);
      EndsOfAppend(k, out + [outs[0]], outs[1]);
    }
  }

  lemma AckOwnedEnds(k: Kind, disk: Disk, h: Host, j: Kind)
    requires Inv(h) && Active(h, j)
    ensures Ends(k, AckOwned(disk, h, j).out)
         == Ends(k, h.out) + if j == k && Get(h, j).phase == WaitingFinishAck then 1 else 0
  {
    hide Ends, Emit, AdvanceQueue, AckMachine, Inv;
    EmitEnds(k);
    MachinesOk(h, j);
    IndicesOk(h);
    AckMachineOk(j, Get(h, j));
    MachineEnds(k, j, Get(h, j), h.out);
    var (m, outs) := AckMachine(j, Get(h, j));
    var h' := With(h, j, m).(out := h.out + outs);
    if m.phase == Idle && j == File && h.queueIndex >= 0 {
      AdvanceQueueEnds(k, disk, h');
    }
  }

  lemma AdvanceDirsEnds(k: Kind, disk: Disk, h: Host)
    ensures Ends(k, AdvanceDirs(disk, h).out) == Ends(k, h.out)
  {
    hide Ends, Emit, StartQueue, MkdirPayload;
    EmitEnds(k);
    StartQueueEnds(k, disk, h.(dirs := [], dirIndex := -1));
  }

  lemma AckFileCommandEnds(k: Kind, disk: Disk, h: Host)
    ensures Ends(k, AckFileCommand(disk, h).out) == Ends(k, h.out)
  {
    hide Ends, Emit, AdvanceDirs;
    EmitEnds(k);
    AdvanceDirsEnds(k, disk, h.(pendingCmd := 0));
  }

  lemma AckEnds(k: Kind, disk: Disk, h: Host)
    requires Inv(h)
    ensures Ends(k, OnAck(disk, h).out) == Ends(k, h.out) + if Completes(k, h, Ack) then 1 else 0
  {
    hide Ends, Emit, AckOwned, AckFileCommand, Inv;
    EmitEnds(k);
    match Owner(h)
    case Some(j) => AckOwnedEnds(k, disk, h, j);
    case None => AckFileCommandEnds(k, disk, h);
  }

  lemma NackEnds(k: Kind, h: Host, code: byte)
    ensures Ends(k, OnNack(h, code).out) == Ends(k, h.out)
  {
    hide Ends, Emit;
    EmitEnds(k);
  }

  lemma TimeoutEnds(k: Kind, h: Host, j: Kind)
    ensures Ends(k, OnTimeout(h, j).out) == Ends(k, h.out)
  {
    hide Ends, Emit;
    EmitEnds(k);
  }

  lemma DropEnds(k: Kind, h: Host, j: Kind)
    ensures Ends(k, Drop(h, j).out) == Ends(k, h.out)
  {
    hide Ends, Emit;
    EmitEnds(k);
  }

  lemma DisconnectEnds(k: Kind, h: Host)
    ensures Ends(k, OnDisconnect(h).out) == Ends(k, h.out)
  {
    hide Ends, Drop;
    var h1 := Drop(h.(swapPending := false), Fw);
    var h2 := Drop(h1.(staleNack := false), Esp);
    DropEnds(k, h.(swapPending := false), Fw);
    DropEnds(k, h1.(staleNack := false), Esp);
    DropEnds(k, h2, File);
  }

  // ---------------------------------------------------------------------------
  // Runs
  // ---------------------------------------------------------------------------

  lemma StepEnds(k: Kind, disk: Disk, h: Host, e: Event)
    requires Inv(h)
    ensures Ends(k, Next(disk, h, e).out) == Ends(k, h.out) + if Completes(k, h, e) then 1 else 0
  {
    hide Ends, Inv, UploadFile, UploadFiles, UploadFolder, StartFw, StartEsp, EraseBank, SwapBanks, FileCommand,
         OnAck, OnNack, OnTimeout, OnDisconnect;
    match e
    case DoUploadFile(localPath, remotePath) => UploadFileEnds(k, disk, h, localPath, remotePath);
    case DoUploadFiles(files, remotePath) => UploadFilesEnds(k, disk, h, files, remotePath);
    case DoUploadFolder(folder, baseName, remotePath) => UploadFolderEnds(k, h, folder, baseName, remotePath);
    case DoStartFw(path) => StartFwEnds(k, disk, h, path);
    case DoStartEsp(path, addr, force) => StartEspEnds(k, disk, h, path, addr, force);
    case DoEraseBank => CommandsEnd(k, h, 0, []);
    case DoSwapBanks => CommandsEnd(k, h, 0, []);
    case DoFileCommand(cmd, payload) => CommandsEnd(k, h, cmd, payload);
    case Ack => AckEnds(k, disk, h);
    case Nack(code) => NackEnds(k, h, code);
    case Timeout(j) => TimeoutEnds(k, h, j);
    case Disconnect => DisconnectEnds(k, h);
  }

  lemma {:induction false} RunEnds(k: Kind, disk: Disk, h: Host, es: seq<Event>)
    requires Inv(h)
    ensures Ends(k, Run(disk, h, es).out) == Ends(k, h.out) + Completions(k, disk, h, es)
  {
    hide Next, Inv, Ends, Completes;
    if es != [] {
      var front := es[..|es| - 1];
      RunEnds(k, disk, h, front);
      RunKeepsInv(disk, h, front);
      StepEnds(k, disk, Run(disk, h, front), es[|es| - 1]);
    }
  }

  /** The log of a run that started fresh accounts for every START: one completion or one abort each. */
  predicate LogBalances(k: Kind, h: Host) {
    Starts(k, h.out) == Ends(k, h.out) + Aborts(k, h.out) + if Active(h, k) then 1 else 0
  }

  /**
   * Over any run from the fresh state, the START commands that the host has sent for a machine are the
   * completions it has reported, the aborts it has reported, and the transfer under way, if any.
   */
  lemma EveryEndIsReported(k: Kind, disk: Disk, es: seq<Event>)
    requires forall e <- es :: Ordinary(e)
    ensures LogBalances(k, Run(disk, FRESH_HOST, es))
  {
    hide Run, Completions;
    EveryTransferEndsOnce(k, disk, es);
    RunEnds(k, disk, FRESH_HOST, es);
    assert Ends(k, []) == 0;
  }
}
