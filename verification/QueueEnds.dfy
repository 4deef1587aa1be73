// When does an upload queue end? The source starts the next file only from the ACK that completes
// the one before, so a file that cannot be started leaves the queue where it is.

module QueueEnds {
  import opened Bytes
  import opened HostModel
  import opened Transfers

  /** The file can be opened and, in 32 bits, is not empty. */
  predicate Startable(disk: Disk, item: QueueItem) {
    item.localPath in disk && ToUint32(|disk[item.localPath]|) != 0
  }

  predicate AllStartable(disk: Disk, queue: seq<QueueItem>) {
    forall i :: 0 <= i < |queue| ==> Startable(disk, queue[i])
  }

  /** Only the file machine and its queue are at work. */
  predicate Undisturbed(h: Host) {
    !Active(h, Fw) && !Active(h, Esp) && !h.erasePending && !h.swapPending && h.dirIndex == -1
  }

  predicate ReportsQueueEnd(out: seq<Output>) {
    exists o <- out :: o.QueueCompleted?
  }

  // ---------------------------------------------------------------------------
  // A queue that stalls
  // ---------------------------------------------------------------------------

  /** The queue is at work before item `bad`, or stands at it with nothing under way. */
  predicate ShortOf(h: Host, queue: seq<QueueItem>, bad: nat) {
    && Undisturbed(h) && h.queue == queue
    && if Active(h, File) then 0 <= h.queueIndex < bad else h.queueIndex == bad
  }

  predicate FirstBad(disk: Disk, queue: seq<QueueItem>, bad: nat) {
    bad < |queue| && !Startable(disk, queue[bad]) && forall i :: 0 <= i < bad ==> Startable(disk, queue[i])
  }

  lemma StartShortOf(disk: Disk, h: Host, queue: seq<QueueItem>, bad: nat, i: nat)
    requires FirstBad(disk, queue, bad) && i <= bad
    requires Undisturbed(h) && !Active(h, File) && h.queue == queue && h.queueIndex == i
    ensures var h' := UploadFile(disk, h, queue[i].localPath, queue[i].remotePath);
            && ShortOf(h', queue, bad)
            && exists o: Output :: !o.QueueCompleted? && h'.out == h.out + [o]
  {
    hide ToUint32, LE32;
    var item := queue[i];
    if i < bad {
      assert Startable(disk, item);
    }
  }

  /** An ACK keeps a queue short of its first bad item, and the end of the queue is not reported. */
  lemma AckStaysShort(disk: Disk, h: Host, queue: seq<QueueItem>, bad: nat)
    requires FirstBad(disk, queue, bad) && ShortOf(h, queue, bad)
    ensures var h' := OnAck(disk, h);
            && ShortOf(h', queue, bad) && h.out <= h'.out
            && !ReportsQueueEnd(h'.out[|h.out|..])
  {
    hide UploadFile, NextChunk, Startable, ReportsQueueEnd;
    var h' := OnAck(disk, h);
    if !Active(h, File) {
      AckFileCommandKeepsQueue(disk, h);
      AckFileCommandEndsNoQueue(disk, h);
    } else if h.file.phase == WaitingFinishAck {
      var i := h.queueIndex + 1;
      var item := queue[i];
      var told := QueueProgress(i + 1, |queue|, item.localPath);
      var moved := Emit(h.(file := Stopped(h.file), queueIndex := i), told);
      assert h.out + [] == h.out;
      assert h' == UploadFile(disk, moved, item.localPath, item.remotePath);
      StartShortOf(disk, moved, queue, bad, i);
      var o: Output :| !o.QueueCompleted? && h'.out == moved.out + [o];
      NoEndAmong(h.out, h'.out, [told, o]);
    } else {
      NextChunkKeepsQuiet(File, h.file.(phase := SendingData, timerArmed := true));
      NoEndAmong(h.out, h'.out, AckMachine(File, h.file).1);
    }
  }

  lemma AckFileCommandKeepsQueue(disk: Disk, h: Host)
    requires Undisturbed(h)
    ensures var h' := AckFileCommand(disk, h);
            Undisturbed(h') && h'.file == h.file && h'.queue == h.queue && h'.queueIndex == h.queueIndex
  {
    hide AdvanceDirs;
  }

  lemma AckFileCommandEndsNoQueue(disk: Disk, h: Host)
    requires h.dirIndex == -1
    ensures var h' := AckFileCommand(disk, h);
            h.out <= h'.out && !ReportsQueueEnd(h'.out[|h.out|..])
  {
    hide ReportsQueueEnd, AdvanceDirs;
    var h' := AckFileCommand(disk, h);
    NoEndAmong(h.out, h'.out, if h'.out == h.out then [] else [h'.out[|h.out|]]);
  }

  lemma NextChunkKeepsQuiet(k: Kind, m: Machine)
    ensures var (m', outs) := NextChunk(k, m);
            (m.phase != Idle ==> m'.phase != Idle) && forall o <- outs :: !o.QueueCompleted?
  {
    hide ToUint32, LE32, Mid, Percent;
  }

  lemma NoEndAmong(before: seq<Output>, after: seq<Output>, outs: seq<Output>)
    requires after == before + outs && forall o <- outs :: !o.QueueCompleted?
    ensures before <= after && !ReportsQueueEnd(after[|before|..])
  {
    assert after[|before|..] == outs;
  }

  lemma {:induction false} AcksStayShort(disk: Disk, h: Host, queue: seq<QueueItem>, bad: nat, n: nat)
    requires FirstBad(disk, queue, bad) && ShortOf(h, queue, bad)
    ensures var h' := Acks(disk, h, n);
            ShortOf(h', queue, bad) && h.out <= h'.out && !ReportsQueueEnd(h'.out[|h.out|..])
    decreases n
  {
    hide OnAck, ShortOf, FirstBad;
    if n > 0 {
      var h1 := OnAck(disk, h);
      AckStaysShort(disk, h, queue, bad);
      AcksStayShort(disk, h1, queue, bad, n - 1);
      var h' := Acks(disk, h, n);
      assert h'.out[|h.out|..] == h1.out[|h.out|..] + h'.out[|h1.out|..];
    } else {
      assert h.out[|h.out|..] == [];
    }
  }

  lemma {:induction false} FindBad(disk: Disk, queue: seq<QueueItem>) returns (bad: nat)
    requires !AllStartable(disk, queue)
    ensures FirstBad(disk, queue, bad)
    decreases |queue|
  {
    hide Startable;
    var n := |queue| - 1;
    if AllStartable(disk, queue[..n]) {
      bad := n;
      assert forall i :: 0 <= i < n ==> queue[..n][i] == queue[i];
    } else {
      bad := FindBad(disk, queue[..n]);
      assert forall i :: 0 <= i < n ==> queue[..n][i] == queue[i];
    }
  }

  // ---------------------------------------------------------------------------
  // A queue that ends
  // ---------------------------------------------------------------------------

  /** Item i is under way, at its START. */
  predicate AtItem(disk: Disk, h: Host, queue: seq<QueueItem>, i: nat) {
    && i < |queue| && Startable(disk, queue[i]) && Undisturbed(h) && h.queue == queue && h.queueIndex == i
    && var data := disk[queue[i].localPath];
       h.file == Machine(WaitingStartAck, data, 0, ToUint32(|data|), true)
  }

  /** Whatever the size of the file, ACKs take its upload to FINISH. */
  lemma ItemFinishes(disk: Disk, h: Host, queue: seq<QueueItem>, i: nat) returns (n: nat)
    requires AtItem(disk, h, queue, i)
    ensures var h' := Acks(disk, h, n);
            && h'.file.phase == WaitingFinishAck && h.out <= h'.out
            && h' == h.(file := h'.file, out := h'.out)
  {
    hide OnAck, LE32, Percent, ToUint32, DataLog;
    var data := disk[queue[i].localPath];
    var size := ToUint32(|data|);
    if size < 0x8000_0000 {
      n := ChunksLeft(File, size, 0) + 1;
      AckedUntilFinish(disk, h, File, data, size, 0);
    } else {
      n := 2;
      OversizeChunk(disk, h, File, data);
      var h1 := OnAck(disk, h);
      OversizeFinish(disk, h1, File);
      assert Acks(disk, h, 2) == Acks(disk, h1, 1) == Acks(disk, OnAck(disk, h1), 0);
    }
  }

  lemma StartsItem(disk: Disk, h: Host, queue: seq<QueueItem>, i: nat)
    requires i < |queue| && Startable(disk, queue[i])
    requires Undisturbed(h) && !Active(h, File) && h.queue == queue && h.queueIndex == i
    ensures var h' := UploadFile(disk, h, queue[i].localPath, queue[i].remotePath);
            AtItem(disk, h', queue, i) && h.out <= h'.out
  {
    hide ToUint32, LE32;
  }

  lemma {:induction false} QueueReachesEnd(disk: Disk, h: Host, queue: seq<QueueItem>, i: nat) returns (n: nat)
    requires AllStartable(disk, queue) && AtItem(disk, h, queue, i)
    ensures var h' := Acks(disk, h, n);
            h.out <= h'.out && ReportsQueueEnd(h'.out[|h.out|..])
    decreases |queue| - i
  {
    hide Acks, OnAck, Startable, ReportsQueueEnd;
    var m := ItemFinishes(disk, h, queue, i);
    var h1 := Acks(disk, h, m);
    AcksLast(disk, h, m);
    var h2 := OnAck(disk, h1);
    FinishMovesOn(disk, h1, queue, i);
    if i + 1 == |queue| {
      n := m + 1;
      EndReported(h.out, h1.out, h2.out, |queue|);
    } else {
      var rest := QueueReachesEnd(disk, h2, queue, i + 1);
      n := m + 1 + rest;
      AcksAdd(disk, h, m + 1, rest);
      var h3 := Acks(disk, h2, rest);
      LaterEnd(h.out, h2.out, h3.out);
    }
  }

  lemma FinishMovesOn(disk: Disk, h: Host, queue: seq<QueueItem>, i: nat)
    requires AllStartable(disk, queue) && i < |queue| && Undisturbed(h)
    requires h.queue == queue && h.queueIndex == i && h.file.phase == WaitingFinishAck
    ensures var h' := OnAck(disk, h);
            && h.out <= h'.out
            && if i + 1 == |queue| then h'.out == h.out + [QueueCompleted(|queue|)] else AtItem(disk, h', queue, i + 1)
  {
    hide UploadFile, NextChunk, Startable, AtItem;
    assert h.out + [] == h.out;
    if i + 1 < |queue| {
      var item := queue[i + 1];
      var told := QueueProgress(i + 2, |queue|, item.localPath);
      var moved := Emit(h.(file := Stopped(h.file), queueIndex := i + 1), told);
      assert OnAck(disk, h) == UploadFile(disk, moved, item.localPath, item.remotePath);
      StartsItem(disk, moved, queue, i + 1);
    }
  }

  lemma EndReported(a: seq<Output>, b: seq<Output>, c: seq<Output>, total: nat)
    requires a <= b && c == b + [QueueCompleted(total)]
    ensures a <= c && ReportsQueueEnd(c[|a|..])
  {
    assert c[|a|..] == b[|a|..] + [QueueCompleted(total)];
    assert QueueCompleted(total) in c[|a|..];
  }

  lemma LaterEnd(a: seq<Output>, b: seq<Output>, c: seq<Output>)
    requires a <= b <= c && ReportsQueueEnd(c[|b|..])
    ensures ReportsQueueEnd(c[|a|..])
  {
    var o :| o in c[|b|..] && o.QueueCompleted?;
    assert c[|a|..] == c[|a|..|b|] + c[|b|..];
    assert o in c[|a|..];
  }

  // ---------------------------------------------------------------------------
  // The law
  // ---------------------------------------------------------------------------

  /**
   * With every command acknowledged, a queue that has been started reports its end if and only if
   * each of its files can be started; otherwise it stands at the first that cannot, for good.
   */
  lemma QueueEndsExactly(disk: Disk, h: Host)
    requires Undisturbed(h) && !Active(h, File) && h.queue != []
    ensures (exists n: nat :: QueueHasEnded(disk, h, n)) <==> AllStartable(disk, h.queue)
  {
    hide Acks, UploadFile, Startable, ReportsQueueEnd;
    var item := h.queue[0];
    var told := Emit(h.(queueIndex := 0), QueueProgress(1, |h.queue|, item.localPath));
    var h1 := StartQueue(disk, h);
    assert h1 == UploadFile(disk, told, item.localPath, item.remotePath);
    if AllStartable(disk, h.queue) {
      StartsItem(disk, told, h.queue, 0);
      var n := QueueReachesEnd(disk, h1, h.queue, 0);
      LaterEnd(h.out, h1.out, Acks(disk, h1, n).out);
      assert QueueHasEnded(disk, h, n);
    } else {
      var bad := FindBad(disk, h.queue);
      StartShortOf(disk, told, h.queue, bad, 0);
      var o: Output :| !o.QueueCompleted? && h1.out == told.out + [o];
      NoEndAmong(h.out, h1.out, [QueueProgress(1, |h.queue|, item.localPath), o]);
      forall n: nat ensures !QueueHasEnded(disk, h, n) {
        AcksStayShort(disk, h1, h.queue, bad, n);
        var h' := Acks(disk, h1, n);
        NoEndInBoth(h.out, h1.out, h'.out);
      }
    }
  }

  lemma NoEndInBoth(a: seq<Output>, b: seq<Output>, c: seq<Output>)
    requires a <= b <= c && !ReportsQueueEnd(b[|a|..]) && !ReportsQueueEnd(c[|b|..])
    ensures !ReportsQueueEnd(c[|a|..])
  {
    assert c[|a|..] == b[|a|..] + c[|b|..];
  }

  predicate QueueHasEnded(disk: Disk, h: Host, n: nat) {
    var h' := Acks(disk, StartQueue(disk, h), n);
    h.out <= h'.out && ReportsQueueEnd(h'.out[|h.out|..])
  }
}
