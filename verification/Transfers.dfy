// A transfer whose every command is acknowledged: which commands go out, how many replies it
// takes, what the device ends up with, and for which file sizes that is the file.

module Transfers {
  import opened Bytes
  import opened HostModel
  import opened HostRuns
  import opened HonestDevice
  import Framing

  /** The host after n more ACKs. */
  function Acks(disk: Disk, h: Host, n: nat): Host
    decreases n
  {
    if n == 0 then h else Acks(disk, OnAck(disk, h), n - 1)
  }

  /** Nothing else claims the machine's ACKs, and no queue waits behind it. */
  predicate Exclusively(h: Host, k: Kind) {
    Owner(h) == Some(k) && (k == File ==> h.queueIndex < 0)
  }

  /** The machine has acknowledged commands behind it up to `offset` and data ahead of it. */
  predicate Transferring(h: Host, k: Kind, data: seq<byte>, size: uint32, offset: nat) {
    && 0 < size < 0x8000_0000 && size <= |data| && offset <= size
    && var m := Get(h, k);
       && (m.phase == WaitingStartAck || m.phase == SendingData)
       && m.data == data && m.size == size && m.offset == offset
  }

  function ChunkEnd(k: Kind, size: nat, offset: nat): (r: nat)
    requires offset <= size
    ensures offset <= r <= size && (offset < size ==> offset < r <= offset + ChunkSize(k))
  {
    if size - offset <= ChunkSize(k) then size else offset + ChunkSize(k)
  }

  /** The DATA commands from an offset on, each with the progress report that follows it. */
  function DataLog(k: Kind, data: seq<byte>, size: uint32, offset: nat): seq<Output>
    requires offset <= size <= |data|
    decreases size - offset
  {
    if offset == size then []
    else
      var end := ChunkEnd(k, size, offset);
      [Send(DataCmd(k), LE32(offset) + data[offset..end]), Progress(k, Percent(end, size))]
        + DataLog(k, data, size, end)
  }

  /** How many chunks are left from an offset on. */
  function ChunksLeft(k: Kind, size: nat, offset: nat): nat
    requires offset <= size
    decreases size - offset
  {
    if offset == size then 0 else 1 + ChunksLeft(k, size, ChunkEnd(k, size, offset))
  }

  /** One round trip for START, one for each chunk, one for FINISH. */
  function RoundTrips(k: Kind, size: nat): nat {
    2 + (size + ChunkSize(k) - 1) / ChunkSize(k)
  }

  lemma {:induction false} ChunkCount(k: Kind, size: nat, offset: nat)
    requires offset <= size
    ensures ChunksLeft(k, size, offset) == (size - offset + ChunkSize(k) - 1) / ChunkSize(k)
    decreases size - offset
  {
    if offset < size {
      ChunkCount(k, size, ChunkEnd(k, size, offset));
    }
  }

  lemma RoundTripsOfWhole(k: Kind, size: nat)
    ensures RoundTrips(k, size) == ChunksLeft(k, size, 0) + 2
  {
    ChunkCount(k, size, 0);
  }

  // ---------------------------------------------------------------------------
  // One ACK
  // ---------------------------------------------------------------------------

  lemma NextChunkInRange(k: Kind, m: Machine)
    requires 0 < m.size < 0x8000_0000 && m.size <= |m.data| && m.offset < m.size
    ensures var end := ChunkEnd(k, m.size, m.offset);
            NextChunk(k, m) == (m.(offset := end),
              [Send(DataCmd(k), LE32(m.offset) + m.data[m.offset..end]), Progress(k, Percent(end, m.size))])
  {
    hide ToUint32, LE32, Percent;
    ToUint32Fits(ChunkEnd(k, m.size, m.offset));
  }

  lemma AckSendsChunk(disk: Disk, h: Host, k: Kind, data: seq<byte>, size: uint32, offset: nat)
    requires Owner(h) == Some(k) && Transferring(h, k, data, size, offset) && offset < size
    ensures var end := ChunkEnd(k, size, offset);
            var h' := OnAck(disk, h);
            && Owner(h') == Some(k) && Transferring(h', k, data, size, end)
            && h' == With(h, k, Machine(SendingData, data, end, size, true)).(out := h'.out)
            && h'.out == h.out + [Send(DataCmd(k), LE32(offset) + data[offset..end]), Progress(k, Percent(end, size))]
  {
    hide NextChunk, Percent, LE32, ToUint32;
    NextChunkInRange(k, Get(h, k).(phase := SendingData, timerArmed := true));
  }

  lemma AckSendsFinish(disk: Disk, h: Host, k: Kind, data: seq<byte>, size: uint32)
    requires Owner(h) == Some(k) && Transferring(h, k, data, size, size)
    ensures var h' := OnAck(disk, h);
            && Owner(h') == Some(k)
            && h' == With(h, k, Machine(WaitingFinishAck, data, size, size, true)).(out := h'.out)
            && h'.out == h.out + [Send(FinishCmd(k), [])]
  {
    hide Percent, LE32, ToUint32, Mid;
  }

  lemma AckCompletes(disk: Disk, h: Host, k: Kind)
    requires Exclusively(h, k) && Get(h, k).phase == WaitingFinishAck
    ensures var h' := OnAck(disk, h);
            !Active(h', k) && h'.out == h.out + [Completed(k)]
  {
    hide NextChunk;
    assert h.out + [] == h.out;
  }

  // ---------------------------------------------------------------------------
  // All ACKs
  // ---------------------------------------------------------------------------

  lemma {:induction false} AcksLast(disk: Disk, h: Host, n: nat)
    ensures Acks(disk, h, n + 1) == OnAck(disk, Acks(disk, h, n))
    decreases n
  {
    hide OnAck;
    if n == 0 {
      assert Acks(disk, h, 1) == Acks(disk, OnAck(disk, h), 0);
    } else {
      AcksLast(disk, OnAck(disk, h), n - 1);
    }
  }

  lemma {:induction false} AcksAdd(disk: Disk, h: Host, m: nat, n: nat)
    ensures Acks(disk, h, m + n) == Acks(disk, Acks(disk, h, m), n)
    decreases m
  {
    hide OnAck;
    if m > 0 {
      AcksAdd(disk, OnAck(disk, h), m - 1, n);
    }
  }

  /**
   * From any point of a transfer, as many ACKs as there are chunks left send exactly those chunks,
   * in order, and one more sends FINISH; nothing else of the host changes.
   */
  lemma {:induction false} AckedUntilFinish(disk: Disk, h: Host, k: Kind, data: seq<byte>, size: uint32, offset: nat)
    requires Owner(h) == Some(k) && Transferring(h, k, data, size, offset)
    ensures Acks(disk, h, ChunksLeft(k, size, offset) + 1) ==
            With(h, k, Machine(WaitingFinishAck, data, size, size, true)).(
              out := h.out + DataLog(k, data, size, offset) + [Send(FinishCmd(k), [])])
    decreases size - offset
  {
    hide OnAck, Owner, Percent, LE32;
    var chunks := ChunksLeft(k, size, offset);
    var h' := OnAck(disk, h);
    var finish := [Send(FinishCmd(k), [])];
    if offset == size {
      AckSendsFinish(disk, h, k, data, size);
      assert Acks(disk, h, 1) == Acks(disk, h', 0);
      assert h.out + [] + finish == h.out + finish;
    } else {
      AckSendsChunk(disk, h, k, data, size, offset);
      var end := ChunkEnd(k, size, offset);
      AckedUntilFinish(disk, h', k, data, size, end);
      var sent := [Send(DataCmd(k), LE32(offset) + data[offset..end]), Progress(k, Percent(end, size))];
      assert (h.out + sent) + DataLog(k, data, size, end) + finish
          == h.out + (sent + DataLog(k, data, size, end)) + finish;
      assert Acks(disk, h, chunks + 1) == Acks(disk, h', chunks);
    }
  }

  lemma OwnerStays(h: Host, k: Kind, m: Machine, outs: seq<Output>)
    requires Owner(h) == Some(k) && m.phase != Idle
    ensures Owner(With(h, k, m).(out := outs)) == Some(k)
  {}

  /** The ACK after that completes a transfer that no queue waits for. */
  lemma AckedTransfer(disk: Disk, h: Host, k: Kind, data: seq<byte>, size: uint32, offset: nat)
    requires Exclusively(h, k) && Transferring(h, k, data, size, offset)
    ensures var h' := Acks(disk, h, ChunksLeft(k, size, offset) + 2);
            && !Active(h', k)
            && h'.out == h.out + DataLog(k, data, size, offset) + [Send(FinishCmd(k), []), Completed(k)]
  {
    hide OnAck, Owner, Percent, LE32, DataLog, Acks;
    var n := ChunksLeft(k, size, offset) + 1;
    AckedUntilFinish(disk, h, k, data, size, offset);
    var out := h.out + DataLog(k, data, size, offset) + [Send(FinishCmd(k), [])];
    OwnerStays(h, k, Machine(WaitingFinishAck, data, size, size, true), out);
    AckCompletes(disk, Acks(disk, h, n), k);
    AcksLast(disk, h, n);
    assert out + [Completed(k)] == h.out + DataLog(k, data, size, offset) + [Send(FinishCmd(k), []), Completed(k)];
  }

  /** No smaller number of ACKs completes it. */
  lemma {:induction false} NotCompleteEarlier(disk: Disk, h: Host, k: Kind, data: seq<byte>, size: uint32, offset: nat,
                                              n: nat)
    requires Owner(h) == Some(k) && Transferring(h, k, data, size, offset) && n < ChunksLeft(k, size, offset) + 2
    ensures Active(Acks(disk, h, n), k)
    decreases n
  {
    hide OnAck, Owner, Percent, LE32;
    if n > 0 {
      var h' := OnAck(disk, h);
      assert Acks(disk, h, n) == Acks(disk, h', n - 1);
      if offset == size {
        AckSendsFinish(disk, h, k, data, size);
      } else {
        AckSendsChunk(disk, h, k, data, size, offset);
        NotCompleteEarlier(disk, h', k, data, size, ChunkEnd(k, size, offset), n - 1);
      }
    }
  }

  // ---------------------------------------------------------------------------
  // What the device holds
  // ---------------------------------------------------------------------------

  /** Every chunk starts where the device's content ends, so the content grows along the file. */
  lemma {:induction false} ChunksReassemble(k: Kind, d: Device, out: seq<Output>, data: seq<byte>, size: uint32,
                                            offset: nat)
    requires offset <= size <= |data|
    requires ExecuteAll(k, d, out).content == data[..offset]
    ensures ExecuteAll(k, d, out + DataLog(k, data, size, offset)) == ExecuteAll(k, d, out).(content := data[..size])
    decreases size - offset
  {
    hide Execute, ExecuteAll, Percent, LE32;
    if offset == size {
      assert out + [] == out;
    } else {
      var end := ChunkEnd(k, size, offset);
      var before := ExecuteAll(k, d, out);
      var data1, progress := Send(DataCmd(k), LE32(offset) + data[offset..end]), Progress(k, Percent(end, size));
      ExecuteSend(k, d, out, data1);
      ExecuteSend(k, d, out + [data1], progress);
      DataAppends(k, before, data[offset..end]);
      assert Truncated(data1.payload) == data1.payload;
      assert data[..offset] + data[offset..end] == data[..end];
      ChunksReassemble(k, d, out + [data1] + [progress], data, size, end);
      assert out + DataLog(k, data, size, offset) == out + [data1] + [progress] + DataLog(k, data, size, end);
    }
  }

  /** The DATA payloads stay far below what a frame may carry. */
  lemma {:induction false} ChunksFit(k: Kind, data: seq<byte>, size: uint32, offset: nat)
    requires offset <= size <= |data|
    ensures forall o <- DataLog(k, data, size, offset) :: o.Send? ==>
              o.cmd == DataCmd(k) && 4 < |o.payload| <= 4 + ChunkSize(k) <= Framing.MAX_PAYLOAD
    decreases size - offset
  {
    hide Percent, LE32;
    if offset < size {
      ChunksFit(k, data, size, ChunkEnd(k, size, offset));
    }
  }

  // ---------------------------------------------------------------------------
  // Progress
  // ---------------------------------------------------------------------------

  lemma MulMonotone(x: int, y: int, n: nat)
    requires x <= y
    ensures x * n <= y * n
  {}

  lemma DivMonotone(a: nat, b: nat, n: nat)
    requires a <= b && n > 0
    ensures a / n <= b / n
  {
    if b / n + 1 <= a / n {
      MulMonotone(b / n + 1, a / n, n);
    }
  }

  lemma MulDiv(n: nat)
    requires n > 0
    ensures 100 * n / n == 100
  {}

  /** Below the size at which offset * 100 leaves 32 bits, progress never runs backwards. */
  lemma ProgressMonotone(a: uint32, b: uint32, size: uint32)
    requires a <= b <= size && 0 < size <= 42949672
    ensures 0 <= Percent(a, size) <= Percent(b, size) <= 100
  {
    ToUint32Fits(a * 100);
    ToUint32Fits(b * 100);
    DivMonotone(a * 100, b * 100, size);
    DivMonotone(b * 100, 100 * size, size);
    MulDiv(size);
  }

  /** The last progress report is 100 exactly for the sizes whose hundredfold fits 32 bits. */
  lemma FinalProgressExactly(size: uint32)
    requires size > 0
    ensures Percent(size, size) == 100 <==> size <= 42949672
  {
    MulDiv(size);
    if size <= 42949672 {
      ToUint32Fits(size * 100);
    } else {
      WrapsBelow(size * 100);
      BelowHundred(ToUint32(size * 100), size);
    }
  }

  lemma WrapsBelow(x: int)
    requires x >= 0x1_0000_0000
    ensures 0 <= ToUint32(x) < x
  {}

  lemma BelowHundred(x: nat, size: nat)
    requires size > 0 && x < size * 100
    ensures x / size < 100
  {}

  /** The percentages in an output log. */
  function Reports(out: seq<Output>): seq<int> {
    if out == [] then [] else (if out[0].Progress? then [out[0].percent] else []) + Reports(out[1..])
  }

  /** One percentage for each chunk from an offset on. */
  function Percents(k: Kind, size: uint32, offset: nat): seq<int>
    requires offset <= size
    decreases size - offset
  {
    if offset == size then []
    else [Percent(ChunkEnd(k, size, offset), size)] + Percents(k, size, ChunkEnd(k, size, offset))
  }

  lemma {:induction false} ReportsConcat(a: seq<Output>, b: seq<Output>)
    ensures Reports(a + b) == Reports(a) + Reports(b)
  {
    if a == [] {
      assert a + b == b;
    } else {
      assert (a + b)[1..] == a[1..] + b;
      ReportsConcat(a[1..], b);
    }
  }

  lemma {:induction false} ReportsOfChunks(k: Kind, data: seq<byte>, size: uint32, offset: nat)
    requires offset <= size <= |data|
    ensures Reports(DataLog(k, data, size, offset)) == Percents(k, size, offset)
    decreases size - offset
  {
    hide Percent, LE32;
    if offset < size {
      var end := ChunkEnd(k, size, offset);
      var chunk := [Send(DataCmd(k), LE32(offset) + data[offset..end]), Progress(k, Percent(end, size))];
      ReportsOfChunks(k, data, size, end);
      ReportsConcat(chunk, DataLog(k, data, size, end));
      assert chunk[1..][1..] == [] && Reports(chunk) == [] + Reports(chunk[1..]);
      assert Reports(chunk[1..]) == [Percent(end, size)] + Reports([]);
    }
  }

  predicate Nondecreasing(r: seq<int>) {
    forall i, j :: 0 <= i < j < |r| ==> r[i] <= r[j]
  }

  lemma {:induction false} LastPercent(k: Kind, size: uint32, offset: nat)
    requires offset < size
    ensures var r := Percents(k, size, offset); r != [] && r[|r| - 1] == Percent(size, size)
    decreases size - offset
  {
    hide Percent;
    var end := ChunkEnd(k, size, offset);
    if end == size {
      assert Percents(k, size, end) == [];
    } else {
      LastPercent(k, size, end);
    }
  }

  lemma {:induction false} PercentsRise(k: Kind, size: uint32, offset: nat, low: uint32)
    requires low <= offset <= size && 0 < size <= 42949672
    ensures var r := Percents(k, size, offset);
            Nondecreasing(r) && forall i :: 0 <= i < |r| ==> 0 <= Percent(low, size) <= r[i] <= 100
    decreases size - offset
  {
    hide Percent;
    if offset < size {
      var end := ChunkEnd(k, size, offset);
      ProgressMonotone(low, end, size);
      PercentsRise(k, size, end, end);
    }
  }

  lemma BelowOne(x: nat, size: nat)
    requires x < size
    ensures x / size == 0
  {}

  lemma AtLeastOne(x: nat, size: nat)
    requires 0 < size <= x
    ensures x / size >= 1
  {
    DivMonotone(size, x, size);
  }

  /** Above that size, the report falls where the hundredfold offset first leaves 32 bits. */
  lemma {:induction false} PercentsFall(k: Kind, size: uint32, offset: nat) returns (i: nat)
    requires offset < size && 42949672 < size < 0x8000_0000
    requires ChunkEnd(k, size, offset) * 100 < 0x1_0000_0000
    ensures var r := Percents(k, size, offset); i + 1 < |r| && r[i] > r[i + 1]
    decreases size - offset
  {
    hide Percent;
    var end := ChunkEnd(k, size, offset);
    var next := ChunkEnd(k, size, end);
    assert Percents(k, size, offset) == [Percent(end, size)] + Percents(k, size, end);
    if next * 100 < 0x1_0000_0000 {
      i := PercentsFall(k, size, end);
      i := i + 1;
    } else {
      i := 0;
      FallingPercents(end, next, size);
    }
  }

  lemma FallingPercents(end: uint32, next: uint32, size: uint32)
    requires 42949672 < size < 0x8000_0000 && end < next <= end + 1024
    requires end * 100 < 0x1_0000_0000 <= next * 100
    ensures Percent(end, size) > Percent(next, size)
  {
    ToUint32Fits(end * 100);
    ToUint32Fits(next * 100 - 0x1_0000_0000);
    assert ToUint32(next * 100) == next * 100 - 0x1_0000_0000;
    BelowOne(next * 100 - 0x1_0000_0000, size);
    AtLeastOne(end * 100, size);
  }

  /**
   * The reports of a file below 2 GiB never run backwards, and the last of them is 100, exactly
   * when the file has at most 42949672 bytes; each of the two alone is just as exact.
   */
  lemma ReportsExactly(k: Kind, data: seq<byte>, size: uint32)
    requires 0 < size <= |data| && size < 0x8000_0000
    ensures var r := Reports(DataLog(k, data, size, 0));
            && r != []
            && (Nondecreasing(r) <==> size <= 42949672)
            && (r[|r| - 1] == 100 <==> size <= 42949672)
            && (size <= 42949672 ==> forall i :: 0 <= i < |r| ==> 0 <= r[i] <= 100)
  {
    hide Percent, DataLog, Percents;
    ReportsOfChunks(k, data, size, 0);
    LastPercent(k, size, 0);
    FinalProgressExactly(size);
    if size <= 42949672 {
      PercentsRise(k, size, 0, 0);
    } else {
      var i := PercentsFall(k, size, 0);
    }
  }

  // ---------------------------------------------------------------------------
  // Which files arrive
  // ---------------------------------------------------------------------------

  /** How many ACKs complete an accepted transfer; `size` is the 32-bit size it was started with. */
  function AcksNeeded(k: Kind, size: uint32): nat {
    if size < 0x8000_0000 then RoundTrips(k, size) else 3
  }

  predicate JustStarted(h: Host, k: Kind, data: seq<byte>) {
    && Exclusively(h, k)
    && ToUint32(|data|) != 0
    && Get(h, k) == Machine(WaitingStartAck, data, 0, ToUint32(|data|), true)
  }

  /** The file of a start request. */
  function Source(e: Event): Text {
    match e
    case DoUploadFile(localPath, _) => localPath
    case DoStartFw(path) => path
    case DoStartEsp(path, _, _) => path
    case _ => []
  }

  /** What the source demands of a file before it starts a transfer. */
  predicate Acceptable(e: Event, data: seq<byte>) {
    var size := ToUint32(|data|);
    match e
    case DoUploadFile(_, _) => size != 0
    case DoStartFw(_) => size != 0 && size % 4 == 0 && size <= FW_MAX_SIZE
    case DoStartEsp(_, addr, force) => size != 0 && (force || ImageFault(data, size, addr) == None)
    case _ => false
  }

  /** Requests start a transfer exactly when nothing else runs and the file is acceptable. */
  lemma StartsExactly(disk: Disk, h: Host, e: Event, k: Kind)
    requires Inv(h) && !h.swapPending && h.queueIndex < 0
    requires match k case File => e.DoUploadFile? case Fw => e.DoStartFw? case Esp => e.DoStartEsp?
    ensures !Busy(h) && Source(e) in disk && Acceptable(e, disk[Source(e)]) ==>
              JustStarted(Next(disk, h, e), k, disk[Source(e)])
    ensures !Busy(h) && !(Source(e) in disk && Acceptable(e, disk[Source(e)])) ==> !Busy(Next(disk, h, e))
    ensures Busy(h) ==> Get(Next(disk, h, e), k) == Get(h, k)
  {
    hide ToUint32, LE32, ImageFault;
  }

  /** From 2 GiB on, the signed chunk length is negative: one DATA command takes the whole rest. */
  lemma OversizeChunk(disk: Disk, h: Host, k: Kind, data: seq<byte>)
    requires Owner(h) == Some(k) && ToUint32(|data|) >= 0x8000_0000
    requires Get(h, k) == Machine(WaitingStartAck, data, 0, ToUint32(|data|), true)
    ensures var h' := OnAck(disk, h);
            var size := ToUint32(|data|);
            && Owner(h') == Some(k)
            && h' == With(h, k, Machine(SendingData, data, size, size, true)).(out := h'.out)
            && h'.out == h.out + [Send(DataCmd(k), LE32(0) + data), Progress(k, Percent(size, size))]
  {
    hide ToUint32, LE32, Percent;
    var size := ToUint32(|data|);
    ToUint32Fits(size);
    assert data[0..] == data;
  }

  lemma OversizeFinish(disk: Disk, h: Host, k: Kind)
    requires Owner(h) == Some(k)
    requires var m := Get(h, k); m.phase == SendingData && m.offset == m.size
    ensures var h' := OnAck(disk, h);
            && Owner(h') == Some(k)
            && h' == With(h, k, Get(h, k).(phase := WaitingFinishAck, timerArmed := true)).(out := h'.out)
            && h'.out == h.out + [Send(FinishCmd(k), [])]
  {
    hide ToUint32, LE32, Percent, Mid;
  }

  lemma OversizeLost(k: Kind, d: Device, out: seq<Output>, data: seq<byte>, percent: int)
    requires |data| >= 0x8000_0000 && ExecuteAll(k, d, out).content == []
    ensures ExecuteAll(k, d, out + [Send(DataCmd(k), LE32(0) + data), Progress(k, percent)]).content != data
  {
    hide Execute, ExecuteAll, LE32;
    var before := ExecuteAll(k, d, out);
    var chunk := Send(DataCmd(k), LE32(0) + data);
    ExecuteSend(k, d, out, chunk);
    ExecuteSend(k, d, out + [chunk], Progress(k, percent));
    assert out + [chunk] + [Progress(k, percent)] == out + [chunk, Progress(k, percent)];
    ShortCommandWritesLittle(k, before, Truncated(LE32(0) + data));
  }

  lemma ShortCommandWritesLittle(k: Kind, d: Device, payload: seq<byte>)
    requires d.content == [] && |payload| <= 0xFFFF && (|payload| >= 4 ==> payload[..4] == LE32(0))
    ensures |Execute(k, d, DataCmd(k), payload).content| <= 0xFFFF
  {}

  lemma FinishKeepsContent(k: Kind, d: Device, out: seq<Output>)
    ensures ExecuteAll(k, d, out + [Send(FinishCmd(k), []), Completed(k)]).content == ExecuteAll(k, d, out).content
  {
    hide ExecuteAll;
    ExecuteSend(k, d, out, Send(FinishCmd(k), []));
    ExecuteSend(k, d, out + [Send(FinishCmd(k), [])], Completed(k));
    assert out + [Send(FinishCmd(k), [])] + [Completed(k)] == out + [Send(FinishCmd(k), []), Completed(k)];
  }

  /** Everything that an accepted transfer sends and reports behind its START. */
  function TransferLog(k: Kind, data: seq<byte>): seq<Output> {
    var size := ToUint32(|data|);
    (if size < 0x8000_0000 then DataLog(k, data, size, 0)
     else [Send(DataCmd(k), LE32(0) + data), Progress(k, Percent(size, size))])
      + [Send(FinishCmd(k), []), Completed(k)]
  }

  /** An accepted transfer completes after that many ACKs, whatever the size of the file. */
  lemma AcceptedCompletes(disk: Disk, h: Host, k: Kind, data: seq<byte>)
    requires JustStarted(h, k, data)
    ensures var h' := Acks(disk, h, AcksNeeded(k, ToUint32(|data|)));
            !Active(h', k) && h'.out == h.out + TransferLog(k, data)
  {
    hide OnAck, Owner, LE32, Percent, ToUint32, RoundTrips;
    var size := ToUint32(|data|);
    SizeAtMost(data);
    if size < 0x8000_0000 {
      RoundTripsOfWhole(k, size);
      AckedTransfer(disk, h, k, data, size, 0);
      assert h.out + DataLog(k, data, size, 0) + [Send(FinishCmd(k), []), Completed(k)]
          == h.out + TransferLog(k, data);
    } else {
      OversizeChunk(disk, h, k, data);
      var h1 := OnAck(disk, h);
      OversizeFinish(disk, h1, k);
      var h2 := OnAck(disk, h1);
      AckCompletes(disk, h2, k);
      assert Acks(disk, h, 3) == Acks(disk, h1, 2) == Acks(disk, h2, 1) == Acks(disk, OnAck(disk, h2), 0);
      assert h1.out + [Send(FinishCmd(k), [])] + [Completed(k)] == h.out + TransferLog(k, data);
    }
  }

  lemma SizeAtMost(data: seq<byte>)
    ensures ToUint32(|data|) <= |data|
    ensures |data| < 0x1_0000_0000 ==> ToUint32(|data|) == |data|
  {}

  /**
   * The completion is reported for every accepted file, but the device holds the file exactly
   * when it is smaller than 2 GiB: the sizes and offsets of the source are 32 bits wide, and
   * the chunk length is a signed int.
   */
  lemma DeliveredExactly(disk: Disk, h: Host, k: Kind, data: seq<byte>, d: Device)
    requires JustStarted(h, k, data) && ExecuteAll(k, d, h.out).content == []
    ensures var h' := Acks(disk, h, AcksNeeded(k, ToUint32(|data|)));
            && !Active(h', k) && h'.out != [] && h'.out[|h'.out| - 1] == Completed(k)
            && (ExecuteAll(k, d, h'.out).content == data <==> |data| < 0x8000_0000)
  {
    hide OnAck, Acks, Exclusively, LE32, Percent, ToUint32, RoundTrips, ExecuteAll, DataLog;
    var size := ToUint32(|data|);
    SizeAtMost(data);
    AcceptedCompletes(disk, h, k, data);
    if size < 0x8000_0000 {
      ChunksReassemble(k, d, h.out, data, size, 0);
      FinishKeepsContent(k, d, h.out + DataLog(k, data, size, 0));
      assert h.out + TransferLog(k, data)
          == h.out + DataLog(k, data, size, 0) + [Send(FinishCmd(k), []), Completed(k)];
      assert |data| < 0x8000_0000 ==> data[..size] == data;
      assert |data[..size]| == size;
    } else {
      var log := [Send(DataCmd(k), LE32(0) + data), Progress(k, Percent(size, size))];
      OversizeLost(k, d, h.out, data, Percent(size, size));
      FinishKeepsContent(k, d, h.out + log);
      assert h.out + TransferLog(k, data) == h.out + log + [Send(FinishCmd(k), []), Completed(k)];
    }
  }

  /**
   * What the user sees of an accepted transfer: percentages that never run backwards and end at
   * 100, exactly when the 32-bit size is at most 42949672.
   */
  lemma ProgressExactly(disk: Disk, h: Host, k: Kind, data: seq<byte>)
    requires JustStarted(h, k, data)
    ensures var size := ToUint32(|data|);
            var h' := Acks(disk, h, AcksNeeded(k, size));
            && h.out <= h'.out
            && var r := Reports(h'.out[|h.out|..]);
               && (r != [] && Nondecreasing(r) && r[|r| - 1] == 100 <==> size <= 42949672)
               && (size < 0x8000_0000 ==> (Nondecreasing(r) <==> size <= 42949672))
  {
    hide Acks, Reports, TransferLog, ToUint32, Nondecreasing;
    AcceptedCompletes(disk, h, k, data);
    ReportsOfTransfer(k, data);
    assert (h.out + TransferLog(k, data))[|h.out|..] == TransferLog(k, data);
  }

  lemma ReportsOfTransfer(k: Kind, data: seq<byte>)
    requires ToUint32(|data|) != 0
    ensures var size := ToUint32(|data|);
            var r := Reports(TransferLog(k, data));
            && (r != [] && Nondecreasing(r) && r[|r| - 1] == 100 <==> size <= 42949672)
            && (size < 0x8000_0000 ==> (Nondecreasing(r) <==> size <= 42949672))
  {
    hide DataLog, Percent, LE32, ToUint32, Nondecreasing, Reports;
    var size := ToUint32(|data|);
    NoReports(k);
    if size < 0x8000_0000 {
      ReportsConcat(DataLog(k, data, size, 0), [Send(FinishCmd(k), []), Completed(k)]);
      ReportsExactly(k, data, size);
      var r := Reports(DataLog(k, data, size, 0));
      assert r + [] == r;
    } else {
      var chunk := [Send(DataCmd(k), LE32(0) + data), Progress(k, Percent(size, size))];
      ReportsConcat(chunk, [Send(FinishCmd(k), []), Completed(k)]);
      OneReport(k, LE32(0) + data, Percent(size, size));
      FinalProgressExactly(size);
    }
  }

  lemma OneReport(k: Kind, payload: seq<byte>, percent: int)
    ensures Reports([Send(DataCmd(k), payload), Progress(k, percent)]) == [percent]
  {
    var s := [Send(DataCmd(k), payload), Progress(k, percent)];
    assert s[1..][1..] == [];
    assert Reports(s) == [] + Reports(s[1..]) && Reports(s[1..]) == [percent] + Reports([]);
  }

  lemma NoReports(k: Kind)
    ensures Reports([Send(FinishCmd(k), []), Completed(k)]) == []
  {
    var s: seq<Output> := [Send(FinishCmd(k), []), Completed(k)];
    assert s[1..][1..] == [] && Reports(s[1..]) == Reports([]);
  }
}
