// A whole folder upload over the two byte streams of EndToEnd, in whatever pieces they arrive: the
// card at the other end decodes the stream, obeys each command and answers it with one ACK.

module FolderStreams {
  import opened Bytes
  import opened Crc16
  import opened CrcSession
  import opened Framing
  import opened HostModel
  import opened HostRuns
  import opened HonestDevice
  import opened Transfers
  import opened EndToEnd
  import opened FolderUpload
  import opened FolderDelivery
  import opened QueueEnds

  /** The streams with their two ends, and the card behind the far one. */
  datatype CardWorld = CardWorld(world: World, card: Card)

  /** The card obeys what the far end accepts. */
  function ObeyCandidates(l: Link, base: Text, c: Card, cs: seq<Candidate>): Card
    requires forall c <- cs :: Announceable(c.frame)
    decreases |cs|
  {
    if cs == [] then c
    else
      var f := cs[0].frame;
      var accepted := Checksum(l.dialect, Body(f)) == cs[0].received;
      ObeyCandidates(l, base, if accepted then Obey(base, c, f.cmd, f.payload) else c, cs[1..])
  }

  function CardNext(l: Link, base: Text, cw: CardWorld, step: Step): CardWorld {
    var w := cw.world;
    var card :=
      match step
      case ToDevice(n) =>
        ObeyCandidates(l, base, cw.card, Batch(w.devicePending + w.toDevice[..Cut(n, w.toDevice)]).candidates)
      case ToHost(_) => cw.card;
    CardWorld(EndToEnd.Next(l, w, step), card)
  }

  function CardRun(l: Link, base: Text, cw: CardWorld, steps: seq<Step>): CardWorld
    decreases |steps|
  {
    if steps == [] then cw else CardRun(l, base, CardNext(l, base, cw, steps[0]), steps[1..])
  }

  // ---------------------------------------------------------------------------
  // The host, one ACK at a time
  // ---------------------------------------------------------------------------

  /** The host is in the middle of a folder upload. */
  predicate Working(disk: Disk, h: Host) {
    && AllUploadable(disk, h.queue)
    && (forall k :: 0 <= k < |h.queue| ==> PathFits(h.queue[k].remotePath))
    && (forall k :: 0 <= k < |h.dirs| ==> PathFits(h.dirs[k]))
    && if h.dirIndex >= 0 then DirStarted(h, h.dirIndex) else OnFile(disk, h)
  }

  /** The host is in the middle of a file of the queue, and the directories are all made. */
  predicate OnFile(disk: Disk, h: Host)
    requires AllUploadable(disk, h.queue)
  {
    && h.dirIndex == -1 && h.pendingCmd == 0 && 0 <= h.queueIndex < |h.queue| && Owner(h) == Some(File)
    && var data := DataOf(disk, h.queue[h.queueIndex]);
       h.file.phase == WaitingFinishAck || Transferring(h, File, data, |data|, h.file.offset)
  }

  /** The command among some outputs of which one is a command. */
  function Command(outs: seq<Output>): Output {
    if outs != [] && outs[0].Send? then outs[0] else if |outs| == 2 then outs[1] else QueueCompleted(0)
  }

  /** One command that fits a frame, with at most one report before or behind it. */
  predicate OneCommand(outs: seq<Output>) {
    && 1 <= |outs| <= 2 && Command(outs).Send? && |Command(outs).payload| <= MAX_PAYLOAD
    && (|outs| == 2 ==> !(outs[0].Send? && outs[1].Send?))
    && !ReportsQueueEnd(outs)
  }

  /** The end of the upload: reports, but no command. */
  predicate OnlyReports(outs: seq<Output>) {
    (forall o <- outs :: !o.Send?) && ReportsQueueEnd(outs)
  }

  lemma StartLogIsOneCommand(disk: Disk, queue: seq<QueueItem>, i: nat)
    requires i < |queue| && Uploadable(disk, queue[i]) && PathFits(queue[i].remotePath)
    ensures OneCommand(StartLog(disk, queue, i))
  {
    hide LE32;
  }

  lemma ChunkIsOneCommand(k: Kind, payload: seq<byte>, percent: int)
    requires |payload| <= MAX_PAYLOAD
    ensures OneCommand([Send(DataCmd(k), payload), Progress(k, percent)])
  {}

  lemma CommandIsOneCommand(cmd: byte, payload: seq<byte>)
    requires |payload| <= MAX_PAYLOAD
    ensures OneCommand([Send(cmd, payload)])
  {}

  lemma EndIsOnlyReports(total: nat)
    ensures OnlyReports([QueueCompleted(total)])
  {
    assert QueueCompleted(total) in [QueueCompleted(total)];
  }

  /** An ACK makes a working host send its next command, or puts it at rest with the report of the end. */
  lemma AckWorks(disk: Disk, h: Host) returns (outs: seq<Output>)
    requires Working(disk, h)
    ensures var h' := OnAck(disk, h);
            && h'.out == h.out + outs
            && ((Working(disk, h') && OneCommand(outs)) || (AtRest(h') && OnlyReports(outs)))
  {
    hide OnAck, OneCommand, OnlyReports, PathFits, Uploadable;
    if h.dirIndex >= 0 {
      outs := DirAckWorks(disk, h);
    } else {
      outs := FileAckWorks(disk, h);
    }
  }

  lemma DirAckWorks(disk: Disk, h: Host) returns (outs: seq<Output>)
    requires Working(disk, h) && h.dirIndex >= 0
    ensures var h' := OnAck(disk, h);
            && h'.out == h.out + outs
            && ((Working(disk, h') && OneCommand(outs)) || (AtRest(h') && OnlyReports(outs)))
  {
    hide OnAck, OneCommand, OnlyReports, PathFits, Uploadable, UploadFile, StartLog;
    var i := h.dirIndex;
    AckMakesDir(disk, h, i);
    if i + 1 < |h.dirs| {
      outs := [Send(CMD_FILE_MKDIR, MkdirPayload(h.dirs[i + 1]))];
      MkdirFits(h.dirs[i + 1]);
      CommandIsOneCommand(CMD_FILE_MKDIR, MkdirPayload(h.dirs[i + 1]));
    } else {
      var made := h.(pendingCmd := 0, dirs := [], dirIndex := -1);
      if h.queue == [] {
        outs := [QueueCompleted(0)];
        EndIsOnlyReports(0);
      } else {
        outs := StartLog(disk, h.queue, 0);
        StartOfFile(disk, made, 0);
        StartLogIsOneCommand(disk, h.queue, 0);
        StartedIsWorking(disk, OnAck(disk, h), 0);
      }
    }
  }

  lemma MkdirFits(dir: Text)
    requires PathFits(dir)
    ensures |MkdirPayload(dir)| <= MAX_PAYLOAD
  {}

  lemma StartedIsWorking(disk: Disk, h: Host, i: nat)
    requires FileStarted(disk, h, i) && h.dirIndex == -1 && h.pendingCmd == 0
    ensures OnFile(disk, h)
  {}

  lemma FileAckWorks(disk: Disk, h: Host) returns (outs: seq<Output>)
    requires Working(disk, h) && h.dirIndex < 0
    ensures var h' := OnAck(disk, h);
            && h'.out == h.out + outs
            && ((Working(disk, h') && OneCommand(outs)) || (AtRest(h') && OnlyReports(outs)))
  {
    hide OnAck, OneCommand, OnlyReports, PathFits, Uploadable, Working, AtRest;
    WorkingOnFile(disk, h);
    if h.file.phase == WaitingFinishAck {
      outs := LastAckWorks(disk, h);
    } else {
      outs := ChunkAckWorks(disk, h);
    }
  }

  lemma WorkingOnFile(disk: Disk, h: Host)
    requires Working(disk, h) && h.dirIndex < 0
    ensures AllUploadable(disk, h.queue) && OnFile(disk, h)
  {}

  /** The ACK of FINISH starts the next file or ends the upload. */
  lemma LastAckWorks(disk: Disk, h: Host) returns (outs: seq<Output>)
    requires Working(disk, h) && h.dirIndex < 0 && h.file.phase == WaitingFinishAck
    ensures var h' := OnAck(disk, h);
            && h'.out == h.out + outs
            && ((Working(disk, h') && OneCommand(outs)) || (AtRest(h') && OnlyReports(outs)))
  {
    hide OnAck, OneCommand, OnlyReports, PathFits, Uploadable, StartLog, Owner;
    var i := h.queueIndex;
    FinishAdvancesQueue(disk, h, i);
    FinishKeepsQueue(disk, h);
    if i + 1 == |h.queue| {
      outs := [QueueCompleted(|h.queue|)];
      EndIsOnlyReports(|h.queue|);
    } else {
      outs := StartLog(disk, h.queue, i + 1);
      StartLogIsOneCommand(disk, h.queue, i + 1);
      StartedIsWorking(disk, OnAck(disk, h), i + 1);
    }
  }

  lemma ChunkAckWorks(disk: Disk, h: Host) returns (outs: seq<Output>)
    requires Working(disk, h) && h.dirIndex < 0 && h.file.phase != WaitingFinishAck
    ensures var h' := OnAck(disk, h);
            h'.out == h.out + outs && Working(disk, h') && OneCommand(outs)
  {
    hide OnAck, OneCommand, PathFits, Uploadable, LE32, Percent, Owner;
    var data := DataOf(disk, h.queue[h.queueIndex]);
    var offset := h.file.offset;
    if offset < |data| {
      AckSendsChunk(disk, h, File, data, |data|, offset);
      var end := ChunkEnd(File, |data|, offset);
      outs := [Send(DataCmd(File), LE32(offset) + data[offset..end]), Progress(File, Percent(end, |data|))];
      ChunkIsOneCommand(File, LE32(offset) + data[offset..end], Percent(end, |data|));
    } else {
      AckSendsFinish(disk, h, File, data, |data|);
      outs := [Send(FinishCmd(File), [])];
      CommandIsOneCommand(FinishCmd(File), []);
    }
  }

  lemma FinishKeepsQueue(disk: Disk, h: Host)
    requires Owner(h) == Some(File) && h.file.phase == WaitingFinishAck
    ensures OnAck(disk, h).dirs == h.dirs
  {
    hide LE32, ToUint32, NextChunk;
  }

  /** A host at rest answers an ACK with nothing. */
  lemma AckAtRest(disk: Disk, h: Host)
    requires AtRest(h)
    ensures AtRest(OnAck(disk, h)) && OnAck(disk, h).out == h.out
  {
    hide AdvanceDirs;
  }

  lemma {:induction false} AcksAtRest(disk: Disk, h: Host, n: nat)
    requires AtRest(h)
    ensures AtRest(Acks(disk, h, n)) && Acks(disk, h, n).out == h.out
    decreases n
  {
    hide OnAck, AtRest;
    if n > 0 {
      AckAtRest(disk, h);
      AcksAtRest(disk, OnAck(disk, h), n - 1);
    }
  }

  /** All the ACKs that leave the host at rest leave it with one log. */
  lemma OneFinalLog(disk: Disk, h: Host, m: nat, n: nat)
    requires AtRest(Acks(disk, h, m)) && AtRest(Acks(disk, h, n))
    ensures Acks(disk, h, m).out == Acks(disk, h, n).out
  {
    hide OnAck, AtRest;
    if m <= n {
      AcksAdd(disk, h, m, n - m);
      AcksAtRest(disk, Acks(disk, h, m), n - m);
    } else {
      AcksAdd(disk, h, n, m - n);
      AcksAtRest(disk, Acks(disk, h, n), m - n);
    }
  }

  // ---------------------------------------------------------------------------
  // The streams
  // ---------------------------------------------------------------------------

  /** An upload under way: how it started, and the card and the log from before. */
  datatype Upload = Upload(base: Text, start: Host, log: seq<Output>, card: Card)

  /** What the card is once it has obeyed everything that the host has sent. */
  function CardOf(u: Upload, h: Host): Card {
    if u.log <= h.out then ObeyAll(u.base, u.card, h.out[|u.log|..]) else u.card
  }

  ghost predicate Reached(l: Link, u: Upload, h: Host) {
    u.log <= h.out && exists n: nat :: h == Acks(l.disk, u.start, n)
  }

  predicate EndReported(u: Upload, h: Host) {
    u.log <= h.out && ReportsQueueEnd(h.out[|u.log|..])
  }

  /** One command is on its way, in whatever pieces, and the card lacks just that one. */
  ghost predicate Commanding(l: Link, u: Upload, cw: CardWorld, f: Frame) {
    var w := cw.world;
    && Reached(l, u, w.host) && Working(l.disk, w.host) && !EndReported(u, w.host)
    && |f.payload| <= MAX_PAYLOAD
    && w.toDevice != [] && w.devicePending + w.toDevice == Wire(l.dialect, f)
    && w.hostPending == [] && w.toHost == []
    && Obey(u.base, cw.card, f.cmd, f.payload) == CardOf(u, w.host)
  }

  /** One ACK is on its way, and the card has obeyed everything. */
  ghost predicate Answering(l: Link, u: Upload, cw: CardWorld, f: Frame) {
    var w := cw.world;
    && Reached(l, u, w.host) && Working(l.disk, w.host) && !EndReported(u, w.host)
    && f.cmd == CMD_ACK && f.payload == []
    && w.toHost != [] && w.hostPending + w.toHost == Wire(l.dialect, f)
    && w.devicePending == [] && w.toDevice == []
    && cw.card == CardOf(u, w.host)
  }

  ghost predicate Finished(l: Link, u: Upload, cw: CardWorld) {
    var w := cw.world;
    && Reached(l, u, w.host) && AtRest(w.host) && EndReported(u, w.host)
    && w.hostPending == [] && w.toHost == [] && w.devicePending == [] && w.toDevice == []
    && cw.card == CardOf(u, w.host)
  }

  ghost predicate Underway(l: Link, u: Upload, cw: CardWorld) {
    || (exists f :: Commanding(l, u, cw, f))
    || (exists f :: Answering(l, u, cw, f))
    || Finished(l, u, cw)
  }

  lemma OneCandidate(l: Link, base: Text, c: Card, f: Frame)
    requires Announceable(f)
    ensures ObeyCandidates(l, base, c, [Candidate(f, Checksum(l.dialect, Body(f)))]) == Obey(base, c, f.cmd, f.payload)
  {
    hide Checksum, Obey;
    var cs := [Candidate(f, Checksum(l.dialect, Body(f)))];
    assert cs[1..] == [];
    assert ObeyCandidates(l, base, c, cs)
        == ObeyCandidates(l, base, Obey(base, c, f.cmd, f.payload), cs[1..]);
  }

  /** A proper part of a command, or nothing, changes nothing at the card. */
  lemma PartToCard(l: Link, base: Text, cw: CardWorld, f: Frame, n: nat)
    requires |f.payload| <= MAX_PAYLOAD && cw.world.devicePending + cw.world.toDevice == Wire(l.dialect, f)
    requires n < |cw.world.toDevice|
    ensures CardNext(l, base, cw, ToDevice(n)).card == cw.card
  {
    hide Wire, Checksum, Batch, EndToEnd.Next, Obey;
    var w := cw.world;
    var p := w.devicePending + w.toDevice[..n];
    assert p == Wire(l.dialect, f)[..|p|];
    ProperPrefixIsUnfinished(l.dialect, f, |p|);
  }

  lemma NothingToCard(l: Link, base: Text, cw: CardWorld, n: nat)
    requires cw.world.devicePending == [] && cw.world.toDevice == []
    ensures CardNext(l, base, cw, ToDevice(n)) == cw
  {
    hide Wire, Checksum, EndToEnd.Next, Obey;
    assert cw.world.devicePending + cw.world.toDevice[..0] == [];
    NothingToDevice(l, cw.world, n);
  }

  lemma RestToCard(l: Link, base: Text, cw: CardWorld, f: Frame, n: nat)
    requires |f.payload| <= MAX_PAYLOAD && cw.world.devicePending + cw.world.toDevice == Wire(l.dialect, f)
    requires n >= |cw.world.toDevice|
    ensures CardNext(l, base, cw, ToDevice(n)).card == Obey(base, cw.card, f.cmd, f.payload)
  {
    hide Wire, Checksum, Batch, EndToEnd.Next, Obey, ObeyCandidates;
    var w := cw.world;
    assert w.toDevice[..|w.toDevice|] == w.toDevice;
    WireScansBack(l.dialect, f);
    OneCandidate(l, base, cw.card, f);
  }

  lemma CommandingStep(l: Link, u: Upload, cw: CardWorld, f: Frame, step: Step)
    requires Commanding(l, u, cw, f)
    ensures Underway(l, u, CardNext(l, u.base, cw, step))
    ensures step.ToDevice? && step.n >= |cw.world.toDevice| ==>
              var cw' := CardNext(l, u.base, cw, step);
              Answering(l, u, cw', Frame(CMD_ACK, f.seqNo, [])) && cw'.world.host == cw.world.host
  {
    hide EndToEnd.Next, Wire, Obey, Execute, Working, Reached, EndReported, CardOf, ObeyCandidates;
    var cw' := CardNext(l, u.base, cw, step);
    match step
    case ToHost(n) =>
      NothingToHost(l, cw.world, n);
      assert cw' == cw;
    case ToDevice(n) =>
      if n < |cw.world.toDevice| {
        PartToDevice(l, cw.world, f, n);
        PartToCard(l, u.base, cw, f, n);
        assert Commanding(l, u, cw', f);
      } else {
        RestToDevice(l, cw.world, f, n);
        RestToCard(l, u.base, cw, f, n);
        AckFrameFits(l, f.seqNo);
        assert Answering(l, u, cw', Frame(CMD_ACK, f.seqNo, []));
      }
  }

  // ---------------------------------------------------------------------------
  // What an ACK makes the host send
  // ---------------------------------------------------------------------------

  lemma MovesWithCommand(l: Link, w: World, h': Host, outs: seq<Output>)
    requires h'.out == w.host.out + outs && OneCommand(outs) && w.toDevice == []
    ensures var f := Frame(Command(outs).cmd, w.hostSeq, Command(outs).payload);
            && HostMoves(l, w, h').host == h'
            && HostMoves(l, w, h') == w.(host := h', hostSeq := (w.hostSeq + 1) % 0x100, toDevice := Wire(l.dialect, f))
  {
    hide Wire, ReportsQueueEnd;
    assert h'.out[|w.host.out|..] == outs;
    var c := Command(outs);
    assert Truncated(c.payload) == c.payload;
    var s := (w.hostSeq + 1) % 0x100;
    var frame := Wire(l.dialect, Frame(c.cmd, w.hostSeq, c.payload));
    assert EncodeSends(l, s, []) == [] && CountSends([]) == 0;
    assert |outs| == 2 ==> outs[1..] == [outs[1]] && outs[1..][1..] == [];
    assert |outs| == 1 ==> outs[1..] == [];
    assert frame + [] == frame;
    if |outs| == 2 && outs[0].Send? {
      assert EncodeSends(l, s, outs[1..]) == [] && CountSends(outs[1..]) == 0;
    } else if |outs| == 2 {
      assert EncodeSends(l, w.hostSeq, outs[1..]) == frame && CountSends(outs[1..]) == 1;
    }
  }

  lemma MovesWithReports(l: Link, w: World, h': Host, outs: seq<Output>)
    requires h'.out == w.host.out + outs && (forall o <- outs :: !o.Send?) && w.toDevice == []
    ensures HostMoves(l, w, h') == w.(host := h')
  {
    assert h'.out[|w.host.out|..] == outs;
    NoSends(l, w.hostSeq, outs);
  }

  lemma {:induction false} NoSends(l: Link, seqNo: byte, outs: seq<Output>)
    requires forall o <- outs :: !o.Send?
    ensures EncodeSends(l, seqNo, outs) == [] && CountSends(outs) == 0
    decreases |outs|
  {
    if outs != [] {
      NoSends(l, seqNo, outs[1..]);
    }
  }

  lemma ObeyCommand(base: Text, c: Card, log: seq<Output>, outs: seq<Output>)
    requires OneCommand(outs)
    ensures ObeyAll(base, c, log + outs)
         == Obey(base, ObeyAll(base, c, log), Command(outs).cmd, Command(outs).payload)
  {
    hide ObeyAll, Obey, ReportsQueueEnd;
    assert Truncated(Command(outs).payload) == Command(outs).payload;
    ObeyOne(base, c, log, outs[0]);
    if |outs| == 1 {
      assert log + outs == log + [outs[0]];
    } else {
      ObeyOne(base, c, log + [outs[0]], outs[1]);
      assert log + outs == log + [outs[0]] + [outs[1]];
    }
  }

  lemma {:induction false} ObeyReports(base: Text, c: Card, log: seq<Output>, outs: seq<Output>)
    requires forall o <- outs :: !o.Send?
    ensures ObeyAll(base, c, log + outs) == ObeyAll(base, c, log)
    decreases |outs|
  {
    hide ObeyAll;
    if outs == [] {
      assert log + outs == log;
    } else {
      var n := |outs| - 1;
      ObeyReports(base, c, log, outs[..n]);
      ObeyOne(base, c, log + outs[..n], outs[n]);
      assert log + outs == log + outs[..n] + [outs[n]];
    }
  }

  lemma ReachedByAck(l: Link, u: Upload, h: Host, outs: seq<Output>)
    requires Reached(l, u, h) && OnAck(l.disk, h).out == h.out + outs
    ensures Reached(l, u, OnAck(l.disk, h))
    ensures OnAck(l.disk, h).out[|u.log|..] == h.out[|u.log|..] + outs
  {
    hide OnAck, Acks;
    var n: nat :| h == Acks(l.disk, u.start, n);
    AcksLast(l.disk, u.start, n);
  }

  lemma ReportsConcat(a: seq<Output>, b: seq<Output>)
    ensures ReportsQueueEnd(a + b) <==> ReportsQueueEnd(a) || ReportsQueueEnd(b)
  {
    assert forall o :: o in a + b <==> o in a || o in b;
  }

  /** The ACK brings the next command, or the end. */
  lemma AnswerArrives(l: Link, u: Upload, cw: CardWorld, f: Frame, n: nat)
    requires Answering(l, u, cw, f) && n >= |cw.world.toHost|
    ensures var cw' := CardNext(l, u.base, cw, ToHost(n));
            && cw'.world.host == OnAck(l.disk, cw.world.host)
            && (Finished(l, u, cw') || exists f' :: Commanding(l, u, cw', f'))
  {
    hide EndToEnd.Next, Wire, OnAck, HostMoves, Working, Reached, Obey, ObeyAll, ReportsQueueEnd, OneCommand, AtRest;
    var w := cw.world;
    var idle := w.(toHost := [], hostPending := []);
    var h' := OnAck(l.disk, w.host);
    RestToHost(l, w, f, n);
    var outs := AckWorks(l.disk, w.host);
    var cw' := CardNext(l, u.base, cw, ToHost(n));
    ReachedByAck(l, u, w.host, outs);
    LogOfReached(l, u, w.host);
    LogOfReached(l, u, h');
    ReportsConcat(w.host.out[|u.log|..], outs);
    if OneCommand(outs) && Working(l.disk, h') {
      CommandFits(outs);
      MovesWithCommand(l, idle, h', outs);
      ObeyCommand(u.base, u.card, w.host.out[|u.log|..], outs);
      var f' := Frame(Command(outs).cmd, w.hostSeq, Command(outs).payload);
      WireNotEmpty(l, f');
      assert Commanding(l, u, cw', f');
    } else {
      MovesWithReports(l, idle, h', outs);
      ObeyReports(u.base, u.card, w.host.out[|u.log|..], outs);
      assert Finished(l, u, cw');
    }
  }

  lemma LogOfReached(l: Link, u: Upload, h: Host)
    requires Reached(l, u, h)
    ensures u.log <= h.out
  {}

  lemma CommandFits(outs: seq<Output>)
    requires OneCommand(outs)
    ensures Command(outs).Send? && |Command(outs).payload| <= MAX_PAYLOAD && !ReportsQueueEnd(outs)
  {}

  lemma StepStaysUnderway(l: Link, u: Upload, cw: CardWorld, step: Step)
    requires Underway(l, u, cw)
    ensures Underway(l, u, CardNext(l, u.base, cw, step))
  {
    hide EndToEnd.Next, Commanding, Wire, Obey, Working, Reached, EndReported, CardOf, ObeyCandidates, AtRest;
    if f :| Commanding(l, u, cw, f) {
      CommandingStep(l, u, cw, f, step);
    } else if f :| Answering(l, u, cw, f) {
      match step
      case ToDevice(n) => NothingToCard(l, u.base, cw, n);
      case ToHost(n) =>
        if n < |cw.world.toHost| {
          PartToHost(l, cw.world, f, n);
          assert Answering(l, u, CardNext(l, u.base, cw, step), f);
        } else {
          AnswerArrives(l, u, cw, f, n);
        }
    } else {
      match step
      case ToDevice(n) => NothingToCard(l, u.base, cw, n);
      case ToHost(n) => NothingToHost(l, cw.world, n);
    }
  }

  lemma {:induction false} RunStaysUnderway(l: Link, u: Upload, cw: CardWorld, steps: seq<Step>)
    requires Underway(l, u, cw)
    ensures Underway(l, u, CardRun(l, u.base, cw, steps))
    decreases |steps|
  {
    hide CardNext, Underway;
    if steps != [] {
      StepStaysUnderway(l, u, cw, steps[0]);
      RunStaysUnderway(l, u, CardNext(l, u.base, cw, steps[0]), steps[1..]);
    }
  }

  // ---------------------------------------------------------------------------
  // The folder
  // ---------------------------------------------------------------------------

  /** The request was accepted by a quiet host, and every command that it takes fits a frame. */
  ghost predicate FolderAccepted(disk: Disk, h: Host, entries: seq<Entry>, baseName: Text, remotePath: Text) {
    var base := WithSlash(remotePath) + baseName;
    && Quiet(h) && h.queueIndex == -1
    && AllUploadable(disk, RemoteFiles(base, entries)) && AllPathsFit(base, entries)
    && ListsTree(entries) && FilesInTree(entries)
  }

  /** The upload that such a request starts, and the moment its first MKDIR is on its way. */
  function UploadOf(h: Host, entries: seq<Entry>, baseName: Text, remotePath: Text, card: Card): Upload {
    Upload(WithSlash(remotePath) + baseName, UploadFolder(h, Some(entries), baseName, remotePath), h.out, card)
  }

  function FirstMkdir(seqNo: byte, u: Upload): (f: Frame)
    ensures Announceable(f)
  {
    Frame(CMD_FILE_MKDIR, seqNo, Truncated(if u.start.dirs == [] then [] else MkdirPayload(u.start.dirs[0])))
  }

  function FolderBegun(l: Link, u: Upload, seqNo: byte, device: Device): CardWorld {
    CardWorld(World(u.start, (seqNo + 1) % 0x100, [], Wire(l.dialect, FirstMkdir(seqNo, u)), device, [], []), u.card)
  }

  lemma FolderStartsWorking(disk: Disk, h: Host, entries: seq<Entry>, baseName: Text, remotePath: Text, card: Card)
    requires FolderAccepted(disk, h, entries, baseName, remotePath)
    ensures var u := UploadOf(h, entries, baseName, remotePath, card);
            && Working(disk, u.start) && u.start.dirs != []
            && u.start.out == h.out + [QueueProgress(0, |u.start.queue|, []),
                                       Send(CMD_FILE_MKDIR, MkdirPayload(u.start.dirs[0]))]
  {
    hide SortByLength, RemoteDirs, RemoteFiles, WithSlash, MkdirPayload, PathFits, Uploadable;
    var base := WithSlash(remotePath) + baseName;
    var dirs, files := [base] + RemoteDirs(base, entries), RemoteFiles(base, entries);
    var sorted := SortByLength(dirs);
    SortSorts(dirs);
    assert base in multiset(dirs);
    forall k | 0 <= k < |sorted| ensures PathFits(sorted[k]) {
      DirFits(base, entries, sorted, k);
    }
    forall k | 0 <= k < |files| ensures PathFits(files[k].remotePath) {
      InRemoteFiles(base, entries, k);
    }
  }

  lemma FolderBegins(l: Link, h: Host, entries: seq<Entry>, baseName: Text, remotePath: Text, card: Card,
                     seqNo: byte, device: Device)
    requires FolderAccepted(l.disk, h, entries, baseName, remotePath)
    ensures var u := UploadOf(h, entries, baseName, remotePath, card);
            && |FirstMkdir(seqNo, u).payload| <= MAX_PAYLOAD
            && Commanding(l, u, FolderBegun(l, u, seqNo, device), FirstMkdir(seqNo, u))
  {
    hide Working, Obey, ObeyAll, MkdirPayload, Wire, UploadFolder, FolderAccepted, ReportsQueueEnd;
    var u := UploadOf(h, entries, baseName, remotePath, card);
    FolderStartsWorking(l.disk, h, entries, baseName, remotePath, card);
    FirstDirFits(l.disk, u.start);
    assert Truncated(MkdirPayload(u.start.dirs[0])) == MkdirPayload(u.start.dirs[0]);
    var outs := [QueueProgress(0, |u.start.queue|, []), Send(CMD_FILE_MKDIR, MkdirPayload(u.start.dirs[0]))];
    FirstCommand(u.base, card, outs[0], outs[1]);
    assert u.start.out[|h.out|..] == outs;
    assert u.start == Acks(l.disk, u.start, 0);
    WireNotEmpty(l, FirstMkdir(seqNo, u));
  }

  lemma FirstDirFits(disk: Disk, h: Host)
    requires Working(disk, h) && h.dirs != []
    ensures |MkdirPayload(h.dirs[0])| <= MAX_PAYLOAD
  {
    assert PathFits(h.dirs[0]);
  }

  lemma FirstCommand(base: Text, card: Card, report: Output, send: Output)
    requires !report.Send? && !report.QueueCompleted? && send.Send? && |send.payload| <= MAX_PAYLOAD
    ensures ObeyAll(base, card, [report, send]) == Obey(base, card, send.cmd, send.payload)
    ensures !ReportsQueueEnd([report, send])
  {
    hide Obey;
    var outs := [report, send];
    ObeyNothing(base, card);
    ObeyCommand(base, card, [], outs);
    assert [] + outs == outs;
  }

  /** Where the upload has finished, the card has the folder. */
  lemma FinishedDelivers(l: Link, h: Host, entries: seq<Entry>, baseName: Text, remotePath: Text, card: Card,
                         cw: CardWorld)
    requires FolderAccepted(l.disk, h, entries, baseName, remotePath)
    requires Finished(l, UploadOf(h, entries, baseName, remotePath, card), cw)
    ensures Delivers(l.disk, WithSlash(remotePath) + baseName, entries, card, cw.card)
  {
    hide Acks, UploadFolder, ObeyAll, AtRest, Delivers, ListsTree, FilesInTree, AllPathsFit, Quiet, RemoteFiles,
         RemoteDirs, FilesAcks, WithSlash, ReportsQueueEnd;
    var base := WithSlash(remotePath) + baseName;
    var start := UploadFolder(h, Some(entries), baseName, remotePath);
    FolderIsDelivered(l.disk, h, entries, baseName, remotePath, card);
    var n: nat :| cw.world.host == Acks(l.disk, start, n);
    var m := 1 + |RemoteDirs(base, entries)| + FilesAcks(l.disk, RemoteFiles(base, entries));
    assert FolderUploaded(l.disk, h, entries, baseName, remotePath) == Acks(l.disk, start, m);
    OneFinalLog(l.disk, start, m, n);
  }

  /**
   * Safety of every run of a folder upload, however the streams are cut up and interleaved: the end
   * of the upload is reported only when the card holds the whole folder, every directory made and
   * every file stored with its content.
   */
  lemma FolderUploadIsSafe(l: Link, h: Host, entries: seq<Entry>, baseName: Text, remotePath: Text, card: Card,
                           seqNo: byte, device: Device, steps: seq<Step>)
    requires FolderAccepted(l.disk, h, entries, baseName, remotePath)
    ensures var u := UploadOf(h, entries, baseName, remotePath, card);
            var cw := CardRun(l, u.base, FolderBegun(l, u, seqNo, device), steps);
            && h.out <= cw.world.host.out
            && (ReportsQueueEnd(cw.world.host.out[|h.out|..]) ==> Delivers(l.disk, u.base, entries, card, cw.card))
  {
    hide CardRun, Delivers, FolderAccepted, FolderBegun, UploadFolder, WithSlash, Working, AtRest, Acks, CardOf, Obey,
         ReportsQueueEnd, Wire;
    var u := UploadOf(h, entries, baseName, remotePath, card);
    var begun := FolderBegun(l, u, seqNo, device);
    var cw := CardRun(l, u.base, begun, steps);
    FolderBegins(l, h, entries, baseName, remotePath, card, seqNo, device);
    RunStaysUnderway(l, u, begun, steps);
    if Finished(l, u, cw) {
      FinishedDelivers(l, h, entries, baseName, remotePath, card, cw);
    }
  }

  function CardRound(l: Link, base: Text, cw: CardWorld): CardWorld {
    var cw' := CardNext(l, base, cw, ToDevice(|cw.world.toDevice|));
    CardNext(l, base, cw', ToHost(|cw'.world.toHost|))
  }

  function CardRounds(l: Link, base: Text, cw: CardWorld, n: nat): CardWorld
    decreases n
  {
    if n == 0 then cw else CardRounds(l, base, CardRound(l, base, cw), n - 1)
  }

  /** Each round trip is one ACK, until the upload has finished. */
  lemma {:induction false} RoundsAcknowledge(l: Link, u: Upload, cw: CardWorld, n: nat)
    requires Finished(l, u, cw) || exists f :: Commanding(l, u, cw, f)
    ensures var cw' := CardRounds(l, u.base, cw, n);
            || Finished(l, u, cw')
            || (Working(l.disk, cw'.world.host) && cw'.world.host == Acks(l.disk, cw.world.host, n))
    decreases n
  {
    hide CardNext, OnAck, Working, Obey, Wire, Reached, AtRest, CardOf;
    if n > 0 {
      var cw1 := CardRound(l, u.base, cw);
      if Finished(l, u, cw) {
        FinishedStays(l, u, cw);
      } else {
        var f :| Commanding(l, u, cw, f);
        var cw' := CardNext(l, u.base, cw, ToDevice(|cw.world.toDevice|));
        CommandingStep(l, u, cw, f, ToDevice(|cw.world.toDevice|));
        AnswerArrives(l, u, cw', Frame(CMD_ACK, f.seqNo, []), |cw'.world.toHost|);
      }
      if Finished(l, u, cw1) {
        FinishedStaysRounds(l, u, cw1, n - 1);
      } else {
        RoundsAcknowledge(l, u, cw1, n - 1);
      }
      assert CardRounds(l, u.base, cw, n) == CardRounds(l, u.base, cw1, n - 1);
    }
  }

  lemma FinishedStays(l: Link, u: Upload, cw: CardWorld)
    requires Finished(l, u, cw)
    ensures CardRound(l, u.base, cw) == cw
  {
    hide EndToEnd.Next, Obey, Wire, ObeyCandidates;
    NothingToCard(l, u.base, cw, 0);
    NothingToHost(l, cw.world, 0);
  }

  lemma {:induction false} FinishedStaysRounds(l: Link, u: Upload, cw: CardWorld, n: nat)
    requires Finished(l, u, cw)
    ensures CardRounds(l, u.base, cw, n) == cw
    decreases n
  {
    hide CardRound, Finished;
    if n > 0 {
      FinishedStays(l, u, cw);
      FinishedStaysRounds(l, u, cw, n - 1);
    }
  }

  /**
   * One round trip for each directory and 2 + ceil(n / 512) for each file of n bytes, and the card
   * holds the folder.
   */
  lemma FolderArrives(l: Link, h: Host, entries: seq<Entry>, baseName: Text, remotePath: Text, card: Card,
                      seqNo: byte, device: Device)
    requires FolderAccepted(l.disk, h, entries, baseName, remotePath)
    ensures var u := UploadOf(h, entries, baseName, remotePath, card);
            var trips := 1 + |RemoteDirs(u.base, entries)| + FilesAcks(l.disk, RemoteFiles(u.base, entries));
            var cw := CardRounds(l, u.base, FolderBegun(l, u, seqNo, device), trips);
            Finished(l, u, cw) && Delivers(l.disk, u.base, entries, card, cw.card)
  {
    hide CardRounds, Delivers, UploadFolder, WithSlash, Acks, CardOf, Obey, ReportsQueueEnd, Wire, Commanding,
         RemoteDirs, RemoteFiles, FilesAcks, AllPathsFit, ListsTree, FilesInTree, Finished, Working;
    var u := UploadOf(h, entries, baseName, remotePath, card);
    var begun := FolderBegun(l, u, seqNo, device);
    var trips := 1 + |RemoteDirs(u.base, entries)| + FilesAcks(l.disk, RemoteFiles(u.base, entries));
    FolderBegins(l, h, entries, baseName, remotePath, card, seqNo, device);
    RoundsAcknowledge(l, u, begun, trips);
    var cw := CardRounds(l, u.base, begun, trips);
    FolderIsDelivered(l.disk, h, entries, baseName, remotePath, card);
    assert FolderUploaded(l.disk, h, entries, baseName, remotePath) == Acks(l.disk, u.start, trips);
    if !Finished(l, u, cw) {
      RestIsNotWork(l.disk, Acks(l.disk, u.start, trips));
      assert false;
    }
    FinishedDelivers(l, h, entries, baseName, remotePath, card, cw);
  }

  lemma RestIsNotWork(disk: Disk, h: Host)
    requires AtRest(h)
    ensures !Working(disk, h)
  {}
}
