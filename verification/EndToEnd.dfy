// Host machine, frame codec and honest device run together over two byte streams that are cut
// into pieces arbitrarily. The device answers every command it decodes with one ACK; there is
// no other traffic, no timeout and no disconnect, and both ends have settled on one dialect.

module EndToEnd {
  import opened Bytes
  import opened Crc16
  import opened CrcSession
  import opened Framing
  import opened HostModel
  import opened HonestDevice
  import opened Transfers
  import opened HostRuns
  import opened HostOutcomes

  datatype Link = Link(disk: Disk, kind: Kind, dialect: Dialect)

  datatype World = World(
    host: Host, hostSeq: byte, hostPending: seq<byte>, toDevice: seq<byte>,
    device: Device, devicePending: seq<byte>, toHost: seq<byte>)

  /** Delivery of the next n bytes (or of all there are) in one direction. */
  datatype Step = ToDevice(n: nat) | ToHost(n: nat)

  // ---------------------------------------------------------------------------
  // The two ends
  // ---------------------------------------------------------------------------

  /** The bytes of the commands in an output log; `sendCommand` numbers them modulo 256. */
  function EncodeSends(l: Link, seqNo: byte, outs: seq<Output>): seq<byte>
    decreases |outs|
  {
    if outs == [] then []
    else if outs[0].Send? then
      Wire(l.dialect, Frame(outs[0].cmd, seqNo, Truncated(outs[0].payload)))
        + EncodeSends(l, (seqNo + 1) % 0x100, outs[1..])
    else EncodeSends(l, seqNo, outs[1..])
  }

  function CountSends(outs: seq<Output>): nat {
    if outs == [] then 0 else (if outs[0].Send? then 1 else 0) + CountSends(outs[1..])
  }

  /** The host moved to h', and what it sent on the way goes on the wire. */
  function HostMoves(l: Link, w: World, h': Host): World {
    var outs := if |w.host.out| <= |h'.out| then h'.out[|w.host.out|..] else [];
    w.(host := h', hostSeq := (w.hostSeq + CountSends(outs)) % 0x100,
       toDevice := w.toDevice + EncodeSends(l, w.hostSeq, outs))
  }

  function HostSignal(l: Link, w: World, s: Signal): World {
    if s.FrameReady? && s.frame.cmd == CMD_ACK then HostMoves(l, w, OnAck(l.disk, w.host))
    else if s.FrameReady? && s.frame.cmd == CMD_NACK then
      HostMoves(l, w, OnNack(w.host, if s.frame.payload == [] then 0 else s.frame.payload[0]))
    else w
  }

  function HostSignals(l: Link, w: World, ss: seq<Signal>): World
    decreases |ss|
  {
    if ss == [] then w else HostSignals(l, HostSignal(l, w, ss[0]), ss[1..])
  }

  /** The device executes and acknowledges a frame in its dialect; it ignores any other. */
  function DeviceCandidate(l: Link, w: World, c: Candidate): World
    requires Announceable(c.frame)
  {
    if Checksum(l.dialect, Body(c.frame)) == c.received then
      w.(device := Execute(l.kind, w.device, c.frame.cmd, c.frame.payload),
         toHost := w.toHost + Wire(l.dialect, Frame(CMD_ACK, c.frame.seqNo, [])))
    else w
  }

  function DeviceCandidates(l: Link, w: World, cs: seq<Candidate>): World
    requires forall c <- cs :: Announceable(c.frame)
    decreases |cs|
  {
    if cs == [] then w else DeviceCandidates(l, DeviceCandidate(l, w, cs[0]), cs[1..])
  }

  function Cut(n: nat, s: seq<byte>): nat {
    if n <= |s| then n else |s|
  }

  function Next(l: Link, w: World, step: Step): World {
    match step
    case ToDevice(n) =>
      var m := Cut(n, w.toDevice);
      var scan := Batch(w.devicePending + w.toDevice[..m]);
      DeviceCandidates(l, w.(toDevice := w.toDevice[m..], devicePending := scan.rest), scan.candidates)
    case ToHost(n) =>
      var m := Cut(n, w.toHost);
      var scan := Batch(w.hostPending + w.toHost[..m]);
      HostSignals(l, w.(toHost := w.toHost[m..], hostPending := scan.rest), Signals(scan.candidates))
  }

  function Run(l: Link, w: World, steps: seq<Step>): World
    decreases |steps|
  {
    if steps == [] then w else Run(l, Next(l, w, steps[0]), steps[1..])
  }

  /** The moment a transfer has been accepted: its START command is on its way. */
  function Accepted(l: Link, h: Host, seqNo: byte, startPayload: seq<byte>, device: Device): World {
    World(h, seqNo, [], Wire(l.dialect, Frame(StartCmd(l.kind), seqNo, Truncated(startPayload))), device, [], [])
  }

  // ---------------------------------------------------------------------------
  // The invariant
  // ---------------------------------------------------------------------------

  /** The host is somewhere in the transfer of `data`. */
  predicate HostInside(l: Link, h: Host, data: seq<byte>) {
    && 0 < |data| < 0x8000_0000
    && Exclusively(h, l.kind)
    && var m := Get(h, l.kind);
       && m.phase != Idle && m.data == data && m.size == |data| && m.offset <= m.size
       && (m.phase == WaitingStartAck ==> m.offset == 0)
       && (m.phase == WaitingFinishAck ==> m.offset == m.size)
  }

  /**
   * One command is on its way to the device, in whatever pieces, and nothing else is. A chunk starts
   * where the device's content ends, and executing the command brings the device up to the host.
   */
  predicate Commanded(l: Link, w: World, data: seq<byte>, before: Device, f: Frame) {
    && HostInside(l, w.host, data)
    && |f.payload| <= MAX_PAYLOAD
    && w.toDevice != [] && w.devicePending + w.toDevice == Wire(l.dialect, f)
    && w.hostPending == [] && w.toHost == []
    && var m := Get(w.host, l.kind);
       && (m.phase == WaitingStartAck ==> f.cmd == StartCmd(l.kind) && w.device == before)
       && (m.phase == SendingData ==>
             f.cmd == DataCmd(l.kind) && |f.payload| >= 4 && f.payload[..4] == LE32(|w.device.content| % 0x1_0000_0000)
             && w.device.content <= data && w.device.started)
       && (m.phase == WaitingFinishAck ==> f.cmd == FinishCmd(l.kind) && w.device.content == data && w.device.started)
       && Execute(l.kind, w.device, f.cmd, f.payload).content == data[..m.offset]
       && Execute(l.kind, w.device, f.cmd, f.payload).started
  }

  /** One ACK is on its way to the host, and the device has exactly what the host has sent. */
  predicate Replied(l: Link, w: World, data: seq<byte>, f: Frame) {
    && HostInside(l, w.host, data)
    && f.cmd == CMD_ACK && f.payload == []
    && w.toHost != [] && w.hostPending + w.toHost == Wire(l.dialect, f)
    && w.devicePending == [] && w.toDevice == []
    && w.device.started && w.device.content == data[..Get(w.host, l.kind).offset]
  }

  /** The host has reported completion, the device holds the file, the line is silent. */
  predicate Delivered(l: Link, w: World, data: seq<byte>) {
    && !Active(w.host, l.kind)
    && w.host.out != [] && w.host.out[|w.host.out| - 1] == Completed(l.kind)
    && w.device.started && w.device.content == data
    && w.hostPending == [] && w.toHost == [] && w.devicePending == [] && w.toDevice == []
  }

  ghost predicate OnTrack(l: Link, w: World, data: seq<byte>, before: Device) {
    || (exists f :: Commanded(l, w, data, before, f))
    || (exists f :: Replied(l, w, data, f))
    || Delivered(l, w, data)
  }

  // ---------------------------------------------------------------------------
  // Delivery of a part
  // ---------------------------------------------------------------------------

  lemma NothingToDevice(l: Link, w: World, n: nat)
    requires w.devicePending == [] && w.toDevice == []
    ensures Next(l, w, ToDevice(n)) == w
  {
    hide Wire, Checksum;
    assert w.devicePending + w.toDevice[..0] == [];
  }

  lemma NothingToHost(l: Link, w: World, n: nat)
    requires w.hostPending == [] && w.toHost == []
    ensures Next(l, w, ToHost(n)) == w
  {
    hide OnAck, OnNack, Wire, Checksum;
    assert w.hostPending + w.toHost[..0] == [];
  }

  lemma PartToDevice(l: Link, w: World, f: Frame, n: nat)
    requires |f.payload| <= MAX_PAYLOAD && w.devicePending + w.toDevice == Wire(l.dialect, f) && n < |w.toDevice|
    ensures Next(l, w, ToDevice(n)) ==
            w.(toDevice := w.toDevice[n..], devicePending := w.devicePending + w.toDevice[..n])
  {
    hide Wire, Checksum, OnAck, OnNack, Batch;
    var p := w.devicePending + w.toDevice[..n];
    assert p == Wire(l.dialect, f)[..|p|];
    ProperPrefixIsUnfinished(l.dialect, f, |p|);
  }

  lemma PartToHost(l: Link, w: World, f: Frame, n: nat)
    requires |f.payload| <= MAX_PAYLOAD && w.hostPending + w.toHost == Wire(l.dialect, f) && n < |w.toHost|
    ensures Next(l, w, ToHost(n)) ==
            w.(toHost := w.toHost[n..], hostPending := w.hostPending + w.toHost[..n])
  {
    hide Wire, Checksum, OnAck, OnNack, Batch;
    var p := w.hostPending + w.toHost[..n];
    assert p == Wire(l.dialect, f)[..|p|];
    ProperPrefixIsUnfinished(l.dialect, f, |p|);
  }

  // ---------------------------------------------------------------------------
  // Delivery of the rest
  // ---------------------------------------------------------------------------

  lemma RestToDevice(l: Link, w: World, f: Frame, n: nat)
    requires |f.payload| <= MAX_PAYLOAD && w.devicePending + w.toDevice == Wire(l.dialect, f) && n >= |w.toDevice|
    ensures Next(l, w, ToDevice(n)) ==
            w.(toDevice := [], devicePending := [],
               device := Execute(l.kind, w.device, f.cmd, f.payload),
               toHost := w.toHost + Wire(l.dialect, Frame(CMD_ACK, f.seqNo, [])))
  {
    hide Wire, Checksum, OnAck, OnNack, Batch, Execute;
    assert w.toDevice[..|w.toDevice|] == w.toDevice && w.toDevice[|w.toDevice|..] == [];
    WireScansBack(l.dialect, f);
    var c := Candidate(f, Checksum(l.dialect, Body(f)));
    var w' := w.(toDevice := [], devicePending := []);
    assert [c][1..] == [];
    assert DeviceCandidates(l, w', [c]) == DeviceCandidates(l, DeviceCandidate(l, w', c), []);
  }

  lemma RestToHost(l: Link, w: World, f: Frame, n: nat)
    requires f.cmd == CMD_ACK && f.payload == []
    requires w.hostPending + w.toHost == Wire(l.dialect, f) && n >= |w.toHost|
    ensures Next(l, w, ToHost(n)) == HostMoves(l, w.(toHost := [], hostPending := []), OnAck(l.disk, w.host))
  {
    hide Wire, Checksum, OnAck, OnNack, Batch, HostMoves, Judge;
    assert w.toHost[..|w.toHost|] == w.toHost && w.toHost[|w.toHost|..] == [];
    WireScansBack(l.dialect, f);
    var c := Candidate(f, Checksum(l.dialect, Body(f)));
    OwnChecksumAccepted(l.dialect, f);
    var w' := w.(toHost := [], hostPending := []);
    assert [c][1..] == [] && Signals([c]) == [Judge(c)] + Signals([]);
    assert Signals([c]) == [FrameReady(f)] && [FrameReady(f)][1..] == [];
    assert HostSignals(l, w', [FrameReady(f)]) == HostSignals(l, HostSignal(l, w', FrameReady(f)), []);
  }

  lemma AckFrameFits(l: Link, seqNo: byte)
    ensures Wire(l.dialect, Frame(CMD_ACK, seqNo, [])) != []
  {
    hide Checksum;
  }

  /** While a command is under way, every step stays on track. */
  lemma CommandedStep(l: Link, w: World, data: seq<byte>, before: Device, f: Frame, step: Step)
    requires Commanded(l, w, data, before, f)
    ensures OnTrack(l, Next(l, w, step), data, before)
    ensures step.ToDevice? && step.n >= |w.toDevice| ==>
              Replied(l, Next(l, w, step), data, Frame(CMD_ACK, f.seqNo, [])) && Next(l, w, step).host == w.host
  {
    hide Next, Wire, Execute, Exclusively;
    match step
    case ToHost(n) =>
      NothingToHost(l, w, n);
    case ToDevice(n) =>
      if n < |w.toDevice| {
        PartToDevice(l, w, f, n);
        assert Commanded(l, Next(l, w, step), data, before, f);
      } else {
        RestToDevice(l, w, f, n);
        AckFrameFits(l, f.seqNo);
        assert Replied(l, Next(l, w, step), data, Frame(CMD_ACK, f.seqNo, []));
      }
  }

  // ---------------------------------------------------------------------------
  // What an ACK makes the host send
  // ---------------------------------------------------------------------------

  lemma MovesWithOneSend(l: Link, w: World, h': Host, cmd: byte, payload: seq<byte>, more: seq<Output>)
    requires h'.out == w.host.out + [Send(cmd, payload)] + more
    requires |more| <= 1 && (more != [] ==> !more[0].Send?) && |payload| <= MAX_PAYLOAD && w.toDevice == []
    ensures HostMoves(l, w, h').toDevice == Wire(l.dialect, Frame(cmd, w.hostSeq, payload))
    ensures HostMoves(l, w, h')
         == w.(host := h', hostSeq := (w.hostSeq + 1) % 0x100, toDevice := HostMoves(l, w, h').toDevice)
  {
    hide Wire;
    var outs := h'.out[|w.host.out|..];
    assert outs == [Send(cmd, payload)] + more && outs[1..] == more;
    assert Truncated(payload) == payload;
    var s := (w.hostSeq + 1) % 0x100;
    if more == [] {
      assert EncodeSends(l, s, more) == [] && CountSends(more) == 0;
    } else {
      assert more[1..] == [];
      assert EncodeSends(l, s, more) == EncodeSends(l, s, []) == [] && CountSends(more) == CountSends([]) == 0;
    }
    assert Wire(l.dialect, Frame(cmd, w.hostSeq, payload)) + [] == Wire(l.dialect, Frame(cmd, w.hostSeq, payload));
  }

  lemma MovesWithoutSend(l: Link, w: World, h': Host, o: Output)
    requires h'.out == w.host.out + [o] && !o.Send? && w.toDevice == []
    ensures HostMoves(l, w, h') == w.(host := h')
  {
    hide Wire;
    var outs := h'.out[|w.host.out|..];
    assert outs == [o] && outs[1..] == [];
    assert EncodeSends(l, w.hostSeq, outs) == EncodeSends(l, w.hostSeq, []) == [];
    assert CountSends(outs) == CountSends([]) == 0;
  }

  /** The ACK of START or of a chunk makes the host send the next chunk, which will extend the device's content. */
  lemma ReplyBringsChunk(l: Link, w: World, data: seq<byte>, before: Device, f: Frame, n: nat)
    requires Replied(l, w, data, f) && n >= |w.toHost|
    requires var m := Get(w.host, l.kind); m.phase != WaitingFinishAck && m.offset < m.size
    ensures var m := Get(w.host, l.kind);
            var w' := Next(l, w, ToHost(n));
            && (exists f' :: Commanded(l, w', data, before, f'))
            && w'.host == OnAck(l.disk, w.host)
            && Get(w'.host, l.kind) == Machine(SendingData, data, ChunkEnd(l.kind, m.size, m.offset), m.size, true)
  {
    hide Next, Wire, OnAck, Percent, LE32, Execute, HostMoves, Owner, Commanded, ChunkEnd;
    var k, m := l.kind, Get(w.host, l.kind);
    var end := ChunkEnd(k, m.size, m.offset);
    var h' := OnAck(l.disk, w.host);
    var payload := LE32(m.offset) + data[m.offset..end];
    RestToHost(l, w, f, n);
    AckSendsChunk(l.disk, w.host, k, data, m.size, m.offset);
    assert h'.out == w.host.out + [Send(DataCmd(k), payload)] + [Progress(k, Percent(end, m.size))];
    MovesWithOneSend(l, w.(toHost := [], hostPending := []), h', DataCmd(k), payload,
                     [Progress(k, Percent(end, m.size))]);
    ChunkIsCommanded(l, Next(l, w, ToHost(n)), data, before, w.hostSeq, m.offset);
  }

  /** A chunk that has just been sent, to a device whose content ends where it starts. */
  lemma ChunkIsCommanded(l: Link, w: World, data: seq<byte>, before: Device, seqNo: byte, offset: nat)
    requires 0 < |data| < 0x8000_0000 && offset < |data| && Exclusively(w.host, l.kind)
    requires var end := ChunkEnd(l.kind, |data|, offset);
             && Get(w.host, l.kind) == Machine(SendingData, data, end, |data|, true)
             && w.toDevice == Wire(l.dialect, Frame(DataCmd(l.kind), seqNo, LE32(offset) + data[offset..end]))
    requires w.devicePending == [] && w.hostPending == [] && w.toHost == []
    requires w.device.started && w.device.content == data[..offset]
    ensures exists f :: Commanded(l, w, data, before, f)
  {
    hide Wire, LE32, Execute, Exclusively;
    var k, end := l.kind, ChunkEnd(l.kind, |data|, offset);
    var payload := LE32(offset) + data[offset..end];
    var f := Frame(DataCmd(k), seqNo, payload);
    DataAppends(k, w.device, data[offset..end]);
    assert data[..offset] + data[offset..end] == data[..end];
    WireNotEmpty(l, f);
    assert payload[..4] == LE32(offset);
    assert Commanded(l, w, data, before, f);
  }

  lemma WireNotEmpty(l: Link, f: Frame)
    requires Announceable(f)
    ensures Wire(l.dialect, f) != []
  {
    hide Checksum;
  }

  lemma ReplyBringsFinish(l: Link, w: World, data: seq<byte>, before: Device, f: Frame, n: nat)
    requires Replied(l, w, data, f) && n >= |w.toHost|
    requires var m := Get(w.host, l.kind); m.phase != WaitingFinishAck && m.offset == m.size
    ensures var w' := Next(l, w, ToHost(n));
            && (exists f' :: Commanded(l, w', data, before, f'))
            && w'.host == OnAck(l.disk, w.host)
            && Get(w'.host, l.kind).phase == WaitingFinishAck
  {
    hide Next, Wire, OnAck, HostMoves, Owner;
    var k, m := l.kind, Get(w.host, l.kind);
    var h' := OnAck(l.disk, w.host);
    RestToHost(l, w, f, n);
    AckSendsFinish(l.disk, w.host, k, data, m.size);
    assert h'.out == w.host.out + [Send(FinishCmd(k), [])] + [];
    MovesWithOneSend(l, w.(toHost := [], hostPending := []), h', FinishCmd(k), [], []);
    var f' := Frame(FinishCmd(k), w.hostSeq, []);
    WireNotEmpty(l, f');
    assert data[..m.size] == data;
    assert Commanded(l, Next(l, w, ToHost(n)), data, before, f');
  }

  lemma ReplyCompletes(l: Link, w: World, data: seq<byte>, f: Frame, n: nat)
    requires Replied(l, w, data, f) && n >= |w.toHost|
    requires Get(w.host, l.kind).phase == WaitingFinishAck
    ensures Delivered(l, Next(l, w, ToHost(n)), data)
  {
    hide Next, Wire, OnAck, HostMoves, Exclusively;
    var h' := OnAck(l.disk, w.host);
    RestToHost(l, w, f, n);
    AckCompletes(l.disk, w.host, l.kind);
    MovesWithoutSend(l, w.(toHost := [], hostPending := []), h', Completed(l.kind));
    assert data[..|data|] == data;
  }

  /** While a reply is under way, every step stays on track. */
  lemma RepliedStep(l: Link, w: World, data: seq<byte>, before: Device, f: Frame, step: Step)
    requires Replied(l, w, data, f)
    ensures OnTrack(l, Next(l, w, step), data, before)
  {
    hide Next, Wire, Exclusively;
    match step
    case ToDevice(n) =>
      NothingToDevice(l, w, n);
    case ToHost(n) =>
      if n < |w.toHost| {
        PartToHost(l, w, f, n);
        assert Replied(l, Next(l, w, step), data, f);
      } else {
        var m := Get(w.host, l.kind);
        if m.phase == WaitingFinishAck {
          ReplyCompletes(l, w, data, f, n);
        } else if m.offset < m.size {
          ReplyBringsChunk(l, w, data, before, f, n);
        } else {
          ReplyBringsFinish(l, w, data, before, f, n);
        }
      }
  }

  lemma StepStaysOnTrack(l: Link, w: World, data: seq<byte>, before: Device, step: Step)
    requires OnTrack(l, w, data, before)
    ensures OnTrack(l, Next(l, w, step), data, before)
  {
    hide Next, Commanded, Replied;
    if f :| Commanded(l, w, data, before, f) {
      CommandedStep(l, w, data, before, f, step);
    } else if f :| Replied(l, w, data, f) {
      RepliedStep(l, w, data, before, f, step);
    } else {
      match step
      case ToDevice(n) => NothingToDevice(l, w, n);
      case ToHost(n) => NothingToHost(l, w, n);
    }
  }

  lemma {:induction false} RunStaysOnTrack(l: Link, w: World, data: seq<byte>, before: Device, steps: seq<Step>)
    requires OnTrack(l, w, data, before)
    ensures OnTrack(l, Run(l, w, steps), data, before)
    decreases |steps|
  {
    hide Next, OnTrack;
    if steps != [] {
      StepStaysOnTrack(l, w, data, before, steps[0]);
      RunStaysOnTrack(l, Next(l, w, steps[0]), data, before, steps[1..]);
    }
  }

  /** The host's log has grown since `log`, without a completion as long as the transfer is active. */
  predicate NotReported(l: Link, log: seq<Output>, h: Host) {
    log <= h.out && (Active(h, l.kind) ==> Completed(l.kind) !in h.out[|log|..])
  }

  lemma StillNotReported(l: Link, log: seq<Output>, h: Host, h': Host, outs: seq<Output>)
    requires NotReported(l, log, h) && Active(h, l.kind) && h'.out == h.out + outs
    requires Active(h', l.kind) ==> Completed(l.kind) !in outs
    ensures NotReported(l, log, h')
  {
    assert h'.out[|log|..] == h.out[|log|..] + outs;
  }

  /** The ACK that reaches the host reports completion only if it ends the transfer. */
  lemma AckReports(l: Link, log: seq<Output>, h: Host, data: seq<byte>)
    requires HostInside(l, h, data) && NotReported(l, log, h)
    ensures NotReported(l, log, OnAck(l.disk, h))
  {
    hide OnAck, NotReported, Percent, LE32, Owner;
    var k, m := l.kind, Get(h, l.kind);
    var h' := OnAck(l.disk, h);
    if m.phase == WaitingFinishAck {
      AckCompletes(l.disk, h, k);
      StillNotReported(l, log, h, h', [Completed(k)]);
    } else if m.offset < m.size {
      AckSendsChunk(l.disk, h, k, data, m.size, m.offset);
      var end := ChunkEnd(k, m.size, m.offset);
      StillNotReported(l, log, h, h',
                       [Send(DataCmd(k), LE32(m.offset) + data[m.offset..end]), Progress(k, Percent(end, m.size))]);
    } else {
      AckSendsFinish(l.disk, h, k, data, m.size);
      StillNotReported(l, log, h, h', [Send(FinishCmd(k), [])]);
    }
  }

  lemma StepReports(l: Link, log: seq<Output>, w: World, data: seq<byte>, before: Device, step: Step)
    requires OnTrack(l, w, data, before) && NotReported(l, log, w.host)
    ensures NotReported(l, log, Next(l, w, step).host)
  {
    hide Next, Wire, Execute, OnAck, NotReported, HostInside;
    if f :| Commanded(l, w, data, before, f) {
      match step
      case ToHost(n) => NothingToHost(l, w, n);
      case ToDevice(n) =>
        if n < |w.toDevice| {
          PartToDevice(l, w, f, n);
        } else {
          RestToDevice(l, w, f, n);
        }
    } else if f :| Replied(l, w, data, f) {
      match step
      case ToDevice(n) => NothingToDevice(l, w, n);
      case ToHost(n) =>
        if n < |w.toHost| {
          PartToHost(l, w, f, n);
        } else {
          RestToHost(l, w, f, n);
          AckReports(l, log, w.host, data);
        }
    } else {
      match step
      case ToDevice(n) => NothingToDevice(l, w, n);
      case ToHost(n) => NothingToHost(l, w, n);
    }
  }

  lemma {:induction false} RunReports(l: Link, log: seq<Output>, w: World, data: seq<byte>, before: Device,
                                      steps: seq<Step>)
    requires OnTrack(l, w, data, before) && NotReported(l, log, w.host)
    ensures NotReported(l, log, Run(l, w, steps).host)
    decreases |steps|
  {
    hide Next, OnTrack, NotReported;
    if steps != [] {
      StepStaysOnTrack(l, w, data, before, steps[0]);
      StepReports(l, log, w, data, before, steps[0]);
      RunReports(l, log, Next(l, w, steps[0]), data, before, steps[1..]);
    }
  }

  lemma AcceptedOnTrack(l: Link, h: Host, data: seq<byte>, seqNo: byte, startPayload: seq<byte>, device: Device)
    requires JustStarted(h, l.kind, data) && |data| < 0x8000_0000 && |startPayload| <= MAX_PAYLOAD
    ensures OnTrack(l, Accepted(l, h, seqNo, startPayload, device), data, device)
    ensures exists f :: Commanded(l, Accepted(l, h, seqNo, startPayload, device), data, device, f)
  {
    hide Wire, Exclusively, ToUint32;
    SizeAtMost(data);
    var f := Frame(StartCmd(l.kind), seqNo, startPayload);
    assert Truncated(startPayload) == startPayload;
    WireNotEmpty(l, f);
    assert Commanded(l, Accepted(l, h, seqNo, startPayload, device), data, device, f);
  }

  /**
   * Safety of every run. Once a transfer has been accepted, then however the two byte streams are
   * cut up and interleaved: until the START command has arrived the device is as it was, and from then
   * on its content is a prefix of the file; the host reports completion only when the device has the
   * whole file; and when the host no longer waits, that is the last thing it has reported.
   */
  lemma TransferIsSafe(l: Link, h: Host, data: seq<byte>, seqNo: byte, startPayload: seq<byte>, device: Device,
                       steps: seq<Step>)
    requires JustStarted(h, l.kind, data) && |data| < 0x8000_0000 && |startPayload| <= MAX_PAYLOAD
    ensures var w := Run(l, Accepted(l, h, seqNo, startPayload, device), steps);
            && (w.device == device || (w.device.started && w.device.content <= data))
            && h.out <= w.host.out
            && (Completed(l.kind) in w.host.out[|h.out|..] ==> !Active(w.host, l.kind) && w.device.content == data)
            && (!Active(w.host, l.kind) ==>
                  w.device.content == data && w.host.out != [] && w.host.out[|w.host.out| - 1] == Completed(l.kind))
  {
    hide Run, Wire, Execute, Exclusively;
    AcceptedOnTrack(l, h, data, seqNo, startPayload, device);
    RunStaysOnTrack(l, Accepted(l, h, seqNo, startPayload, device), data, device, steps);
    RunReports(l, h.out, Accepted(l, h, seqNo, startPayload, device), data, device, steps);
  }

  // ---------------------------------------------------------------------------
  // What the device was told
  // ---------------------------------------------------------------------------

  /** START with this payload is under way, or it is what the device was told. */
  ghost predicate Told(l: Link, w: World, payload: seq<byte>)
    requires |payload| <= MAX_PAYLOAD
  {
    if w.toDevice != [] && Get(w.host, l.kind).phase == WaitingStartAck then
      exists s: byte :: w.devicePending + w.toDevice == Wire(l.dialect, Frame(StartCmd(l.kind), s, payload))
    else w.device.announced == payload
  }

  lemma SameWire(d: Dialect, f: Frame, g: Frame)
    requires |f.payload| <= MAX_PAYLOAD && |g.payload| <= MAX_PAYLOAD && Wire(d, f) == Wire(d, g)
    ensures f == g
  {
    hide Wire, Batch, Checksum;
    WireScansBack(d, f);
    WireScansBack(d, g);
  }

  lemma StepTells(l: Link, w: World, data: seq<byte>, before: Device, payload: seq<byte>, step: Step)
    requires OnTrack(l, w, data, before) && |payload| <= MAX_PAYLOAD && Told(l, w, payload)
    ensures Told(l, Next(l, w, step), payload)
  {
    hide Next, Wire, OnAck, HostMoves, Exclusively;
    if f :| Commanded(l, w, data, before, f) {
      match step
      case ToHost(n) => NothingToHost(l, w, n);
      case ToDevice(n) =>
        if n < |w.toDevice| {
          PartToDevice(l, w, f, n);
          assert (w.devicePending + w.toDevice[..n]) + w.toDevice[n..] == w.devicePending + w.toDevice;
        } else {
          RestToDevice(l, w, f, n);
          if Get(w.host, l.kind).phase == WaitingStartAck {
            var s: byte :| w.devicePending + w.toDevice == Wire(l.dialect, Frame(StartCmd(l.kind), s, payload));
            SameWire(l.dialect, f, Frame(StartCmd(l.kind), s, payload));
          }
        }
    } else if f :| Replied(l, w, data, f) {
      match step
      case ToDevice(n) => NothingToDevice(l, w, n);
      case ToHost(n) =>
        if n < |w.toHost| {
          PartToHost(l, w, f, n);
        } else {
          ReplyTells(l, w, data, before, f, n);
        }
    } else {
      match step
      case ToDevice(n) => NothingToDevice(l, w, n);
      case ToHost(n) => NothingToHost(l, w, n);
    }
  }

  lemma ReplyTells(l: Link, w: World, data: seq<byte>, before: Device, f: Frame, n: nat)
    requires Replied(l, w, data, f) && n >= |w.toHost|
    ensures var w' := Next(l, w, ToHost(n));
            w'.device == w.device && Get(w'.host, l.kind).phase != WaitingStartAck
  {
    hide Next, Wire, OnAck, HostMoves, Exclusively;
    RestToHost(l, w, f, n);
    MovesKeepDevice(l, w.(toHost := [], hostPending := []), OnAck(l.disk, w.host));
    var m := Get(w.host, l.kind);
    if m.phase == WaitingFinishAck {
      ReplyCompletes(l, w, data, f, n);
    } else if m.offset < m.size {
      ReplyBringsChunk(l, w, data, before, f, n);
    } else {
      ReplyBringsFinish(l, w, data, before, f, n);
    }
  }

  lemma MovesKeepDevice(l: Link, w: World, h': Host)
    ensures HostMoves(l, w, h').device == w.device
  {}

  lemma {:induction false} RunTells(l: Link, w: World, data: seq<byte>, before: Device, payload: seq<byte>,
                                    steps: seq<Step>)
    requires OnTrack(l, w, data, before) && |payload| <= MAX_PAYLOAD && Told(l, w, payload)
    ensures Told(l, Run(l, w, steps), payload)
    decreases |steps|
  {
    hide Next, OnTrack, Told;
    if steps != [] {
      StepStaysOnTrack(l, w, data, before, steps[0]);
      StepTells(l, w, data, before, payload, steps[0]);
      RunTells(l, Next(l, w, steps[0]), data, before, payload, steps[1..]);
    }
  }

  /** The host is free, and the request is one that it accepts for this link. */
  predicate Accepts(l: Link, h: Host, e: Event) {
    && Inv(h) && !Busy(h) && !h.swapPending && h.queueIndex < 0
    && (match l.kind case File => e.DoUploadFile? case Fw => e.DoStartFw? case Esp => e.DoStartEsp?)
    && Source(e) in l.disk && Acceptable(e, l.disk[Source(e)]) && |l.disk[Source(e)]| < 0x8000_0000
    && (e.DoUploadFile? ==> 4 + |e.remotePath| + 1 <= MAX_PAYLOAD)
  }

  /**
   * From the request to the end: the START that an accepted request sends is what the device is told,
   * its size and the path or flash address; and where completion is reported, the device holds
   * the file of the request, and exactly as many bytes as it was told.
   */
  lemma RequestIsServed(l: Link, h: Host, e: Event, seqNo: byte, device: Device) returns (payload: seq<byte>)
    requires Accepts(l, h, e)
    ensures var h' := HostModel.Next(l.disk, h, e);
            h'.out == h.out + [Send(StartCmd(l.kind), payload)] + if l.kind == File then [] else [Progress(l.kind, 0)]
    ensures Announces(e, l.disk[Source(e)], payload)
    ensures var begun := Accepted(l, HostModel.Next(l.disk, h, e), seqNo, payload, device);
            forall steps :: Served(l, h, e, Run(l, begun, steps))
  {
    hide Run, Wire, Inv, Acceptable, Announces;
    var data, h' := l.disk[Source(e)], HostModel.Next(l.disk, h, e);
    StartAnnounces(l.disk, h, e, l.kind);
    var more := if l.kind == File then [] else [Progress(l.kind, 0)];
    payload :| Announces(e, data, payload) && h'.out == h.out + [Send(StartCmd(l.kind), payload)] + more;
    AnnouncementFits(e, data, payload);
    StartsExactly(l.disk, h, e, l.kind);
    var w0 := Accepted(l, h', seqNo, payload, device);
    assert Truncated(payload) == payload;
    AcceptedOnTrack(l, h', data, seqNo, payload, device);
    assert Told(l, w0, payload) by {
      WireNotEmpty(l, Frame(StartCmd(l.kind), seqNo, payload));
      assert [] + w0.toDevice == Wire(l.dialect, Frame(StartCmd(l.kind), seqNo, payload));
    }
    forall steps ensures Served(l, h, e, Run(l, w0, steps)) {
      var w := Run(l, w0, steps);
      TransferIsSafe(l, h', data, seqNo, payload, device, steps);
      RunStaysOnTrack(l, w0, data, device, steps);
      RunTells(l, w0, data, device, payload, steps);
      ServedAtEnd(l, h, h', e, w, device, payload);
    }
  }

  /** If completion is reported, the device has the file and was told about it. */
  predicate Served(l: Link, h: Host, e: Event, w: World)
    requires Source(e) in l.disk
  {
    && h.out <= w.host.out
    && (Completed(l.kind) in w.host.out[|h.out|..] ==>
      && w.device.content == l.disk[Source(e)]
      && AnnouncedSize(w.device) == Some(|w.device.content|)
      && Announces(e, w.device.content, w.device.announced)
      && (e.DoStartEsp? ==> AnnouncedAddress(w.device) == Some(e.addr)))
  }

  lemma AnnouncementFits(e: Event, data: seq<byte>, payload: seq<byte>)
    requires Announces(e, data, payload) && (e.DoUploadFile? ==> 4 + |e.remotePath| + 1 <= MAX_PAYLOAD)
    ensures |payload| <= MAX_PAYLOAD
  {}

  lemma ServedAtEnd(l: Link, h: Host, h': Host, e: Event, w: World, device: Device, payload: seq<byte>)
    requires Source(e) in l.disk && |l.disk[Source(e)]| < 0x8000_0000 && Announces(e, l.disk[Source(e)], payload)
    requires h'.out == h.out + [Send(StartCmd(l.kind), payload)] + if l.kind == File then [] else [Progress(l.kind, 0)]
    requires OnTrack(l, w, l.disk[Source(e)], device) && |payload| <= MAX_PAYLOAD && Told(l, w, payload)
    requires h'.out <= w.host.out
    requires Completed(l.kind) in w.host.out[|h'.out|..] ==>
               !Active(w.host, l.kind) && w.device.content == l.disk[Source(e)]
    ensures Served(l, h, e, w)
  {
    hide Wire, Commanded, Replied, OnTrack;
    var first := h'.out[|h.out|..];
    assert w.host.out[|h.out|..] == first + w.host.out[|h'.out|..];
    assert Completed(l.kind) !in first;
    if Completed(l.kind) in w.host.out[|h.out|..] {
      assert Completed(l.kind) in w.host.out[|h'.out|..];
      assert w.device.announced == payload;
    }
  }

  // ---------------------------------------------------------------------------
  // Completion
  // ---------------------------------------------------------------------------

  /** Everything on the wire is delivered, first to the device and then to the host. */
  function Round(l: Link, w: World): World {
    var w' := Next(l, w, ToDevice(|w.toDevice|));
    Next(l, w', ToHost(|w'.toHost|))
  }

  function Rounds(l: Link, w: World, n: nat): World
    decreases n
  {
    if n == 0 then w else Rounds(l, Round(l, w), n - 1)
  }

  /** Round trips that a machine still needs. */
  function RoundsLeft(k: Kind, m: Machine): nat
    requires m.offset <= m.size
  {
    if m.phase == WaitingFinishAck then 1 else ChunksLeft(k, m.size, m.offset) + 2
  }

  /** From any point of a transfer, the round trips that are left complete it. */
  lemma {:induction false} RoundsComplete(l: Link, w: World, data: seq<byte>, before: Device, f: Frame)
    requires Commanded(l, w, data, before, f)
    ensures Delivered(l, Rounds(l, w, RoundsLeft(l.kind, Get(w.host, l.kind))), data)
    decreases RoundsLeft(l.kind, Get(w.host, l.kind))
  {
    hide Next, Wire, Execute, Exclusively, OnAck;
    var m := Get(w.host, l.kind);
    var w' := Next(l, w, ToDevice(|w.toDevice|));
    var r := Frame(CMD_ACK, f.seqNo, []);
    CommandedStep(l, w, data, before, f, ToDevice(|w.toDevice|));
    var w'' := Next(l, w', ToHost(|w'.toHost|));
    assert Round(l, w) == w'';
    if m.phase == WaitingFinishAck {
      ReplyCompletes(l, w', data, r, |w'.toHost|);
      assert Rounds(l, w, 1) == Rounds(l, w'', 0);
    } else if m.offset < m.size {
      ReplyBringsChunk(l, w', data, before, r, |w'.toHost|);
      var f' :| Commanded(l, w'', data, before, f');
      RoundsComplete(l, w'', data, before, f');
    } else {
      ReplyBringsFinish(l, w', data, before, r, |w'.toHost|);
      var f' :| Commanded(l, w'', data, before, f');
      RoundsComplete(l, w'', data, before, f');
      assert Rounds(l, w, 2) == Rounds(l, w'', 1);
    }
  }

  /** An accepted transfer of n bytes in chunks of c is delivered after 2 + ceil(n / c) round trips. */
  lemma TransferCompletes(l: Link, h: Host, data: seq<byte>, seqNo: byte, startPayload: seq<byte>, device: Device)
    requires JustStarted(h, l.kind, data) && |data| < 0x8000_0000 && |startPayload| <= MAX_PAYLOAD
    ensures Delivered(l, Rounds(l, Accepted(l, h, seqNo, startPayload, device), RoundTrips(l.kind, |data|)), data)
  {
    hide Rounds, Commanded, Delivered, Exclusively, Wire, RoundTrips;
    AcceptedOnTrack(l, h, data, seqNo, startPayload, device);
    var w := Accepted(l, h, seqNo, startPayload, device);
    var f :| Commanded(l, w, data, device, f);
    SizeAtMost(data);
    RoundsComplete(l, w, data, device, f);
    RoundTripsOfWhole(l.kind, |data|);
  }
}
