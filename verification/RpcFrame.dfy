// rpc_frame.cpp: the byte-at-a-time frame codec, proved against the grammar of Framing.

module RpcFrame {
  import opened Bytes
  import opened Crc16
  import opened CrcSession
  import opened Framing

  datatype ParserState = WaitSync | ReadHeader | ReadPayload | ReadCrc

  class FrameCodec {
    var state: ParserState
    var headerBuf: seq<byte>
    var payloadBuf: seq<byte>
    var crcBuf: seq<byte>
    var cmd: byte
    var seqNo: byte
    var payloadLen: uint16
    var seqCounter: byte

    /** Everything emitted so far. */
    var signals: seq<Signal>
    const session: Session

    ghost predicate HeaderRead()
      reads this
    {
      && |headerBuf| == 4
      && cmd == headerBuf[0] && seqNo == headerBuf[1]
      && payloadLen == FromLE16(headerBuf[2], headerBuf[3]) <= MAX_PAYLOAD
    }

    ghost predicate Valid()
      reads this
    {
      match state
      case WaitSync => true
      case ReadHeader => |headerBuf| < 4
      case ReadPayload => HeaderRead() && |payloadBuf| < payloadLen
      case ReadCrc => HeaderRead() && |payloadBuf| == payloadLen && |crcBuf| < CRC_SIZE
    }

    /** The bytes received since the sync byte of the frame being read, that byte included. */
    ghost function Pending(): seq<byte>
      reads this
    {
      match state
      case WaitSync => []
      case ReadHeader => [SYNC_BYTE] + headerBuf
      case ReadPayload => [SYNC_BYTE] + headerBuf + payloadBuf
      case ReadCrc => [SYNC_BYTE] + headerBuf + payloadBuf + crcBuf
    }

    constructor (session: Session)
      ensures Valid() && Pending() == [] && signals == [] && seqCounter == 0 && this.session == session
    {
      state := WaitSync;
      headerBuf, payloadBuf, crcBuf := [], [], [];
      cmd, seqNo, payloadLen, seqCounter := 0, 0, 0, 0;
      signals := [];
      this.session := session;
    }

    method Reset()
      modifies this
      ensures Valid() && Pending() == [] && signals == old(signals) && seqCounter == 0
    {
      state := WaitSync;
      headerBuf, payloadBuf, crcBuf := [], [], [];
      cmd, seqNo, payloadLen, seqCounter := 0, 0, 0, 0;
    }

    method NextSeq() returns (s: byte)
      requires Valid()
      modifies this`seqCounter
      ensures s == old(seqCounter) && seqCounter == (old(seqCounter) + 1) % 0x100
    {
      s := seqCounter;
      seqCounter := (seqCounter + 1) % 0x100;
    }

    method ProcessByte(b: byte)
      requires Valid()
      modifies this, session
      ensures Valid() && seqCounter == old(seqCounter)
      ensures var scan := Batch(old(Pending()) + [b]);
              && Pending() == scan.rest
              && signals == old(signals) + Signals(scan.candidates)
              && session.State() == ObserveAll(old(session.State()), scan.candidates)
    {
      hide Checksum, Verdict, Observe, Judge, Batch, Signals, ObserveAll, Body;
      ghost var s := Pending() + [b];
      EmptyFolds(session.State());
      match state {
        case WaitSync =>
          assert s == [b];
          OneByte(b);
          if b == SYNC_BYTE {
            headerBuf := [];
            state := ReadHeader;
          }
        case ReadHeader =>
          headerBuf := headerBuf + [b];
          assert s == [SYNC_BYTE] + headerBuf;
          if |headerBuf| == 4 {
            cmd := headerBuf[0];
            seqNo := headerBuf[1];
            payloadLen := headerBuf[2] + 0x100 * (headerBuf[3] as int);
            if payloadLen > MAX_PAYLOAD {
              state := WaitSync;
              HeaderTooLong(s);
            } else {
              UnfinishedIsKept(s);
              payloadBuf := [];
              if payloadLen == 0 {
                crcBuf := [];
                state := ReadCrc;
              } else {
                state := ReadPayload;
              }
            }
          } else {
            UnfinishedIsKept(s);
          }
        case ReadPayload =>
          payloadBuf := payloadBuf + [b];
          assert s == [SYNC_BYTE] + headerBuf + payloadBuf;
          UnfinishedIsKept(s);
          if |payloadBuf| == payloadLen {
            crcBuf := [];
            state := ReadCrc;
          }
        case ReadCrc =>
          crcBuf := crcBuf + [b];
          assert s == [SYNC_BYTE] + headerBuf + payloadBuf + crcBuf;
          if |crcBuf| == 2 {
            assert s[HEADER_SIZE..HEADER_SIZE + payloadLen] == payloadBuf;
            FrameComplete(s, session.State());
            FinalizeFrame();
            state := WaitSync;
          } else {
            UnfinishedIsKept(s);
          }
      }
    }

    method FinalizeFrame()
      requires HeaderRead() && |payloadBuf| == payloadLen && |crcBuf| == CRC_SIZE
      modifies this`signals, session
      ensures var c := Candidate(Frame(cmd, seqNo, payloadBuf), FromLE16(crcBuf[0], crcBuf[1]));
              && signals == old(signals) + [Judge(c)]
              && session.State() == Observe(old(session.State()), Verdict(Body(c.frame), c.received))
    {
      hide Checksum;
      var crcData := headerBuf + payloadBuf;
      var received: uint16 := crcBuf[0] + 0x100 * (crcBuf[1] as int);
      assert crcData == Body(Frame(cmd, seqNo, payloadBuf)) by {
        LE16OfBytes(headerBuf[2], headerBuf[3]);
      }
      var ok := session.Crc16ValidateRx(crcData, received);
      if !ok {
        signals := signals + [FrameCrcError(cmd, seqNo)];
        return;
      }
      signals := signals + [FrameReady(Frame(cmd, seqNo, payloadBuf))];
    }

    method Feed(data: seq<byte>)
      requires Valid()
      modifies this, session
      ensures Valid() && seqCounter == old(seqCounter)
      ensures var scan := Batch(old(Pending()) + data);
              && Pending() == scan.rest
              && signals == old(signals) + Signals(scan.candidates)
              && session.State() == ObserveAll(old(session.State()), scan.candidates)
    {
      hide Checksum, Judge, Batch, Signals, ObserveAll, Valid, Unfinished, Pending;
      ghost var p := Pending();
      PendingIsUnfinished();
      UnfinishedIsKept(p);
      assert p + data[..0] == p;
      EmptyFolds(session.State());
      for i := 0 to |data|
        invariant Valid() && seqCounter == old(seqCounter)
        invariant Pending() == Batch(p + data[..i]).rest
        invariant signals == old(signals) + Signals(Batch(p + data[..i]).candidates)
        invariant session.State() == ObserveAll(old(session.State()), Batch(p + data[..i]).candidates)
      {
        ghost var before := Batch(p + data[..i]).candidates;
        ghost var now := Batch(Pending() + [data[i]]).candidates;
        BatchConcat(p + data[..i], [data[i]]);
        assert p + data[..i] + [data[i]] == p + data[..i + 1];
        SignalsConcat(before, now);
        ObserveConcat(old(session.State()), before, now);
        ProcessByte(data[i]);
      }
      assert data[..|data|] == data;
    }

    lemma PendingIsUnfinished()
      requires Valid()
      ensures Unfinished(Pending())
    {}
  }

  /** The header fields from the command on; the length field announces `len` bytes. */
  function Head(cmd: byte, seqNo: byte, len: uint16): seq<byte> {
    [cmd, seqNo] + LE16(len)
  }

  /**
   * The raw-pointer overload; the process-wide dialect is the session's. Without a payload pointer
   * the length is announced all the same, but no payload follows and none is checksummed.
   */
  method BuildFrameRaw(session: Session, cmd: byte, seqNo: byte, payload: Option<seq<byte>>, len: uint16)
    returns (frame: seq<byte>)
    requires payload.Some? ==> len <= |payload.value|
    ensures payload.Some? ==> frame == Wire(session.txDialect, Frame(cmd, seqNo, payload.value[..len]))
    ensures payload.None? ==>
              var head := Head(cmd, seqNo, len);
              frame == [SYNC_BYTE] + head + LE16(Checksum(session.txDialect, head))
  {
    hide Checksum;
    frame := [SYNC_BYTE];
    frame := frame + [cmd];
    frame := frame + [seqNo];
    frame := frame + [len % 0x100];
    frame := frame + [len / 0x100];
    if len > 0 && payload.Some? {
      frame := frame + payload.value[..len];
    }
    assert payload.Some? ==> frame[1..] == Body(Frame(cmd, seqNo, payload.value[..len]));
    assert payload.None? ==> frame[1..] == Head(cmd, seqNo, len);
    var crc := session.Crc16CcittTx(frame[1..]);
    frame := frame + [crc % 0x100];
    frame := frame + [crc / 0x100];
  }

  method BuildFrame(session: Session, cmd: byte, seqNo: byte, payload: seq<byte>) returns (frame: seq<byte>)
    ensures frame == Wire(session.txDialect, Frame(cmd, seqNo, Truncated(payload)))
  {
    frame := BuildFrameRaw(session, cmd, seqNo, Some(payload), |payload| % 0x1_0000);
  }

  // ---------------------------------------------------------------------------
  // What one more byte does to the scan
  // ---------------------------------------------------------------------------

  lemma OneByte(b: byte)
    ensures Batch([b]) == Scan([], if b == SYNC_BYTE then [b] else [])
  {
    assert [b][1..] == [];
  }

  lemma EmptyFolds(l: Latch)
    ensures Signals([]) == [] && ObserveAll(l, []) == l
  {}

  lemma UnfinishedIsKept(p: seq<byte>)
    requires Unfinished(p)
    ensures Batch(p) == Scan([], p)
  {}


  lemma HeaderTooLong(s: seq<byte>)
    requires |s| == HEADER_SIZE && s[0] == SYNC_BYTE && AnnouncedLength(s) > MAX_PAYLOAD
    ensures Batch(s) == Scan([], [])
  {
    assert s[HEADER_SIZE..] == [];
  }

  lemma FrameComplete(s: seq<byte>, l: Latch)
    requires |s| >= HEADER_SIZE && s[0] == SYNC_BYTE && AnnouncedLength(s) <= MAX_PAYLOAD
    requires |s| == HEADER_SIZE + AnnouncedLength(s) + CRC_SIZE
    ensures var c := CandidateAt(s);
            && Batch(s) == Scan([c], [])
            && Signals([c]) == [Judge(c)]
            && ObserveAll(l, [c]) == Observe(l, Verdict(Body(c.frame), c.received))
  {
    hide Checksum, Judge;
    var c := CandidateAt(s);
    assert s[|s|..] == [];
    assert Batch(s[|s|..]) == Scan([], []);
    assert [c][1..] == [];
  }

  lemma LE16OfBytes(lo: byte, hi: byte)
    ensures LE16(FromLE16(lo, hi)) == [lo, hi]
  {}

  lemma {:induction false} ObserveConcat(l: Latch, a: seq<Candidate>, b: seq<Candidate>)
    requires forall c <- a + b :: Announceable(c.frame)
    ensures (forall c <- a :: Announceable(c.frame)) && (forall c <- b :: Announceable(c.frame))
    ensures ObserveAll(l, a + b) == ObserveAll(ObserveAll(l, a), b)
    decreases |a|
  {
    hide Checksum, Verdict, Observe;
    assert forall c <- a :: c in a + b;
    assert forall c <- b :: c in a + b;
    if a == [] {
      assert a + b == b;
    } else {
      assert (a + b)[1..] == a[1..] + b;
      ObserveConcat(Observe(l, Verdict(Body(a[0].frame), a[0].received)), a[1..], b);
    }
  }

  /** The latch of the whole stream obeys the same law as the latch of single frames. */
  lemma {:induction false} StreamLatch(l: Latch, cs: seq<Candidate>)
    requires forall c <- cs :: Announceable(c.frame)
    ensures ObserveAll(l, cs) == Run(l, seq(|cs|, k requires 0 <= k < |cs| =>
              Received(Body(cs[k].frame), cs[k].received)))
    decreases |cs|
  {
    hide Checksum, Verdict, Observe, Body;
    var es := seq(|cs|, k requires 0 <= k < |cs| => Received(Body(cs[k].frame), cs[k].received));
    if cs != [] {
      var n := |cs| - 1;
      var front := cs[..n];
      assert cs == front + [cs[n]];
      StreamLatch(l, front);
      ObserveConcat(l, front, [cs[n]]);
      assert [cs[n]][1..] == [];
      assert ObserveAll(ObserveAll(l, front), [cs[n]])
          == ObserveAll(Observe(ObserveAll(l, front), Verdict(Body(cs[n].frame), cs[n].received)), []);
      assert es[..n] == seq(|front|, k requires 0 <= k < |front| => Received(Body(front[k].frame), front[k].received));
    }
  }
}
