// The wire grammar of rpc_frame.cpp, read in one go over a whole byte string.
//
// A stream is scanned left to right: bytes before a sync byte are skipped; a header that
// announces more than MAX_PAYLOAD bytes costs the five bytes read so far; any other
// header fixes a candidate frame, whatever its checksum turns out to be. What is left
// over is an unfinished candidate.

module Framing {
  import opened Bytes
  import opened Crc16
  import opened LegacyCrc
  import opened BitVectors
  import opened CrcSession

  const SYNC_BYTE: byte := 0xAA
  const HEADER_SIZE := 5
  const CRC_SIZE := 2
  const MAX_PAYLOAD := 8192

  datatype Frame = Frame(cmd: byte, seqNo: byte, payload: seq<byte>)

  /** A delimited frame and the checksum that came with it. */
  datatype Candidate = Candidate(frame: Frame, received: uint16)

  datatype Scan = Scan(candidates: seq<Candidate>, rest: seq<byte>)

  datatype Signal = FrameReady(frame: Frame) | FrameCrcError(cmd: byte, seqNo: byte)

  predicate Announceable(f: Frame) {
    |f.payload| <= 0xFFFF
  }

  /** The checksummed part of a frame. */
  function Body(f: Frame): seq<byte>
    requires Announceable(f)
  {
    [f.cmd, f.seqNo] + LE16(|f.payload|) + f.payload
  }

  function Wire(d: Dialect, f: Frame): seq<byte>
    requires Announceable(f)
  {
    [SYNC_BYTE] + Body(f) + LE16(Checksum(d, Body(f)))
  }

  /** The payload length announced by the header at the start of s. */
  function AnnouncedLength(s: seq<byte>): uint16
    requires |s| >= HEADER_SIZE
  {
    FromLE16(s[3], s[4])
  }

  function CandidateAt(s: seq<byte>): (c: Candidate)
    requires |s| >= HEADER_SIZE && |s| >= HEADER_SIZE + AnnouncedLength(s) + CRC_SIZE
    ensures Announceable(c.frame)
  {
    var end := HEADER_SIZE + AnnouncedLength(s);
    Candidate(Frame(s[1], s[2], s[HEADER_SIZE..end]), FromLE16(s[end], s[end + 1]))
  }

  function Batch(s: seq<byte>): (r: Scan)
    ensures forall c <- r.candidates :: |c.frame.payload| <= MAX_PAYLOAD
    decreases |s|
  {
    if s == [] then Scan([], [])
    else if s[0] != SYNC_BYTE then Batch(s[1..])
    else if |s| < HEADER_SIZE then Scan([], s)
    else if AnnouncedLength(s) > MAX_PAYLOAD then Batch(s[HEADER_SIZE..])
    else
      var size := HEADER_SIZE + AnnouncedLength(s) + CRC_SIZE;
      if |s| < size then Scan([], s)
      else
        var later := Batch(s[size..]);
        Scan([CandidateAt(s)] + later.candidates, later.rest)
  }

  /** What the receiver says about a candidate: ready when its checksum fits either dialect. */
  function Judge(c: Candidate): Signal
    requires Announceable(c.frame)
  {
    if Verdict(Body(c.frame), c.received).Some? then FrameReady(c.frame)
    else FrameCrcError(c.frame.cmd, c.frame.seqNo)
  }

  function Signals(cs: seq<Candidate>): (r: seq<Signal>)
    requires forall c <- cs :: Announceable(c.frame)
    ensures |r| == |cs|
  {
    if cs == [] then [] else [Judge(cs[0])] + Signals(cs[1..])
  }

  /** The latch after the candidates were checked in order. */
  function ObserveAll(l: Latch, cs: seq<Candidate>): Latch
    requires forall c <- cs :: Announceable(c.frame)
    decreases |cs|
  {
    if cs == [] then l
    else ObserveAll(Observe(l, Verdict(Body(cs[0].frame), cs[0].received)), cs[1..])
  }

  /** A byte string that the scan keeps as it is: nothing, or an unfinished candidate. */
  predicate Unfinished(p: seq<byte>) {
    p == [] || (p[0] == SYNC_BYTE &&
                (|p| < HEADER_SIZE ||
                 (AnnouncedLength(p) <= MAX_PAYLOAD && |p| < HEADER_SIZE + AnnouncedLength(p) + CRC_SIZE)))
  }

  lemma {:induction false} RestIsUnfinished(s: seq<byte>)
    ensures Unfinished(Batch(s).rest)
    decreases |s|
  {
    if s == [] {
    } else if s[0] != SYNC_BYTE {
      RestIsUnfinished(s[1..]);
    } else if |s| >= HEADER_SIZE {
      if AnnouncedLength(s) > MAX_PAYLOAD {
        RestIsUnfinished(s[HEADER_SIZE..]);
      } else if |s| >= HEADER_SIZE + AnnouncedLength(s) + CRC_SIZE {
        RestIsUnfinished(s[HEADER_SIZE + AnnouncedLength(s) + CRC_SIZE..]);
      }
    }
  }

  // ---------------------------------------------------------------------------
  // Fragmentation
  // ---------------------------------------------------------------------------

  /** Scanning a + b is scanning a, then scanning b after what a left over. */
  lemma {:induction false} BatchConcat(a: seq<byte>, b: seq<byte>)
    ensures var first := Batch(a);
            var second := Batch(first.rest + b);
            Batch(a + b) == Scan(first.candidates + second.candidates, second.rest)
    decreases |a|
  {
    if a == [] {
      assert a + b == b;
    } else if a[0] != SYNC_BYTE {
      assert (a + b)[1..] == a[1..] + b;
      BatchConcat(a[1..], b);
    } else if |a| >= HEADER_SIZE {
      var size := HEADER_SIZE + AnnouncedLength(a) + CRC_SIZE;
      if AnnouncedLength(a) > MAX_PAYLOAD {
        assert (a + b)[HEADER_SIZE..] == a[HEADER_SIZE..] + b;
        BatchConcat(a[HEADER_SIZE..], b);
      } else if |a| >= size {
        assert (a + b)[size..] == a[size..] + b;
        assert CandidateAt(a + b) == CandidateAt(a);
        BatchConcat(a[size..], b);
        var first, second := Batch(a[size..]), Batch(Batch(a[size..]).rest + b);
        assert [CandidateAt(a)] + (first.candidates + second.candidates)
            == ([CandidateAt(a)] + first.candidates) + second.candidates;
      }
    }
  }

  /** Scanning fragments one after the other, carrying over what is unfinished. */
  function BatchAll(pending: seq<byte>, fragments: seq<seq<byte>>): Scan
    decreases |fragments|
  {
    if fragments == [] then Scan([], pending)
    else
      var first := Batch(pending + fragments[0]);
      var later := BatchAll(first.rest, fragments[1..]);
      Scan(first.candidates + later.candidates, later.rest)
  }

  /** However a stream is cut into fragments, the scan of the whole stream comes out. */
  lemma {:induction false} FragmentationIrrelevant(pending: seq<byte>, fragments: seq<seq<byte>>)
    requires Unfinished(pending)
    ensures BatchAll(pending, fragments) == Batch(pending + Concat(fragments))
    decreases |fragments|
  {
    if fragments == [] {
      assert pending + Concat(fragments) == pending;
    } else {
      var a := pending + fragments[0];
      RestIsUnfinished(a);
      FragmentationIrrelevant(Batch(a).rest, fragments[1..]);
      assert pending + Concat(fragments) == a + Concat(fragments[1..]);
      BatchConcat(a, Concat(fragments[1..]));
    }
  }

  // ---------------------------------------------------------------------------
  // Round trip
  // ---------------------------------------------------------------------------

  predicate NoSync(s: seq<byte>) {
    forall k :: 0 <= k < |s| ==> s[k] != SYNC_BYTE
  }

  lemma {:induction false} NoiseIsSkipped(s: seq<byte>)
    requires NoSync(s)
    ensures Batch(s) == Scan([], [])
    decreases |s|
  {
    if s != [] {
      NoiseIsSkipped(s[1..]);
    }
  }

  /** A frame on the wire with whatever checksum it arrives with. */
  function Packet(f: Frame, received: uint16): seq<byte>
    requires Announceable(f)
  {
    [SYNC_BYTE] + Body(f) + LE16(received)
  }

  lemma PacketScansBack(f: Frame, received: uint16)
    requires |f.payload| <= MAX_PAYLOAD
    ensures Batch(Packet(f, received)) == Scan([Candidate(f, received)], [])
  {
    var w := Packet(f, received);
    LE16RoundTrip(|f.payload|);
    LE16RoundTrip(received);
    assert w[3] == LE16(|f.payload|)[0] && w[4] == LE16(|f.payload|)[1];
    assert w[HEADER_SIZE..HEADER_SIZE + |f.payload|] == f.payload;
    assert w[HEADER_SIZE + |f.payload|..] == LE16(received);
    assert w[HEADER_SIZE + |f.payload| + CRC_SIZE..] == [];
  }

  /** The scan of a built frame is that frame, with its checksum, and leaves nothing over. */
  lemma WireScansBack(d: Dialect, f: Frame)
    requires |f.payload| <= MAX_PAYLOAD
    ensures Batch(Wire(d, f)) == Scan([Candidate(f, Checksum(d, Body(f)))], [])
  {
    hide Checksum;
    PacketScansBack(f, Checksum(d, Body(f)));
  }

  /**
   * What a received checksum decides: the frame is delivered if it is the remainder of the body under
   * either table, and otherwise reported as damaged and dropped.
   */
  lemma ChecksumDecides(f: Frame, received: uint16)
    requires |f.payload| <= MAX_PAYLOAD
    ensures var octets := Octets(Body(f));
            var fits := received == Crc(Correct, octets, 0xFFFF) as int
                     || received == Crc(Legacy, octets, 0xFFFF) as int;
            var scan := Batch(Packet(f, received));
            && scan.rest == []
            && Signals(scan.candidates) == [if fits then FrameReady(f) else FrameCrcError(f.cmd, f.seqNo)]
  {
    hide Crc, Octets, Verdict;
    PacketScansBack(f, received);
    AttributedExactly(Body(f), received);
    OneSignal(Candidate(f, received));
  }

  lemma OneSignal(c: Candidate)
    requires Announceable(c.frame)
    ensures Signals([c]) == [Judge(c)]
  {
    assert Signals([c]) == [Judge(c)] + Signals([]);
  }

  /** The bytes of a packet, one by one; a length of n is announced as n % 256 and n / 256. */
  lemma PacketBytes(f: Frame, received: uint16)
    requires Announceable(f)
    ensures var w, n := Packet(f, received), |f.payload|;
            && |w| == 7 + n
            && w[0] == 0xAA && w[1] == f.cmd && w[2] == f.seqNo
            && w[3] as int + 0x100 * (w[4] as int) == n
            && w[5..5 + n] == f.payload
            && w[5 + n] as int + 0x100 * (w[6 + n] as int) == received
  {
    hide LE16;
    var w, n := Packet(f, received), |f.payload|;
    assert w[3] == LE16(n)[0] && w[4] == LE16(n)[1];
    assert w[5 + n] == LE16(received)[0] && w[6 + n] == LE16(received)[1];
  }

  lemma OwnChecksumAccepted(d: Dialect, f: Frame)
    requires Announceable(f)
    ensures Judge(Candidate(f, Checksum(d, Body(f)))) == FrameReady(f)
  {
    hide Checksum;
  }

  /**
   * Damaged frames that are delivered all the same: from a legacy sender with any payload, and
   * from a sender of correct checksums without payload.
   */
  lemma DamagedFramesDelivered(payload: seq<byte>)
    requires |payload| <= 0xFFFF
    ensures var sent, got := Frame(0x02, 0x04, payload), Frame(0x20, 0x00, payload);
            Judge(Candidate(got, Checksum(Legacy, Body(sent)))) == FrameReady(got)
    ensures var sent, got := Frame(0x01, 0x00, []), Frame(0x23, 0x04, []);
            Judge(Candidate(got, Checksum(Correct, Body(sent)))) == FrameReady(got)
  {
    hide Checksum, Verdict, AvoidsCorruption;
    var post := LE16(|payload|) + payload;
    DamageGoesUnnoticed(post);
    assert Body(Frame(0x02, 0x04, payload)) == [0x02, 0x04] + post;
    assert Body(Frame(0x20, 0x00, payload)) == [0x20, 0x00] + post;
    EmptyLengthAvoidsCorruption();
    OctetsOfTwo(0x00, 0x00);
    DamageGoesUnnoticed([0x00, 0x00]);
    assert Body(Frame(0x01, 0x00, [])) == [0x01, 0x00] + [0x00, 0x00];
    assert Body(Frame(0x23, 0x04, [])) == [0x23, 0x04] + [0x00, 0x00];
  }

  /**
   * A frame damaged inside two adjacent bytes, but not in its length, is reported as damaged and not
   * delivered, if no step over the two bodies reads what makes the dialects fail.
   */
  lemma DamagedFrameIsDropped(d: Dialect, sent: Frame, got: Frame,
                              pre: seq<byte>, u: seq<byte>, v: seq<byte>, post: seq<byte>)
    requires |sent.payload| == |got.payload| <= MAX_PAYLOAD && |u| == |v| <= 2 && u != v
    requires Body(sent) == pre + u + post && Body(got) == pre + v + post
    requires AvoidsCorruption(Octets(Body(got)), 0xFFFF)
    requires d == Legacy ==> Unconfused(Octets(Body(sent)), Octets(Body(got)), 0xFFFF)
    ensures var scan := Batch(Packet(got, Checksum(d, Body(sent))));
            scan.rest == [] && Signals(scan.candidates) == [FrameCrcError(got.cmd, got.seqNo)]
  {
    hide Checksum, Verdict, Octets, AvoidsCorruption, Unconfused;
    var received := Checksum(d, Body(sent));
    DamageIsNoticed(d, pre, u, v, post);
    PacketScansBack(got, received);
    OneSignal(Candidate(got, received));
  }

  /** The same for the bytes on the wire, damaged anywhere between the header and the checksum. */
  lemma DamagedWireIsDropped(d: Dialect, f: Frame, pre: seq<byte>, u: seq<byte>, v: seq<byte>, post: seq<byte>)
    requires |f.payload| <= MAX_PAYLOAD && |u| == |v| <= 2 && u != v
    requires Wire(d, f) == pre + u + post && |pre| >= HEADER_SIZE && |post| >= CRC_SIZE
    requires var got := (pre + v + post)[1..|pre + v + post| - CRC_SIZE];
             && AvoidsCorruption(Octets(got), 0xFFFF)
             && (d == Legacy ==> Unconfused(Octets(Body(f)), Octets(got), 0xFFFF))
    ensures var scan := Batch(pre + v + post);
            scan.rest == [] && Signals(scan.candidates) == [FrameCrcError(f.cmd, f.seqNo)]
  {
    hide Checksum, AvoidsCorruption, Unconfused, Octets, Batch, LE16, Wire, Packet, Body;
    var w, w' := Wire(d, f), pre + v + post;
    var n, received := |f.payload|, Checksum(d, Body(f));
    var pre', post' := pre[1..], post[..|post| - CRC_SIZE];
    WireIsPacket(d, f, w);
    PacketParts(w, f.cmd, f.seqNo, n, received);
    PacketParts(w', f.cmd, f.seqNo, n, received);
    MiddleOf(pre, u, post);
    MiddleOf(pre, v, post);
    var got := Frame(f.cmd, f.seqNo, w'[HEADER_SIZE..HEADER_SIZE + n]);
    DamagedFrameIsDropped(d, f, got, pre', u, v, post');
  }

  lemma MiddleOf(pre: seq<byte>, middle: seq<byte>, post: seq<byte>)
    requires |pre| >= HEADER_SIZE && |post| >= CRC_SIZE
    ensures var w := pre + middle + post;
            && w[..HEADER_SIZE] == pre[..HEADER_SIZE] && w[|w| - CRC_SIZE..] == post[|post| - CRC_SIZE..]
            && w[1..|w| - CRC_SIZE] == pre[1..] + middle + post[..|post| - CRC_SIZE]
  {}

  lemma WireIsPacket(d: Dialect, f: Frame, w: seq<byte>)
    requires Announceable(f) && w == Wire(d, f)
    ensures |w| == HEADER_SIZE + |f.payload| + CRC_SIZE && w == Packet(f, Checksum(d, Body(f)))
    ensures w[HEADER_SIZE..HEADER_SIZE + |f.payload|] == f.payload
  {
    hide Checksum, LE16;
  }

  /** Bytes are a packet exactly when its header and its checksum are in their places. */
  lemma PacketParts(w: seq<byte>, cmd: byte, seqNo: byte, n: uint16, received: uint16)
    requires |w| == HEADER_SIZE + n + CRC_SIZE
    ensures var f := Frame(cmd, seqNo, w[HEADER_SIZE..HEADER_SIZE + n]);
            w == Packet(f, received)
            <==> w[..HEADER_SIZE] == [SYNC_BYTE, cmd, seqNo] + LE16(n) && w[HEADER_SIZE + n..] == LE16(received)
    ensures var f := Frame(cmd, seqNo, w[HEADER_SIZE..HEADER_SIZE + n]);
            w == Packet(f, received) ==> Body(f) == w[1..HEADER_SIZE + n]
  {
    hide LE16;
    var f := Frame(cmd, seqNo, w[HEADER_SIZE..HEADER_SIZE + n]);
    var p := Packet(f, received);
    assert p[..HEADER_SIZE] == [SYNC_BYTE, cmd, seqNo] + LE16(n) && p[HEADER_SIZE + n..] == LE16(received);
    assert p[1..HEADER_SIZE + n] == Body(f) && p[HEADER_SIZE..HEADER_SIZE + n] == f.payload;
    assert w == w[..HEADER_SIZE] + f.payload + w[HEADER_SIZE + n..];
    assert p == p[..HEADER_SIZE] + f.payload + p[HEADER_SIZE + n..];
  }

  /** An unfinished part of a built frame is kept, byte for byte. */
  lemma ProperPrefixIsUnfinished(d: Dialect, f: Frame, n: nat)
    requires |f.payload| <= MAX_PAYLOAD && n < |Wire(d, f)|
    ensures Unfinished(Wire(d, f)[..n])
    ensures Batch(Wire(d, f)[..n]) == Scan([], Wire(d, f)[..n])
  {
    hide Checksum;
    LE16RoundTrip(|f.payload|);
    var p := Wire(d, f)[..n];
    assert n >= HEADER_SIZE ==> p[3] == LE16(|f.payload|)[0] && p[4] == LE16(|f.payload|)[1];
  }

  lemma {:induction false} CandidatesFit(s: seq<byte>, c: Candidate)
    requires c in Batch(s).candidates
    ensures HEADER_SIZE + |c.frame.payload| + CRC_SIZE <= |s|
    decreases |s|
  {
    if s[0] != SYNC_BYTE {
      CandidatesFit(s[1..], c);
    } else {
      if AnnouncedLength(s) > MAX_PAYLOAD {
        CandidatesFit(s[HEADER_SIZE..], c);
      } else if c != CandidateAt(s) {
        CandidatesFit(s[HEADER_SIZE + AnnouncedLength(s) + CRC_SIZE..], c);
      }
    }
  }

  /**
   * A built frame decodes to the command, sequence number and payload it was built from exactly
   * when the payload has at most MAX_PAYLOAD bytes; a longer one is cut or announced too long.
   */
  lemma RoundTripExactly(d: Dialect, cmd: byte, seqNo: byte, payload: seq<byte>)
    ensures var scan := Batch(Wire(d, Frame(cmd, seqNo, Truncated(payload))));
            Signals(scan.candidates) == [FrameReady(Frame(cmd, seqNo, payload))] <==> |payload| <= MAX_PAYLOAD
  {
    hide Checksum;
    var f := Frame(cmd, seqNo, Truncated(payload));
    var w := Wire(d, f);
    if |payload| <= 0xFFFF {
      assert f.payload == payload;
    }
    if |f.payload| <= MAX_PAYLOAD {
      WireScansBack(d, f);
      OwnChecksumAccepted(d, f);
      var c := Candidate(f, Checksum(d, Body(f)));
      assert Signals([c]) == [Judge(c)] + Signals([]);
      assert Signals([c])[0] == FrameReady(f);
      assert |payload| > 0xFFFF ==> f.payload != payload;
    } else {
      LE16RoundTrip(|f.payload|);
      assert w[3] == LE16(|f.payload|)[0] && w[4] == LE16(|f.payload|)[1];
      var cs := Batch(w).candidates;
      assert Batch(w) == Batch(w[HEADER_SIZE..]);
      if cs != [] {
        CandidatesFit(w[HEADER_SIZE..], cs[0]);
        assert Signals(cs)[0] == Judge(cs[0]);
      }
    }
  }

  /** A frame on the wire, after some line noise. */
  datatype Item = Item(noise: seq<byte>, dialect: Dialect, frame: Frame)

  predicate Sendable(items: seq<Item>) {
    forall i <- items :: NoSync(i.noise) && |i.frame.payload| <= MAX_PAYLOAD
  }

  function Stream(items: seq<Item>): seq<byte>
    requires Sendable(items)
  {
    if items == [] then []
    else items[0].noise + Wire(items[0].dialect, items[0].frame) + Stream(items[1..])
  }

  function Ready(items: seq<Item>): seq<Signal> {
    if items == [] then [] else [FrameReady(items[0].frame)] + Ready(items[1..])
  }

  lemma {:induction false} SignalsConcat(a: seq<Candidate>, b: seq<Candidate>)
    requires forall c <- a + b :: Announceable(c.frame)
    ensures (forall c <- a :: Announceable(c.frame)) && (forall c <- b :: Announceable(c.frame))
    ensures Signals(a + b) == Signals(a) + Signals(b)
  {
    hide Judge;
    assert forall c <- a :: c in a + b;
    assert forall c <- b :: c in a + b;
    if a == [] {
      assert a + b == b;
    } else {
      assert (a + b)[1..] == a[1..] + b;
      SignalsConcat(a[1..], b);
    }
  }

  /** A frame that starts where the scan is idle is delivered, and the scan is idle again. */
  lemma NextFrame(noise: seq<byte>, d: Dialect, f: Frame, later: seq<byte>)
    requires NoSync(noise) && |f.payload| <= MAX_PAYLOAD
    ensures var r := Batch(later);
            Batch(noise + Wire(d, f) + later)
              == Scan([Candidate(f, Checksum(d, Body(f)))] + r.candidates, r.rest)
  {
    hide Wire, Checksum;
    NoiseIsSkipped(noise);
    BatchConcat(noise, Wire(d, f));
    WireScansBack(d, f);
    BatchConcat(noise + Wire(d, f), later);
    assert [] + Wire(d, f) == Wire(d, f) && [] + later == later;
  }

  /**
   * Any list of built frames, each in either dialect and after any noise without sync bytes,
   * decodes to exactly that list.
   */
  lemma {:induction false} StreamRoundTrip(items: seq<Item>)
    requires Sendable(items)
    ensures Signals(Batch(Stream(items)).candidates) == Ready(items) && Batch(Stream(items)).rest == []
    decreases |items|
  {
    hide Checksum, Judge, Wire;
    if items != [] {
      var i := items[0];
      NextFrame(i.noise, i.dialect, i.frame, Stream(items[1..]));
      StreamRoundTrip(items[1..]);
      var c := Candidate(i.frame, Checksum(i.dialect, Body(i.frame)));
      OwnChecksumAccepted(i.dialect, i.frame);
      var later := Batch(Stream(items[1..])).candidates;
      assert ([c] + later)[1..] == later;
    }
  }

  // ---------------------------------------------------------------------------
  // Resynchronisation
  // ---------------------------------------------------------------------------

  const RESYNC_BOUND := 4 + MAX_PAYLOAD + CRC_SIZE

  /** From every state, and over any bytes whatever, the parser is idle again within the bound. */
  lemma ResyncWithinBound(pending: seq<byte>, s: seq<byte>)
    requires Unfinished(pending) && |s| >= RESYNC_BOUND
    ensures exists n :: 0 <= n <= RESYNC_BOUND && Batch(pending + s[..n]).rest == []
  {
    var p := |pending|;
    var t := pending + s;
    if p == 0 {
      assert pending + s[..0] == [];
    } else {
      assert p >= HEADER_SIZE ==> AnnouncedLength(t) == AnnouncedLength(pending);
      var size := if AnnouncedLength(t) > MAX_PAYLOAD then HEADER_SIZE
                  else HEADER_SIZE + AnnouncedLength(t) + CRC_SIZE;
      var n := size - p;
      var u := pending + s[..n];
      assert u == t[..size] && u[size..] == [];
      assert AnnouncedLength(u) == AnnouncedLength(t);
      assert Batch(u[size..]).rest == [];
    }
  }

  /** Hence that many bytes without a sync byte leave the parser idle. */
  lemma NoiseResyncs(pending: seq<byte>, noise: seq<byte>)
    requires Unfinished(pending) && NoSync(noise) && |noise| >= RESYNC_BOUND
    ensures Batch(pending + noise).rest == []
  {
    hide Batch, Unfinished;
    ResyncWithinBound(pending, noise);
    var n :| 0 <= n <= RESYNC_BOUND && Batch(pending + noise[..n]).rest == [];
    BatchConcat(pending + noise[..n], noise[n..]);
    assert pending + noise[..n] + noise[n..] == pending + noise;
    assert [] + noise[n..] == noise[n..];
    NoiseIsSkipped(noise[n..]);
  }

  /** After such a gap the next built frame is delivered last, whatever came before. */
  lemma FrameAfterGapIsDelivered(pending: seq<byte>, noise: seq<byte>, d: Dialect, f: Frame)
    requires Unfinished(pending) && NoSync(noise) && |noise| >= RESYNC_BOUND && |f.payload| <= MAX_PAYLOAD
    ensures var scan := Batch(pending + noise + Wire(d, f));
            var signals := Signals(scan.candidates);
            scan.rest == [] && signals != [] && signals[|signals| - 1] == FrameReady(f)
  {
    hide Checksum, Judge;
    NoiseResyncs(pending, noise);
    BatchConcat(pending + noise, Wire(d, f));
    assert [] + Wire(d, f) == Wire(d, f);
    WireScansBack(d, f);
    var c := Candidate(f, Checksum(d, Body(f)));
    SignalsConcat(Batch(pending + noise).candidates, [c]);
    OwnChecksumAccepted(d, f);
    assert Signals([c]) == [Judge(c)] + Signals([]);
  }

  /** The bound is tight: over one byte less a candidate may stay open all the time. */
  lemma ResyncBoundIsTight()
    ensures exists pending, noise :: Unfinished(pending) && NoSync(noise) && |noise| == RESYNC_BOUND - 1
              && forall n :: 0 <= n <= |noise| ==> Batch(pending + noise[..n]).rest != []
  {
    var pending: seq<byte> := [SYNC_BYTE];
    var noise: seq<byte> := [0, 0] + LE16(MAX_PAYLOAD) + seq(MAX_PAYLOAD + 1, _ => 0);
    assert |noise| == RESYNC_BOUND - 1 && NoSync(noise);
    var s := pending + noise;
    assert s[3] == LE16(MAX_PAYLOAD)[0] && s[4] == LE16(MAX_PAYLOAD)[1];
    forall n | 0 <= n <= |noise| ensures Batch(pending + noise[..n]).rest != [] {
      var t := pending + noise[..n];
      assert t == s[..n + 1];
      assert Batch(t) == Scan([], t);
    }
    assert Unfinished(pending);
  }
}
