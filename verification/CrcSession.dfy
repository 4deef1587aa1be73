// The process-wide dialect state of crc16.cpp and the ping probing of m1_device.cpp, for one
// thread: which table outgoing frames use, and whether a received frame has settled it.

module CrcSession {
  import opened Bytes
  import opened Crc16
  import opened LegacyCrc
  import opened BitVectors

  function Checksum(d: Dialect, body: seq<byte>): uint16 {
    Crc(d, Octets(body), 0xFFFF) as int
  }

  /** The dialect a received checksum is attributed to: the correct table is tried first. */
  function Verdict(body: seq<byte>, received: uint16): Option<Dialect> {
    if Checksum(Correct, body) == received then Some(Correct)
    else if Checksum(Legacy, body) == received then Some(Legacy)
    else None
  }

  datatype Latch = Latch(tx: Dialect, locked: bool)

  const FRESH := Latch(Correct, false)

  function Other(d: Dialect): Dialect {
    if d == Correct then Legacy else Correct
  }

  /** The latch after a received frame was checked. */
  function Observe(l: Latch, verdict: Option<Dialect>): Latch {
    if verdict.None? || l.locked then l else Latch(verdict.value, true)
  }

  /** The latch after the ping timer fired. */
  function Probe(l: Latch): Latch {
    if l.locked then l else l.(tx := Other(l.tx))
  }

  class Session {
    var txDialect: Dialect
    var dialectLocked: bool

    ghost function State(): Latch
      reads this
    {
      Latch(txDialect, dialectLocked)
    }

    constructor ()
      ensures State() == FRESH
    {
      txDialect, dialectLocked := Correct, false;
    }

    method SetTxCrcDialect(d: Dialect)
      modifies this
      ensures State() == old(State()).(tx := d)
    {
      txDialect := d;
    }

    method ResetCrcDialect()
      modifies this
      ensures State() == FRESH
    {
      dialectLocked := false;
      txDialect := Correct;
    }

    method Crc16CcittTx(data: seq<byte>) returns (crc: uint16)
      ensures crc == Checksum(txDialect, data)
    {
      var c: bv16;
      if txDialect == Legacy {
        c := Crc16CcittLegacy(Octets(data), 0xFFFF);
      } else {
        c := Crc16Ccitt(Octets(data), 0xFFFF);
      }
      crc := c as int;
    }

    method Crc16ValidateRx(data: seq<byte>, received: uint16) returns (ok: bool)
      modifies this
      ensures ok <==> Verdict(data, received).Some?
      ensures State() == Observe(old(State()), Verdict(data, received))
    {
      var correct := Crc16Ccitt(Octets(data), 0xFFFF);
      if correct as int == received {
        var wasLocked := dialectLocked;
        dialectLocked := true;
        if !wasLocked {
          SetTxCrcDialect(Correct);
        }
        return true;
      }
      var legacy := Crc16CcittLegacy(Octets(data), 0xFFFF);
      if legacy as int == received {
        var wasLocked := dialectLocked;
        dialectLocked := true;
        if !wasLocked {
          SetTxCrcDialect(Legacy);
        }
        return true;
      }
      return false;
    }

    /** The dialect part of the ping timer's handler. */
    method PingTick()
      modifies this
      ensures State() == Probe(old(State()))
    {
      if !dialectLocked {
        SetTxCrcDialect(if txDialect == Correct then Legacy else Correct);
      }
    }
  }

  // ---------------------------------------------------------------------------
  // Runs
  // ---------------------------------------------------------------------------

  datatype LinkEvent = Received(body: seq<byte>, checksum: uint16) | PingTimer | SessionStart

  function Next(l: Latch, e: LinkEvent): Latch {
    match e
    case Received(body, checksum) => Observe(l, Verdict(body, checksum))
    case PingTimer => Probe(l)
    case SessionStart => FRESH
  }

  function Run(l: Latch, es: seq<LinkEvent>): Latch {
    if es == [] then l else Next(Run(l, es[..|es| - 1]), es[|es| - 1])
  }

  /** The verdict on the first frame that validated in `es`. */
  function FirstValidated(es: seq<LinkEvent>): Option<Dialect> {
    if es == [] then None
    else
      var before := FirstValidated(es[..|es| - 1]);
      if before.None? && es[|es| - 1].Received? then Verdict(es[|es| - 1].body, es[|es| - 1].checksum) else before
  }

  function Pings(es: seq<LinkEvent>): nat {
    if es == [] then 0 else Pings(es[..|es| - 1]) + if es[|es| - 1].PingTimer? then 1 else 0
  }

  predicate OneSession(es: seq<LinkEvent>) {
    forall e <- es :: !e.SessionStart?
  }

  /**
   * The latch after any history and one session of it is a function of that session alone: locked
   * exactly when some frame has validated, then for good on the dialect of the first such frame;
   * until then the timer alternates the dialects, starting from the correct one.
   */
  lemma {:induction false} LatchOfSession(l: Latch, before: seq<LinkEvent>, session: seq<LinkEvent>)
    requires OneSession(session)
    ensures Run(l, before + [SessionStart] + session) ==
            match FirstValidated(session)
            case Some(d) => Latch(d, true)
            case None => Latch(if Pings(session) % 2 == 0 then Correct else Legacy, false)
  {
    hide Verdict;
    var es := before + [SessionStart] + session;
    if session == [] {
      assert es[..|es| - 1] == before;
    } else {
      assert es[..|es| - 1] == before + [SessionStart] + session[..|session| - 1];
      LatchOfSession(l, before, session[..|session| - 1]);
    }
  }

  /** Until a frame validates, two consecutive timer pings go out in different dialects. */
  lemma ConsecutivePingsProbeBoth(l: Latch, before: seq<LinkEvent>, session: seq<LinkEvent>, quiet: seq<LinkEvent>)
    requires OneSession(session + quiet) && Pings(quiet) == 0
    requires FirstValidated(session + [PingTimer] + quiet + [PingTimer]).None?
    ensures var first := session + [PingTimer];
            var second := first + quiet + [PingTimer];
            Run(l, before + [SessionStart] + first).tx != Run(l, before + [SessionStart] + second).tx
  {
    hide Verdict, Run, FirstValidated;
    var first := session + [PingTimer];
    var second := first + quiet + [PingTimer];
    FirstValidatedOfPrefix(first, quiet + [PingTimer]);
    assert first + (quiet + [PingTimer]) == second;
    PingsConcat(first + quiet, [PingTimer]);
    PingsConcat(first, quiet);
    assert Pings([PingTimer]) == 1;
    assert OneSession(first) && OneSession(second) by {
      forall e | e in second ensures !e.SessionStart? {
        assert e in session + quiet || e == PingTimer;
      }
    }
    LatchOfSession(l, before, first);
    LatchOfSession(l, before, second);
  }

  lemma {:induction false} FirstValidatedOfPrefix(a: seq<LinkEvent>, b: seq<LinkEvent>)
    requires FirstValidated(a + b).None?
    ensures FirstValidated(a).None?
  {
    hide Verdict;
    if b == [] {
      assert a + b == a;
    } else {
      assert (a + b)[..|a + b| - 1] == a + b[..|b| - 1];
      FirstValidatedOfPrefix(a, b[..|b| - 1]);
    }
  }

  lemma {:induction false} PingsConcat(a: seq<LinkEvent>, b: seq<LinkEvent>)
    ensures Pings(a + b) == Pings(a) + Pings(b)
  {
    if b == [] {
      assert a + b == a;
    } else {
      assert (a + b)[..|a + b| - 1] == a + b[..|b| - 1];
      PingsConcat(a, b[..|b| - 1]);
    }
  }

  // ---------------------------------------------------------------------------
  // Whose dialect is latched
  // ---------------------------------------------------------------------------

  /** A checksum is attributed to the correct dialect, else to the legacy one, else to none. */
  lemma AttributedExactly(body: seq<byte>, received: uint16)
    ensures var correct, legacy := Crc(Correct, Octets(body), 0xFFFF) as int, Crc(Legacy, Octets(body), 0xFFFF) as int;
            && (Verdict(body, received) == Some(Correct) <==> received == correct)
            && (Verdict(body, received) == Some(Legacy) <==> received == legacy && received != correct)
            && (Verdict(body, received) == None <==> received != correct && received != legacy)
  {
    hide Crc, Octets;
  }

  /** The two checksums of a body differ. */
  predicate TablesDisagree(body: seq<byte>) {
    Crc(Legacy, Octets(body), 0xFFFF) != Crc(Correct, Octets(body), 0xFFFF)
  }

  /** A built checksum is attributed to its sender: always for correct ones, for legacy ones if the tables disagree. */
  lemma SenderIsAttributed(sender: Dialect, body: seq<byte>)
    ensures Verdict(body, Checksum(sender, body)).Some?
    ensures Verdict(body, Checksum(sender, body)) == Some(sender) <==> sender == Correct || TablesDisagree(body)
  {
    hide Crc, Octets;
    ChecksumsEqual(Legacy, body, Correct, body);
  }

  /**
   * The first frame that validates in a session latches its sender's dialect: always for a sender of
   * correct checksums, and for a legacy sender exactly if the two checksums of the frame differ.
   */
  lemma SenderIsLatched(l: Latch, before: seq<LinkEvent>, quiet: seq<LinkEvent>, later: seq<LinkEvent>,
                        sender: Dialect, body: seq<byte>)
    requires OneSession(quiet) && OneSession(later) && FirstValidated(quiet) == None
    ensures var first := Received(body, Checksum(sender, body));
            Run(l, before + [SessionStart] + (quiet + [first] + later)) == Latch(sender, true)
            <==> sender == Correct || TablesDisagree(body)
  {
    hide Verdict, Checksum, TablesDisagree, Run;
    var first := Received(body, Checksum(sender, body));
    var start := quiet + [first];
    SenderIsAttributed(sender, body);
    assert start[..|start| - 1] == quiet;
    assert FirstValidated(start) == Verdict(body, Checksum(sender, body));
    FirstValidatedStays(start, later);
    assert OneSession(start + later) by {
      forall e | e in start + later ensures !e.SessionStart? {
        assert e in quiet || e == first || e in later;
      }
    }
    LatchOfSession(l, before, start + later);
  }

  lemma {:induction false} FirstValidatedStays(a: seq<LinkEvent>, b: seq<LinkEvent>)
    requires FirstValidated(a).Some?
    ensures FirstValidated(a + b) == FirstValidated(a)
    decreases |b|
  {
    hide Verdict;
    if b == [] {
      assert a + b == a;
    } else {
      assert (a + b)[..|a + b| - 1] == a + b[..|b| - 1];
      FirstValidatedStays(a, b[..|b| - 1]);
    }
  }

  // ---------------------------------------------------------------------------
  // What accepting either dialect costs
  // ---------------------------------------------------------------------------

  lemma WordRoundTrip(a: bv16)
    ensures (a as int) as bv16 == a
  {}

  /**
   * A frame sent with the correct checksum whose body was damaged in at most two adjacent bytes is
   * accepted exactly when its new body happens to have that value as its legacy checksum.
   */
  lemma DamagedFrameAccepted(pre: seq<byte>, u: seq<byte>, v: seq<byte>, post: seq<byte>)
    requires |u| == |v| <= 2 && u != v
    ensures var sent, got := pre + u + post, pre + v + post;
            Verdict(got, Checksum(Correct, sent)).Some? <==> Checksum(Legacy, got) == Checksum(Correct, sent)
  {
    hide Crc, Octets;
    var sent, got := pre + u + post, pre + v + post;
    OctetsOfBurst(pre, u, v, post);
    AdjacentBytesDetected(Octets(pre), Octets(u), Octets(v), Octets(post), 0xFFFF);
    ChecksumsEqual(Correct, got, Correct, sent);
  }

  lemma OctetsOfBurst(pre: seq<byte>, u: seq<byte>, v: seq<byte>, post: seq<byte>)
    requires |u| == |v| && u != v
    ensures Octets(pre + u + post) == Octets(pre) + Octets(u) + Octets(post)
    ensures Octets(pre + v + post) == Octets(pre) + Octets(v) + Octets(post)
    ensures Octets(u) != Octets(v)
  {
    hide Octets;
    OctetsConcat(pre + u, post);
    OctetsConcat(pre + v, post);
    OctetsConcat(pre, u);
    OctetsConcat(pre, v);
    if Octets(u) == Octets(v) {
      OctetsInjective(u, v);
    }
  }

  lemma ChecksumsEqual(d: Dialect, a: seq<byte>, e: Dialect, b: seq<byte>)
    ensures Checksum(d, a) == Checksum(e, b) <==> Crc(d, Octets(a), 0xFFFF) == Crc(e, Octets(b), 0xFFFF)
  {
    hide Crc, Octets;
    WordRoundTrip(Crc(d, Octets(a), 0xFFFF));
    WordRoundTrip(Crc(e, Octets(b), 0xFFFF));
  }

  /**
   * A frame sent with the legacy checksum whose body was damaged in any way is accepted exactly when
   * a step of the legacy loop over the two bodies meets, or when the new body happens to have the
   * value as its correct checksum.
   */
  lemma DamagedLegacyFrameAccepted(sent: seq<byte>, got: seq<byte>)
    requires |sent| == |got| && sent != got
    ensures Verdict(got, Checksum(Legacy, sent)).Some?
            <==> (exists k :: 0 <= k < |sent| && MeetAt(Octets(got), Octets(sent), 0xFFFF, k))
                 || Checksum(Correct, got) == Checksum(Legacy, sent)
  {
    hide Crc, Octets, MeetAt;
    if Octets(got) == Octets(sent) {
      OctetsInjective(got, sent);
    }
    LegacyCollidesExactly(Octets(got), Octets(sent), 0xFFFF);
    ChecksumsEqual(Legacy, got, Legacy, sent);
  }

  /**
   * In either dialect, damage inside two adjacent bytes is noticed if the loop over the new body
   * reads no corrupted entry and, for a legacy sender, no step reads confusable entries.
   */
  lemma DamageIsNoticed(d: Dialect, pre: seq<byte>, u: seq<byte>, v: seq<byte>, post: seq<byte>)
    requires |u| == |v| <= 2 && u != v
    requires AvoidsCorruption(Octets(pre + v + post), 0xFFFF)
    requires d == Legacy ==> Unconfused(Octets(pre + u + post), Octets(pre + v + post), 0xFFFF)
    ensures Verdict(pre + v + post, Checksum(d, pre + u + post)).None?
  {
    hide Crc, Octets, AvoidsCorruption, Unconfused;
    var sent, got := pre + u + post, pre + v + post;
    OctetsOfBurst(pre, u, v, post);
    DialectsAgree(Octets(got), 0xFFFF);
    ChecksumsEqual(Legacy, got, Correct, got);
    ChecksumsEqual(d, got, d, sent);
    if d == Correct {
      AdjacentBytesDetected(Octets(pre), Octets(u), Octets(v), Octets(post), 0xFFFF);
    } else {
      LegacyDetects(Octets(pre), Octets(u), Octets(v), Octets(post), 0xFFFF);
    }
  }

  /** Both kinds of unnoticed damage occur: two bytes of such a body may change, in either dialect. */
  lemma DamageGoesUnnoticed(post: seq<byte>)
    ensures Verdict([0x20, 0x00] + post, Checksum(Legacy, [0x02, 0x04] + post)).Some?
    ensures AvoidsCorruption(Octets(post), 0x2E3E) ==>
              Verdict([0x23, 0x04] + post, Checksum(Correct, [0x01, 0x00] + post)).Some?
  {
    hide Crc, Octets, AvoidsCorruption;
    OctetsOfTwo(0x20, 0x00);
    OctetsOfTwo(0x02, 0x04);
    OctetsOfTwo(0x23, 0x04);
    OctetsOfTwo(0x01, 0x00);
    OctetsConcat([0x20, 0x00], post);
    OctetsConcat([0x02, 0x04], post);
    OctetsConcat([0x23, 0x04], post);
    OctetsConcat([0x01, 0x00], post);
    LegacyMissesBurst(Octets(post));
    ChecksumsEqual(Legacy, [0x20, 0x00] + post, Legacy, [0x02, 0x04] + post);
    if AvoidsCorruption(Octets(post), 0x2E3E) {
      TablesMissBurst(Octets(post));
      ChecksumsEqual(Legacy, [0x23, 0x04] + post, Correct, [0x01, 0x00] + post);
    }
  }

  lemma OctetsOfTwo(a: byte, b: byte)
    ensures Octets([a, b]) == [a as bv8, b as bv8]
  {}
}
