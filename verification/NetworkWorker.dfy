// network_worker.cpp: the filter on UDP screen datagrams, and the buffer that holds outgoing
// frames while the TCP connection is down.

module NetworkWorker {
  import opened Bytes

  const SCREEN_DGRAM_SIZE := 1032
  const SCREEN_MAGIC0: byte := 0x53
  const SCREEN_MAGIC1: byte := 0x43
  const SCREEN_FB_OFFSET := 8
  const SCREEN_FB_LEN := 1024
  const MAX_PENDING_TX := 64

  // ---------------------------------------------------------------------------
  // The screen filter
  // ---------------------------------------------------------------------------

  /** `lastSeq` is -1 while no frame has been accepted. */
  datatype Filter = Filter(active: bool, epochKnown: bool, epoch: uint32, lastSeq: int)

  predicate WellFormed(buf: seq<byte>) {
    |buf| == SCREEN_DGRAM_SIZE && buf[0] == SCREEN_MAGIC0 && buf[1] == SCREEN_MAGIC1
  }

  function FrameSeq(buf: seq<byte>): uint16
    requires WellFormed(buf)
  {
    FromLE16(buf[2], buf[3])
  }

  function Epoch(buf: seq<byte>): uint32
    requires WellFormed(buf)
  {
    FromLE32(buf[4], buf[5], buf[6], buf[7])
  }

  /** Not a duplicate and not older, in sixteen-bit serial-number arithmetic. */
  predicate Newer(seqNo: uint16, last: int) {
    last < 0 || 1 <= (seqNo - last) % 0x1_0000 <= 0x7FFF
  }

  /** The filter after a datagram, and whether the datagram's picture is taken. */
  function Offer(f: Filter, buf: seq<byte>): (Filter, bool) {
    if !f.active || !WellFormed(buf) then (f, false)
    else if f.epochKnown && Epoch(buf) != f.epoch then (f, false)
    else
      var g := f.(epochKnown := true, epoch := Epoch(buf));
      if Newer(FrameSeq(buf), f.lastSeq) then (g.(lastSeq := FrameSeq(buf)), true) else (g, false)
  }

  function OfferAll(f: Filter, bufs: seq<seq<byte>>): (Filter, seq<seq<byte>>) {
    if bufs == [] then (f, [])
    else
      var last := |bufs| - 1;
      var (g, taken) := OfferAll(f, bufs[..last]);
      var (g', ok) := Offer(g, bufs[last]);
      (g', if ok then taken + [Picture(bufs[last])] else taken)
  }

  function Picture(buf: seq<byte>): seq<byte> {
    if |buf| < SCREEN_FB_OFFSET + SCREEN_FB_LEN then [] else buf[SCREEN_FB_OFFSET..SCREEN_FB_OFFSET + SCREEN_FB_LEN]
  }

  // ---------------------------------------------------------------------------
  // The worker
  // ---------------------------------------------------------------------------

  /** The transmit side: what the socket was given, and what waits for a connection. */
  datatype Tx = Tx(connected: bool, pending: seq<seq<byte>>, written: seq<seq<byte>>)

  class Worker {
    var screenActive: bool
    var epochKnown: bool
    var epoch: uint32
    var lastSeq: int
    var pictures: seq<seq<byte>>

    var connected: bool
    var pendingTx: seq<seq<byte>>
    var written: seq<seq<byte>>

    ghost function ScreenFilter(): Filter
      reads this
    {
      Filter(screenActive, epochKnown, epoch, lastSeq)
    }

    ghost function Transmit(): Tx
      reads this
    {
      Tx(connected, pendingTx, written)
    }

    constructor ()
      ensures ScreenFilter() == Filter(false, false, 0, -1) && pictures == []
      ensures Transmit() == Tx(false, [], [])
    {
      screenActive, epochKnown, epoch, lastSeq, pictures := false, false, 0, -1, [];
      connected, pendingTx, written := false, [], [];
    }

    method ArmScreen()
      modifies this
      ensures ScreenFilter() == Filter(true, false, old(epoch), -1)
      ensures Transmit() == old(Transmit()) && pictures == old(pictures)
    {
      screenActive := true;
      epochKnown := false;
      lastSeq := -1;
    }

    method DisarmScreen()
      modifies this
      ensures ScreenFilter() == old(ScreenFilter()).(active := false)
      ensures Transmit() == old(Transmit()) && pictures == old(pictures)
    {
      screenActive := false;
    }

    method OnUdpReadyRead(datagrams: seq<seq<byte>>)
      modifies this
      ensures var (f, taken) := OfferAll(old(ScreenFilter()), datagrams);
              ScreenFilter() == f && pictures == old(pictures) + taken
      ensures Transmit() == old(Transmit())
    {
      hide FromLE16, FromLE32, Picture;
      ghost var f0 := ScreenFilter();
      assert datagrams[..0] == [] && pictures + [] == pictures;
      for i := 0 to |datagrams|
        invariant ScreenFilter() == OfferAll(f0, datagrams[..i]).0
        invariant pictures == old(pictures) + OfferAll(f0, datagrams[..i]).1
        invariant Transmit() == old(Transmit())
      {
        var buf := datagrams[i];
        assert datagrams[..i + 1][..i] == datagrams[..i] && datagrams[..i + 1][i] == buf;
        if !screenActive {
          continue;
        }
        if |buf| != SCREEN_DGRAM_SIZE {
          continue;
        }
        if buf[0] != SCREEN_MAGIC0 || buf[1] != SCREEN_MAGIC1 {
          continue;
        }
        var seqNo := FromLE16(buf[2], buf[3]);
        var e := FromLE32(buf[4], buf[5], buf[6], buf[7]);
        if !epochKnown {
          epoch := e;
          epochKnown := true;
        } else if e != epoch {
          continue;
        }
        if lastSeq >= 0 {
          var delta := (seqNo - lastSeq) % 0x1_0000;
          if delta == 0 || delta > 0x7FFF {
            continue;
          }
        }
        lastSeq := seqNo;
        pictures := pictures + [Picture(buf)];
      }
      assert datagrams[..|datagrams|] == datagrams;
    }

    method WriteData(data: seq<byte>)
      modifies this
      ensures Transmit() == NextTx(old(Transmit()), Write(data))
      ensures ScreenFilter() == old(ScreenFilter()) && pictures == old(pictures)
    {
      if !connected {
        if |pendingTx| < MAX_PENDING_TX {
          pendingTx := pendingTx + [data];
        }
        return;
      }
      written := written + [data];
    }

    method OnTcpConnected()
      modifies this
      ensures Transmit() == NextTx(old(Transmit()), Connect)
      ensures ScreenFilter() == old(ScreenFilter()) && pictures == old(pictures)
    {
      connected := true;
      ghost var before := written;
      assert before + pendingTx[..0] == before;
      for i := 0 to |pendingTx|
        invariant connected && pendingTx == old(pendingTx) && written == before + pendingTx[..i]
        invariant ScreenFilter() == old(ScreenFilter()) && pictures == old(pictures)
      {
        written := written + [pendingTx[i]];
        assert before + pendingTx[..i] + [pendingTx[i]] == before + pendingTx[..i + 1];
      }
      assert pendingTx[..|pendingTx|] == pendingTx;
      pendingTx := [];
    }

    method OnTcpDisconnected()
      modifies this
      ensures Transmit() == NextTx(old(Transmit()), ConnectionLost)
      ensures ScreenFilter() == Filter(false, false, old(epoch), -1) && pictures == old(pictures)
    {
      connected := false;
      screenActive := false;
      epochKnown := false;
      lastSeq := -1;
    }

    method DisconnectFromHost()
      modifies this
      ensures Transmit() == NextTx(old(Transmit()), UserDisconnect)
      ensures ScreenFilter() == old(ScreenFilter()).(active := false) && pictures == old(pictures)
    {
      pendingTx := [];
      screenActive := false;
      connected := false;
    }
  }

  // ---------------------------------------------------------------------------
  // The filter is a running maximum
  // ---------------------------------------------------------------------------

  /** A picture of a stream; the wire carries only the low sixteen bits of its number. */
  datatype Arrival = Shot(number: nat, epoch: uint32, picture: seq<byte>) | Junk(bytes: seq<byte>)

  predicate Honest(a: Arrival) {
    match a
    case Shot(_, _, picture) => |picture| == SCREEN_FB_LEN
    case Junk(bytes) => !WellFormed(bytes)
  }

  function Datagram(a: Arrival): seq<byte> {
    match a
    case Shot(number, epoch, picture) =>
      [SCREEN_MAGIC0, SCREEN_MAGIC1] + LE16(number % 0x1_0000) + LE32(epoch) + picture
    case Junk(bytes) => bytes
  }

  /** The filter after the arrivals. */
  function After(f: Filter, arrivals: seq<Arrival>): Filter {
    if arrivals == [] then f
    else Offer(After(f, arrivals[..|arrivals| - 1]), Datagram(arrivals[|arrivals| - 1])).0
  }

  predicate Taken(f: Filter, arrivals: seq<Arrival>, i: nat)
    requires i < |arrivals|
  {
    Offer(After(f, arrivals[..i]), Datagram(arrivals[i])).1
  }

  /** The epoch of the first shot. */
  function FirstEpoch(arrivals: seq<Arrival>): Option<uint32> {
    if arrivals == [] then None
    else
      var before := FirstEpoch(arrivals[..|arrivals| - 1]);
      var last := arrivals[|arrivals| - 1];
      if before.None? && last.Shot? then Some(last.epoch) else before
  }

  /** The highest number among the shots of the first epoch; meaningless before the first shot. */
  function Highest(arrivals: seq<Arrival>): nat {
    if arrivals == [] then 0
    else
      var front, last := arrivals[..|arrivals| - 1], arrivals[|arrivals| - 1];
      if !last.Shot? || (FirstEpoch(front).Some? && FirstEpoch(front).value != last.epoch) then Highest(front)
      else if FirstEpoch(front).None? || last.number > Highest(front) then last.number
      else Highest(front)
  }

  /** Every shot of the stream comes within half the number space of the highest one before it. */
  predicate InWindow(arrivals: seq<Arrival>) {
    forall i :: 0 <= i < |arrivals| ==> NearHighest(arrivals, i)
  }

  predicate NearHighest(arrivals: seq<Arrival>, i: nat)
    requires i < |arrivals|
  {
    arrivals[i].Shot? && FirstEpoch(arrivals[..i]) == Some(arrivals[i].epoch) ==>
      -0x8000 <= arrivals[i].number - Highest(arrivals[..i]) <= 0x7FFF
  }

  lemma DatagramFields(a: Arrival)
    requires a.Shot? && Honest(a)
    ensures WellFormed(Datagram(a)) && FrameSeq(Datagram(a)) == a.number % 0x1_0000 && Epoch(Datagram(a)) == a.epoch
  {
    hide LE16, LE32, FromLE16, FromLE32;
    LE16RoundTrip(a.number % 0x1_0000);
    LE32RoundTrip(a.epoch);
    var d := Datagram(a);
    assert d[2] == LE16(a.number % 0x1_0000)[0] && d[3] == LE16(a.number % 0x1_0000)[1];
    assert d[4] == LE32(a.epoch)[0] && d[5] == LE32(a.epoch)[1] && d[6] == LE32(a.epoch)[2] && d[7] == LE32(a.epoch)[3];
  }

  /** Within the window, the sixteen-bit comparison decides the comparison of the true numbers. */
  lemma NewerInWindow(n: nat, max: nat)
    requires -0x8000 <= n - max <= 0x7FFF
    ensures Newer(n % 0x1_0000, max % 0x1_0000) <==> n > max
  {
    var d := n - max;
    assert (n % 0x1_0000 - max % 0x1_0000) % 0x1_0000 == d % 0x1_0000;
  }

  /** The window is as wide as it can be: one number further on either side is judged wrongly. */
  lemma WindowIsTight(max: nat)
    ensures !Newer((max + 0x8000) % 0x1_0000, max % 0x1_0000)
    ensures max >= 0x8001 ==> Newer((max - 0x8001) % 0x1_0000, max % 0x1_0000)
  {}

  lemma {:induction false} FilterState(f: Filter, arrivals: seq<Arrival>)
    requires f.active && !f.epochKnown && f.lastSeq == -1
    requires InWindow(arrivals) && forall i :: 0 <= i < |arrivals| ==> Honest(arrivals[i])
    ensures After(f, arrivals) ==
            match FirstEpoch(arrivals)
            case None => f
            case Some(e) => Filter(true, true, e, Highest(arrivals) % 0x1_0000)
    decreases |arrivals|
  {
    hide Datagram, Epoch, FrameSeq, WellFormed, Newer;
    if arrivals != [] {
      var n := |arrivals| - 1;
      var front, last := arrivals[..n], arrivals[n];
      PrefixInWindow(arrivals, n);
      FilterState(f, front);
      assert Honest(last) && NearHighest(arrivals, n);
      if last.Shot? {
        DatagramFields(last);
        FirstIsNewer(last.number % 0x1_0000);
        if FirstEpoch(front) == Some(last.epoch) {
          NewerInWindow(last.number, Highest(front));
        }
      } else {
        assert !WellFormed(Datagram(last)) by { JunkDatagram(last); }
      }
    }
  }

  lemma FirstIsNewer(seqNo: uint16)
    ensures Newer(seqNo, -1)
  {}

  lemma JunkDatagram(a: Arrival)
    requires a.Junk? && Honest(a)
    ensures !WellFormed(Datagram(a))
  {}

  lemma PrefixInWindow(arrivals: seq<Arrival>, n: nat)
    requires n <= |arrivals| && InWindow(arrivals)
    ensures InWindow(arrivals[..n])
  {
    forall i | 0 <= i < n ensures NearHighest(arrivals[..n], i) {
      assert NearHighest(arrivals, i);
      assert arrivals[..n][..i] == arrivals[..i];
    }
  }

  lemma {:induction false} HighestIsHighest(arrivals: seq<Arrival>, j: nat)
    requires j < |arrivals| && arrivals[j].Shot? && FirstEpoch(arrivals) == Some(arrivals[j].epoch)
    ensures arrivals[j].number <= Highest(arrivals)
    ensures exists i :: 0 <= i < |arrivals| && arrivals[i].Shot? && FirstEpoch(arrivals) == Some(arrivals[i].epoch)
                          && arrivals[i].number == Highest(arrivals)
    decreases |arrivals|
  {
    var n := |arrivals| - 1;
    var front, last := arrivals[..n], arrivals[n];
    if FirstEpoch(front).None? {
      NoShotsYet(front);
      assert j == n;
    } else {
      var i := FirstShot(front);
      HighestIsHighest(front, i);
      if j < n {
        HighestIsHighest(front, j);
      }
      var m :| 0 <= m < |front| && front[m].Shot? && FirstEpoch(front) == Some(front[m].epoch)
                 && front[m].number == Highest(front);
      assert arrivals[m] == front[m];
    }
  }

  lemma {:induction false} NoShotsYet(arrivals: seq<Arrival>)
    requires FirstEpoch(arrivals).None?
    ensures forall j :: 0 <= j < |arrivals| ==> !arrivals[j].Shot?
    decreases |arrivals|
  {
    if arrivals != [] {
      NoShotsYet(arrivals[..|arrivals| - 1]);
    }
  }

  lemma {:induction false} FirstShot(arrivals: seq<Arrival>) returns (i: nat)
    requires FirstEpoch(arrivals).Some?
    ensures i < |arrivals| && arrivals[i].Shot? && FirstEpoch(arrivals) == Some(arrivals[i].epoch)
    decreases |arrivals|
  {
    var n := |arrivals| - 1;
    if FirstEpoch(arrivals[..n]).Some? {
      i := FirstShot(arrivals[..n]);
    } else {
      i := n;
    }
  }

  /** A shot of the epoch of the first shot, with a higher number than every earlier one of that epoch. */
  predicate IsRecord(arrivals: seq<Arrival>, i: nat)
    requires i < |arrivals|
  {
    && arrivals[i].Shot?
    && FirstEpoch(arrivals[..i + 1]) == Some(arrivals[i].epoch)
    && forall j :: 0 <= j < i && arrivals[j].Shot? && arrivals[j].epoch == arrivals[i].epoch ==>
         arrivals[j].number < arrivals[i].number
  }

  /**
   * After arming, whatever junk and foreign streams come in between: a shot is taken exactly when it
   * belongs to the epoch of the first shot and its true number exceeds that of every earlier shot
   * of that epoch. Hence the numbers of the taken shots are strictly increasing.
   */
  lemma FilterIsRunningMaximum(f: Filter, arrivals: seq<Arrival>, i: nat)
    requires f.active && !f.epochKnown && f.lastSeq == -1 && i < |arrivals|
    requires InWindow(arrivals) && forall k :: 0 <= k < |arrivals| ==> Honest(arrivals[k])
    ensures Taken(f, arrivals, i) <==> IsRecord(arrivals, i)
  {
    hide Datagram, Epoch, FrameSeq, WellFormed, Newer, Highest;
    var front, last := arrivals[..i], arrivals[i];
    PrefixInWindow(arrivals, i);
    FilterState(f, front);
    assert arrivals[..i + 1][..i] == front && arrivals[..i + 1][i] == last;
    assert Honest(last) && NearHighest(arrivals, i);
    if last.Junk? {
      JunkDatagram(last);
    } else {
      DatagramFields(last);
      FirstIsNewer(last.number % 0x1_0000);
      if FirstEpoch(front).None? {
        NoShotsYet(front);
        assert forall j :: 0 <= j < i ==> arrivals[j] == front[j];
      } else if FirstEpoch(front) == Some(last.epoch) {
        NewerInWindow(last.number, Highest(front));
        forall j | 0 <= j < i && arrivals[j].Shot? && arrivals[j].epoch == last.epoch
          ensures arrivals[j].number <= Highest(front)
        {
          assert front[j] == arrivals[j];
          HighestIsHighest(front, j);
        }
        var s := FirstShot(front);
        HighestIsHighest(front, s);
        var m :| 0 <= m < |front| && front[m].Shot? && FirstEpoch(front) == Some(front[m].epoch)
                   && front[m].number == Highest(front);
        assert arrivals[m] == front[m];
      }
    }
  }

  function Datagrams(arrivals: seq<Arrival>): (r: seq<seq<byte>>)
    ensures |r| == |arrivals|
  {
    seq(|arrivals|, i requires 0 <= i < |arrivals| => Datagram(arrivals[i]))
  }

  /** The pictures of the records, in order. */
  function Records(arrivals: seq<Arrival>): seq<seq<byte>> {
    if arrivals == [] then []
    else
      var n := |arrivals| - 1;
      Records(arrivals[..n]) + if IsRecord(arrivals, n) then [arrivals[n].picture] else []
  }

  lemma PictureOfShot(a: Arrival)
    requires a.Shot? && Honest(a)
    ensures Picture(Datagram(a)) == a.picture
  {
    hide LE16, LE32;
  }

  /** Reading a batch of datagrams after arming yields exactly the pictures of the records. */
  lemma {:induction false} PicturesAreRecords(f: Filter, arrivals: seq<Arrival>)
    requires f.active && !f.epochKnown && f.lastSeq == -1
    requires InWindow(arrivals) && forall i :: 0 <= i < |arrivals| ==> Honest(arrivals[i])
    ensures OfferAll(f, Datagrams(arrivals)) == (After(f, arrivals), Records(arrivals))
    decreases |arrivals|
  {
    hide Datagram, Offer, Honest, IsRecord, Picture, InWindow;
    if arrivals != [] {
      var n := |arrivals| - 1;
      PrefixInWindow(arrivals, n);
      PicturesAreRecords(f, arrivals[..n]);
      assert Datagrams(arrivals)[..n] == Datagrams(arrivals[..n]);
      FilterIsRunningMaximum(f, arrivals, n);
      if IsRecord(arrivals, n) {
        RecordIsShot(arrivals, n);
        PictureOfShot(arrivals[n]);
      }
      assert Records(arrivals[..n]) + [] == Records(arrivals[..n]);
      assert Datagrams(arrivals)[n] == Datagram(arrivals[n]);
    }
  }

  lemma RecordIsShot(arrivals: seq<Arrival>, i: nat)
    requires i < |arrivals| && IsRecord(arrivals, i)
    ensures arrivals[i].Shot?
  {}

  /** A datagram of another size or with other leading bytes is no picture and leaves the filter as it is. */
  lemma JunkIsIgnored(f: Filter, buf: seq<byte>)
    requires |buf| != 1032 || buf[0] != 0x53 || buf[1] != 0x43
    ensures Offer(f, buf) == (f, false)
  {}

  /** Before arming and after disarming no datagram is taken, and the filter stays as it is. */
  lemma {:induction false} DisarmedTakesNothing(f: Filter, bufs: seq<seq<byte>>)
    requires !f.active
    ensures OfferAll(f, bufs) == (f, [])
    decreases |bufs|
  {
    if bufs != [] {
      DisarmedTakesNothing(f, bufs[..|bufs| - 1]);
    }
  }

  /** Taken shots are of one epoch and strictly increasing in their true numbers. */
  lemma TakenNumbersIncrease(f: Filter, arrivals: seq<Arrival>, i: nat, j: nat)
    requires f.active && !f.epochKnown && f.lastSeq == -1 && i < j < |arrivals|
    requires InWindow(arrivals) && forall k :: 0 <= k < |arrivals| ==> Honest(arrivals[k])
    requires Taken(f, arrivals, i) && Taken(f, arrivals, j)
    ensures arrivals[i].Shot? && arrivals[j].Shot?
    ensures arrivals[i].epoch == arrivals[j].epoch && arrivals[i].number < arrivals[j].number
  {
    hide Taken, InWindow;
    FilterIsRunningMaximum(f, arrivals, i);
    FilterIsRunningMaximum(f, arrivals, j);
    EpochStays(arrivals, i + 1, j + 1);
  }

  lemma {:induction false} EpochStays(arrivals: seq<Arrival>, i: nat, j: nat)
    requires i <= j <= |arrivals| && FirstEpoch(arrivals[..i]).Some?
    ensures FirstEpoch(arrivals[..j]) == FirstEpoch(arrivals[..i])
    decreases j
  {
    if i < j {
      EpochStays(arrivals, i, j - 1);
      assert arrivals[..j][..j - 1] == arrivals[..j - 1];
    }
  }

  // ---------------------------------------------------------------------------
  // The transmit buffer
  // ---------------------------------------------------------------------------

  datatype TxEvent = Write(data: seq<byte>) | Connect | ConnectionLost | UserDisconnect

  function NextTx(t: Tx, e: TxEvent): Tx {
    match e
    case Write(data) =>
      if t.connected then t.(written := t.written + [data])
      else if |t.pending| < MAX_PENDING_TX then t.(pending := t.pending + [data])
      else t
    case Connect => Tx(true, [], t.written + t.pending)
    case ConnectionLost => t.(connected := false)
    case UserDisconnect => t.(connected := false, pending := [])
  }

  function RunTx(t: Tx, es: seq<TxEvent>): Tx {
    if es == [] then t else NextTx(RunTx(t, es[..|es| - 1]), es[|es| - 1])
  }

  function Writes(es: seq<TxEvent>): seq<seq<byte>> {
    if es == [] then []
    else Writes(es[..|es| - 1]) + if es[|es| - 1].Write? then [es[|es| - 1].data] else []
  }

  /** Did some write find the buffer full? */
  predicate Overflows(t: Tx, es: seq<TxEvent>) {
    es != [] &&
    var before := RunTx(t, es[..|es| - 1]);
    Overflows(t, es[..|es| - 1]) || (es[|es| - 1].Write? && !before.connected && |before.pending| >= MAX_PENDING_TX)
  }

  predicate TxOk(t: Tx) {
    |t.pending| <= MAX_PENDING_TX && (t.connected ==> t.pending == [])
  }

  lemma {:induction false} TxInvariant(t: Tx, es: seq<TxEvent>)
    requires TxOk(t)
    ensures TxOk(RunTx(t, es))
  {
    if es != [] {
      TxInvariant(t, es[..|es| - 1]);
    }
  }

  lemma {:induction false} NothingAddedOrLost(t: Tx, es: seq<TxEvent>)
    requires TxOk(t) && forall i :: 0 <= i < |es| ==> es[i] != UserDisconnect
    ensures var r := RunTx(t, es);
            |r.written| + |r.pending| <= |t.written| + |t.pending| + |Writes(es)|
    ensures var r := RunTx(t, es);
            |r.written| + |r.pending| == |t.written| + |t.pending| + |Writes(es)| <==> !Overflows(t, es)
    ensures var r := RunTx(t, es);
            !Overflows(t, es) ==> r.written + r.pending == t.written + t.pending + Writes(es)
  {
    if es != [] {
      var front, e := es[..|es| - 1], es[|es| - 1];
      NothingAddedOrLost(t, front);
      TxInvariant(t, front);
      var r := RunTx(t, front);
      if e.Write? && !Overflows(t, es) {
        assert t.written + t.pending + Writes(es) == (t.written + t.pending + Writes(front)) + [e.data];
        assert r.connected ==> r.written + [e.data] + [] == r.written + r.pending + [e.data];
        assert r.written + (r.pending + [e.data]) == r.written + r.pending + [e.data];
      } else {
        assert Writes(front) + [] == Writes(front);
        assert r.written + r.pending + [] == r.written + r.pending;
      }
    }
  }

  /**
   * Across any connection losses and reconnects without a user disconnect, every frame reaches the
   * socket or waits for it, once and in order, exactly when no write ever found 64 waiting.
   */
  lemma FramesKeptExactly(t: Tx, es: seq<TxEvent>)
    requires TxOk(t) && forall i :: 0 <= i < |es| ==> es[i] != UserDisconnect
    ensures var r := RunTx(t, es);
            r.written + r.pending == t.written + t.pending + Writes(es) <==> !Overflows(t, es)
  {
    NothingAddedOrLost(t, es);
  }

  lemma {:induction false} RunTxConcat(t: Tx, a: seq<TxEvent>, b: seq<TxEvent>)
    ensures RunTx(t, a + b) == RunTx(RunTx(t, a), b)
    decreases |b|
  {
    hide NextTx;
    if b == [] {
      assert a + b == a;
    } else {
      assert (a + b)[..|a + b| - 1] == a + b[..|b| - 1];
      RunTxConcat(t, a, b[..|b| - 1]);
    }
  }

  /**
   * A disconnect by the user forgets what waited: of what was written before it, only what had already
   * reached the socket is ever there; what is written after it is kept as ever.
   */
  lemma UserDisconnectForgets(t: Tx, before: seq<TxEvent>, after: seq<TxEvent>)
    requires TxOk(t) && forall i :: 0 <= i < |after| ==> after[i] != UserDisconnect
    ensures var closed := RunTx(t, before + [UserDisconnect]);
            && closed == Tx(false, [], RunTx(t, before).written)
            && var r := RunTx(t, before + [UserDisconnect] + after);
               r.written + r.pending == RunTx(t, before).written + Writes(after) <==> !Overflows(closed, after)
  {
    hide RunTx, Writes, Overflows;
    var closed := RunTx(t, before + [UserDisconnect]);
    UserDisconnectStep(t, before);
    RunTxConcat(t, before + [UserDisconnect], after);
    FramesKeptExactly(closed, after);
    assert closed.written + [] == closed.written;
  }

  lemma UserDisconnectStep(t: Tx, before: seq<TxEvent>)
    ensures RunTx(t, before + [UserDisconnect]) == Tx(false, [], RunTx(t, before).written)
  {
    var es := before + [UserDisconnect];
    assert es[..|es| - 1] == before;
  }
}
