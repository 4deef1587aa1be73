// What the legacy dialect of the CRC-16 detects and what it misses. Its table is not a remainder
// table, so a step can merge two registers; everything follows from when it does.

module LegacyCrc {
  import opened Crc16

  // ---------------------------------------------------------------------------
  // When two messages collide
  // ---------------------------------------------------------------------------

  lemma XorExchange(t: bv16, t': bv16, p: bv16, q: bv16)
    ensures t ^ p == t' ^ q <==> t ^ t' == p ^ q
  {}

  lemma XorExchangeNamed(t: bv16, t': bv16, p: bv16, q: bv16)
    ensures Xor(t, p) == Xor(t', q) <==> Xor(t, t') == Xor(p, q)
  {
    XorExchange(t, t', p, q);
  }

  lemma ShiftOfXor(a: bv16, a': bv16)
    ensures Xor(a, a') << 8 == Xor(a << 8, a' << 8)
  {}

  /** A step merges two registers exactly when the entries it reads differ by their shifted difference. */
  lemma StepsMergeExactly(c: bv16, c': bv16, b: bv8, b': bv8)
    ensures Step(Legacy, c, b) == Step(Legacy, c', b') <==> Merges(c, c', b, b')
  {
    hide Step, LegacyTable, CorrectTable, Index, Xor;
    StepIs(c, b);
    StepIs(c', b');
    XorMerges(LegacyTable(Index(c, b)), LegacyTable(Index(c', b')), c, c');
  }

  lemma XorMerges(t: bv16, t': bv16, a: bv16, a': bv16)
    ensures Xor(t, a << 8) == Xor(t', a' << 8) <==> Xor(t, t') == Xor(a, a') << 8
  {
    hide Xor;
    XorExchangeNamed(t, t', a << 8, a' << 8);
    ShiftOfXor(a, a');
  }

  predicate Merges(c: bv16, c': bv16, b: bv8, b': bv8) {
    Xor(LegacyTable(Index(c, b)), LegacyTable(Index(c', b'))) == Xor(c, c') << 8
  }

  /**
   * Step k takes x and y, so far different in their registers or in their bytes, to one register,
   * and the messages agree from there on.
   */
  predicate MeetAt(x: seq<bv8>, y: seq<bv8>, c: bv16, k: nat)
    requires k < |x| == |y|
  {
    var r, s := Crc(Legacy, x[..k], c), Crc(Legacy, y[..k], c);
    (r != s || x[k] != y[k]) && Merges(r, s, x[k], y[k]) && x[k + 1..] == y[k + 1..]
  }

  lemma {:induction false} CrcConcat(d: Dialect, a: seq<bv8>, b: seq<bv8>, c: bv16)
    ensures Crc(d, a + b, c) == Crc(d, b, Crc(d, a, c))
  {
    hide Step;
    if a == [] {
      assert a + b == b;
    } else {
      assert (a + b)[1..] == a[1..] + b;
      CrcConcat(d, a[1..], b, Step(d, c, a[0]));
    }
  }

  lemma CrcOfPrefix(d: Dialect, msg: seq<bv8>, k: nat, c: bv16)
    requires k < |msg|
    ensures Crc(d, msg[..k + 1], c) == Step(d, Crc(d, msg[..k], c), msg[k])
  {
    hide Step;
    var r := Crc(d, msg[..k], c);
    assert msg[..k + 1] == msg[..k] + [msg[k]] && [msg[k]][1..] == [];
    CrcConcat(d, msg[..k], [msg[k]], c);
    assert Crc(d, [msg[k]], r) == Crc(d, [], Step(d, r, msg[k]));
  }

  /**
   * Two different messages of one length have the same legacy checksum exactly when some step meets:
   * the entries it reads differ by the shifted difference of the registers.
   */
  lemma {:induction false} LegacyCollidesExactly(x: seq<bv8>, y: seq<bv8>, c: bv16)
    requires |x| == |y| && x != y
    ensures Crc(Legacy, x, c) == Crc(Legacy, y, c) <==> exists k :: 0 <= k < |x| && MeetAt(x, y, c, k)
    decreases |x|
  {
    hide Crc, Step, Merges;
    forall k | 0 <= k < |x| && MeetAt(x, y, c, k) ensures Crc(Legacy, x, c) == Crc(Legacy, y, c) {
      CrcOfPrefix(Legacy, x, k, c);
      CrcOfPrefix(Legacy, y, k, c);
      StepsMergeExactly(Crc(Legacy, x[..k], c), Crc(Legacy, y[..k], c), x[k], y[k]);
      CrcConcat(Legacy, x[..k + 1], x[k + 1..], c);
      CrcConcat(Legacy, y[..k + 1], y[k + 1..], c);
      assert x[..k + 1] + x[k + 1..] == x && y[..k + 1] + y[k + 1..] == y;
    }
    if Crc(Legacy, x, c) == Crc(Legacy, y, c) {
      var n := |x| - 1;
      var r, s := Crc(Legacy, x[..n], c), Crc(Legacy, y[..n], c);
      assert x[..n + 1] == x && y[..n + 1] == y;
      CrcOfPrefix(Legacy, x, n, c);
      CrcOfPrefix(Legacy, y, n, c);
      StepsMergeExactly(r, s, x[n], y[n]);
      if r != s || x[n] != y[n] {
        assert MeetAt(x, y, c, n);
      } else {
        assert x[..n] != y[..n] by {
          assert x == x[..n] + [x[n]] && y == y[..n] + [y[n]];
        }
        LegacyCollidesExactly(x[..n], y[..n], c);
        var k :| 0 <= k < n && MeetAt(x[..n], y[..n], c, k);
        assert x[..n][..k] == x[..k] && y[..n][..k] == y[..k];
        assert x[k + 1..] == x[..n][k + 1..] + [x[n]] && y[k + 1..] == y[..n][k + 1..] + [y[n]];
        assert MeetAt(x, y, c, k);
      }
    }
  }

  function Low(c: bv16): bv16 {
    c & 0x00FF
  }

  /** Two different entries of the legacy table with one low byte. */
  predicate Confusable(i: bv8, j: bv8) {
    i != j && Low(LegacyTable(i)) == Low(LegacyTable(j))
  }

  lemma LowBytes(t: bv16, t': bv16, d: bv16)
    requires Xor(t, t') == d << 8
    ensures Low(t) == Low(t')
    ensures t == t' ==> Low(d) == 0
  {}

  /** A step that reads no two confusable entries merges only registers that share their low byte. */
  lemma MergedEntries(c: bv16, c': bv16, b: bv8, b': bv8)
    requires Merges(c, c', b, b') && !Confusable(Index(c, b), Index(c', b'))
    ensures Index(c, b) == Index(c', b') && Low(c) == Low(c')
  {
    hide LegacyTable, CorrectTable, Index, Xor, Low;
    LowBytes(LegacyTable(Index(c, b)), LegacyTable(Index(c', b')), Xor(c, c'));
    XorOfLowBytes(c, c');
  }

  lemma XorOfLowBytes(c: bv16, c': bv16)
    ensures Low(Xor(c, c')) == 0 <==> Low(c) == Low(c')
  {}

  lemma SameIndex(c: bv16, c': bv16, b: bv8, b': bv8)
    requires Index(c, b) == Index(c', b')
    ensures c == c' ==> b == b'
    ensures b == b' && Low(c) == Low(c') ==> c == c'
  {}

  lemma LowByteOfStep(c: bv16, b: bv8)
    ensures Low(Step(Legacy, c, b)) == Low(LegacyTable(Index(c, b)))
  {
    hide LegacyTable, CorrectTable, Index, Step, Xor, Low;
    StepIs(c, b);
    LowByteOfXor(LegacyTable(Index(c, b)), c);
  }

  lemma LowByteOfXor(t: bv16, a: bv16)
    ensures Low(Xor(t, a << 8)) == Low(t)
  {}

  /** No step over x and y reads two confusable entries. */
  predicate Unconfused(x: seq<bv8>, y: seq<bv8>, c: bv16)
    requires |x| == |y|
  {
    forall k :: 0 <= k < |x| ==>
      !Confusable(Index(Crc(Legacy, x[..k], c), x[k]), Index(Crc(Legacy, y[..k], c), y[k]))
  }

  /** The legacy dialect too detects an error inside two adjacent bytes, unless a step reads confusable entries. */
  lemma LegacyDetects(pre: seq<bv8>, u: seq<bv8>, v: seq<bv8>, post: seq<bv8>, c: bv16)
    requires |u| == |v| <= 2 && u != v
    requires Unconfused(pre + u + post, pre + v + post, c)
    ensures Crc(Legacy, pre + u + post, c) != Crc(Legacy, pre + v + post, c)
  {
    hide Crc, Step, Merges, Confusable, Index, Low;
    var x, y := pre + u + post, pre + v + post;
    var p := |pre|;
    assert x[p..p + |u|] == u && y[p..p + |v|] == v;
    LegacyCollidesExactly(x, y, c);
    forall k | 0 <= k < |x| ensures !MeetAt(x, y, c, k) {
      if MeetAt(x, y, c, k) {
        var r, s := Crc(Legacy, x[..k], c), Crc(Legacy, y[..k], c);
        MergedEntries(r, s, x[k], y[k]);
        SameIndex(r, s, x[k], y[k]);
        assert r != s && x[k] != y[k];
        BurstPosition(pre, u, v, post, k);
        assert x[..k] == y[..k] || k == p + 1;
        RegistersBeforeSecond(x, y, c, p);
      }
    }
  }

  /** Behind the first byte of a burst, registers that share their low byte are equal. */
  lemma RegistersBeforeSecond(x: seq<bv8>, y: seq<bv8>, c: bv16, p: nat)
    requires p < |x| == |y| && x[..p] == y[..p] && Unconfused(x, y, c)
    ensures var r, s := Crc(Legacy, x[..p + 1], c), Crc(Legacy, y[..p + 1], c);
            Low(r) == Low(s) ==> r == s
  {
    hide Crc, Step, Index, LegacyTable, Low;
    var q := Crc(Legacy, x[..p], c);
    CrcOfPrefix(Legacy, x, p, c);
    CrcOfPrefix(Legacy, y, p, c);
    LowByteOfStep(q, x[p]);
    LowByteOfStep(q, y[p]);
    if Index(q, x[p]) == Index(q, y[p]) {
      SameIndex(q, q, x[p], y[p]);
    }
  }

  /** Where bytes of a burst differ, the messages agree up to there or only the byte before differs. */
  lemma BurstPosition(pre: seq<bv8>, u: seq<bv8>, v: seq<bv8>, post: seq<bv8>, k: nat)
    requires |u| == |v| <= 2 && k < |pre + u + post|
    ensures var x, y := pre + u + post, pre + v + post;
            x[k] != y[k] ==> x[..k] == y[..k] || (k == |pre| + 1 && x[..|pre|] == y[..|pre|])
  {}

  lemma CorruptionValues(i: bv8)
    ensures Corruption(i) == if 0x40 <= i <= 0x46 then 0x00A0
                             else if 0x47 <= i <= 0x5F then 0x00E0
                             else if 0xD7 <= i <= 0xE4 then 0x0020
                             else 0
  {}

  lemma LowByteOfShift8(x: bv8)
    ensures Low(Shift8(Top(x))) == 0x0000 <==> x == 0
    ensures Low(Shift8(Top(x))) == 0x00A0 <==> x == 0xAA
    ensures Low(Shift8(Top(x))) == 0x00E0 <==> x == 0xEE
    ensures Low(Shift8(Top(x))) == 0x0020 <==> x == 0x22
    ensures Low(Shift8(Top(x))) == 0x0040 <==> x == 0x44
    ensures Low(Shift8(Top(x))) == 0x0080 <==> x == 0x88
    ensures Low(Shift8(Top(x))) == 0x00C0 <==> x == 0xCC
  {}

  lemma TopOfXor(i: bv8, j: bv8)
    ensures Top(i ^ j) == Xor(Top(i), Top(j))
  {}

  lemma Shift8OfXor(i: bv8, j: bv8)
    ensures Shift8(Top(i ^ j)) == Xor(Shift8(Top(i)), Shift8(Top(j)))
  {
    hide Shift8, ShiftN, Top, Xor;
    TopOfXor(i, j);
    ShiftEightTimes(Top(i));
    ShiftEightTimes(Top(j));
    ShiftEightTimes(Top(i ^ j));
    ShiftNLinear(8, Top(i), Top(j));
  }

  lemma LowOfXor(a: bv16, b: bv16)
    ensures Low(Xor(a, b)) == Xor(Low(a), Low(b))
  {}

  lemma LowBytesOfSums(s: bv16, k: bv16, t: bv16, l: bv16)
    ensures Low(Xor(s, k)) == Low(Xor(t, l)) <==> Low(Xor(s, t)) == Low(Xor(k, l))
  {
    hide Xor, Low;
    LowOfXor(s, k);
    LowOfXor(t, l);
    LowOfXor(s, t);
    LowOfXor(k, l);
    XorExchangeNamed(Low(s), Low(t), Low(k), Low(l));
  }

  /** i is one of the 46 corrupted entries, and j the one whose low byte it took on. */
  predicate TookLowByteOf(i: bv8, j: bv8) {
    || (0x40 <= i <= 0x46 && j == i ^ 0xAA)
    || (0x47 <= i <= 0x5F && j == i ^ 0xEE)
    || (0xD7 <= i <= 0xE4 && j == i ^ 0x22)
  }

  lemma CorruptionsCancel(i: bv8, j: bv8)
    ensures Low(Shift8(Top(i ^ j))) == Low(Xor(Corruption(i), Corruption(j))) && i != j
            <==> TookLowByteOf(i, j) || TookLowByteOf(j, i)
  {
    hide Shift8, Top, Corruption;
    CorruptionValues(i);
    CorruptionValues(j);
    LowByteOfShift8(i ^ j);
  }

  lemma LegacyEntryIsSum(i: bv8)
    ensures LegacyTable(i) == Xor(Corruption(i), Shift8(Top(i)))
  {
    hide LegacyTable, Shift8, Top, Corruption;
    LegacyEntry(i);
  }

  /** The confusable pairs are these 46, one for each corrupted entry. */
  lemma ConfusableExactly(i: bv8, j: bv8)
    ensures Confusable(i, j) <==> TookLowByteOf(i, j) || TookLowByteOf(j, i)
  {
    hide LegacyTable, CorrectTable, Shift8, Top, Xor, Low, Corruption, TookLowByteOf;
    LegacyEntryIsSum(i);
    LegacyEntryIsSum(j);
    Shift8OfXor(i, j);
    LowBytesOfSums(Corruption(i), Shift8(Top(i)), Corruption(j), Shift8(Top(j)));
    CorruptionsCancel(i, j);
  }

  // ---------------------------------------------------------------------------
  // Errors that are missed
  // ---------------------------------------------------------------------------

  lemma LegacySteps()
    ensures Step(Legacy, 0xFFFF, 0x02) == 0xC1B2 && Step(Legacy, 0xFFFF, 0x20) == 0xC5B2
  {
    hide CorrectTable;
  }

  lemma LegacyMoreSteps()
    ensures Step(Legacy, 0xC1B2, 0x04) == 0x3BE9 && Step(Legacy, 0xC5B2, 0x00) == 0x3BE9
  {
    hide CorrectTable;
  }

  lemma CrcOfTwo(d: Dialect, a: bv8, b: bv8, c: bv16)
    ensures Crc(d, [a, b], c) == Step(d, Step(d, c, a), b)
  {
    hide Step;
    assert [a, b][1..] == [b] && [b][1..] == [];
    assert Crc(d, [a, b], c) == Crc(d, [b], Step(d, c, a));
    assert Crc(d, [b], Step(d, c, a)) == Crc(d, [], Step(d, Step(d, c, a), b));
  }

  /** Errors in two adjacent bytes that the legacy dialect misses, whatever comes behind them. */
  lemma LegacyMissesBurst(post: seq<bv8>)
    ensures Crc(Legacy, [0x02, 0x04] + post, 0xFFFF) == Crc(Legacy, [0x20, 0x00] + post, 0xFFFF)
  {
    hide Step, Crc;
    CrcOfTwo(Legacy, 0x02, 0x04, 0xFFFF);
    CrcOfTwo(Legacy, 0x20, 0x00, 0xFFFF);
    LegacySteps();
    LegacyMoreSteps();
    CrcConcat(Legacy, [0x02, 0x04], post, 0xFFFF);
    CrcConcat(Legacy, [0x20, 0x00], post, 0xFFFF);
  }

  lemma LegacyBurstSteps()
    ensures Step(Legacy, 0xFFFF, 0x23) == 0xF5D1 && Step(Legacy, 0xF5D1, 0x04) == 0x2E3E
  {
    hide CorrectTable;
  }

  lemma CorrectBurstSteps()
    ensures Step(Correct, 0xFFFF, 0x01) == 0xF1D1 && Step(Correct, 0xF1D1, 0x00) == 0x2E3E
  {
    hide LegacyTable;
  }

  /** Errors after which the legacy checksum of what arrived is the correct one of what was sent. */
  lemma TablesMissBurst(post: seq<bv8>)
    requires AvoidsCorruption(post, 0x2E3E)
    ensures Crc(Legacy, [0x23, 0x04] + post, 0xFFFF) == Crc(Correct, [0x01, 0x00] + post, 0xFFFF)
  {
    hide Step, Crc;
    CrcOfTwo(Correct, 0x01, 0x00, 0xFFFF);
    CrcOfTwo(Legacy, 0x23, 0x04, 0xFFFF);
    LegacyBurstSteps();
    CorrectBurstSteps();
    CrcConcat(Correct, [0x01, 0x00], post, 0xFFFF);
    CrcConcat(Legacy, [0x23, 0x04], post, 0xFFFF);
    DialectsAgree(post, 0x2E3E);
  }

  lemma LengthStep()
    ensures Step(Correct, 0x2E3E, 0) == 0xFBAC
  {
    hide LegacyTable;
  }

  /** For instance a frame without payload, whose length field is two zero bytes. */
  lemma EmptyLengthAvoidsCorruption()
    ensures AvoidsCorruption([0x00, 0x00], 0x2E3E)
  {
    hide Step;
    LengthStep();
    assert [0x00 as bv8, 0x00][1..] == [0x00] && [0x00 as bv8][1..] == [];
    assert !Corrupted(Index(0x2E3E, 0)) && !Corrupted(Index(0xFBAC, 0));
  }
}
