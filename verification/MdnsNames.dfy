// mdns_discovery.cpp: the DNS name reader with its compression pointers, and the builder of the
// query whose question holds a name (RFC 1035, sections 3.1, 4.1.2 and 4.1.4).

module MdnsNames {
  import opened Bytes

  const MAX_JUMPS := 10
  const DOT: byte := 0x2E
  const HEADER_LENGTH := 12

  /** A length byte with its two top bits set starts a pointer; any other non-zero one starts a label. */
  predicate IsPointer(len: byte) {
    len >= 0xC0
  }

  function Target(data: seq<byte>, offset: nat): nat
    requires offset + 1 < |data|
  {
    var high: nat := data[offset] % 0x40;
    high * 0x100 + data[offset + 1]
  }

  /** The labels that the reader collects from an offset on, after `jumps` pointers. */
  function Labels(data: seq<byte>, offset: nat, jumps: nat): seq<seq<byte>>
    decreases MAX_JUMPS - jumps, |data| - offset
  {
    if offset >= |data| || jumps >= MAX_JUMPS || data[offset] == 0 then []
    else if IsPointer(data[offset]) then
      if offset + 1 >= |data| then [] else Labels(data, Target(data, offset), jumps + 1)
    else
      var end := offset + 1 + data[offset];
      if end > |data| then [] else [data[offset + 1..end]] + Labels(data, end, jumps)
  }

  /** Where the reader leaves the offset: it is the first pointer, if any, that counts. */
  function Stop(data: seq<byte>, offset: nat): (r: nat)
    ensures offset <= r && (offset <= |data| ==> r <= |data|)
    decreases |data| - offset
  {
    if offset >= |data| then offset
    else if data[offset] == 0 then offset + 1
    else if IsPointer(data[offset]) then if offset + 1 >= |data| then offset else offset + 2
    else
      var end := offset + 1 + data[offset];
      if end > |data| then offset + 1 else Stop(data, end)
  }

  function Extend(name: seq<byte>, part: seq<byte>): seq<byte> {
    if name == [] then part else name + [DOT] + part
  }

  function JoinOnto(name: seq<byte>, parts: seq<seq<byte>>): seq<byte>
    decreases |parts|
  {
    if parts == [] then name else JoinOnto(Extend(name, parts[0]), parts[1..])
  }

  /** For every byte string and offset the reader ends, in bounds, with this name and this offset. */
  method ReadDnsName(data: seq<byte>, start: nat) returns (name: seq<byte>, offset: nat)
    ensures name == JoinOnto([], Labels(data, start, 0))
    ensures offset == Stop(data, start)
    ensures start <= |data| ==> start <= offset <= |data|
  {
    hide Extend, Labels, Stop;
    name := [];
    offset := start;
    var jumps := 0;
    var savedOffset := -1;
    while offset < |data| && jumps < MAX_JUMPS
      invariant 0 <= jumps <= MAX_JUMPS
      invariant JoinOnto(name, Labels(data, offset, jumps)) == JoinOnto([], Labels(data, start, 0))
      invariant if savedOffset < 0 then jumps == 0 && Stop(data, offset) == Stop(data, start)
                else savedOffset == Stop(data, start)
      decreases MAX_JUMPS - jumps, |data| - offset
    {
      var len := data[offset];
      if len == 0 {
        ReadingEnds(data, offset, jumps);
        offset := offset + 1;
        break;
      }
      if IsPointer(len) {
        if offset + 1 >= |data| {
          ReadingEnds(data, offset, jumps);
          break;
        }
        if savedOffset < 0 {
          savedOffset := offset + 2;
        }
        var high: nat := len % 0x40;
        PointerStep(data, offset, jumps);
        offset := high * 0x100 + data[offset + 1];
        jumps := jumps + 1;
        continue;
      }
      if offset + 1 + len > |data| {
        ReadingEnds(data, offset, jumps);
      } else {
        LabelStep(data, offset, jumps);
      }
      offset := offset + 1;
      if offset + len > |data| {
        break;
      }
      var part := data[offset..offset + len];
      ghost var labels := Labels(data, offset + len, jumps);
      assert ([part] + labels)[1..] == labels;
      name := Extend(name, part);
      offset := offset + len;
    }
    if offset >= |data| || jumps >= MAX_JUMPS {
      NothingMore(data, offset, jumps);
    }
    if savedOffset >= 0 {
      offset := savedOffset;
    }
  }

  lemma LabelStep(data: seq<byte>, offset: nat, jumps: nat)
    requires offset < |data| && jumps < MAX_JUMPS && 0 < data[offset] < 0xC0
    requires offset + 1 + data[offset] <= |data|
    ensures var end := offset + 1 + data[offset];
            && Labels(data, offset, jumps) == [data[offset + 1..end]] + Labels(data, end, jumps)
            && Stop(data, offset) == Stop(data, end)
  {}

  lemma PointerStep(data: seq<byte>, offset: nat, jumps: nat)
    requires offset + 1 < |data| && jumps < MAX_JUMPS && IsPointer(data[offset])
    ensures Labels(data, offset, jumps) == Labels(data, Target(data, offset), jumps + 1)
    ensures Stop(data, offset) == offset + 2
  {}

  /** A root label, a cut pointer and a cut label end the name. */
  lemma ReadingEnds(data: seq<byte>, offset: nat, jumps: nat)
    requires offset < |data| && jumps < MAX_JUMPS
    requires data[offset] == 0 || (IsPointer(data[offset]) && offset + 1 >= |data|)
          || (!IsPointer(data[offset]) && offset + 1 + data[offset] > |data|)
    ensures Labels(data, offset, jumps) == []
    ensures Stop(data, offset) == if IsPointer(data[offset]) then offset else offset + 1
  {}

  lemma NothingMore(data: seq<byte>, offset: nat, jumps: nat)
    requires offset >= |data| || jumps >= MAX_JUMPS
    ensures Labels(data, offset, jumps) == []
    ensures offset >= |data| ==> Stop(data, offset) == offset
  {}

  // ---------------------------------------------------------------------------
  // Well-formed names
  // ---------------------------------------------------------------------------

  datatype Hop = Label(text: seq<byte>) | Jump(target: nat)

  /**
   * These labels and pointers, in this order, lead from the offset to a root label. A pointer is two
   * set bits and a fourteen-bit offset, high byte first (section 4.1.4 of RFC 1035).
   */
  predicate Spells(data: seq<byte>, offset: nat, hops: seq<Hop>)
    decreases |hops|
  {
    offset < |data| &&
    if hops == [] then data[offset] == 0
    else
      match hops[0]
      case Label(text) =>
        && 0 < |text| < 0xC0 && data[offset] == |text|
        && offset + 1 + |text| <= |data| && data[offset + 1..offset + 1 + |text|] == text
        && Spells(data, offset + 1 + |text|, hops[1..])
      case Jump(target) =>
        && target < 0x4000 && offset + 1 < |data|
        && data[offset] as int == 0xC0 + target / 0x100 && data[offset + 1] as int == target % 0x100
        && Spells(data, target, hops[1..])
  }

  function Texts(hops: seq<Hop>): seq<seq<byte>> {
    if hops == [] then []
    else if hops[0].Label? then [hops[0].text] + Texts(hops[1..])
    else Texts(hops[1..])
  }

  function Jumps(hops: seq<Hop>): nat {
    if hops == [] then 0 else (if hops[0].Jump? then 1 else 0) + Jumps(hops[1..])
  }

  /** What comes behind the n-th pointer. */
  function BehindJump(hops: seq<Hop>, n: nat): seq<Hop> {
    if hops == [] || n == 0 then hops
    else BehindJump(hops[1..], if hops[0].Jump? then n - 1 else n)
  }

  /** The texts before the n-th pointer. */
  function TextsUpToJump(hops: seq<Hop>, n: nat): seq<seq<byte>> {
    if hops == [] || n == 0 then []
    else if hops[0].Label? then [hops[0].text] + TextsUpToJump(hops[1..], n)
    else TextsUpToJump(hops[1..], n - 1)
  }

  /** Just past the first pointer, or past the root label if there is none. */
  function EndOfName(offset: nat, hops: seq<Hop>): nat
    decreases |hops|
  {
    if hops == [] then offset + 1
    else if hops[0].Jump? then offset + 2
    else EndOfName(offset + 1 + |hops[0].text|, hops[1..])
  }

  /** The reader takes two bytes for a pointer exactly when they are one, and finds its target. */
  lemma PointerRead(data: seq<byte>, offset: nat, target: nat)
    requires offset + 1 < |data|
    ensures IsPointer(data[offset]) && Target(data, offset) == target
            <==> target < 0x4000 && data[offset] as int == 0xC0 + target / 0x100
                 && data[offset + 1] as int == target % 0x100
  {}

  lemma {:induction false} ReaderFollows(data: seq<byte>, offset: nat, hops: seq<Hop>, jumps: nat)
    requires Spells(data, offset, hops) && jumps <= MAX_JUMPS
    ensures Labels(data, offset, jumps) == TextsUpToJump(hops, MAX_JUMPS - jumps)
    ensures Stop(data, offset) == EndOfName(offset, hops)
    decreases |hops|
  {
    hide IsPointer, Target;
    if hops != [] {
      match hops[0]
      case Label(text) =>
        LabelIsNoPointer(data[offset]);
        ReaderFollows(data, offset + 1 + |text|, hops[1..], jumps);
      case Jump(target) =>
        PointerRead(data, offset, target);
        if jumps < MAX_JUMPS {
          ReaderFollows(data, target, hops[1..], jumps + 1);
        }
    }
  }

  lemma LabelIsNoPointer(len: byte)
    ensures IsPointer(len) <==> len >= 0xC0
  {}

  lemma {:induction false} TextsSplit(hops: seq<Hop>, n: nat)
    ensures Texts(hops) == TextsUpToJump(hops, n) + Texts(BehindJump(hops, n))
  {
    if hops != [] && n > 0 {
      TextsSplit(hops[1..], if hops[0].Jump? then n - 1 else n);
    }
  }

  lemma {:induction false} FewJumpsNothingBehind(hops: seq<Hop>, n: nat)
    requires Jumps(hops) < n
    ensures BehindJump(hops, n) == []
  {
    if hops != [] {
      FewJumpsNothingBehind(hops[1..], if hops[0].Jump? then n - 1 else n);
    }
  }

  /**
   * For a well-formed name the reader ends just past the first pointer or the root label, and it
   * has read every label exactly when no label lies behind the tenth pointer.
   */
  lemma NameReadExactly(data: seq<byte>, offset: nat, hops: seq<Hop>)
    requires Spells(data, offset, hops)
    ensures Labels(data, offset, 0) == Texts(hops) <==> Texts(BehindJump(hops, MAX_JUMPS)) == []
    ensures Stop(data, offset) == EndOfName(offset, hops)
  {
    ReaderFollows(data, offset, hops, 0);
    TextsSplit(hops, MAX_JUMPS);
    var before, behind := TextsUpToJump(hops, MAX_JUMPS), Texts(BehindJump(hops, MAX_JUMPS));
    assert |before + behind| == |before| + |behind|;
  }

  /** In particular, up to nine pointers are followed to the end. */
  lemma NinePointersFollowed(data: seq<byte>, offset: nat, hops: seq<Hop>)
    requires Spells(data, offset, hops) && Jumps(hops) <= 9
    ensures Labels(data, offset, 0) == Texts(hops)
  {
    NameReadExactly(data, offset, hops);
    FewJumpsNothingBehind(hops, MAX_JUMPS);
  }

  // ---------------------------------------------------------------------------
  // The query
  // ---------------------------------------------------------------------------

  function FirstDot(s: seq<byte>): (n: nat)
    ensures n <= |s| && DOT !in s[..n] && (n < |s| ==> s[n] == DOT)
  {
    if s == [] || s[0] == DOT then 0
    else
      var n := 1 + FirstDot(s[1..]);
      assert s[..n] == [s[0]] + s[1..][..n - 1];
      n
  }

  function SplitDots(s: seq<byte>): (r: seq<seq<byte>>)
    ensures |r| >= 1
    ensures forall k :: 0 <= k < |r| ==> DOT !in r[k]
    decreases |s|
  {
    var n := FirstDot(s);
    if n == |s| then assert s[..n] == s; [s] else [s[..n]] + SplitDots(s[n + 1..])
  }

  function EncodeLabels(parts: seq<seq<byte>>): seq<byte> {
    if parts == [] then [] else [|parts[0]| % 0x100] + parts[0] + EncodeLabels(parts[1..])
  }

  const QUERY_HEADER: seq<byte> := [0, 0, 0, 0, 0, 1, 0, 0, 0, 0, 0, 0]
  const QUERY_TRAILER: seq<byte> := [0, 12, 0, 1]

  function Query(service: seq<byte>): seq<byte> {
    QUERY_HEADER + EncodeLabels(SplitDots(service)) + [0] + QUERY_TRAILER
  }

  method BuildMdnsQuery(service: seq<byte>) returns (packet: seq<byte>)
    ensures packet == Query(service)
  {
    packet := QUERY_HEADER;
    var parts := SplitDots(service);
    for i := 0 to |parts|
      invariant packet + EncodeLabels(parts[i..]) == QUERY_HEADER + EncodeLabels(parts)
    {
      assert parts[i..][1..] == parts[i + 1..];
      var part := parts[i];
      ghost var rest := EncodeLabels(parts[i + 1..]);
      assert packet + ([|part| % 0x100] + part + rest) == packet + [|part| % 0x100] + part + rest;
      packet := packet + [|part| % 0x100];
      packet := packet + part;
    }
    packet := packet + [0];
    packet := packet + QUERY_TRAILER;
  }

  predicate Readable(part: seq<byte>) {
    0 < |part| < 0xC0
  }

  function Hops(parts: seq<seq<byte>>): seq<Hop> {
    if parts == [] then [] else [Label(parts[0])] + Hops(parts[1..])
  }

  /** A sixteen-bit field of a packet, high byte first. */
  function FieldAt(packet: seq<byte>, offset: nat): int
    requires offset + 1 < |packet|
  {
    0x100 * (packet[offset] as int) + packet[offset + 1] as int
  }

  /**
   * A query is a standard one with a single question: for a pointer record (12) of the Internet class
   * (1), behind the root label (sections 4.1.1 and 4.1.2 of RFC 1035).
   */
  lemma QueryAsksOnce(service: seq<byte>)
    ensures var q := Query(service);
            && |q| >= 17
            && FieldAt(q, 0) == 0 && FieldAt(q, 2) == 0
            && FieldAt(q, 4) == 1 && FieldAt(q, 6) == 0 && FieldAt(q, 8) == 0 && FieldAt(q, 10) == 0
            && q[|q| - 5] == 0 && FieldAt(q, |q| - 4) == 12 && FieldAt(q, |q| - 2) == 1
  {
    hide EncodeLabels, SplitDots;
  }

  lemma {:induction false} HopsAreLabels(parts: seq<seq<byte>>)
    ensures Texts(Hops(parts)) == parts && Jumps(Hops(parts)) == 0
  {
    if parts != [] {
      HopsAreLabels(parts[1..]);
    }
  }

  lemma FirstLabelAt(before: seq<byte>, part: seq<byte>, after: seq<byte>)
    requires Readable(part)
    ensures var data := before + ([|part| % 0x100] + part) + after;
            && data[|before|] == |part|
            && data[|before| + 1..|before| + 1 + |part|] == part
  {}

  lemma FirstLabelOf(data: seq<byte>, offset: nat, part: seq<byte>, after: seq<byte>)
    requires offset <= |data| && data[offset..] == [|part| % 0x100] + part + after && Readable(part)
    ensures offset + 1 + |part| <= |data| && data[offset] == |part|
    ensures data[offset + 1..offset + 1 + |part|] == part && data[offset + 1 + |part|..] == after
  {
    var t := data[offset..];
    assert data[offset] == t[0];
    assert data[offset + 1..offset + 1 + |part|] == t[1..1 + |part|];
    assert data[offset + 1 + |part|..] == t[1 + |part|..];
  }

  lemma {:induction false} EncodedLabelsSpell(data: seq<byte>, offset: nat, parts: seq<seq<byte>>, after: seq<byte>)
    requires forall k :: 0 <= k < |parts| ==> Readable(parts[k])
    requires offset <= |data| && data[offset..] == EncodeLabels(parts) + [0] + after
    ensures Spells(data, offset, Hops(parts)) && EndOfName(offset, Hops(parts)) == |data| - |after|
    decreases |parts|
  {
    hide EncodeLabels, Spells, EndOfName, Hops;
    EncodedHead(parts, [0] + after);
    assert EncodeLabels(parts) + [0] + after == EncodeLabels(parts) + ([0] + after);
    if parts == [] {
      assert data[offset] == data[offset..][0];
      RootSpells(data, offset);
    } else {
      FirstLabelOf(data, offset, parts[0], EncodeLabels(parts[1..]) + ([0] + after));
      assert EncodeLabels(parts[1..]) + [0] + after == EncodeLabels(parts[1..]) + ([0] + after);
      EncodedLabelsSpell(data, offset + 1 + |parts[0]|, parts[1..], after);
      LabelSpells(data, offset, parts);
    }
  }

  lemma RootSpells(data: seq<byte>, offset: nat)
    requires offset < |data| && data[offset] == 0
    ensures Spells(data, offset, Hops([])) && EndOfName(offset, Hops([])) == offset + 1
  {}

  lemma LabelSpells(data: seq<byte>, offset: nat, parts: seq<seq<byte>>)
    requires parts != [] && Readable(parts[0])
    requires var end := offset + 1 + |parts[0]|;
             end <= |data| && data[offset] == |parts[0]| && data[offset + 1..end] == parts[0]
             && Spells(data, end, Hops(parts[1..]))
    ensures Spells(data, offset, Hops(parts))
    ensures EndOfName(offset, Hops(parts)) == EndOfName(offset + 1 + |parts[0]|, Hops(parts[1..]))
  {
    assert Hops(parts)[1..] == Hops(parts[1..]);
  }

  lemma EncodedHead(parts: seq<seq<byte>>, after: seq<byte>)
    ensures parts == [] ==> EncodeLabels(parts) + after == after
    ensures parts != [] ==>
              EncodeLabels(parts) + after == [|parts[0]| % 0x100] + parts[0] + (EncodeLabels(parts[1..]) + after)
  {}

  /** The reader's join agrees with joining by dots when no part is empty. */
  function JoinDots(parts: seq<seq<byte>>): seq<byte> {
    if parts == [] then [] else if |parts| == 1 then parts[0] else parts[0] + [DOT] + JoinDots(parts[1..])
  }

  lemma {:induction false} SplitThenJoin(s: seq<byte>)
    ensures JoinDots(SplitDots(s)) == s
    decreases |s|
  {
    var n := FirstDot(s);
    if n < |s| {
      SplitThenJoin(s[n + 1..]);
      assert SplitDots(s)[1..] == SplitDots(s[n + 1..]);
      assert s == s[..n] + [DOT] + s[n + 1..];
    }
  }

  lemma {:induction false} JoinOntoIsJoinDots(name: seq<byte>, parts: seq<seq<byte>>)
    requires parts != [] && forall k :: 0 <= k < |parts| ==> parts[k] != []
    ensures JoinOnto(name, parts) == Extend(name, JoinDots(parts))
    decreases |parts|
  {
    if |parts| == 1 {
      assert parts[1..] == [];
    } else {
      JoinOntoIsJoinDots(Extend(name, parts[0]), parts[1..]);
      var d := [DOT];
      if name != [] {
        assert name + d + parts[0] + d + JoinDots(parts[1..]) == name + d + (parts[0] + d + JoinDots(parts[1..]));
      }
    }
  }

  /** Reading back the question of a query whose labels all have 1 to 191 bytes. */
  lemma QueryReadsBack(service: seq<byte>)
    requires forall k :: 0 <= k < |SplitDots(service)| ==> Readable(SplitDots(service)[k])
    ensures JoinOnto([], Labels(Query(service), HEADER_LENGTH, 0)) == service
    ensures Stop(Query(service), HEADER_LENGTH) == |Query(service)| - 4
  {
    var parts := SplitDots(service);
    assert Query(service)[HEADER_LENGTH..] == EncodeLabels(parts) + [0] + QUERY_TRAILER;
    EncodedLabelsSpell(Query(service), HEADER_LENGTH, parts, QUERY_TRAILER);
    HopsAreLabels(parts);
    NinePointersFollowed(Query(service), HEADER_LENGTH, Hops(parts));
    ReaderFollows(Query(service), HEADER_LENGTH, Hops(parts), 0);
    JoinOntoIsJoinDots([], parts);
    SplitThenJoin(service);
  }

  // ---------------------------------------------------------------------------
  // Which queries read back
  // ---------------------------------------------------------------------------

  lemma {:induction false} JoinOntoAppend(name: seq<byte>, a: seq<seq<byte>>, b: seq<seq<byte>>)
    ensures JoinOnto(name, a + b) == JoinOnto(JoinOnto(name, a), b)
    decreases |a|
  {
    if a == [] {
      assert a + b == b;
    } else {
      assert (a + b)[1..] == a[1..] + b;
      JoinOntoAppend(Extend(name, a[0]), a[1..], b);
    }
  }

  /** Further parts only add to a non-empty name, and what they add begins with a dot. */
  lemma {:induction false} JoinOntoExtends(name: seq<byte>, parts: seq<seq<byte>>)
    requires name != []
    ensures name <= JoinOnto(name, parts)
    ensures |JoinOnto(name, parts)| > |name| ==> JoinOnto(name, parts)[|name|] == DOT
    decreases |parts|
  {
    if parts != [] {
      JoinOntoExtends(Extend(name, parts[0]), parts[1..]);
    }
  }

  lemma {:induction false} JoinDotsPrefix(a: seq<seq<byte>>, b: seq<seq<byte>>)
    requires a != []
    ensures JoinDots(a) <= JoinDots(a + b)
    decreases |a|
  {
    if b == [] {
      assert a + b == a;
    } else if |a| > 1 {
      assert (a + b)[1..] == a[1..] + b;
      JoinDotsPrefix(a[1..], b);
    }
  }

  /** A part that is cut short in the middle of a name makes a different name. */
  lemma CutPartChangesName(parts: seq<seq<byte>>, part: seq<byte>, m: nat, more: seq<seq<byte>>, rest: seq<seq<byte>>)
    requires forall k :: 0 <= k < |parts| ==> parts[k] != []
    requires 0 < m < |part| && DOT !in part
    ensures JoinOnto([], parts + [part[..m]] + more) != JoinDots(parts + [part] + rest)
  {
    hide JoinOnto, JoinDots;
    var name := JoinOnto([], parts);
    var cut, whole := Extend(name, part[..m]), Extend(name, part);
    JoinOntoAppend([], parts + [part[..m]], more);
    JoinOntoAppend([], parts, [part[..m]]);
    JoinOntoAppend([], parts, [part]);
    JoinOntoOne(name, part[..m]);
    JoinOntoOne(name, part);
    JoinOntoExtends(cut, more);
    JoinOntoIsJoinDots([], parts + [part]);
    JoinDotsPrefix(parts + [part], rest);
    assert whole[|cut|] == part[m];
  }

  lemma JoinOntoOne(name: seq<byte>, part: seq<byte>)
    ensures JoinOnto(name, [part]) == Extend(name, part)
  {
    assert JoinOnto(name, [part]) == JoinOnto(Extend(name, part), [part][1..]);
  }

  lemma {:induction false} ReadableLabelsRead(before: seq<byte>, parts: seq<seq<byte>>, after: seq<byte>)
    requires forall k :: 0 <= k < |parts| ==> Readable(parts[k])
    ensures var data := before + EncodeLabels(parts) + after;
            var offset := |before + EncodeLabels(parts)|;
            && Labels(data, |before|, 0) == parts + Labels(data, offset, 0)
            && Stop(data, |before|) == Stop(data, offset)
    decreases |parts|
  {
    hide Labels, Stop;
    var data := before + EncodeLabels(parts) + after;
    if parts != [] {
      var first := [|parts[0]| % 0x100] + parts[0];
      var rest := EncodeLabels(parts[1..]) + after;
      assert data == before + first + rest;
      assert data == (before + first) + EncodeLabels(parts[1..]) + after;
      ReadableLabelsRead(before + first, parts[1..], after);
      FirstLabelAt(before, parts[0], rest);
      LabelStep(data, |before|, 0);
      assert before + EncodeLabels(parts) == (before + first) + EncodeLabels(parts[1..]);
      var l := Labels(data, |before + EncodeLabels(parts)|, 0);
      assert [parts[0]] + (parts[1..] + l) == parts + l;
    }
  }

  /** At a label that is empty or longer than 191 bytes, the reader stops early or cuts the label. */
  lemma UnreadableLabel(before: seq<byte>, part: seq<byte>, after: seq<byte>)
    requires !Readable(part) && |after| >= 5
    ensures var data := before + ([|part| % 0x100] + part) + after;
            var m := |part| % 0x100;
            || Stop(data, |before|) < |data| - 4
            || (0 < m < |part| && exists more :: Labels(data, |before|, 0) == [part[..m]] + more)
  {
    var data := before + ([|part| % 0x100] + part) + after;
    var m := |part| % 0x100;
    var o := |before|;
    assert data[o] == m;
    if m != 0 && !IsPointer(m) {
      assert |part| >= 0x100;
      LabelStep(data, o, 0);
      assert data[o + 1..o + 1 + m] == part[..m];
      assert Labels(data, o, 0) == [part[..m]] + Labels(data, o + 1 + m, 0);
    }
  }

  lemma {:induction false} FirstUnreadable(parts: seq<seq<byte>>) returns (j: nat)
    requires exists k :: 0 <= k < |parts| && !Readable(parts[k])
    ensures j < |parts| && !Readable(parts[j]) && forall k :: 0 <= k < j ==> Readable(parts[k])
    decreases |parts|
  {
    if !Readable(parts[0]) {
      j := 0;
    } else {
      var k :| 0 <= k < |parts| && !Readable(parts[k]);
      assert parts[1..][k - 1] == parts[k];
      var i := FirstUnreadable(parts[1..]);
      j := i + 1;
      forall k | 0 <= k < j ensures Readable(parts[k]) {
        if k > 0 {
          assert parts[1..][k - 1] == parts[k];
        }
      }
    }
  }

  lemma {:induction false} EncodeLabelsAppend(a: seq<seq<byte>>, b: seq<seq<byte>>)
    ensures EncodeLabels(a + b) == EncodeLabels(a) + EncodeLabels(b)
    decreases |a|
  {
    if a == [] {
      assert a + b == b;
    } else {
      assert (a + b)[1..] == a[1..] + b;
      EncodeLabelsAppend(a[1..], b);
    }
  }

  lemma EncodedAround(good: seq<seq<byte>>, bad: seq<byte>, rest: seq<seq<byte>>)
    ensures EncodeLabels(good + [bad] + rest)
         == EncodeLabels(good) + ([|bad| % 0x100] + bad) + EncodeLabels(rest)
  {
    assert good + [bad] + rest == good + ([bad] + rest);
    EncodeLabelsAppend(good, [bad] + rest);
    assert ([bad] + rest)[1..] == rest;
    var first := [|bad| % 0x100] + bad;
    assert EncodeLabels(good) + (first + EncodeLabels(rest)) == EncodeLabels(good) + first + EncodeLabels(rest);
  }

  /** A question with an unreadable label does not read back. */
  lemma UnreadableQuestion(good: seq<seq<byte>>, bad: seq<byte>, rest: seq<seq<byte>>, data: seq<byte>)
    requires forall k :: 0 <= k < |good| ==> Readable(good[k])
    requires !Readable(bad) && DOT !in bad
    requires data == QUERY_HEADER + EncodeLabels(good + [bad] + rest) + [0] + QUERY_TRAILER
    ensures Stop(data, HEADER_LENGTH) < |data| - 4
         || JoinOnto([], Labels(data, HEADER_LENGTH, 0)) != JoinDots(good + [bad] + rest)
  {
    hide Labels, Stop, JoinOnto, JoinDots, EncodeLabels, Readable;
    var first := [|bad| % 0x100] + bad;
    var tail := EncodeLabels(rest) + [0] + QUERY_TRAILER;
    var before := QUERY_HEADER + EncodeLabels(good);
    EncodedAround(good, bad, rest);
    assert data == before + first + tail;
    assert data == QUERY_HEADER + EncodeLabels(good) + (first + tail);
    ReadableLabelsRead(QUERY_HEADER, good, first + tail);
    UnreadableLabel(before, bad, tail);
    if Stop(data, HEADER_LENGTH) >= |data| - 4 {
      var m := |bad| % 0x100;
      var more :| Labels(data, |before|, 0) == [bad[..m]] + more;
      assert good + ([bad[..m]] + more) == good + [bad[..m]] + more;
      ReadableNotEmpty(good);
      CutPartChangesName(good, bad, m, more, rest);
    }
  }

  lemma ReadableNotEmpty(parts: seq<seq<byte>>)
    requires forall k :: 0 <= k < |parts| ==> Readable(parts[k])
    ensures forall k :: 0 <= k < |parts| ==> parts[k] != []
  {}

  lemma UnreadableQuery(service: seq<byte>)
    requires exists k :: 0 <= k < |SplitDots(service)| && !Readable(SplitDots(service)[k])
    ensures Stop(Query(service), HEADER_LENGTH) < |Query(service)| - 4
         || JoinOnto([], Labels(Query(service), HEADER_LENGTH, 0)) != service
  {
    hide Labels, Stop, JoinOnto, JoinDots, SplitDots, EncodeLabels, Readable;
    var parts := SplitDots(service);
    var j := FirstUnreadable(parts);
    assert parts == parts[..j] + [parts[j]] + parts[j + 1..];
    UnreadableQuestion(parts[..j], parts[j], parts[j + 1..], Query(service));
    SplitThenJoin(service);
  }

  /**
   * The question of a query reads back, name and end, exactly when each of its labels has 1 to 191
   * bytes; section 2.3.4 of RFC 1035 allows 63.
   */
  lemma QueryReadsBackExactly(service: seq<byte>)
    ensures JoinOnto([], Labels(Query(service), HEADER_LENGTH, 0)) == service
              && Stop(Query(service), HEADER_LENGTH) == |Query(service)| - 4
            <==> forall k :: 0 <= k < |SplitDots(service)| ==> Readable(SplitDots(service)[k])
  {
    hide Labels, Stop, JoinOnto, Query, SplitDots, Readable;
    if forall k :: 0 <= k < |SplitDots(service)| ==> Readable(SplitDots(service)[k]) {
      QueryReadsBack(service);
    } else {
      UnreadableQuery(service);
    }
  }
}
