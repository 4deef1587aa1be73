// Parsing a FILE_LIST response (m1_device.cpp, handleFileListResp) and the layout it undoes.

module FileList {
  import opened Bytes

  /** An entry as the device packs it; the name ends with a NUL on the wire. */
  datatype RawEntry = RawEntry(isDir: byte, size: uint32, date: uint16, time: uint16, name: seq<byte>)

  /** An entry as it is reported: the size went through a signed 32-bit integer. */
  datatype FileEntry = FileEntry(isDir: bool, size: int, name: seq<byte>)

  datatype Listing = Listing(path: seq<byte>, entries: seq<FileEntry>)

  predicate NulFree(s: seq<byte>) {
    forall k :: 0 <= k < |s| ==> s[k] != 0
  }

  predicate NulFreeBetween(data: seq<byte>, from: nat, to: nat)
    requires to <= |data|
  {
    forall k :: from <= k < to ==> data[k] != 0
  }

  /** The end of the NUL-terminated string that starts at `from`, or the end of the data. */
  function StringEnd(data: seq<byte>, from: nat): (n: nat)
    requires from <= |data|
    ensures from <= n <= |data| && NulFreeBetween(data, from, n) && (n < |data| ==> data[n] == 0)
    decreases |data| - from
  {
    if from == |data| || data[from] == 0 then from else StringEnd(data, from + 1)
  }

  function EntryAt(data: seq<byte>, offset: nat): FileEntry
    requires offset + 9 < |data|
  {
    var size := FromLE32(data[offset + 1], data[offset + 2], data[offset + 3], data[offset + 4]);
    FileEntry(data[offset] != 0, AsInt32(size), data[offset + 9..StringEnd(data, offset + 9)])
  }

  /** The entries from an offset on; fewer than ten remaining bytes are no entry. */
  function EntriesFrom(data: seq<byte>, offset: nat): (r: seq<FileEntry>)
    ensures offset <= |data| ==> 10 * |r| <= |data| - offset + 1
    ensures offset > |data| ==> r == []
    decreases |data| + 1 - offset
  {
    if offset + 9 >= |data| then []
    else [EntryAt(data, offset)] + EntriesFrom(data, StringEnd(data, offset + 9) + 1)
  }

  function Parse(payload: seq<byte>): Option<Listing> {
    if payload == [] then None
    else
      var end := StringEnd(payload, 0);
      Some(Listing(payload[..end], EntriesFrom(payload, end + 1)))
  }

  /** No payload makes the loop read out of bounds, run on, or report more entries than can fit. */
  method HandleFileListResp(payload: seq<byte>) returns (r: Option<Listing>)
    ensures r == Parse(payload)
    ensures r.Some? ==> 10 * |r.value.entries| <= |payload|
  {
    hide EntriesFrom, StringEnd, FromLE32, AsInt32;
    var remaining := |payload|;
    if remaining < 1 {
      return None;
    }
    var pathEnd := 0;
    while pathEnd < remaining && payload[pathEnd] != 0
      invariant 0 <= pathEnd <= remaining
      invariant NulFreeBetween(payload, 0, pathEnd)
    {
      pathEnd := pathEnd + 1;
    }
    StringEndIs(payload, 0, pathEnd);
    var path := payload[..pathEnd];
    var offset := pathEnd + 1;
    var entries: seq<FileEntry> := [];
    while offset + 9 < remaining
      invariant 0 <= offset <= remaining + 1
      invariant entries + EntriesFrom(payload, offset) == EntriesFrom(payload, pathEnd + 1)
      decreases remaining - offset
    {
      ghost var start := offset;
      var isDir := payload[offset] != 0;
      var fsize := FromLE32(payload[offset + 1], payload[offset + 2], payload[offset + 3], payload[offset + 4]);
      offset := offset + 9;
      var nameStart := offset;
      while offset < remaining && payload[offset] != 0
        invariant nameStart <= offset <= remaining
        invariant NulFreeBetween(payload, nameStart, offset)
      {
        offset := offset + 1;
      }
      StringEndIs(payload, nameStart, offset);
      var name := payload[nameStart..offset];
      offset := offset + 1;
      MoreEntries(payload, start);
      var entry := FileEntry(isDir, AsInt32(fsize), name);
      ghost var later := EntriesFrom(payload, offset);
      assert (entries + [entry]) + later == entries + ([entry] + later);
      entries := entries + [entry];
    }
    NoMoreEntries(payload, offset);
    assert entries + [] == entries;
    r := Some(Listing(path, entries));
  }

  lemma MoreEntries(data: seq<byte>, offset: nat)
    requires offset + 9 < |data|
    ensures EntriesFrom(data, offset) == [EntryAt(data, offset)] + EntriesFrom(data, StringEnd(data, offset + 9) + 1)
  {
    hide EntryAt, StringEnd;
  }

  lemma NoMoreEntries(data: seq<byte>, offset: nat)
    requires offset + 9 >= |data|
    ensures EntriesFrom(data, offset) == []
  {}

  lemma {:induction false} StringEndIs(data: seq<byte>, from: nat, n: nat)
    requires from <= n <= |data| && NulFreeBetween(data, from, n) && (n < |data| ==> data[n] == 0)
    ensures StringEnd(data, from) == n
    decreases n - from
  {
    if from < n {
      StringEndIs(data, from + 1, n);
    }
  }

  // ---------------------------------------------------------------------------
  // The documented layout
  // ---------------------------------------------------------------------------

  function EncodeEntry(e: RawEntry): (r: seq<byte>)
    ensures |r| == 10 + |e.name|
  {
    [e.isDir] + LE32(e.size) + LE16(e.date) + LE16(e.time) + e.name + [0]
  }

  function EncodeEntries(es: seq<RawEntry>): seq<byte> {
    if es == [] then [] else EncodeEntry(es[0]) + EncodeEntries(es[1..])
  }

  function Encode(path: seq<byte>, es: seq<RawEntry>): seq<byte> {
    path + [0] + EncodeEntries(es)
  }

  /** What the device means. */
  function Meant(e: RawEntry): FileEntry {
    FileEntry(e.isDir != 0, e.size, e.name)
  }

  /** What the host makes of it. */
  function Seen(e: RawEntry): FileEntry {
    FileEntry(e.isDir != 0, AsInt32(e.size), e.name)
  }

  function MeantAll(es: seq<RawEntry>): seq<FileEntry> {
    if es == [] then [] else [Meant(es[0])] + MeantAll(es[1..])
  }

  function SeenAll(es: seq<RawEntry>): seq<FileEntry> {
    if es == [] then [] else [Seen(es[0])] + SeenAll(es[1..])
  }

  /** An encoded entry in the data is seen, and the next offset is just past it. */
  lemma EncodedEntryAt(data: seq<byte>, o: nat, e: RawEntry)
    requires NulFree(e.name) && o + 10 + |e.name| <= |data| && data[o..o + 10 + |e.name|] == EncodeEntry(e)
    ensures EntryAt(data, o) == Seen(e) && StringEnd(data, o + 9) + 1 == o + 10 + |e.name|
  {
    hide EncodeEntry, LE32, FromLE32, AsInt32, StringEnd;
    var n := |e.name|;
    var bytes := data[o..o + 10 + n];
    FixedPart(e);
    LE32RoundTrip(e.size);
    assert data[o] == bytes[0] && data[o + 1] == bytes[1] && data[o + 2] == bytes[2];
    assert data[o + 3] == bytes[3] && data[o + 4] == bytes[4] && data[o + 9 + n] == bytes[9 + n];
    SliceOfSlice(data, o, o + 10 + n, 9, 9 + n);
    assert data[o + 9..o + 9 + n] == e.name;
    assert forall k :: o + 9 <= k < o + 9 + n ==> data[k] == data[o + 9..o + 9 + n][k - o - 9];
    StringEndIs(data, o + 9, o + 9 + n);
  }

  lemma SliceOfSlice(s: seq<byte>, i: nat, j: nat, a: nat, b: nat)
    requires a <= b <= j - i && j <= |s|
    ensures s[i..j][a..b] == s[i + a..i + b]
  {
    forall k | 0 <= k < b - a ensures s[i..j][a..b][k] == s[i + a..i + b][k] {}
  }

  lemma FixedPart(e: RawEntry)
    ensures var bytes := EncodeEntry(e);
            && bytes[0] == e.isDir
            && bytes[1] == LE32(e.size)[0] && bytes[2] == LE32(e.size)[1]
            && bytes[3] == LE32(e.size)[2] && bytes[4] == LE32(e.size)[3]
            && bytes[9..9 + |e.name|] == e.name
            && bytes[9 + |e.name|] == 0
  {
    hide LE32, LE16;
  }

  /** An entry followed by more is seen, and reading goes on behind it. */
  lemma EntryThen(before: seq<byte>, e: RawEntry, rest: seq<byte>)
    requires NulFree(e.name)
    ensures var data := before + EncodeEntry(e) + rest;
            EntriesFrom(data, |before|) == [Seen(e)] + EntriesFrom(data, |before + EncodeEntry(e)|)
  {
    hide EncodeEntry, EntryAt, Seen, EntriesFrom, StringEnd, NulFree;
    var first := EncodeEntry(e);
    var data := before + first + rest;
    assert data[|before|..|before| + |first|] == first;
    EncodedEntryAt(data, |before|, e);
    MoreEntries(data, |before|);
  }

  /** The entries of a listing are seen one after the other, whatever comes behind them. */
  lemma {:induction false} EncodedEntries(before: seq<byte>, es: seq<RawEntry>, rest: seq<byte>)
    requires forall k :: 0 <= k < |es| ==> NulFree(es[k].name)
    ensures var data := before + EncodeEntries(es) + rest;
            EntriesFrom(data, |before|) == SeenAll(es) + EntriesFrom(data, |before + EncodeEntries(es)|)
    decreases |es|
  {
    hide EncodeEntry, Seen, EntriesFrom, NulFree;
    if es == [] {
      assert before + EncodeEntries(es) == before;
    } else {
      var first, later := EncodeEntry(es[0]), EncodeEntries(es[1..]);
      EntryThen(before, es[0], later + rest);
      EncodedEntries(before + first, es[1..], rest);
      assert before + first + (later + rest) == before + EncodeEntries(es) + rest;
      assert (before + first) + later == before + EncodeEntries(es);
      assert (before + first) + later + rest == before + EncodeEntries(es) + rest;
      var behind := EntriesFrom(before + EncodeEntries(es) + rest, |before + EncodeEntries(es)|);
      assert [Seen(es[0])] + (SeenAll(es[1..]) + behind) == SeenAll(es) + behind;
    }
  }

  /** Parsing undoes the layout, except that sizes come out as signed 32-bit integers. */
  lemma ParseOfEncode(path: seq<byte>, es: seq<RawEntry>)
    requires NulFree(path) && forall k :: 0 <= k < |es| ==> NulFree(es[k].name)
    ensures Parse(Encode(path, es)) == Some(Listing(path, SeenAll(es)))
  {
    hide EntriesFrom, EncodeEntries, SeenAll, Parse, NulFree;
    var payload := Encode(path, es);
    ParsePath(path, EncodeEntries(es));
    EncodedEntries(path + [0], es, []);
    assert payload + [] == payload && SeenAll(es) + [] == SeenAll(es);
    NoMoreEntries(payload, |payload|);
  }

  lemma ParsePath(path: seq<byte>, rest: seq<byte>)
    requires NulFree(path)
    ensures var payload := path + [0] + rest;
            Parse(payload) == Some(Listing(path, EntriesFrom(payload, |path + [0]|)))
  {
    hide EntriesFrom, StringEnd;
    var payload := path + [0] + rest;
    assert payload[..|path|] == path;
    StringEndIs(payload, 0, |path|);
  }

  /** Only an empty payload is no listing; one without any NUL is a path with nothing in it. */
  lemma EveryPayloadIsListing(payload: seq<byte>)
    ensures Parse(payload) == None <==> payload == []
    ensures payload != [] && NulFree(payload) ==> Parse(payload) == Some(Listing(payload, []))
  {
    hide EntriesFrom, StringEnd;
    if payload != [] && NulFree(payload) {
      StringEndIs(payload, 0, |payload|);
      NoMoreEntries(payload, |payload| + 1);
      assert payload[..|payload|] == payload;
    }
  }

  /** What is seen of an entry of which the first n bytes arrived, and not its NUL. */
  function SeenCut(e: RawEntry, n: nat): seq<FileEntry>
    requires n <= 9 + |e.name|
  {
    if n < 10 then [] else [Seen(e).(name := e.name[..n - 9])]
  }

  /** A listing cut short inside an entry: nothing of it is seen up to nine bytes, then all but the name's rest. */
  lemma CutListing(path: seq<byte>, es: seq<RawEntry>, e: RawEntry, n: nat)
    requires NulFree(path) && forall k :: 0 <= k < |es| ==> NulFree(es[k].name)
    requires NulFree(e.name) && n <= 9 + |e.name|
    ensures Parse(Encode(path, es) + EncodeEntry(e)[..n]) == Some(Listing(path, SeenAll(es) + SeenCut(e, n)))
  {
    hide EntriesFrom, EncodeEntries, EncodeEntry, SeenAll, SeenCut, Parse, NulFree;
    var all, cut := EncodeEntries(es), EncodeEntry(e)[..n];
    ParsePath(path, all + cut);
    EncodedEntries(path + [0], es, cut);
    CutEntry(path + [0] + all, e, n);
    assert path + [0] + (all + cut) == path + [0] + all + cut;
  }

  lemma CutEntry(before: seq<byte>, e: RawEntry, n: nat)
    requires NulFree(e.name) && n <= 9 + |e.name|
    ensures EntriesFrom(before + EncodeEntry(e)[..n], |before|) == SeenCut(e, n)
  {
    hide EncodeEntry, EntriesFrom, EntryAt, NulFree;
    var data := before + EncodeEntry(e)[..n];
    if n < 10 {
      NoMoreEntries(data, |before|);
    } else {
      EntryCutAt(data, |before|, e, n);
      MoreEntries(data, |before|);
      NoMoreEntries(data, |data| + 1);
    }
  }

  lemma EntryCutAt(data: seq<byte>, o: nat, e: RawEntry, n: nat)
    requires NulFree(e.name) && 10 <= n <= 9 + |e.name| && o + n == |data|
    requires data[o..] == EncodeEntry(e)[..n]
    ensures EntryAt(data, o) == Seen(e).(name := e.name[..n - 9]) && StringEnd(data, o + 9) == |data|
  {
    hide EncodeEntry, LE32, FromLE32, AsInt32, StringEnd;
    var bytes := EncodeEntry(e);
    FixedPart(e);
    LE32RoundTrip(e.size);
    forall k | 0 <= k < n ensures data[o + k] == bytes[k] {
      assert data[o..][k] == bytes[..n][k];
    }
    assert data[o + 0] == bytes[0];
    forall k | 0 <= k < n - 9 ensures data[o + 9 + k] == e.name[k] {
      assert data[o + (9 + k)] == bytes[9 + k] == bytes[9..9 + |e.name|][k];
    }
    assert data[o + 9..|data|] == e.name[..n - 9];
    forall k | o + 9 <= k < |data| ensures data[k] != 0 {
      assert data[o + 9 + (k - o - 9)] == e.name[k - o - 9];
    }
    StringEndIs(data, o + 9, |data|);
  }

  lemma {:induction false} SeenAsMeantExactly(es: seq<RawEntry>)
    ensures SeenAll(es) == MeantAll(es) <==> forall k :: 0 <= k < |es| ==> es[k].size < 0x8000_0000
  {
    if es != [] {
      var rest := es[1..];
      SeenAsMeantExactly(rest);
      assert SeenAll(es)[0] == Seen(es[0]) && MeantAll(es)[0] == Meant(es[0]);
      assert SeenAll(es)[1..] == SeenAll(rest) && MeantAll(es)[1..] == MeantAll(rest);
      assert es == [es[0]] + rest;
    }
  }

  /** The listing is the one the device meant exactly when every size is below 2 GiB. */
  lemma ListingExactly(path: seq<byte>, es: seq<RawEntry>)
    requires NulFree(path) && forall k :: 0 <= k < |es| ==> NulFree(es[k].name)
    ensures Parse(Encode(path, es)) == Some(Listing(path, MeantAll(es)))
            <==> forall k :: 0 <= k < |es| ==> es[k].size < 0x8000_0000
  {
    hide Parse, Encode;
    ParseOfEncode(path, es);
    SeenAsMeantExactly(es);
  }
}
