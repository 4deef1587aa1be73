// What a folder upload leaves on the device: a card that executes the commands of the host's log
// one by one holds the whole tree, with every file's content under its remote path.

module FolderDelivery {
  import opened Bytes
  import opened HostModel
  import opened HonestDevice
  import opened Transfers
  import opened FolderUpload
  import Framing

  /** A card with its directories and files, and the upload it is receiving. */
  datatype Card = Card(dirs: set<Text>, files: map<Text, seq<byte>>, open: Text, upload: Device, refused: bool)

  /** The bytes of a payload up to its first NUL. */
  function PathIn(payload: seq<byte>): Text {
    if payload == [] || payload[0] == 0 then [] else [payload[0]] + PathIn(payload[1..])
  }

  predicate HasParent(dirs: set<Text>, path: Text) {
    exists p <- dirs :: ParentOf(p, path)
  }

  /**
   * Making a directory and opening a file need a parent; only the base may stand on its own. A file is
   * stored when it has the size that its START announced.
   */
  function Obey(base: Text, c: Card, cmd: byte, payload: seq<byte>): Card {
    if cmd == CMD_FILE_MKDIR then
      match MakeDirs(c.dirs, base, [PathIn(payload)])
      case Some(dirs) => c.(dirs := dirs)
      case None => c.(refused := true)
    else if cmd == StartCmd(File) && |payload| >= 4 then
      var path := PathIn(payload[4..]);
      if HasParent(c.dirs, path) then c.(open := path, upload := Execute(File, c.upload, cmd, payload))
      else c.(refused := true)
    else if cmd == DataCmd(File) then c.(upload := Execute(File, c.upload, cmd, payload))
    else if cmd == FinishCmd(File) then
      if AnnouncedSize(c.upload) == Some(|c.upload.content|) then c.(files := c.files[c.open := c.upload.content])
      else c.(refused := true)
    else c
  }

  function ObeyAll(base: Text, c: Card, out: seq<Output>): Card {
    if out == [] then c
    else
      var before := ObeyAll(base, c, out[..|out| - 1]);
      var last := out[|out| - 1];
      if last.Send? then Obey(base, before, last.cmd, Truncated(last.payload)) else before
  }

  /** The files after those of a queue have been stored, in order. */
  function Stored(disk: Disk, files: map<Text, seq<byte>>, queue: seq<QueueItem>): map<Text, seq<byte>>
    requires AllUploadable(disk, queue)
    decreases |queue|
  {
    if queue == [] then files
    else Stored(disk, files[queue[0].remotePath := DataOf(disk, queue[0])], queue[1..])
  }

  /** A path that fits a START or MKDIR command and has no NUL inside. */
  predicate PathFits(path: Text) {
    0 !in path && 4 + |path| + 1 <= Framing.MAX_PAYLOAD
  }

  lemma ObeyNothing(base: Text, c: Card)
    ensures ObeyAll(base, c, []) == c
  {}

  lemma ObeyOne(base: Text, c: Card, out: seq<Output>, o: Output)
    ensures ObeyAll(base, c, out + [o])
         == if o.Send? then Obey(base, ObeyAll(base, c, out), o.cmd, Truncated(o.payload)) else ObeyAll(base, c, out)
  {
    assert (out + [o])[..|out|] == out;
  }

  lemma {:induction false} ObeyConcat(base: Text, c: Card, a: seq<Output>, b: seq<Output>)
    ensures ObeyAll(base, c, a + b) == ObeyAll(base, ObeyAll(base, c, a), b)
    decreases |b|
  {
    hide Obey;
    if b == [] {
      assert a + b == a;
    } else {
      var n := |b| - 1;
      ObeyConcat(base, c, a, b[..n]);
      assert a + b == a + b[..n] + [b[n]];
      ObeyOne(base, c, a + b[..n], b[n]);
    }
  }

  lemma {:induction false} PathReadsBack(path: Text)
    requires 0 !in path
    ensures PathIn(path + [0]) == path
    decreases |path|
  {
    if path != [] {
      assert (path + [0])[1..] == path[1..] + [0];
      PathReadsBack(path[1..]);
    }
  }

  // ---------------------------------------------------------------------------
  // The files
  // ---------------------------------------------------------------------------

  /** Chunks touch nothing but the upload. */
  lemma {:induction false} ChunksGoToUpload(base: Text, c: Card, out: seq<Output>)
    requires forall o <- out :: o.Send? ==> o.cmd == DataCmd(File)
    ensures ObeyAll(base, c, out) == c.(upload := ExecuteAll(File, c.upload, out))
    decreases |out|
  {
    hide Execute;
    if out != [] {
      var n := |out| - 1;
      ChunksGoToUpload(base, c, out[..n]);
      assert out[n] in out;
    }
  }

  lemma StartOpens(disk: Disk, base: Text, c: Card, queue: seq<QueueItem>, i: nat)
    requires i < |queue| && Uploadable(disk, queue[i]) && PathFits(queue[i].remotePath)
    requires HasParent(c.dirs, queue[i].remotePath)
    ensures ObeyAll(base, c, StartLog(disk, queue, i))
         == c.(open := queue[i].remotePath,
               upload := Device([], true, false, LE32(|DataOf(disk, queue[i])|) + queue[i].remotePath + [0]))
  {
    hide LE32, HasParent, PathIn, ObeyAll;
    var path, size := queue[i].remotePath, LE32(|DataOf(disk, queue[i])|);
    var log := StartLog(disk, queue, i);
    ObeyNothing(base, c);
    ObeyOne(base, c, [], log[0]);
    ObeyOne(base, c, [log[0]], log[1]);
    assert [] + [log[0]] == [log[0]] && [log[0]] + [log[1]] == log;
    var payload := size + path + [0];
    assert Truncated(payload) == payload && payload[4..] == path + [0];
    PathReadsBack(path);
  }

  lemma StartTellsSize(disk: Disk, queue: seq<QueueItem>, i: nat)
    requires i < |queue| && Uploadable(disk, queue[i])
    ensures var size := |DataOf(disk, queue[i])|;
            var d := Device([], true, false, LE32(size) + queue[i].remotePath + [0]);
            AnnouncedSize(d) == Some(size)
  {
    hide LE32, FromLE32;
    LE32RoundTrip(|DataOf(disk, queue[i])|);
  }

  /** The chunks of a file and its FINISH store it under the open path. */
  lemma FileIsStored(disk: Disk, base: Text, c: Card, data: seq<byte>)
    requires 0 < |data| < 0x8000_0000 && c.upload.content == [] && AnnouncedSize(c.upload) == Some(|data|)
    ensures var c' := ObeyAll(base, c, DataLog(File, data, |data|, 0) + [Send(FinishCmd(File), [])]);
            c' == c.(upload := c.upload.(content := data), files := c.files[c.open := data])
  {
    hide ObeyAll, ExecuteAll, DataLog;
    var log := DataLog(File, data, |data|, 0);
    ChunksFit(File, data, |data|, 0);
    ChunksGoToUpload(base, c, log);
    ExecuteNothing(c.upload);
    ChunksReassemble(File, c.upload, [], data, |data|, 0);
    assert [] + log == log && data[..|data|] == data && data[..0] == [];
    ObeyOne(base, c, log, Send(FinishCmd(File), []));
  }

  lemma ExecuteNothing(d: Device)
    ensures ExecuteAll(File, d, []) == d
  {}

  lemma {:induction false} QueueIsStored(disk: Disk, base: Text, c: Card, queue: seq<QueueItem>, i: nat)
    requires i < |queue| && AllUploadable(disk, queue)
    requires forall k :: i < k < |queue| ==> PathFits(queue[k].remotePath) && HasParent(c.dirs, queue[k].remotePath)
    requires c.open == queue[i].remotePath && c.upload.content == []
    requires AnnouncedSize(c.upload) == Some(|DataOf(disk, queue[i])|)
    ensures var c' := ObeyAll(base, c, QueueLog(disk, queue, i));
            c'.files == Stored(disk, c.files, queue[i..]) && c'.dirs == c.dirs && c'.refused == c.refused
    decreases |queue| - i
  {
    hide ObeyAll, DataLog, StartLog, PathFits, HasParent, Uploadable;
    var data := DataOf(disk, queue[i]);
    var head := DataLog(File, data, |data|, 0) + [Send(FinishCmd(File), [])];
    FileIsStored(disk, base, c, data);
    var c1 := ObeyAll(base, c, head);
    assert queue[i..][1..] == queue[i + 1..];
    if i + 1 == |queue| {
      ObeyOne(base, c, head, QueueCompleted(|queue|));
    } else {
      StartOpens(disk, base, c1, queue, i + 1);
      StartTellsSize(disk, queue, i + 1);
      var c2 := ObeyAll(base, c1, StartLog(disk, queue, i + 1));
      QueueIsStored(disk, base, c2, queue, i + 1);
      var more := StartLog(disk, queue, i + 1) + QueueLog(disk, queue, i + 1);
      ObeyConcat(base, c, head, more);
      ObeyConcat(base, c1, StartLog(disk, queue, i + 1), QueueLog(disk, queue, i + 1));
    }
  }

  lemma FilesAreStored(disk: Disk, base: Text, c: Card, queue: seq<QueueItem>)
    requires AllUploadable(disk, queue)
    requires forall k :: 0 <= k < |queue| ==> PathFits(queue[k].remotePath) && HasParent(c.dirs, queue[k].remotePath)
    ensures var c' := ObeyAll(base, c, FilesLog(disk, queue));
            c'.files == Stored(disk, c.files, queue) && c'.dirs == c.dirs && c'.refused == c.refused
  {
    hide ObeyAll, QueueLog, StartLog, PathFits, HasParent, Uploadable;
    if queue == [] {
      ObeyNothing(base, c);
      ObeyOne(base, c, [], QueueCompleted(0));
      assert [] + [QueueCompleted(0)] == [QueueCompleted(0)];
    } else {
      StartOpens(disk, base, c, queue, 0);
      StartTellsSize(disk, queue, 0);
      var c1 := ObeyAll(base, c, StartLog(disk, queue, 0));
      QueueIsStored(disk, base, c1, queue, 0);
      ObeyConcat(base, c, StartLog(disk, queue, 0), QueueLog(disk, queue, 0));
      assert queue[0..] == queue;
    }
  }

  // ---------------------------------------------------------------------------
  // The directories
  // ---------------------------------------------------------------------------

  lemma MkdirObeyed(base: Text, c: Card, dir: Text)
    requires PathFits(dir)
    ensures Obey(base, c, CMD_FILE_MKDIR, Truncated(MkdirPayload(dir)))
         == match MakeDirs(c.dirs, base, [dir])
            case Some(dirs) => c.(dirs := dirs)
            case None => c.(refused := true)
  {
    hide PathIn, MakeDirs;
    assert Truncated(dir + [0]) == dir + [0];
    PathReadsBack(dir);
  }

  lemma {:induction false} MakeDirsConcat(existing: set<Text>, base: Text, a: seq<Text>, b: seq<Text>)
    ensures MakeDirs(existing, base, a + b) ==
            match MakeDirs(existing, base, a)
            case None => None
            case Some(made) => MakeDirs(made, base, b)
    decreases |b|
  {
    if b == [] {
      assert a + b == a;
    } else {
      assert (a + b)[..|a + b| - 1] == a + b[..|b| - 1];
      MakeDirsConcat(existing, base, a, b[..|b| - 1]);
    }
  }

  lemma {:induction false} DirsAreMade(base: Text, c: Card, dirs: seq<Text>, i: nat)
    requires i <= |dirs| && forall k :: 0 <= k < |dirs| ==> PathFits(dirs[k])
    requires MakeDirs(c.dirs, base, dirs[i..]).Some?
    ensures ObeyAll(base, c, DirLog(dirs, i)) == c.(dirs := MakeDirs(c.dirs, base, dirs[i..]).value)
    decreases |dirs| - i
  {
    hide Obey, ObeyAll, PathFits, MkdirPayload;
    ObeyNothing(base, c);
    if i == |dirs| {
      assert MakeDirs(c.dirs, base, []) == Some(c.dirs);
    } else {
      var send := Send(CMD_FILE_MKDIR, MkdirPayload(dirs[i]));
      MakeDirsConcat(c.dirs, base, [dirs[i]], dirs[i + 1..]);
      assert [dirs[i]] + dirs[i + 1..] == dirs[i..];
      MkdirObeyed(base, c, dirs[i]);
      ObeyOne(base, c, [], send);
      assert [] + [send] == [send];
      var c1 := ObeyAll(base, c, [send]);
      DirsAreMade(base, c1, dirs, i + 1);
      ObeyConcat(base, c, [send], DirLog(dirs, i + 1));
    }
  }

  // ---------------------------------------------------------------------------
  // The folder
  // ---------------------------------------------------------------------------

  /** Each file too lies directly in the folder or in a listed directory. */
  ghost predicate FilesInTree(entries: seq<Entry>) {
    forall e <- entries :: !e.isDir ==>
      SLASH !in e.relPath || exists p <- entries :: p.isDir && ParentOf(p.relPath, e.relPath)
  }

  ghost predicate AllPathsFit(base: Text, entries: seq<Entry>) {
    PathFits(base) && forall e <- entries :: PathFits(base + [SLASH] + e.relPath)
  }

  lemma {:induction false} InRemoteFiles(base: Text, entries: seq<Entry>, k: nat)
    requires k < |RemoteFiles(base, entries)|
    ensures exists e <- entries :: !e.isDir && RemoteFiles(base, entries)[k].remotePath == base + [SLASH] + e.relPath
  {
    var rest := entries[1..];
    assert entries == [entries[0]] + rest;
    if entries[0].isDir {
      InRemoteFiles(base, rest, k);
    } else if k == 0 {
      assert entries[0] in entries;
    } else {
      InRemoteFiles(base, rest, k - 1);
    }
  }

  lemma FileHasParent(existing: set<Text>, base: Text, entries: seq<Entry>, e: Entry)
    requires FilesInTree(entries) && e in entries && !e.isDir
    requires base in existing && forall d <- RemoteDirs(base, entries) :: d in existing
    ensures HasParent(existing, base + [SLASH] + e.relPath)
  {
    hide RemoteDirs;
    var path := base + [SLASH] + e.relPath;
    if SLASH !in e.relPath {
      assert path[|base| + 1..] == e.relPath;
      assert ParentOf(base, path);
    } else {
      var p :| p in entries && p.isDir && ParentOf(p.relPath, e.relPath);
      var q := base + [SLASH] + p.relPath;
      InRemoteDirs(base, entries, q);
      assert path[|q| + 1..] == e.relPath[|p.relPath| + 1..];
      assert path[..|q|] == q;
      assert ParentOf(q, path);
    }
  }

  /** The host after a folder upload whose every command has been acknowledged. */
  function FolderUploaded(disk: Disk, h: Host, entries: seq<Entry>, baseName: Text, remotePath: Text): Host
    requires AllUploadable(disk, RemoteFiles(WithSlash(remotePath) + baseName, entries))
  {
    var base := WithSlash(remotePath) + baseName;
    Acks(disk, UploadFolder(h, Some(entries), baseName, remotePath),
         1 + |RemoteDirs(base, entries)| + FilesAcks(disk, RemoteFiles(base, entries)))
  }

  predicate Delivers(disk: Disk, base: Text, entries: seq<Entry>, before: Card, after: Card)
    requires AllUploadable(disk, RemoteFiles(base, entries))
  {
    && after.refused == before.refused
    && after.dirs == before.dirs + {base} + (set d <- RemoteDirs(base, entries))
    && after.files == Stored(disk, before.files, RemoteFiles(base, entries))
  }

  /**
   * An acknowledged folder upload delivers the folder: none of its commands is refused, the card
   * gains exactly its directories, and each of its files is stored with its content.
   */
  lemma FolderIsDelivered(disk: Disk, h: Host, entries: seq<Entry>, baseName: Text, remotePath: Text, card: Card)
    requires Quiet(h) && h.queueIndex == -1
    requires var base := WithSlash(remotePath) + baseName;
             AllUploadable(disk, RemoteFiles(base, entries)) && AllPathsFit(base, entries)
    requires ListsTree(entries) && FilesInTree(entries)
    ensures var base := WithSlash(remotePath) + baseName;
            var h' := FolderUploaded(disk, h, entries, baseName, remotePath);
            && AtRest(h') && h.out <= h'.out
            && Delivers(disk, base, entries, card, ObeyAll(base, card, h'.out[|h.out|..]))
  {
    hide SortByLength, RemoteDirs, RemoteFiles, WithSlash, FilesAcks, FilesLog, DirLog, MkdirPayload, Acks,
         UploadFolder, Uploadable, Obey, ObeyAll, MakeDirs, PathFits, HasParent, ListsTree, FilesInTree,
         Stored, Quiet, AtRest;
    var base := WithSlash(remotePath) + baseName;
    var dirs, files := [base] + RemoteDirs(base, entries), RemoteFiles(base, entries);
    var sorted := SortByLength(dirs);
    SortSorts(dirs);
    SameLength(sorted, dirs);
    FolderUploadRuns(disk, h, entries, baseName, remotePath);
    var h' := FolderUploaded(disk, h, entries, baseName, remotePath);
    var announce := [QueueProgress(0, |files|, [])];
    assert h'.out[|h.out|..] == announce + DirLog(sorted, 0) + FilesLog(disk, files);

    ObeyNothing(base, card);
    ObeyOne(base, card, [], announce[0]);
    assert [] + announce == announce;

    FolderTreeIsMade(card.dirs, base, entries);
    forall k | 0 <= k < |sorted| ensures PathFits(sorted[k]) {
      DirFits(base, entries, sorted, k);
    }
    assert sorted[0..] == sorted;
    DirsAreMade(base, card, sorted, 0);
    var made := ObeyAll(base, card, DirLog(sorted, 0));

    forall k | 0 <= k < |files| ensures PathFits(files[k].remotePath) && HasParent(made.dirs, files[k].remotePath) {
      InRemoteFiles(base, entries, k);
      var e :| e in entries && !e.isDir && files[k].remotePath == base + [SLASH] + e.relPath;
      FileHasParent(made.dirs, base, entries, e);
    }
    FilesAreStored(disk, base, made, files);
    ObeyConcat(base, card, announce, DirLog(sorted, 0));
    ObeyConcat(base, card, announce + DirLog(sorted, 0), FilesLog(disk, files));
  }

  lemma SameLength(a: seq<Text>, b: seq<Text>)
    requires multiset(a) == multiset(b)
    ensures |a| == |b|
  {
    assert |multiset(a)| == |a| && |multiset(b)| == |b|;
  }

  lemma DirFits(base: Text, entries: seq<Entry>, sorted: seq<Text>, k: nat)
    requires AllPathsFit(base, entries) && k < |sorted|
    requires multiset(sorted) == multiset([base] + RemoteDirs(base, entries))
    ensures PathFits(sorted[k])
  {
    hide RemoteDirs, PathFits;
    assert sorted[k] in multiset(sorted);
    assert sorted[k] in [base] + RemoteDirs(base, entries);
    if sorted[k] != base {
      InRemoteDirs(base, entries, sorted[k]);
    }
  }

  /**
   * Acknowledged uploads of single files deliver them: each is stored with its content under its name
   * in the remote directory, provided that directory exists.
   */
  lemma FilesAreDelivered(disk: Disk, h: Host, files: seq<LocalFile>, path: Text, base: Text, card: Card)
    requires Quiet(h) && h.queueIndex == -1 && files != []
    requires var items := RemoteItems(files, path);
             && AllUploadable(disk, items)
             && forall k :: 0 <= k < |items| ==>
                  PathFits(items[k].remotePath) && HasParent(card.dirs, items[k].remotePath)
    ensures var items := RemoteItems(files, path);
            var h' := Acks(disk, UploadFiles(disk, h, files, path), FilesAcks(disk, items));
            && Quiet(h') && h'.queueIndex == -1 && h'.out == h.out + FilesLog(disk, items)
            && var card' := ObeyAll(base, card, h'.out[|h.out|..]);
               && card'.files == Stored(disk, card.files, items)
               && card'.dirs == card.dirs && card'.refused == card.refused
  {
    hide Acks, StartQueue, FilesLog, FilesAcks, ObeyAll, PathFits, HasParent, RemoteItems, Uploadable, Stored;
    var items := RemoteItems(files, path);
    QueueStarts(disk, h.(queue := items, dirs := [], dirIndex := -1));
    FilesAreStored(disk, base, card, items);
    assert (h.out + FilesLog(disk, items))[|h.out|..] == FilesLog(disk, items);
  }

  /** When no two files of a queue share a remote path, each is found there, and other paths keep theirs. */
  lemma {:induction false} StoredExactly(disk: Disk, files: map<Text, seq<byte>>, queue: seq<QueueItem>)
    requires AllUploadable(disk, queue)
    requires forall i, j :: 0 <= i < j < |queue| ==> queue[i].remotePath != queue[j].remotePath
    ensures var after := Stored(disk, files, queue);
            && (forall i :: 0 <= i < |queue| ==>
                  queue[i].remotePath in after && after[queue[i].remotePath] == DataOf(disk, queue[i]))
            && (forall p :: p !in (set item <- queue :: item.remotePath) ==>
                  (p in after <==> p in files) && (p in files ==> after[p] == files[p]))
    decreases |queue|
  {
    if queue != [] {
      var first := files[queue[0].remotePath := DataOf(disk, queue[0])];
      var rest := queue[1..];
      StoredExactly(disk, first, rest);
      assert queue == [queue[0]] + rest;
      assert queue[0].remotePath !in (set item <- rest :: item.remotePath);
    }
  }
}
