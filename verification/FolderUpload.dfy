// Uploading a folder: the directories, sorted by path length, are made one ACK at a time, then
// the files go up one after the other.

module FolderUpload {
  import opened Bytes
  import opened HostModel
  import opened HostRuns
  import opened Transfers

  // ---------------------------------------------------------------------------
  // The order of the directories
  // ---------------------------------------------------------------------------

  predicate SortedByLength(dirs: seq<Text>) {
    forall i, j :: 0 <= i < j < |dirs| ==> |dirs[i]| <= |dirs[j]|
  }

  lemma {:induction false} InsertKeeps(d: Text, sorted: seq<Text>)
    ensures multiset(InsertByLength(d, sorted)) == multiset{d} + multiset(sorted)
    decreases |sorted|
  {
    if sorted != [] && |d| > |sorted[0]| {
      InsertKeeps(d, sorted[1..]);
      assert sorted == [sorted[0]] + sorted[1..];
    }
  }

  lemma {:induction false} InsertSorts(d: Text, sorted: seq<Text>)
    requires SortedByLength(sorted)
    ensures SortedByLength(InsertByLength(d, sorted))
    decreases |sorted|
  {
    if sorted != [] && |d| > |sorted[0]| {
      var later := InsertByLength(d, sorted[1..]);
      InsertSorts(d, sorted[1..]);
      InsertKeeps(d, sorted[1..]);
      forall j | 0 <= j < |later| ensures |sorted[0]| <= |later[j]| {
        assert later[j] in multiset(later);
        assert later[j] == d || later[j] in multiset(sorted[1..]);
      }
    }
  }

  lemma {:induction false} SortSorts(dirs: seq<Text>)
    ensures SortedByLength(SortByLength(dirs)) && multiset(SortByLength(dirs)) == multiset(dirs)
    decreases |dirs|
  {
    if dirs != [] {
      SortSorts(dirs[1..]);
      InsertSorts(dirs[0], SortByLength(dirs[1..]));
      InsertKeeps(dirs[0], SortByLength(dirs[1..]));
      assert dirs == [dirs[0]] + dirs[1..];
    }
  }

  /** `child` is an entry of the directory `parent`. */
  predicate ParentOf(parent: Text, child: Text) {
    |parent| < |child| && child[..|parent|] == parent && child[|parent|] == SLASH && SLASH !in child[|parent| + 1..]
  }

  /** Every directory but the base has its parent in the list. */
  ghost predicate ClosedUnderParents(base: Text, dirs: seq<Text>) {
    forall d <- dirs :: d == base || exists p <- dirs :: ParentOf(p, d)
  }

  /** Is the parent of every directory made before it? */
  ghost predicate ParentsFirst(base: Text, dirs: seq<Text>) {
    forall i :: 0 <= i < |dirs| ==> dirs[i] == base || exists j :: 0 <= j < i && ParentOf(dirs[j], dirs[i])
  }

  /** Whatever order the file system reports them in, sorting by length puts parents first. */
  lemma SortingPutsParentsFirst(base: Text, dirs: seq<Text>)
    requires ClosedUnderParents(base, dirs)
    ensures ParentsFirst(base, SortByLength(dirs))
  {
    hide SortByLength;
    var sorted := SortByLength(dirs);
    SortSorts(dirs);
    forall i | 0 <= i < |sorted| && sorted[i] != base
      ensures exists j :: 0 <= j < i && ParentOf(sorted[j], sorted[i])
    {
      assert sorted[i] in multiset(sorted) && sorted[i] in dirs;
      var p :| p in dirs && ParentOf(p, sorted[i]);
      assert p in multiset(dirs) && p in sorted;
      var j :| 0 <= j < |sorted| && sorted[j] == p;
      assert ParentOf(sorted[j], sorted[i]);
    }
  }

  // ---------------------------------------------------------------------------
  // The commands of a folder upload
  // ---------------------------------------------------------------------------

  predicate Uploadable(disk: Disk, item: QueueItem) {
    item.localPath in disk && 0 < |disk[item.localPath]| < 0x8000_0000
  }

  predicate AllUploadable(disk: Disk, queue: seq<QueueItem>) {
    forall i :: 0 <= i < |queue| ==> Uploadable(disk, queue[i])
  }

  function DataOf(disk: Disk, item: QueueItem): (data: seq<byte>)
    requires Uploadable(disk, item)
    ensures 0 < |data| < 0x8000_0000
  {
    disk[item.localPath]
  }

  /** Announcing a file and sending its START. */
  function StartLog(disk: Disk, queue: seq<QueueItem>, i: nat): seq<Output>
    requires i < |queue| && Uploadable(disk, queue[i])
  {
    [QueueProgress(i + 1, |queue|, queue[i].localPath),
     Send(StartCmd(File), LE32(|DataOf(disk, queue[i])|) + queue[i].remotePath + [0])]
  }

  /** What follows the START of file i: its chunks, its FINISH, and then the later files. */
  function QueueLog(disk: Disk, queue: seq<QueueItem>, i: nat): seq<Output>
    requires i < |queue| && AllUploadable(disk, queue)
    decreases |queue| - i
  {
    var data := DataOf(disk, queue[i]);
    DataLog(File, data, |data|, 0) + [Send(FinishCmd(File), [])]
      + (if i + 1 == |queue| then [QueueCompleted(|queue|)]
         else StartLog(disk, queue, i + 1) + QueueLog(disk, queue, i + 1))
  }

  function QueueAcks(disk: Disk, queue: seq<QueueItem>, i: nat): nat
    requires i < |queue| && AllUploadable(disk, queue)
    decreases |queue| - i
  {
    RoundTrips(File, |DataOf(disk, queue[i])|) + if i + 1 == |queue| then 0 else QueueAcks(disk, queue, i + 1)
  }

  /** The commands that make the directories from number i on. */
  function DirLog(dirs: seq<Text>, i: nat): seq<Output>
    requires i <= |dirs|
    decreases |dirs| - i
  {
    if i == |dirs| then [] else [Send(CMD_FILE_MKDIR, MkdirPayload(dirs[i]))] + DirLog(dirs, i + 1)
  }

  function FilesLog(disk: Disk, queue: seq<QueueItem>): seq<Output>
    requires AllUploadable(disk, queue)
  {
    if queue == [] then [QueueCompleted(0)] else StartLog(disk, queue, 0) + QueueLog(disk, queue, 0)
  }

  function FilesAcks(disk: Disk, queue: seq<QueueItem>): nat
    requires AllUploadable(disk, queue)
  {
    if queue == [] then 0 else QueueAcks(disk, queue, 0)
  }

  // ---------------------------------------------------------------------------
  // Running the file queue
  // ---------------------------------------------------------------------------

  /** Nothing that could claim an ACK is under way. */
  predicate Quiet(h: Host) {
    !Busy(h) && !h.swapPending
  }

  /** Nothing is under way at all, nor is any reply expected. */
  predicate AtRest(h: Host) {
    Quiet(h) && h.queueIndex == -1 && h.dirIndex == -1 && h.pendingCmd == 0
  }

  /** File i of the queue has been started. */
  predicate FileStarted(disk: Disk, h: Host, i: nat) {
    && i < |h.queue| && h.queueIndex == i && AllUploadable(disk, h.queue)
    && h.file == Machine(WaitingStartAck, DataOf(disk, h.queue[i]), 0, |DataOf(disk, h.queue[i])|, true)
    && !Active(h, Fw) && !Active(h, Esp) && !h.erasePending && !h.swapPending
  }

  lemma StartOfFile(disk: Disk, h: Host, i: nat)
    requires Quiet(h) && i < |h.queue| && AllUploadable(disk, h.queue)
    ensures var item := h.queue[i];
            var h' := UploadFile(disk, Emit(h.(queueIndex := i), QueueProgress(i + 1, |h.queue|, item.localPath)),
                                 item.localPath, item.remotePath);
            && FileStarted(disk, h', i)
            && h' == h.(queueIndex := i, file := h'.file, out := h.out + StartLog(disk, h.queue, i))
  {
    hide ToUint32, LE32;
    ToUint32Fits(|DataOf(disk, h.queue[i])|);
  }

  /** The ACK of a file's FINISH starts the next file, or ends the queue. */
  lemma FinishAdvancesQueue(disk: Disk, h: Host, i: nat)
    requires Owner(h) == Some(File) && h.file.phase == WaitingFinishAck
    requires i < |h.queue| && h.queueIndex == i && AllUploadable(disk, h.queue)
    ensures var h' := OnAck(disk, h);
            h'.dirIndex == h.dirIndex && h'.pendingCmd == h.pendingCmd
    ensures var h' := OnAck(disk, h);
            if i + 1 == |h.queue| then
              Quiet(h') && h'.queueIndex == -1 && h'.queue == [] && h'.out == h.out + [QueueCompleted(|h.queue|)]
            else
              FileStarted(disk, h', i + 1) && h'.queue == h.queue && h'.out == h.out + StartLog(disk, h.queue, i + 1)
  {
    hide UploadFile, NextChunk, StartLog, Uploadable;
    var idle := h.(file := Stopped(h.file));
    assert h.out + [] == h.out;
    assert Quiet(idle);
    if i + 1 < |h.queue| {
      StartOfFile(disk, idle, i + 1);
    }
  }

  lemma {:induction false} QueueRuns(disk: Disk, h: Host, i: nat)
    requires FileStarted(disk, h, i)
    ensures var h' := Acks(disk, h, QueueAcks(disk, h.queue, i));
            h'.dirIndex == h.dirIndex && h'.pendingCmd == h.pendingCmd
    ensures var h' := Acks(disk, h, QueueAcks(disk, h.queue, i));
            Quiet(h') && h'.queueIndex == -1 && h'.queue == [] && h'.out == h.out + QueueLog(disk, h.queue, i)
    decreases |h.queue| - i
  {
    hide OnAck, Acks, DataLog, StartLog, LE32, RoundTrips, Uploadable;
    var data := DataOf(disk, h.queue[i]);
    var n := ChunksLeft(File, |data|, 0) + 1;
    RoundTripsOfWhole(File, |data|);
    AckedUntilFinish(disk, h, File, data, |data|, 0);
    AcksLast(disk, h, n);
    var h1 := Acks(disk, h, n);
    FinishAdvancesQueue(disk, h1, i);
    var h2 := OnAck(disk, h1);
    if i + 1 < |h.queue| {
      QueueRuns(disk, h2, i + 1);
      AcksAdd(disk, h, n + 1, QueueAcks(disk, h.queue, i + 1));
      assert h1.out + StartLog(disk, h.queue, i + 1) + QueueLog(disk, h.queue, i + 1)
          == h.out + QueueLog(disk, h.queue, i);
    } else {
      assert h1.out + [QueueCompleted(|h.queue|)] == h.out + QueueLog(disk, h.queue, i);
    }
  }

  lemma QueueStarts(disk: Disk, h: Host)
    requires Quiet(h) && AllUploadable(disk, h.queue)
    ensures var h' := Acks(disk, StartQueue(disk, h), FilesAcks(disk, h.queue));
            && Quiet(h') && h'.out == h.out + FilesLog(disk, h.queue)
            && (h.queueIndex == -1 ==> h'.queueIndex == -1)
            && h'.dirIndex == h.dirIndex && h'.pendingCmd == h.pendingCmd
  {
    hide UploadFile, OnAck, QueueLog, QueueAcks, StartLog, Uploadable;
    if h.queue == [] {
      assert Acks(disk, StartQueue(disk, h), 0) == StartQueue(disk, h);
    } else {
      StartOfFile(disk, h, 0);
      var h1 := StartQueue(disk, h);
      QueueRuns(disk, h1, 0);
      assert h.out + StartLog(disk, h.queue, 0) + QueueLog(disk, h.queue, 0)
          == h.out + (StartLog(disk, h.queue, 0) + QueueLog(disk, h.queue, 0));
    }
  }

  // ---------------------------------------------------------------------------
  // Running the directory queue
  // ---------------------------------------------------------------------------

  /** The MKDIR of directory i has been sent. */
  predicate DirStarted(h: Host, i: nat) {
    Quiet(h) && i < |h.dirs| && h.dirIndex == i && h.pendingCmd == CMD_FILE_MKDIR && h.queueIndex == -1
  }

  lemma AckMakesDir(disk: Disk, h: Host, i: nat)
    requires DirStarted(h, i)
    ensures var h' := OnAck(disk, h);
            if i + 1 == |h.dirs| then h' == StartQueue(disk, h.(pendingCmd := 0, dirs := [], dirIndex := -1))
            else
              && DirStarted(h', i + 1)
              && h' == h.(dirIndex := i + 1, out := h.out + [Send(CMD_FILE_MKDIR, MkdirPayload(h.dirs[i + 1]))])
  {
    hide UploadFile;
  }

  lemma {:induction false} DirsRun(disk: Disk, h: Host, i: nat)
    requires DirStarted(h, i) && AllUploadable(disk, h.queue)
    ensures var h' := Acks(disk, h, |h.dirs| - i + FilesAcks(disk, h.queue));
            && AtRest(h')
            && h'.out == h.out + DirLog(h.dirs, i + 1) + FilesLog(disk, h.queue)
    decreases |h.dirs| - i
  {
    hide OnAck, FilesAcks, FilesLog, StartQueue, MkdirPayload, Uploadable;
    AckMakesDir(disk, h, i);
    var h' := OnAck(disk, h);
    var n := |h.dirs| - i + FilesAcks(disk, h.queue);
    assert Acks(disk, h, n) == Acks(disk, h', n - 1);
    if i + 1 == |h.dirs| {
      QueueStarts(disk, h.(pendingCmd := 0, dirs := [], dirIndex := -1));
      assert h.out + DirLog(h.dirs, i + 1) == h.out;
    } else {
      DirsRun(disk, h', i + 1);
      assert h.out + [Send(CMD_FILE_MKDIR, MkdirPayload(h.dirs[i + 1]))] + DirLog(h.dirs, i + 2)
          == h.out + DirLog(h.dirs, i + 1);
    }
  }

  /**
   * A folder upload on a quiet host, with every command acknowledged and every file uploadable: one
   * MKDIR for each directory in sorted order, then, after the last of their ACKs, each file once
   * and in order, then the report of how many files there were; and the host is quiet again.
   */
  lemma FolderUploadRuns(disk: Disk, h: Host, entries: seq<Entry>, baseName: Text, remotePath: Text)
    requires Quiet(h) && h.queueIndex == -1
    requires AllUploadable(disk, RemoteFiles(WithSlash(remotePath) + baseName, entries))
    ensures var base := WithSlash(remotePath) + baseName;
            var dirs := SortByLength([base] + RemoteDirs(base, entries));
            var files := RemoteFiles(base, entries);
            var h' := Acks(disk, UploadFolder(h, Some(entries), baseName, remotePath), |dirs| + FilesAcks(disk, files));
            && AtRest(h')
            && h'.out == h.out + [QueueProgress(0, |files|, [])] + DirLog(dirs, 0) + FilesLog(disk, files)
  {
    hide SortByLength, RemoteDirs, RemoteFiles, WithSlash, OnAck, FilesAcks, FilesLog, MkdirPayload, Acks, Uploadable;
    var base := WithSlash(remotePath) + baseName;
    var dirs := SortByLength([base] + RemoteDirs(base, entries));
    var files := RemoteFiles(base, entries);
    SortSorts([base] + RemoteDirs(base, entries));
    assert base in multiset([base] + RemoteDirs(base, entries));
    assert dirs != [];
    var h1 := UploadFolder(h, Some(entries), baseName, remotePath);
    assert h1.queue == files && h1.dirs == dirs && DirStarted(h1, 0);
    DirsRun(disk, h1, 0);
    var first := [Send(CMD_FILE_MKDIR, MkdirPayload(dirs[0]))];
    assert h1.out == h.out + [QueueProgress(0, |files|, [])] + first;
    assert DirLog(dirs, 0) == first + DirLog(dirs, 1);
    assert h1.out + DirLog(dirs, 1) == h.out + [QueueProgress(0, |files|, [])] + DirLog(dirs, 0);
  }

  // ---------------------------------------------------------------------------
  // Do the directories get made?
  // ---------------------------------------------------------------------------

  /** A device that makes a directory only where its parent exists. */
  function MakeDirs(existing: set<Text>, base: Text, dirs: seq<Text>): Option<set<Text>> {
    if dirs == [] then Some(existing)
    else
      match MakeDirs(existing, base, dirs[..|dirs| - 1])
      case None => None
      case Some(made) =>
        var d := dirs[|dirs| - 1];
        if d == base || exists p <- made :: ParentOf(p, d) then Some(made + {d}) else None
  }

  lemma {:induction false} ParentsFirstMakesAll(existing: set<Text>, base: Text, dirs: seq<Text>)
    requires ParentsFirst(base, dirs)
    ensures MakeDirs(existing, base, dirs) == Some(existing + (set d <- dirs))
    decreases |dirs|
  {
    if dirs != [] {
      var n := |dirs| - 1;
      var front, d := dirs[..n], dirs[n];
      assert ParentsFirst(base, front) by {
        forall i | 0 <= i < |front| && front[i] != base ensures exists j :: 0 <= j < i && ParentOf(front[j], front[i]) {
          assert dirs[i] == front[i];
          var j :| 0 <= j < i && ParentOf(dirs[j], dirs[i]);
          assert ParentOf(front[j], front[i]);
        }
      }
      ParentsFirstMakesAll(existing, base, front);
      var made := existing + (set e <- front);
      if d != base {
        var j :| 0 <= j < n && ParentOf(dirs[j], dirs[n]);
        assert front[j] in front && front[j] in made;
      }
      assert made + {d} == existing + (set e <- dirs) by {
        assert dirs == front + [d];
      }
    } else {
      assert existing + (set d <- dirs) == existing;
    }
  }

  lemma WholeTreeIsMade(existing: set<Text>, base: Text, dirs: seq<Text>)
    requires ClosedUnderParents(base, dirs)
    ensures MakeDirs(existing, base, SortByLength(dirs)) == Some(existing + (set d <- dirs))
  {
    hide SortByLength, MakeDirs;
    SortingPutsParentsFirst(base, dirs);
    ParentsFirstMakesAll(existing, base, SortByLength(dirs));
    SortSorts(dirs);
    assert (set d <- SortByLength(dirs)) == (set d <- dirs) by {
      forall d ensures d in SortByLength(dirs) <==> d in dirs {
        assert d in multiset(SortByLength(dirs)) <==> d in multiset(dirs);
      }
    }
  }

  /** A recursive listing: each directory lies directly in the folder or in a listed directory. */
  ghost predicate ListsTree(entries: seq<Entry>) {
    forall e <- entries :: e.isDir ==>
      SLASH !in e.relPath || exists p <- entries :: p.isDir && ParentOf(p.relPath, e.relPath)
  }

  lemma {:induction false} InRemoteDirs(base: Text, entries: seq<Entry>, d: Text)
    ensures d in RemoteDirs(base, entries) <==> exists e <- entries :: e.isDir && d == base + [SLASH] + e.relPath
  {
    if entries != [] {
      var rest := entries[1..];
      assert entries == [entries[0]] + rest;
      InRemoteDirs(base, rest, d);
      assert forall e <- rest :: e in entries;
    }
  }

  lemma ListingIsClosed(base: Text, entries: seq<Entry>)
    requires ListsTree(entries)
    ensures ClosedUnderParents(base, [base] + RemoteDirs(base, entries))
  {
    hide RemoteDirs;
    var dirs := [base] + RemoteDirs(base, entries);
    forall d | d in dirs && d != base ensures exists p <- dirs :: ParentOf(p, d) {
      InRemoteDirs(base, entries, d);
      var e :| e in entries && e.isDir && d == base + [SLASH] + e.relPath;
      if SLASH !in e.relPath {
        assert d[|base| + 1..] == e.relPath;
        assert base in dirs && ParentOf(base, d);
      } else {
        var p :| p in entries && p.isDir && ParentOf(p.relPath, e.relPath);
        var q := base + [SLASH] + p.relPath;
        InRemoteDirs(base, entries, q);
        assert d[|q| + 1..] == e.relPath[|p.relPath| + 1..];
        assert d[..|q|] == q;
        assert q in dirs && ParentOf(q, d);
      }
    }
  }

  /** Every MKDIR of a folder upload finds its parent, so the whole tree gets made. */
  lemma FolderTreeIsMade(existing: set<Text>, base: Text, entries: seq<Entry>)
    requires ListsTree(entries)
    ensures var dirs := [base] + RemoteDirs(base, entries);
            MakeDirs(existing, base, SortByLength(dirs)) == Some(existing + (set d <- dirs))
  {
    hide SortByLength, MakeDirs, RemoteDirs;
    ListingIsClosed(base, entries);
    WholeTreeIsMade(existing, base, [base] + RemoteDirs(base, entries));
  }
}
