/**
 Runs of VFS operations on a freshly formatted and mounted RAM disk. Every reachable
 state satisfies the invariant: the reference counts and the link counts are exact, and
 no run-time assert of the code can fail. The blocks lost are accounted for, one by one.
 */
module FsRuns {
  import opened RfsDir
  import opened FsState
  import opened FsTree
  import opened FsCache
  import opened FsDisk
  import opened FsInvariant
  import opened FsSteps
  import opened FsUnlink
  import opened FsWrite
  import opened FsLookup
  import opened FsOps

  // ---- the formatted and mounted disk ----

  /** rfs_format_dev, then vfs_mount as root: inode 0 is an empty root directory on the first data block. */
  ghost predicate Mounted(fs: Fs) {
    var k, c := fs.disk, fs.cache;
    && |k.dinodes| == INODES && ValidData(k.data)
    && (forall i :: 0 <= i < INODES ==> |k.dinodes[i].addrs| == DIRECT)
    && k.dinodes[0].size == 0 && k.dinodes[0].kind == DirI && k.dinodes[0].nlinks == 1 && k.dinodes[0].blocks == 1
    && k.dinodes[0].addrs[0] == FIRST_DATA
    && (forall i :: 1 <= i < INODES ==> k.dinodes[i].kind == FreeI)
    && |k.freemap| == DATA_BLOCKS && k.freemap[0] == 1 && (forall b :: 1 <= b < DATA_BLOCKS ==> k.freemap[b] == 0)
    && c.root != NULL
    && (exists v :: c == MountedCache(c.root, v, k.dinodes[0]))
  }

  ghost function MountedCache(root: nat, v: nat, m: Dinode): Cache {
    Cache(root, map[root := Dentry("/", 0, v, NULL)], map[v := Vinode(0, 1, m)], map[(NULL, "/") := root], map[0 := v],
          map[])
  }

  lemma MountedTree(fs: Fs)
    requires Mounted(fs)
    ensures DiskShape(fs.disk) && TreeOf(fs.disk) == map[0 := []] && TreeInv(TreeOf(fs.disk), fs.disk.dinodes)
  {
    NewDirIsEmpty(fs.disk.data, fs.disk.dinodes[0]);
    assert TreeOf(fs.disk) == map[0 := []];
  }

  lemma MountedCacheInv(fs: Fs)
    requires Mounted(fs)
    ensures CacheInv(fs.cache, map[0 := []], fs.disk.dinodes)
  {
    var v :| fs.cache == MountedCache(fs.cache.root, v, fs.disk.dinodes[0]);
    assert Holders(fs.cache, v) == {fs.cache.root};
    assert OpenOn(fs.cache, fs.cache.root) == {};
  }

  lemma MountedOwnership(fs: Fs)
    requires Mounted(fs)
    ensures Ownership(Now(fs), fs.disk.freemap) && DiskBehind(fs) && Lost(fs) == {} && Written(fs)
  {
    var v :| fs.cache == MountedCache(fs.cache.root, v, fs.disk.dinodes[0]);
    assert forall i: nat :: i < INODES ==> Current(fs, i) == fs.disk.dinodes[i];
    assert Now(fs) == fs.disk.dinodes;
    assert Owned(fs.disk.dinodes[0]) == [FIRST_DATA];
    forall i: nat, b ensures Owns(Now(fs), i, b) <==> i == 0 && b == FIRST_DATA {}
    assert Owns(Now(fs), 0, FIRST_DATA + 0);
  }

  lemma MountedInv(fs: Fs)
    requires Mounted(fs)
    ensures Inv(fs) && Lost(fs) == {} && Written(fs)
  {
    MountedTree(fs);
    MountedCacheInv(fs);
    MountedOwnership(fs);
  }

  // ---- runs ----

  datatype Op =
    | DoOpen(alloc: Alloc, start: nat, path: Path, create: bool, readable: bool, writable: bool)
    | DoClose(file: nat)
    | DoOpenDir(alloc: Alloc, start: nat, path: Path)
    | DoCloseDir(file: nat)
    | DoMkDir(alloc: Alloc, start: nat, path: Path)
    | DoUnlink(alloc: Alloc, start: nat, path: Path)
    | DoLink(alloc: Alloc, start: nat, oldPath: Path, newPath: Path)
    | DoWrite(file: nat, offset: nat, len: nat, contents: int -> Block)

  ghost function Apply(fs: Fs, op: Op): Fs {
    match op
    case DoOpen(alloc, start, path, create, readable, writable) =>
      Open(fs, alloc, start, path, create, readable, writable).0
    case DoClose(f) => Close(fs, f)
    case DoOpenDir(alloc, start, path) => OpenDir(fs, alloc, start, path).0
    case DoCloseDir(f) => CloseDir(fs, f)
    case DoMkDir(alloc, start, path) => MkDir(fs, alloc, start, path).0
    case DoUnlink(alloc, start, path) => Unlink(fs, alloc, start, path).0
    case DoLink(alloc, start, oldPath, newPath) => Link(fs, alloc, start, oldPath, newPath).0
    case DoWrite(f, offset, len, contents) =>
      Write(fs, DentryAt(fs.cache, FileAt(fs.cache, f).dentry).inode, offset, len, contents)
  }

  /**
   What a step may assume: paths with directories as intermediates, resources for what it creates, an open file to
   close or write, and a start directory that can take the name of a new link.
   */
  ghost predicate Enabled(fs: Fs, op: Op) {
    match op
    case DoOpen(alloc, start, path, create, _, _) =>
      LookupReady(fs, alloc, start, path) && (create ==> RoomToCreate(fs, PathWalk(fs, start, path), path))
    case DoClose(f) => f in fs.cache.files
    case DoOpenDir(alloc, start, path) => LookupReady(fs, alloc, start, path)
    case DoCloseDir(f) => f in fs.cache.files
    case DoMkDir(alloc, start, path) =>
      LookupReady(fs, alloc, start, path) && RoomToCreate(fs, PathWalk(fs, start, path), path)
    case DoUnlink(alloc, start, path) => LookupReady(fs, alloc, start, path)
    case DoLink(alloc, start, oldPath, newPath) =>
      && LookupReady(fs, alloc, start, oldPath) && LookupReady(fs, alloc, start, newPath)
      && (FileAtOld(PathWalk(fs, start, oldPath)) ==> StartCanTake(fs, start, PathWalk(fs, start, newPath), newPath))
    case DoWrite(f, offset, len, contents) =>
      && f in fs.cache.files && WholeBlocks(contents)
      && CanWrite(fs, DentryAt(fs.cache, fs.cache.files[f].dentry).inode, offset, len)
  }

  /** The blocks a step loses. */
  ghost function Leaks(fs: Fs, op: Op): set<int> {
    if op.DoUnlink? then PathLeak(fs, op.alloc, op.start, op.path) else {}
  }

  /**
   A sound state `fs1` reached from `fs` by losing the blocks `leak`, with no disk inode behind that was not
   before.
   */
  ghost predicate Advances(fs: Fs, fs1: Fs, leak: set<int>, wrote: bool) {
    Inv(fs1) && Lost(fs1) == Lost(fs) + leak && (Written(fs) && !wrote ==> Written(fs1))
  }

  lemma MoreInTurn(s: set<int>, a: set<int>, b: set<int>)
    ensures (s + a) + b == s + (a + b)
  {
  }

  lemma SteadyAdvances(fs: Fs, fs1: Fs)
    requires Inv(fs1) && Steady(fs, fs1)
    ensures Advances(fs, fs1, {}, false)
  {
    NothingMore(Lost(fs));
  }

  lemma OpenAdvances(fs: Fs, alloc: Alloc, start: nat, path: Path, create: bool, readable: bool, writable: bool)
    requires Inv(fs) && LookupReady(fs, alloc, start, path)
    requires create ==> RoomToCreate(fs, PathWalk(fs, start, path), path)
    ensures Advances(fs, Open(fs, alloc, start, path, create, readable, writable).0, {}, false)
  {
    OpenKeepsInv(fs, alloc, start, path, create, readable, writable);
    SteadyAdvances(fs, Open(fs, alloc, start, path, create, readable, writable).0);
  }

  lemma DirectoryAdvances(fs: Fs, alloc: Alloc, start: nat, path: Path)
    requires Inv(fs) && LookupReady(fs, alloc, start, path)
    ensures Advances(fs, OpenDir(fs, alloc, start, path).0, {}, false)
    ensures RoomToCreate(fs, PathWalk(fs, start, path), path) ==>
      Advances(fs, MkDir(fs, alloc, start, path).0, {}, false)
  {
    OpenDirKeepsInv(fs, alloc, start, path);
    SteadyAdvances(fs, OpenDir(fs, alloc, start, path).0);
    if RoomToCreate(fs, PathWalk(fs, start, path), path) {
      MkDirKeepsInv(fs, alloc, start, path);
      SteadyAdvances(fs, MkDir(fs, alloc, start, path).0);
    }
  }

  lemma CloseAdvances(fs: Fs, f: nat)
    requires Inv(fs) && f in fs.cache.files
    ensures Advances(fs, Close(fs, f), {}, false) && Advances(fs, CloseDir(fs, f), {}, false)
  {
    CloseKeepsInv(fs, f);
    SteadyAdvances(fs, Close(fs, f));
    CloseDirKeepsInv(fs, f);
    SteadyAdvances(fs, CloseDir(fs, f));
  }

  lemma LinkAdvances(fs: Fs, alloc: Alloc, start: nat, oldPath: Path, newPath: Path)
    requires Inv(fs) && Enabled(fs, DoLink(alloc, start, oldPath, newPath))
    ensures Advances(fs, Link(fs, alloc, start, oldPath, newPath).0, {}, false)
  {
    LinkKeepsInv(fs, alloc, start, oldPath, newPath);
    SteadyAdvances(fs, Link(fs, alloc, start, oldPath, newPath).0);
  }

  lemma UnlinkAdvances(fs: Fs, alloc: Alloc, start: nat, path: Path)
    requires Inv(fs) && LookupReady(fs, alloc, start, path)
    ensures Advances(fs, Unlink(fs, alloc, start, path).0, PathLeak(fs, alloc, start, path), false)
  {
    UnlinkKeepsInv(fs, alloc, start, path);
  }

  lemma WriteAdvances(fs: Fs, v: nat, offset: nat, len: nat, contents: int -> Block)
    requires Inv(fs) && CanWrite(fs, v, offset, len) && WholeBlocks(contents)
    ensures Advances(fs, Write(fs, v, offset, len, contents), {}, true)
  {
    WriteKeepsInv(fs, v, offset, len, contents);
    NothingMore(Lost(fs));
  }

  /**
   Every step keeps the invariant, and loses exactly the blocks that Leaks says; only a write lets a disk inode
   fall behind.
   */
  lemma StepKeepsInv(fs: Fs, op: Op)
    requires Inv(fs) && Enabled(fs, op)
    ensures Advances(fs, Apply(fs, op), Leaks(fs, op), op.DoWrite?)
  {
    match op
    case DoOpen(alloc, start, path, create, readable, writable) =>
      OpenAdvances(fs, alloc, start, path, create, readable, writable);
    case DoClose(f) => CloseAdvances(fs, f);
    case DoOpenDir(alloc, start, path) => DirectoryAdvances(fs, alloc, start, path);
    case DoCloseDir(f) => CloseAdvances(fs, f);
    case DoMkDir(alloc, start, path) => DirectoryAdvances(fs, alloc, start, path);
    case DoUnlink(alloc, start, path) => UnlinkAdvances(fs, alloc, start, path);
    case DoLink(alloc, start, oldPath, newPath) => LinkAdvances(fs, alloc, start, oldPath, newPath);
    case DoWrite(f, offset, len, contents) =>
      WriteAdvances(fs, DentryAt(fs.cache, fs.cache.files[f].dentry).inode, offset, len, contents);
  }

  ghost function Run(fs: Fs, ops: seq<Op>): Fs
    decreases |ops|
  {
    if ops == [] then fs else Run(Apply(fs, ops[0]), ops[1..])
  }

  ghost predicate AllEnabled(fs: Fs, ops: seq<Op>)
    decreases |ops|
  {
    ops == [] || (Enabled(fs, ops[0]) && AllEnabled(Apply(fs, ops[0]), ops[1..]))
  }

  /** The blocks lost along a run. */
  ghost function AllLeaks(fs: Fs, ops: seq<Op>): set<int>
    decreases |ops|
  {
    if ops == [] then {} else Leaks(fs, ops[0]) + AllLeaks(Apply(fs, ops[0]), ops[1..])
  }

  lemma {:induction false} RunKeepsInv(fs: Fs, ops: seq<Op>)
    requires Inv(fs) && AllEnabled(fs, ops)
    ensures Inv(Run(fs, ops))
    decreases |ops|
  {
    if ops != [] {
      StepKeepsInv(fs, ops[0]);
      RunKeepsInv(Apply(fs, ops[0]), ops[1..]);
    }
  }

  lemma {:induction false} RunLoses(fs: Fs, ops: seq<Op>)
    requires Inv(fs) && AllEnabled(fs, ops)
    ensures Lost(Run(fs, ops)) == Lost(fs) + AllLeaks(fs, ops)
    decreases |ops|
  {
    if ops == [] {
      NothingMore(Lost(fs));
    } else {
      StepKeepsInv(fs, ops[0]);
      RunLoses(Apply(fs, ops[0]), ops[1..]);
      MoreInTurn(Lost(fs), Leaks(fs, ops[0]), AllLeaks(Apply(fs, ops[0]), ops[1..]));
    }
  }

  /** Every state of every run from a mounted disk satisfies the invariant. */
  lemma EveryRunIsSound(fs: Fs, ops: seq<Op>)
    requires Mounted(fs) && AllEnabled(fs, ops)
    ensures Inv(Run(fs, ops)) && Lost(Run(fs, ops)) == AllLeaks(fs, ops)
  {
    MountedInv(fs);
    RunKeepsInv(fs, ops);
    RunLoses(fs, ops);
  }

  /** Both levels of reference count, and the link count, in every run. */
  lemma CountsAreExact(fs0: Fs, ops: seq<Op>, d: nat)
    requires Mounted(fs0) && AllEnabled(fs0, ops) && d in Run(fs0, ops).cache.dentries
    ensures var fs := Run(fs0, ops);
            && InodeOf(fs.cache, d).ref == |Holders(fs.cache, DentryAt(fs.cache, d).inode)|
            && DentryAt(fs.cache, d).dref == |OpenOn(fs.cache, d)|
            && InodeOf(fs.cache, d).meta.nlinks == DinodeAt(fs.disk, InodeOf(fs.cache, d).inum).nlinks
            && (d != fs.cache.root ==>
              InodeOf(fs.cache, d).meta.nlinks == |Links(TreeOf(fs.disk), InodeOf(fs.cache, d).inum)|)
  {
    EveryRunIsSound(fs0, ops);
    SoundCounts(Run(fs0, ops), d);
  }

  lemma SoundCounts(fs: Fs, d: nat)
    requires Inv(fs) && d in fs.cache.dentries
    ensures InodeOf(fs.cache, d).ref == |Holders(fs.cache, DentryAt(fs.cache, d).inode)|
    ensures DentryAt(fs.cache, d).dref == |OpenOn(fs.cache, d)|
    ensures InodeOf(fs.cache, d).meta.nlinks == DinodeAt(fs.disk, InodeOf(fs.cache, d).inum).nlinks
    ensures d != fs.cache.root ==>
      InodeOf(fs.cache, d).meta.nlinks == |Links(TreeOf(fs.disk), InodeOf(fs.cache, d).inum)|
  {
    SoundReferences(fs.cache, TreeOf(fs.disk), fs.disk.dinodes, d);
    SoundLinks(fs, d);
  }

  lemma SoundReferences(c: Cache, t: Tree, n: seq<Dinode>, d: nat)
    requires CacheInv(c, t, n) && d in c.dentries
    ensures InodeOf(c, d).ref == |Holders(c, DentryAt(c, d).inode)| && DentryAt(c, d).dref == |OpenOn(c, d)|
    ensures Live(n, InodeOf(c, d).inum) && InodeOf(c, d).meta.nlinks == n[InodeOf(c, d).inum].nlinks
  {
  }

  lemma SoundLinks(fs: Fs, d: nat)
    requires Inv(fs) && d in fs.cache.dentries && Live(fs.disk.dinodes, InodeOf(fs.cache, d).inum)
    requires InodeOf(fs.cache, d).meta.nlinks == fs.disk.dinodes[InodeOf(fs.cache, d).inum].nlinks
    ensures d != fs.cache.root ==>
      InodeOf(fs.cache, d).meta.nlinks == |Links(TreeOf(fs.disk), InodeOf(fs.cache, d).inum)|
  {
    RootIsZero(fs, d);
  }

  /** At most one vinode is cached per inode number, in every run. */
  lemma OneVinodePerInode(fs0: Fs, ops: seq<Op>, v: nat, w: nat)
    requires Mounted(fs0) && AllEnabled(fs0, ops)
    requires v in Run(fs0, ops).cache.vinodes && w in Run(fs0, ops).cache.vinodes
    requires Run(fs0, ops).cache.vinodes[v].inum == Run(fs0, ops).cache.vinodes[w].inum
    ensures v == w
  {
    EveryRunIsSound(fs0, ops);
  }

  /** In every run, unlinking an unopened file passes the asserts of rfs_unlink and vfs_unlink. */
  lemma UnlinkAssertsNeverFail(fs0: Fs, ops: seq<Op>, p: nat, d: nat)
    requires Mounted(fs0) && AllEnabled(fs0, ops) && CanUnlink(Run(fs0, ops), p, d)
    ensures var fs := Run(fs0, ops);
            var x := InodeOf(fs.cache, d);
            && DinodeAt(fs.disk, x.inum).nlinks == x.meta.nlinks
            && (x.meta.nlinks - 1 == 0 ==> x.ref - 1 == 0)
  {
    EveryRunIsSound(fs0, ops);
    AssertsHold(Run(fs0, ops), p, d);
  }

  /**
   In every run no block has two owners, and every held block is marked. The freemap is exact if and only if no unlink
   of the run removed a last name whose disk inode lagged.
   */
  lemma BlocksAreExactIff(fs0: Fs, ops: seq<Op>)
    requires Mounted(fs0) && AllEnabled(fs0, ops)
    ensures var fs := Run(fs0, ops);
            && Exclusive(Now(fs)) && HeldIsMarked(Now(fs), fs.disk.freemap)
            && (FreemapExact(Now(fs), fs.disk.freemap) <==> UnlinksUpToDate(fs0, ops))
  {
    var fs := Run(fs0, ops);
    EveryRunIsSound(fs0, ops);
    ExactIffNoneLost(Now(fs), fs.disk.freemap);
    MountedInv(fs0);
    NoLeaksIff(fs0, ops);
  }

  /** Every unlink that goes on finds, for a last name, a disk inode that lists every block. */
  ghost predicate UnlinksUpToDate(fs: Fs, ops: seq<Op>)
    decreases |ops|
  {
    || ops == []
    || (&& (ops[0].DoUnlink? && Removes(fs, ops[0].start, ops[0].path) ==>
              UpToDate(fs, PathWalk(fs, ops[0].start, ops[0].path)))
        && UnlinksUpToDate(Apply(fs, ops[0]), ops[1..]))
  }

  lemma {:induction false} NoLeaksIff(fs: Fs, ops: seq<Op>)
    requires Inv(fs) && AllEnabled(fs, ops)
    ensures AllLeaks(fs, ops) == {} <==> UnlinksUpToDate(fs, ops)
    decreases |ops|
  {
    if ops != [] {
      StepKeepsInv(fs, ops[0]);
      NoLeaksIff(Apply(fs, ops[0]), ops[1..]);
      if ops[0].DoUnlink? { PathLeaksIff(fs, ops[0].alloc, ops[0].start, ops[0].path); }
    }
  }

  /** Without writes no run loses a block. */
  lemma {:induction false} UnwrittenRunsLoseNothing(fs: Fs, ops: seq<Op>)
    requires Inv(fs) && Written(fs) && AllEnabled(fs, ops) && forall op :: op in ops ==> !op.DoWrite?
    ensures AllLeaks(fs, ops) == {}
    decreases |ops|
  {
    if ops != [] {
      StepKeepsInv(fs, ops[0]);
      if ops[0].DoUnlink? { WrittenLosesNothing(fs, ops[0].alloc, ops[0].start, ops[0].path); }
      UnwrittenRunsLoseNothing(Apply(fs, ops[0]), ops[1..]);
    }
  }

  /** In every run without writes, a freemap bit is set exactly when a live inode holds the block. */
  lemma BlocksAreExactWithoutWrites(fs0: Fs, ops: seq<Op>)
    requires Mounted(fs0) && AllEnabled(fs0, ops) && forall op :: op in ops ==> !op.DoWrite?
    ensures FreemapExact(Now(Run(fs0, ops)), Run(fs0, ops).disk.freemap)
  {
    var fs := Run(fs0, ops);
    MountedInv(fs0);
    EveryRunIsSound(fs0, ops);
    UnwrittenRunsLoseNothing(fs0, ops);
    ExactIffNoneLost(Now(fs), fs.disk.freemap);
  }
}
