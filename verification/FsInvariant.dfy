/**
 The global invariant of disk and caches together, and the proof that each step of the
 VFS operations keeps it.
 */
module FsInvariant {
  import opened RfsDir
  import opened FsState
  import opened FsTree
  import opened FsCache
  import opened FsDisk

  /** The inode contents in force: the cached copy when there is one. */
  ghost function Current(fs: Fs, i: nat): Dinode {
    if i in fs.cache.vhash then VinodeAt(fs.cache, fs.cache.vhash[i]).meta else DinodeAt(fs.disk, i)
  }

  ghost function Now(fs: Fs): (n: seq<Dinode>)
    ensures |n| == INODES
  {
    seq(INODES, i requires 0 <= i < INODES => Current(fs, i))
  }

  /** The disk copy may lag behind the cached one, but only by blocks appended since. */
  ghost predicate Behind(disk: Dinode, now: Dinode) {
    && |disk.addrs| == |now.addrs| == DIRECT
    && disk.kind == now.kind
    && disk.blocks <= now.blocks <= DIRECT
    && (forall j :: 0 <= j < disk.blocks ==> disk.addrs[j] == now.addrs[j])
  }

  ghost predicate DiskBehind(fs: Fs) {
    forall i: nat :: Live(fs.disk.dinodes, i) ==> Behind(fs.disk.dinodes[i], Current(fs, i))
  }

  ghost predicate Inv(fs: Fs) {
    && DiskShape(fs.disk)
    && TreeInv(TreeOf(fs.disk), fs.disk.dinodes)
    && CacheInv(fs.cache, TreeOf(fs.disk), fs.disk.dinodes)
    && Ownership(Now(fs), fs.disk.freemap)
    && DiskBehind(fs)
  }

  /** The blocks that are marked as used and belong to no inode in force. */
  ghost function Lost(fs: Fs): set<int> {
    LostBlocks(Now(fs), fs.disk.freemap)
  }

  /** Every disk inode lists all the blocks the inode has. */
  ghost predicate Written(fs: Fs) {
    forall i: nat :: Live(fs.disk.dinodes, i) ==> fs.disk.dinodes[i].blocks == Current(fs, i).blocks
  }

  /** A step that loses no block, and leaves no disk inode behind that was not behind before. */
  ghost predicate Steady(fs: Fs, fs1: Fs) {
    Lost(fs1) == Lost(fs) && (Written(fs) ==> Written(fs1))
  }

  lemma SteadyItself(fs: Fs)
    ensures Steady(fs, fs)
  {
  }

  lemma SteadyTransitive(fs: Fs, fs1: Fs, fs2: Fs)
    requires Steady(fs, fs1) && Steady(fs1, fs2)
    ensures Steady(fs, fs2)
  {
  }

  /** Inode contents in force are unaffected, block for block. */
  ghost predicate SameCurrent(fs: Fs, fs1: Fs) {
    forall i: nat :: i < INODES ==> Current(fs1, i) == Current(fs, i)
  }

  lemma SameCurrentKeepsBlocks(fs: Fs, fs1: Fs)
    requires Ownership(Now(fs), fs.disk.freemap) && SameCurrent(fs, fs1) && fs1.disk.freemap == fs.disk.freemap
    ensures Now(fs1) == Now(fs) && Ownership(Now(fs1), fs1.disk.freemap) && Lost(fs1) == Lost(fs)
  {
  }

  lemma SameCurrentIsSteady(fs: Fs, fs1: Fs)
    requires SameCurrent(fs, fs1) && fs1.disk.freemap == fs.disk.freemap && |fs.disk.dinodes| == INODES
    requires fs1.disk.dinodes == fs.disk.dinodes
    ensures Steady(fs, fs1)
  {
    assert Now(fs1) == Now(fs);
  }

  /** A step that leaves the disk alone and changes no inode contents. */
  lemma CacheStepKeepsInv(fs: Fs, fs1: Fs)
    requires Inv(fs) && fs1.disk == fs.disk && SameCurrent(fs, fs1)
    requires CacheInv(fs1.cache, TreeOf(fs.disk), fs.disk.dinodes)
    ensures Inv(fs1) && Steady(fs, fs1)
  {
    SameCurrentKeepsBlocks(fs, fs1);
    SameCurrentIsSteady(fs, fs1);
    assert forall i: nat :: Live(fs.disk.dinodes, i) ==> Current(fs1, i) == Current(fs, i);
  }

  // ---- lookup miss ----

  /**
   Nothing is lost: old dentries stay as they are, and so do disk and open files. New inodes are copies of the
   disk's.
   */
  ghost predicate OnlyCached(fs: Fs, fs1: Fs) {
    && fs1.disk == fs.disk
    && fs1.cache.root == fs.cache.root
    && fs1.cache.files == fs.cache.files
    && Grown(fs.cache, fs1.cache)
    && (forall v :: v in fs1.cache.vinodes && v !in fs.cache.vinodes ==>
          fs1.cache.vinodes[v].meta == DinodeAt(fs.disk, fs1.cache.vinodes[v].inum))
  }

  lemma OnlyCachedTransitive(fs: Fs, fs1: Fs, fs2: Fs)
    requires OnlyCached(fs, fs1) && OnlyCached(fs1, fs2)
    ensures OnlyCached(fs, fs2)
  {
  }

  /** What a miss adds: dentry `a` under `p`, for inode `i`. */
  ghost predicate NewChild(fs: Fs, fs1: Fs, a: nat, p: nat, name: string, i: nat) {
    && OnlyCached(fs, fs1)
    && a in fs1.cache.dentries && a !in fs.cache.dentries
    && DentryAt(fs1.cache, a).parent == p && DentryAt(fs1.cache, a).name == name
    && InodeOf(fs1.cache, a).inum == i
  }

  lemma AddOldNewChild(fs: Fs, a: nat, name: string, v: nat, p: nat)
    requires v in fs.cache.vinodes && a !in fs.cache.dentries
    ensures NewChild(fs, fs.(cache := AddOld(fs.cache, a, name, v, p)), a, p, name, fs.cache.vinodes[v].inum)
  {
  }

  lemma AddNewNewChild(fs: Fs, a: nat, name: string, v: nat, x: Vinode, p: nat)
    requires v !in fs.cache.vinodes && a !in fs.cache.dentries && x.meta == DinodeAt(fs.disk, x.inum)
    ensures NewChild(fs, fs.(cache := AddNew(fs.cache, a, name, v, x, p)), a, p, name, x.inum)
  {
  }

  lemma FreshPair(alloc: Alloc, c: Cache)
    requires FreshPages(alloc)
    ensures var a := alloc(Used(c));
            var v := alloc(Used(c) + {a});
            && a != NULL && a !in c.dentries && a !in c.vinodes && a !in c.files
            && v != NULL && v != a && v !in c.dentries && v !in c.vinodes && v !in c.files
  {
    var a := alloc(Used(c));
    assert a !in Used(c);
    assert alloc(Used(c) + {a}) !in Used(c) + {a};
  }

  lemma CacheChildKeepsInv(fs: Fs, alloc: Alloc, p: nat, name: string, i: nat)
    requires Inv(fs) && FreshPages(alloc) && IsDirDentry(fs.cache, p) && (p, name) !in fs.cache.dhash
    requires HasEntry(TreeOf(fs.disk), InodeOf(fs.cache, p).inum, name, i)
    ensures var (fs1, a) := CacheChild(fs, alloc, p, name, i);
            Inv(fs1) && Steady(fs, fs1) && NewChild(fs, fs1, a, p, name, i)
  {
    var c := fs.cache;
    var a := alloc(Used(c));
    FreshPair(alloc, c);
    if i in c.vhash {
      CacheOldKeepsInv(fs, a, name, c.vhash[i], p);
      AddOldNewChild(fs, a, name, c.vhash[i], p);
    } else {
      var v := alloc(Used(c) + {a});
      CacheNewKeepsInv(fs, a, name, v, i, p);
      AddNewNewChild(fs, a, name, v, Vinode(i, 1, DinodeAt(fs.disk, i)), p);
    }
  }

  lemma CacheOldKeepsInv(fs: Fs, a: nat, name: string, v: nat, p: nat)
    requires Inv(fs) && v in fs.cache.vinodes
    requires Uncached(fs.cache, TreeOf(fs.disk), a, p, name, fs.cache.vinodes[v].inum)
    ensures Inv(fs.(cache := AddOld(fs.cache, a, name, v, p)))
    ensures Steady(fs, fs.(cache := AddOld(fs.cache, a, name, v, p)))
  {
    AddOldKeepsCache(fs.cache, TreeOf(fs.disk), fs.disk.dinodes, a, name, v, p);
    AddOldSameCurrent(fs, a, name, v, p);
    CacheStepKeepsInv(fs, fs.(cache := AddOld(fs.cache, a, name, v, p)));
  }

  lemma AddOldSameCurrent(fs: Fs, a: nat, name: string, v: nat, p: nat)
    requires Hashed(fs.cache) && v in fs.cache.vinodes
    ensures SameCurrent(fs, fs.(cache := AddOld(fs.cache, a, name, v, p)))
  {
  }

  lemma AddNewSameCurrent(fs: Fs, a: nat, name: string, v: nat, i: nat, p: nat)
    requires Hashed(fs.cache) && v !in fs.cache.vinodes && i !in fs.cache.vhash
    ensures SameCurrent(fs, fs.(cache := AddNew(fs.cache, a, name, v, Vinode(i, 1, DinodeAt(fs.disk, i)), p)))
  {
  }

  lemma CacheNewKeepsInv(fs: Fs, a: nat, name: string, v: nat, i: nat, p: nat)
    requires Inv(fs) && v !in fs.cache.vinodes && i !in fs.cache.vhash
    requires Uncached(fs.cache, TreeOf(fs.disk), a, p, name, i)
    ensures var fs1 := fs.(cache := AddNew(fs.cache, a, name, v, Vinode(i, 1, DinodeAt(fs.disk, i)), p));
            Inv(fs1) && Steady(fs, fs1)
  {
    EntryIsLive(fs.disk, InodeOf(fs.cache, p).inum, name, i);
    AddNewKeepsCache(fs.cache, TreeOf(fs.disk), fs.disk.dinodes, a, name, v, Vinode(i, 1, DinodeAt(fs.disk, i)), p);
    AddNewSameCurrent(fs, a, name, v, i, p);
    CacheStepKeepsInv(fs, fs.(cache := AddNew(fs.cache, a, name, v, Vinode(i, 1, DinodeAt(fs.disk, i)), p)));
  }

  lemma EntryIsLive(k: Disk, d: nat, name: string, i: nat)
    requires TreeInv(TreeOf(k), k.dinodes) && HasEntry(TreeOf(k), d, name, i)
    ensures 0 < i && Live(k.dinodes, i)
  {
    assert Direntry(i, name) in TreeOf(k)[d];
  }

  // ---- open and close ----

  /** Opening and releasing files leaves every inode alone. */
  lemma FileStepKeepsInv(fs: Fs, c1: Cache)
    requires Inv(fs) && c1.vinodes == fs.cache.vinodes && c1.vhash == fs.cache.vhash
    requires CacheInv(c1, TreeOf(fs.disk), fs.disk.dinodes)
    ensures Inv(fs.(cache := c1)) && Steady(fs, fs.(cache := c1))
  {
    FilesSameCurrent(fs, c1);
    CacheStepKeepsInv(fs, fs.(cache := c1));
  }

  lemma FilesSameCurrent(fs: Fs, c1: Cache)
    requires c1.vinodes == fs.cache.vinodes && c1.vhash == fs.cache.vhash
    ensures SameCurrent(fs, fs.(cache := c1))
  {
  }

  lemma OpenFileKeepsInv(fs: Fs, alloc: Alloc, d: nat, readable: bool, writable: bool)
    requires Inv(fs) && FreshPages(alloc) && d in fs.cache.dentries
    ensures var (fs1, f) := OpenFile(fs, alloc, d, readable, writable);
            && Inv(fs1) && Steady(fs, fs1) && fs1.disk == fs.disk
            && f !in fs.cache.files && fs1.cache.files == fs.cache.files[f := File(d, readable, writable)]
  {
    var f := alloc(Used(fs.cache));
    OpenKeepsCache(fs.cache, TreeOf(fs.disk), fs.disk.dinodes, f, File(d, readable, writable));
    FileStepKeepsInv(fs, WithFile(fs.cache, f, File(d, readable, writable)));
  }

  lemma ReleaseFileKeepsInv(fs: Fs, f: nat)
    requires Inv(fs) && f in fs.cache.files
    ensures Inv(ReleaseFile(fs, f)) && Steady(fs, ReleaseFile(fs, f)) && ReleaseFile(fs, f).disk == fs.disk
  {
    ReleaseKeepsCache(fs.cache, TreeOf(fs.disk), fs.disk.dinodes, f);
    FileStepKeepsInv(fs, WithoutFile(fs.cache, f));
  }

  /** Same directories, same kinds and link counts: the tree invariant does not notice. */
  lemma TreeInvFrame(t: Tree, n0: seq<Dinode>, n1: seq<Dinode>)
    requires TreeInv(t, n0) && |n1| == |n0|
    requires forall i :: 0 <= i < |n0| ==> n1[i].kind == n0[i].kind && n1[i].nlinks == n0[i].nlinks
    ensures TreeInv(t, n1)
  {
    assert forall i: nat :: Live(n1, i) <==> Live(n0, i);
    assert forall i: nat :: IsDir(n1, i) <==> IsDir(n0, i);
  }

  /** Writing a file's cached inode to disk changes neither the tree nor what is in force. */
  lemma WriteBackKeepsInv(fs: Fs, v: nat)
    requires Inv(fs) && v in fs.cache.vinodes && fs.cache.vinodes[v].meta.kind == FileI
    ensures Inv(WriteBack(fs, v)) && Steady(fs, WriteBack(fs, v))
    ensures TreeOf(WriteBack(fs, v).disk) == TreeOf(fs.disk)
    ensures DinodeAt(WriteBack(fs, v).disk, fs.cache.vinodes[v].inum) == fs.cache.vinodes[v].meta
  {
    var fs1 := WriteBack(fs, v);
    WriteBackKeepsTree(fs, v);
    WriteBackKeepsDisk(fs, v);
    WriteBackKeepsCoherent(fs, v);
    SameCurrentKeepsBlocks(fs, fs1);
    if Written(fs) { WriteBackKeepsWritten(fs, v); }
  }

  lemma WriteBackKeepsWritten(fs: Fs, v: nat)
    requires DiskShape(fs.disk) && Hashed(fs.cache) && Coherent(fs.cache, fs.disk.dinodes)
    requires v in fs.cache.vinodes && SameCurrent(fs, WriteBack(fs, v)) && Written(fs)
    ensures Written(WriteBack(fs, v))
  {
    var fs1 := WriteBack(fs, v);
    forall i: nat | Live(fs1.disk.dinodes, i) ensures fs1.disk.dinodes[i].blocks == Current(fs1, i).blocks {
      if i != fs.cache.vinodes[v].inum { assert Live(fs.disk.dinodes, i); }
    }
  }

  lemma WriteBackKeepsDisk(fs: Fs, v: nat)
    requires DiskShape(fs.disk) && Hashed(fs.cache) && Coherent(fs.cache, fs.disk.dinodes) && DiskBehind(fs)
    requires v in fs.cache.vinodes && fs.cache.vinodes[v].meta.kind == FileI
    ensures DiskShape(WriteBack(fs, v).disk) && DiskBehind(WriteBack(fs, v)) && SameCurrent(fs, WriteBack(fs, v))
  {
    var i := fs.cache.vinodes[v].inum;
    assert Behind(fs.disk.dinodes[i], Current(fs, i));
    WriteBackSameCurrent(fs, v);
    WriteBackShape(fs, v);
    var fs1 := WriteBack(fs, v);
    forall j: nat | Live(fs1.disk.dinodes, j) ensures Behind(fs1.disk.dinodes[j], Current(fs1, j)) {
      assert Live(fs.disk.dinodes, j) && Current(fs1, j) == Current(fs, j);
    }
  }

  lemma WriteBackSameCurrent(fs: Fs, v: nat)
    requires Hashed(fs.cache) && v in fs.cache.vinodes
    ensures SameCurrent(fs, WriteBack(fs, v))
  {
  }

  lemma WriteBackShape(fs: Fs, v: nat)
    requires DiskShape(fs.disk) && Coherent(fs.cache, fs.disk.dinodes) && v in fs.cache.vinodes
    requires fs.cache.vinodes[v].meta.kind == FileI && |fs.cache.vinodes[v].meta.addrs| == DIRECT
    ensures DiskShape(WriteBack(fs, v).disk)
  {
    var fs1 := WriteBack(fs, v);
    forall d: nat | IsDir(fs1.disk.dinodes, d) ensures InodeOk(fs1.disk.dinodes[d]) {
      assert IsDir(fs.disk.dinodes, d) && d != fs.cache.vinodes[v].inum;
    }
  }

  lemma WriteBackKeepsCoherent(fs: Fs, v: nat)
    requires Hashed(fs.cache) && Coherent(fs.cache, fs.disk.dinodes) && v in fs.cache.vinodes
    ensures Coherent(fs.cache, WriteBack(fs, v).disk.dinodes)
  {
  }

  lemma WriteBackKeepsTree(fs: Fs, v: nat)
    requires Coherent(fs.cache, fs.disk.dinodes)
    requires v in fs.cache.vinodes && fs.cache.vinodes[v].meta.kind == FileI
    ensures TreeOf(WriteBack(fs, v).disk) == TreeOf(fs.disk)
    ensures TreeInv(TreeOf(fs.disk), fs.disk.dinodes) ==> TreeInv(TreeOf(fs.disk), WriteBack(fs, v).disk.dinodes)
  {
    if TreeInv(TreeOf(fs.disk), fs.disk.dinodes) {
      TreeInvFrame(TreeOf(fs.disk), fs.disk.dinodes, WriteBack(fs, v).disk.dinodes);
    }
  }
}
