/**
 The steps of the VFS operations that change the disk: forgetting a dentry on close,
 creating, linking and unlinking a name.
 */
module FsSteps {
  import opened RfsDir
  import opened FsState
  import opened FsTree
  import opened FsCache
  import opened FsDisk
  import opened FsInvariant

  // ---- close ----

  lemma DropDentryIs(c: Cache, d: nat)
    requires d in c.dentries && c.dentries[d].inode in c.vinodes
    ensures Dropped(c, d, false, DropDentry(c, d))
    ensures InodeOf(c, d).ref == 1 ==> Dropped(c, d, true, DropVinode(DropDentry(c, d), c.dentries[d].inode))
  {
    var v := c.dentries[d].inode;
    var c1 := DropVinode(DropDentry(c, d), v);
    assert c1.vinodes == c.vinodes - {v};
  }

  lemma DropSameCurrent(fs: Fs, d: nat, gone: bool, c1: Cache)
    requires Hashed(fs.cache) && d in fs.cache.dentries && fs.cache.dentries[d].inode in fs.cache.vinodes
    requires Dropped(fs.cache, d, gone, c1)
    requires gone ==> DinodeAt(fs.disk, InodeOf(fs.cache, d).inum) == InodeOf(fs.cache, d).meta
    ensures SameCurrent(fs, fs.(cache := c1))
  {
  }

  lemma DropKeepsInv(fs: Fs, d: nat, gone: bool, c1: Cache)
    requires Inv(fs) && Droppable(fs.cache, d) && Dropped(fs.cache, d, gone, c1)
    requires gone ==> DinodeAt(fs.disk, InodeOf(fs.cache, d).inum) == InodeOf(fs.cache, d).meta
    ensures Inv(fs.(cache := c1)) && Steady(fs, fs.(cache := c1))
  {
    DropKeepsCache(fs.cache, TreeOf(fs.disk), fs.disk.dinodes, d, gone, c1);
    DropSameCurrent(fs, d, gone, c1);
    CacheStepKeepsInv(fs, fs.(cache := c1));
  }

  lemma FileKind(fs: Fs, d: nat)
    requires Coherent(fs.cache, fs.disk.dinodes) && d in fs.cache.dentries && !IsDirDentry(fs.cache, d)
    requires fs.cache.dentries[d].inode in fs.cache.vinodes
    ensures InodeOf(fs.cache, d).meta.kind == FileI
  {
  }

  /** The end of vfs_close: the inode is written back exactly when its last dentry goes. */
  lemma ForgetDentryKeepsInv(fs: Fs, d: nat)
    requires Inv(fs) && Droppable(fs.cache, d)
    ensures Inv(ForgetDentry(fs, d)) && Steady(fs, ForgetDentry(fs, d))
    ensures TreeOf(ForgetDentry(fs, d).disk) == TreeOf(fs.disk)
  {
    var v := fs.cache.dentries[d].inode;
    DropDentryIs(fs.cache, d);
    FileKind(fs, d);
    if InodeOf(fs.cache, d).ref == 1 {
      WriteBackKeepsInv(fs, v);
      DropKeepsInv(WriteBack(fs, v), d, true, DropVinode(DropDentry(fs.cache, d), v));
    } else {
      DropKeepsInv(fs, d, false, DropDentry(fs.cache, d));
    }
  }

  // ---- create ----

  /** The disk part of rfs_create and rfs_mkdir. */
  ghost function CreateOnDisk(fs: Fs, pv: nat, name: string, kind: Kind): Fs {
    var (k, i) := NewInode(fs.disk, kind);
    AddDirentry(fs.(disk := k), pv, Direntry(i, name))
  }

  /** What creation needs: an inode, a block, and room in the directory's block. */
  predicate CanCreate(fs: Fs, p: nat) {
    && FirstFreeInode(fs.disk.dinodes) < |fs.disk.dinodes|
    && FirstFreeBlock(fs.disk.freemap) < |fs.disk.freemap|
    && InodeOf(fs.cache, p).meta.size < BLOCK_SIZE
  }

  ghost predicate NameIsFree(fs: Fs, p: nat, name: string) {
    var es := DirEntries(fs.disk.data, InodeOf(fs.cache, p).meta);
    forall j :: 0 <= j < |es| ==> es[j].name != name
  }

  /** The equations between the states before and after a directory vinode `pv` of inode `q` gains record `e`. */
  ghost predicate Recorded(fs: Fs, pv: nat, q: nat, e: Direntry, c1: Cache, data1: seq<Block>, m1: Dinode) {
    var m := VinodeAt(fs.cache, pv).meta;
    && pv in fs.cache.vinodes && fs.cache.vinodes[pv].inum == q
    && |m.addrs| == DIRECT
    && m1 == m.(size := m.size + ENTRY_SIZE)
    && data1 == WriteSlot(fs.disk.data, m.addrs[0], m.size % BLOCK_SIZE / ENTRY_SIZE, e)
    && c1 == SetMeta(fs.cache, pv, m1)
  }

  lemma AddDirentryIs(fs: Fs, pv: nat, e: Direntry)
    requires pv in fs.cache.vinodes && fs.cache.vinodes[pv].inum < |fs.disk.dinodes|
    requires |fs.cache.vinodes[pv].meta.addrs| == DIRECT && fs.cache.vinodes[pv].meta.size < BLOCK_SIZE
    ensures var q := fs.cache.vinodes[pv].inum;
            var m1 := fs.cache.vinodes[pv].meta.(size := fs.cache.vinodes[pv].meta.size + ENTRY_SIZE);
            var fs1 := AddDirentry(fs, pv, e);
            && Recorded(fs, pv, q, e, fs1.cache, fs1.disk.data, m1)
            && fs1.disk == Disk(fs.disk.dinodes[q := m1], fs1.disk.data, fs.disk.freemap)
  {
  }

  lemma SetMetaShape(c: Cache, v: nat, m: Dinode)
    requires v in c.vinodes && m.kind == c.vinodes[v].meta.kind
    ensures SameShape(c, SetMeta(c, v, m))
  {
    assert c.vinodes.Keys + {v} == c.vinodes.Keys;
  }

  /**
   Directory `q` gains record `e`, inodes in `fresh` may start as empty directories; all other directories are as
   before.
   */
  lemma RecordedTree(fs: Fs, pv: nat, q: nat, e: Direntry, c1: Cache, k1: Disk, m1: Dinode)
    requires DiskShape(fs.disk) && Exclusive(Now(fs)) && Hashed(fs.cache) && Coherent(fs.cache, fs.disk.dinodes)
    requires Recorded(fs, pv, q, e, c1, k1.data, m1)
    requires IsDir(fs.disk.dinodes, q) && VinodeAt(fs.cache, pv).meta.size < BLOCK_SIZE
    requires |k1.dinodes| == INODES && k1.dinodes[q] == m1
    ensures ValidData(k1.data) && InodeOk(m1)
    ensures DirEntries(k1.data, m1) == TreeOf(fs.disk)[q] + [e]
    ensures forall d: nat :: IsDir(fs.disk.dinodes, d) && d != q ==>
      DirEntries(k1.data, fs.disk.dinodes[d]) == TreeOf(fs.disk)[d]
  {
    var m := VinodeAt(fs.cache, pv).meta;
    AppendRecord(fs.disk.data, m, e);
    forall d: nat | IsDir(fs.disk.dinodes, d) && d != q
      ensures DirEntries(k1.data, fs.disk.dinodes[d]) == TreeOf(fs.disk)[d]
    {
      DirectoryBlocksDiffer(fs, d, q);
      DirEntriesFrame(fs.disk.data, k1.data, fs.disk.dinodes[d]);
    }
  }

  lemma DirectoryNow(fs: Fs, d: nat)
    requires DiskShape(fs.disk) && Hashed(fs.cache) && Coherent(fs.cache, fs.disk.dinodes) && IsDir(fs.disk.dinodes, d)
    ensures Now(fs)[d] == fs.disk.dinodes[d]
  {
  }

  lemma DirectoryBlocksDiffer(fs: Fs, d: nat, q: nat)
    requires DiskShape(fs.disk) && Exclusive(Now(fs)) && Hashed(fs.cache) && Coherent(fs.cache, fs.disk.dinodes)
    requires IsDir(fs.disk.dinodes, d) && IsDir(fs.disk.dinodes, q) && d != q
    ensures fs.disk.dinodes[d].addrs[0] != fs.disk.dinodes[q].addrs[0]
  {
    DirectoryNow(fs, d);
    DirectoryNow(fs, q);
    var b := fs.disk.dinodes[d].addrs[0];
    assert Owned(fs.disk.dinodes[d])[0] == b;
    assert Owned(fs.disk.dinodes[q])[0] == fs.disk.dinodes[q].addrs[0];
    assert Owns(Now(fs), d, b);
    assert Owns(Now(fs), q, fs.disk.dinodes[q].addrs[0]);
  }

  /** The state after creation, spelled out: inode `i` on block `b`, parent inode `q` one record longer. */
  ghost predicate Created(fs: Fs, fs1: Fs, pv: nat, q: nat, name: string, i: nat, b: nat, m: Dinode, m1: Dinode) {
    && q < |fs.disk.dinodes| && i < |fs.disk.dinodes| && b < |fs.disk.freemap|
    && |m.addrs| == DIRECT && m.addrs[0] == FIRST_DATA + b && m.blocks == 1 && m.size == 0 && m.nlinks == 1
    && fs.disk.dinodes[i].kind == FreeI && fs.disk.freemap[b] == 0
    && Recorded(fs, pv, q, Direntry(i, name), fs1.cache, fs1.disk.data, m1)
    && fs1.disk.dinodes == fs.disk.dinodes[i := m][q := m1]
    && fs1.disk.freemap == fs.disk.freemap[b := 1]
  }

  lemma CreateOnDiskIs(fs: Fs, pv: nat, name: string, kind: Kind)
    requires DiskShape(fs.disk) && Coherent(fs.cache, fs.disk.dinodes)
    requires pv in fs.cache.vinodes && fs.cache.vinodes[pv].meta.kind == DirI
    requires fs.cache.vinodes[pv].meta.size < BLOCK_SIZE
    requires FirstFreeInode(fs.disk.dinodes) < |fs.disk.dinodes| && FirstFreeBlock(fs.disk.freemap) < |fs.disk.freemap|
    ensures var i := FirstFreeInode(fs.disk.dinodes);
            var fs1 := CreateOnDisk(fs, pv, name, kind);
            var q := fs.cache.vinodes[pv].inum;
            && q != i && fs1.disk.dinodes[i].kind == kind
            && Created(fs, fs1, pv, q, name, i, FirstFreeBlock(fs.disk.freemap), fs1.disk.dinodes[i],
                       fs1.disk.dinodes[q])
  {
    var (k, i) := NewInode(fs.disk, kind);
    AddDirentryIs(fs.(disk := k), pv, Direntry(i, name));
  }

  ghost predicate CreateReady(fs: Fs, fs1: Fs, pv: nat, q: nat, name: string, i: nat, b: nat, m: Dinode, m1: Dinode) {
    && Inv(fs)
    && Created(fs, fs1, pv, q, name, i, b, m, m1)
    && m.kind != FreeI
    && q != i && IsDir(fs.disk.dinodes, q) && VinodeAt(fs.cache, pv).meta.size < BLOCK_SIZE
  }

  /** Reading the tree after directory `q` gained a record and inode `i` came to life. */
  lemma TreeAfterCreate(k: Disk, k1: Disk, q: nat, i: nat, m: Dinode, m1: Dinode, e: Direntry)
    requires q < |k.dinodes| && i < |k.dinodes| && i != q && IsDir(k.dinodes, q) && k.dinodes[i].kind == FreeI
    requires k1.dinodes == k.dinodes[i := m][q := m1] && m1.kind == DirI
    requires m.kind == DirI ==> DirEntries(k1.data, m) == []
    requires DirEntries(k1.data, m1) == TreeOf(k)[q] + [e]
    requires forall d: nat :: IsDir(k.dinodes, d) && d != q ==> DirEntries(k1.data, k.dinodes[d]) == TreeOf(k)[d]
    ensures var t := TreeOf(k);
            TreeOf(k1) == (if m.kind == DirI then t[i := []] else t)[q := t[q] + [e]]
  {
    var t := TreeOf(k);
    var t1 := TreeOf(k1);
    var want := (if m.kind == DirI then t[i := []] else t)[q := t[q] + [e]];
    forall d: nat | d in want ensures d in t1 && t1[d] == want[d] {
      if d != q && d != i { assert IsDir(k.dinodes, d); }
    }
    forall d: nat | d in t1 ensures d in want {
      if d != q && d != i { assert IsDir(k.dinodes, d); }
    }
  }

  lemma NewDirIsEmpty(data: seq<Block>, m: Dinode)
    requires ValidData(data) && m.size == 0 && m.blocks == 1 && |m.addrs| == DIRECT && 0 <= m.addrs[0] < DISK_BLOCKS
    ensures DirEntries(data, m) == []
  {
    assert m.size / ENTRY_SIZE == 0;
    assert m.addrs[..m.blocks][0] == m.addrs[0];
  }

  lemma CreatedTree(fs: Fs, fs1: Fs, pv: nat, q: nat, name: string, i: nat, b: nat, m: Dinode, m1: Dinode)
    requires CreateReady(fs, fs1, pv, q, name, i, b, m, m1)
    ensures var t := TreeOf(fs.disk);
            TreeOf(fs1.disk) == (if m.kind == DirI then t[i := []] else t)[q := t[q] + [Direntry(i, name)]]
    ensures ValidData(fs1.disk.data) && InodeOk(m1)
  {
    RecordedTree(fs, pv, q, Direntry(i, name), fs1.cache, fs1.disk, m1);
    NewDirIsEmpty(fs1.disk.data, m);
    TreeAfterCreate(fs.disk, fs1.disk, q, i, m, m1, Direntry(i, name));
  }

  lemma CreatedTreeInv(fs: Fs, fs1: Fs, pv: nat, q: nat, name: string, i: nat, b: nat, m: Dinode, m1: Dinode)
    requires CreateReady(fs, fs1, pv, q, name, i, b, m, m1)
    requires forall j :: 0 <= j < |TreeOf(fs.disk)[q]| ==> TreeOf(fs.disk)[q][j].name != name
    ensures TreeInv(TreeOf(fs1.disk), fs1.disk.dinodes)
  {
    CreatedTree(fs, fs1, pv, q, name, i, b, m, m1);
    assert i != 0 by { assert IsDir(fs.disk.dinodes, 0); }
    assert fs.disk.dinodes[q].nlinks == m1.nlinks && fs.disk.dinodes[q].kind == m1.kind;
    CreatedTreeFrom(TreeOf(fs.disk), fs.disk.dinodes, q, name, i, m, m1, fs1.disk.dinodes);
  }

  lemma CreatedTreeFrom(t: Tree, n0: seq<Dinode>, q: nat, name: string, i: nat, m: Dinode, m1: Dinode, n1: seq<Dinode>)
    requires TreeInv(t, n0) && q in t && q < |n0| && 0 < i < |n0| && q != i && n0[i].kind == FreeI
    requires forall j :: 0 <= j < |t[q]| ==> t[q][j].name != name
    requires m.kind != FreeI && m.nlinks == 1 && n1 == n0[i := m][q := m1]
    requires n0[q].nlinks == m1.nlinks && n0[q].kind == m1.kind
    ensures TreeInv((if m.kind == DirI then t[i := []] else t)[q := t[q] + [Direntry(i, name)]], n1)
  {
    CreateKeepsTree(t, n0, q, Direntry(i, name),
                    (if m.kind == DirI then t[i := []] else t)[q := t[q] + [Direntry(i, name)]], n1);
  }

  lemma CreatedDiskShape(fs: Fs, fs1: Fs, pv: nat, q: nat, name: string, i: nat, b: nat, m: Dinode, m1: Dinode)
    requires DiskShape(fs.disk) && Created(fs, fs1, pv, q, name, i, b, m, m1)
    requires |fs.disk.freemap| == DATA_BLOCKS && ValidData(fs1.disk.data) && InodeOk(m1) && q != i
    ensures DiskShape(fs1.disk)
  {
    forall d: nat | IsDir(fs1.disk.dinodes, d) ensures InodeOk(fs1.disk.dinodes[d]) {
      if d != q && d != i { assert IsDir(fs.disk.dinodes, d); }
    }
  }

  /** The new inode is not cached: only live inodes are. */
  lemma FreeInodeUncached(fs: Fs, i: nat)
    requires Hashed(fs.cache) && Coherent(fs.cache, fs.disk.dinodes) && !Live(fs.disk.dinodes, i)
    ensures i !in fs.cache.vhash
  {
  }

  lemma CreatedCoherent(fs: Fs, fs1: Fs, pv: nat, q: nat, name: string, i: nat, b: nat, m: Dinode, m1: Dinode)
    requires Hashed(fs.cache) && Coherent(fs.cache, fs.disk.dinodes)
    requires Created(fs, fs1, pv, q, name, i, b, m, m1) && q != i
    ensures Coherent(fs1.cache, fs1.disk.dinodes) && SameShape(fs.cache, fs1.cache)
  {
    FreeInodeUncached(fs, i);
    SetMetaShape(fs.cache, pv, m1);
    forall v | v in fs1.cache.vinodes ensures fs1.cache.vinodes[v].inum != i
      && (v != pv ==> fs1.cache.vinodes[v].inum != q) {
      assert v in fs.cache.vinodes;
    }
  }

  lemma CreatedCurrent(fs: Fs, fs1: Fs, pv: nat, q: nat, name: string, i: nat, b: nat, m: Dinode, m1: Dinode)
    requires DiskShape(fs.disk) && Hashed(fs.cache) && Coherent(fs.cache, fs.disk.dinodes)
    requires Created(fs, fs1, pv, q, name, i, b, m, m1) && q != i
    ensures Now(fs1) == Now(fs)[i := m][q := m1] && Now(fs)[i] == fs.disk.dinodes[i]
    ensures Now(fs)[q] == VinodeAt(fs.cache, pv).meta
  {
    FreeInodeUncached(fs, i);
  }

  lemma CreatedOwnership(fs: Fs, fs1: Fs, pv: nat, q: nat, name: string, i: nat, b: nat, m: Dinode, m1: Dinode)
    requires DiskShape(fs.disk) && Hashed(fs.cache) && Coherent(fs.cache, fs.disk.dinodes)
    requires Ownership(Now(fs), fs.disk.freemap)
    requires Created(fs, fs1, pv, q, name, i, b, m, m1) && q != i && m.kind != FreeI && InodeOk(m1) && m1.kind == DirI
    ensures Ownership(Now(fs1), fs1.disk.freemap) && Lost(fs1) == Lost(fs)
  {
    CreatedCurrent(fs, fs1, pv, q, name, i, b, m, m1);
    var n := Now(fs)[i := m];
    assert Owned(m) == [FIRST_DATA + b];
    GrantBlock(Now(fs), n, fs.disk.freemap, i, b);
    assert m1.addrs == n[q].addrs && m1.blocks == n[q].blocks && m1.kind == n[q].kind;
    ResizedOwnership(n, q, m1, fs1.disk.freemap);
  }

  lemma ResizedOwnership(n: seq<Dinode>, q: nat, m: Dinode, freemap: seq<nat>)
    requires Ownership(n, freemap) && q < |n| && InodeOk(m)
    requires m.addrs == n[q].addrs && m.blocks == n[q].blocks && m.kind == n[q].kind
    ensures Ownership(n[q := m], freemap) && LostBlocks(n[q := m], freemap) == LostBlocks(n, freemap)
  {
    assert forall j: nat :: Live(n, j) <==> Live(n[q := m], j);
    SameOwnership(n, n[q := m], freemap);
  }

  lemma CreatedBehind(fs: Fs, fs1: Fs, pv: nat, q: nat, name: string, i: nat, b: nat, m: Dinode, m1: Dinode)
    requires DiskShape(fs.disk) && Hashed(fs.cache) && Coherent(fs.cache, fs.disk.dinodes) && DiskBehind(fs)
    requires Created(fs, fs1, pv, q, name, i, b, m, m1) && q != i && InodeOk(m1)
    ensures DiskBehind(fs1)
  {
    CreatedCurrent(fs, fs1, pv, q, name, i, b, m, m1);
    forall j: nat | Live(fs1.disk.dinodes, j) ensures Behind(fs1.disk.dinodes[j], Current(fs1, j)) {
      assert Current(fs1, j) == Now(fs1)[j];
      if j != i && j != q { assert Live(fs.disk.dinodes, j) && Current(fs, j) == Now(fs)[j]; }
    }
  }

  lemma CreatedWritten(fs: Fs, fs1: Fs, pv: nat, q: nat, name: string, i: nat, b: nat, m: Dinode, m1: Dinode)
    requires DiskShape(fs.disk) && Hashed(fs.cache) && Coherent(fs.cache, fs.disk.dinodes) && Written(fs)
    requires Created(fs, fs1, pv, q, name, i, b, m, m1) && q != i
    ensures Written(fs1)
  {
    CreatedCurrent(fs, fs1, pv, q, name, i, b, m, m1);
    forall j: nat | Live(fs1.disk.dinodes, j) ensures fs1.disk.dinodes[j].blocks == Current(fs1, j).blocks {
      assert Current(fs1, j) == Now(fs1)[j];
      if j != i && j != q { assert Live(fs.disk.dinodes, j) && Current(fs, j) == Now(fs)[j]; }
    }
  }

  /** Records are only added. */
  ghost predicate KeepsEntries(t: Tree, t1: Tree) {
    forall d: nat, name, i: nat :: HasEntry(t, d, name, i) ==> HasEntry(t1, d, name, i)
  }

  lemma AppendKeepsEntries(t: Tree, q: nat, i: nat, e: Direntry, isDir: bool)
    requires q in t && (isDir ==> i !in t)
    ensures KeepsEntries(t, (if isDir then t[i := []] else t)[q := t[q] + [e]])
  {
  }

  lemma CreatedKeepsEntries(fs: Fs, fs1: Fs, pv: nat, q: nat, name: string, i: nat, b: nat, m: Dinode, m1: Dinode)
    requires CreateReady(fs, fs1, pv, q, name, i, b, m, m1)
    ensures KeepsEntries(TreeOf(fs.disk), TreeOf(fs1.disk))
  {
    CreatedTree(fs, fs1, pv, q, name, i, b, m, m1);
    AppendKeepsEntries(TreeOf(fs.disk), q, i, Direntry(i, name), m.kind == DirI);
  }

  /** A cache that differs by new contents for vinode `v` only. */
  lemma SetMetaKeepsCache(fs: Fs, v: nat, m: Dinode, k1: Disk)
    requires CacheInv(fs.cache, TreeOf(fs.disk), fs.disk.dinodes)
    requires v in fs.cache.vinodes && m.kind == fs.cache.vinodes[v].meta.kind
    requires KeepsEntries(TreeOf(fs.disk), TreeOf(k1))
    requires Coherent(SetMeta(fs.cache, v, m), k1.dinodes)
    ensures CacheInv(SetMeta(fs.cache, v, m), TreeOf(k1), k1.dinodes)
  {
    SetMetaShape(fs.cache, v, m);
    MetaKeepsCache(fs.cache, TreeOf(fs.disk), fs.disk.dinodes, SetMeta(fs.cache, v, m), TreeOf(k1), k1.dinodes);
  }

  lemma CreatedCache(fs: Fs, fs1: Fs, pv: nat, q: nat, name: string, i: nat, b: nat, m: Dinode, m1: Dinode)
    requires CreateReady(fs, fs1, pv, q, name, i, b, m, m1)
    ensures CacheInv(fs1.cache, TreeOf(fs1.disk), fs1.disk.dinodes)
  {
    CreatedKeepsEntries(fs, fs1, pv, q, name, i, b, m, m1);
    CreatedCoherent(fs, fs1, pv, q, name, i, b, m, m1);
    SetMetaKeepsCache(fs, pv, m1, fs1.disk);
  }

  lemma CreatedInv(fs: Fs, fs1: Fs, pv: nat, q: nat, name: string, i: nat, b: nat, m: Dinode, m1: Dinode)
    requires CreateReady(fs, fs1, pv, q, name, i, b, m, m1)
    requires forall j :: 0 <= j < |TreeOf(fs.disk)[q]| ==> TreeOf(fs.disk)[q][j].name != name
    ensures Inv(fs1) && Steady(fs, fs1)
  {
    CreatedTree(fs, fs1, pv, q, name, i, b, m, m1);
    CreatedTreeInv(fs, fs1, pv, q, name, i, b, m, m1);
    CreatedDiskShape(fs, fs1, pv, q, name, i, b, m, m1);
    CreatedCache(fs, fs1, pv, q, name, i, b, m, m1);
    CreatedOwnership(fs, fs1, pv, q, name, i, b, m, m1);
    CreatedBehind(fs, fs1, pv, q, name, i, b, m, m1);
    if Written(fs) { CreatedWritten(fs, fs1, pv, q, name, i, b, m, m1); }
  }

  lemma CreateChildIs(fs: Fs, alloc: Alloc, p: nat, name: string, kind: Kind)
    requires DiskShape(fs.disk) && Hashed(fs.cache) && Coherent(fs.cache, fs.disk.dinodes)
    requires IsDirDentry(fs.cache, p) && fs.cache.dentries[p].inode in fs.cache.vinodes && CanCreate(fs, p)
    ensures var i := FirstFreeInode(fs.disk.dinodes);
            var fs1 := CreateOnDisk(fs, fs.cache.dentries[p].inode, name, kind);
            CreateChild(fs, alloc, p, name, kind) == CacheChild(fs1, alloc, p, name, i)
  {
    var pv := fs.cache.dentries[p].inode;
    var i := FirstFreeInode(fs.disk.dinodes);
    var fs1 := CreateOnDisk(fs, pv, name, kind);
    CreateOnDiskIs(fs, pv, name, kind);
    FreeInodeUncached(fs, i);
    assert fs1.cache.vinodes.Keys == fs.cache.vinodes.Keys;
    assert Used(fs1.cache) == Used(fs.cache);
    var (k, j) := NewInode(fs.disk, kind);
    assert j == i && DinodeAt(k, i) == DinodeAt(fs1.disk, i);
  }

  /** rfs_create or rfs_mkdir with the caches brought up to date. */
  lemma CreateChildKeepsInv(fs: Fs, alloc: Alloc, p: nat, name: string, kind: Kind)
    requires Inv(fs) && FreshPages(alloc) && kind != FreeI
    requires IsDirDentry(fs.cache, p) && (p, name) !in fs.cache.dhash && NameIsFree(fs, p, name) && CanCreate(fs, p)
    ensures var q := InodeOf(fs.cache, p).inum;
            var i := FirstFreeInode(fs.disk.dinodes);
            var t := TreeOf(fs.disk);
            var (fs1, a) := CreateChild(fs, alloc, p, name, kind);
            && Inv(fs1) && Steady(fs, fs1) && a in fs1.cache.dentries && InodeOf(fs1.cache, a).inum == i
            && q in t && TreeOf(fs1.disk) == (if kind == DirI then t[i := []] else t)[q := t[q] + [Direntry(i, name)]]
  {
    var pv := fs.cache.dentries[p].inode;
    var i := FirstFreeInode(fs.disk.dinodes);
    var q := InodeOf(fs.cache, p).inum;
    var fs1 := CreateOnDisk(fs, pv, name, kind);
    CreateOnDiskKeepsInv(fs, p, name, kind);
    CreateChildIs(fs, alloc, p, name, kind);
    assert IsDirDentry(fs1.cache, p);
    CacheChildKeepsInv(fs1, alloc, p, name, i);
  }

  /** What creation does to the cached inodes, whatever the disk gave it: the directory grows, and `v` is new. */
  lemma CreatedVinodes(fs: Fs, alloc: Alloc, p: nat, name: string, kind: Kind)
    ensures var pv, a := DentryAt(fs.cache, p).inode, alloc(Used(fs.cache));
            var v, m := alloc(Used(fs.cache) + {a}), VinodeAt(fs.cache, pv).meta;
            var i := PickedInode(fs.disk.dinodes);
            CreateChild(fs, alloc, p, name, kind).0.cache.vinodes ==
              SetMeta(fs.cache, pv,
                m.(size := m.size + ENTRY_SIZE)).vinodes[v := Vinode(i, 1, DinodeAt(NewInode(fs.disk, kind).0, i))]
  {
  }

  lemma CreatedDentries(fs: Fs, alloc: Alloc, p: nat, name: string, kind: Kind)
    ensures var a := alloc(Used(fs.cache));
            var c1 := CreateChild(fs, alloc, p, name, kind).0.cache;
            && c1.root == fs.cache.root && c1.files == fs.cache.files && CreateChild(fs, alloc, p, name, kind).1 == a
            && c1.dentries == fs.cache.dentries[a := Dentry(name, 0, alloc(Used(fs.cache) + {a}), p)]
  {
  }

  /** Two cached inodes with one number, or a cached directory longer than its block. */
  ghost predicate BadVinodes(vinodes: map<nat, Vinode>) {
    || (exists v, w :: v in vinodes && w in vinodes && v != w && vinodes[v].inum == vinodes[w].inum)
    || (exists v :: v in vinodes && vinodes[v].meta.kind == DirI && vinodes[v].meta.size > BLOCK_SIZE)
  }

  lemma BadIsUnsound(fs: Fs)
    requires BadVinodes(fs.cache.vinodes)
    ensures !Inv(fs)
  {
    var vs := fs.cache.vinodes;
    if v, w :| v in vs && w in vs && v != w && vs[v].inum == vs[w].inum {
      TwoVinodes(fs.cache, v, w);
    } else {
      var v :| v in fs.cache.vinodes && fs.cache.vinodes[v].meta.kind == DirI
        && fs.cache.vinodes[v].meta.size > BLOCK_SIZE;
      NotTooLong(fs, v);
    }
  }

  lemma TwoVinodes(c: Cache, v: nat, w: nat)
    requires v in c.vinodes && w in c.vinodes && v != w && c.vinodes[v].inum == c.vinodes[w].inum
    ensures !Hashed(c)
  {
  }

  lemma NotTooLong(fs: Fs, v: nat)
    requires v in fs.cache.vinodes && fs.cache.vinodes[v].meta.kind == DirI
    requires fs.cache.vinodes[v].meta.size > BLOCK_SIZE
    ensures !Inv(fs)
  {
    if Inv(fs) { DirectoryFits(fs, v); }
  }

  lemma DirectoryFits(fs: Fs, v: nat)
    requires Inv(fs) && v in fs.cache.vinodes && fs.cache.vinodes[v].meta.kind == DirI
    ensures fs.cache.vinodes[v].meta.size <= BLOCK_SIZE
  {
    assert IsDir(fs.disk.dinodes, fs.cache.vinodes[v].inum);
  }

  /** With no free inode the code goes on with the root's number, and caches a second vinode for it. */
  lemma SecondRoot(fs: Fs, alloc: Alloc, p: nat, name: string, kind: Kind)
    requires Anchored(fs.cache, TreeOf(fs.disk)) && FreshPages(alloc) && DentryAt(fs.cache, p).inode in fs.cache.vinodes
    requires FirstFreeInode(fs.disk.dinodes) == |fs.disk.dinodes|
    ensures BadVinodes(CreateChild(fs, alloc, p, name, kind).0.cache.vinodes)
  {
    FreshPair(alloc, fs.cache);
    CreatedVinodes(fs, alloc, p, name, kind);
    var vs := CreateChild(fs, alloc, p, name, kind).0.cache.vinodes;
    var v, w := alloc(Used(fs.cache) + {alloc(Used(fs.cache))}), DentryAt(fs.cache, fs.cache.root).inode;
    assert v in vs && w in vs && v != w && vs[v].inum == vs[w].inum;
  }

  /** A record for a full directory makes it longer than its block. */
  lemma OutgrownDirectory(fs: Fs, alloc: Alloc, p: nat, name: string, kind: Kind)
    requires FreshPages(alloc) && DentryAt(fs.cache, p).inode in fs.cache.vinodes
    requires InodeOf(fs.cache, p).meta.kind == DirI && InodeOf(fs.cache, p).meta.size >= BLOCK_SIZE
    ensures BadVinodes(CreateChild(fs, alloc, p, name, kind).0.cache.vinodes)
  {
    FreshPair(alloc, fs.cache);
    CreatedVinodes(fs, alloc, p, name, kind);
    var vs, pv := CreateChild(fs, alloc, p, name, kind).0.cache.vinodes, DentryAt(fs.cache, p).inode;
    assert pv in vs && vs[pv].meta.kind == DirI && vs[pv].meta.size > BLOCK_SIZE;
  }

  /** Without a free inode, or room in the directory, creation leaves caches that no sound state has. */
  lemma CreateBreaks(fs: Fs, alloc: Alloc, p: nat, name: string, kind: Kind)
    requires Inv(fs) && FreshPages(alloc) && IsDirDentry(fs.cache, p)
    requires FirstFreeInode(fs.disk.dinodes) == |fs.disk.dinodes| || InodeOf(fs.cache, p).meta.size >= BLOCK_SIZE
    ensures BadVinodes(CreateChild(fs, alloc, p, name, kind).0.cache.vinodes)
  {
    if FirstFreeInode(fs.disk.dinodes) == |fs.disk.dinodes| {
      SecondRoot(fs, alloc, p, name, kind);
    } else {
      OutgrownDirectory(fs, alloc, p, name, kind);
    }
  }

  lemma CreateOnDiskKeepsInv(fs: Fs, p: nat, name: string, kind: Kind)
    requires Inv(fs) && kind != FreeI && IsDirDentry(fs.cache, p) && NameIsFree(fs, p, name) && CanCreate(fs, p)
    ensures var q := InodeOf(fs.cache, p).inum;
            var i := FirstFreeInode(fs.disk.dinodes);
            var t := TreeOf(fs.disk);
            var fs1 := CreateOnDisk(fs, fs.cache.dentries[p].inode, name, kind);
            && Inv(fs1) && Steady(fs, fs1) && fs1.cache.dentries == fs.cache.dentries
              && fs1.cache.dhash == fs.cache.dhash
            && InodeOf(fs1.cache, p).inum == q && InodeOf(fs1.cache, p).meta.kind == DirI
            && q in t && TreeOf(fs1.disk) == (if kind == DirI then t[i := []] else t)[q := t[q] + [Direntry(i, name)]]
            && HasEntry(TreeOf(fs1.disk), q, name, i)
  {
    var i := FirstFreeInode(fs.disk.dinodes);
    var q := InodeOf(fs.cache, p).inum;
    var fs1 := CreateOnDisk(fs, fs.cache.dentries[p].inode, name, kind);
    DirectoryRead(fs, p);
    var m, m1 := CreateIsReady(fs, p, name, kind);
    CreatedFacts(fs, fs1, p, q, name, i, FirstFreeBlock(fs.disk.freemap), m, m1);
    CreatedInv(fs, fs1, fs.cache.dentries[p].inode, q, name, i, FirstFreeBlock(fs.disk.freemap), m, m1);
  }

  lemma CreateIsReady(fs: Fs, p: nat, name: string, kind: Kind) returns (m: Dinode, m1: Dinode)
    requires Inv(fs) && kind != FreeI && IsDirDentry(fs.cache, p) && CanCreate(fs, p)
    ensures var pv := fs.cache.dentries[p].inode;
            CreateReady(fs, CreateOnDisk(fs, pv, name, kind), pv, InodeOf(fs.cache, p).inum, name,
                        FirstFreeInode(fs.disk.dinodes), FirstFreeBlock(fs.disk.freemap), m, m1)
    ensures m.kind == kind
  {
    var pv := fs.cache.dentries[p].inode;
    var fs1 := CreateOnDisk(fs, pv, name, kind);
    CreateOnDiskIs(fs, pv, name, kind);
    m := fs1.disk.dinodes[FirstFreeInode(fs.disk.dinodes)];
    m1 := fs1.disk.dinodes[InodeOf(fs.cache, p).inum];
  }

  lemma CreatedFacts(fs: Fs, fs1: Fs, p: nat, q: nat, name: string, i: nat, b: nat, m: Dinode, m1: Dinode)
    requires CreateReady(fs, fs1, DentryAt(fs.cache, p).inode, q, name, i, b, m, m1)
    ensures fs1.cache.dentries == fs.cache.dentries && fs1.cache.dhash == fs.cache.dhash
    ensures InodeOf(fs1.cache, p).inum == q && InodeOf(fs1.cache, p).meta.kind == DirI
    ensures var t := TreeOf(fs.disk);
            && q in t && TreeOf(fs1.disk) == (if m.kind == DirI then t[i := []] else t)[q := t[q] + [Direntry(i, name)]]
            && HasEntry(TreeOf(fs1.disk), q, name, i)
  {
    CreatedTree(fs, fs1, DentryAt(fs.cache, p).inode, q, name, i, b, m, m1);
    LastRecord(TreeOf(fs1.disk), TreeOf(fs.disk)[q], q, name, i);
  }

  lemma LastRecord(t: Tree, es: seq<Direntry>, q: nat, name: string, i: nat)
    requires q in t && t[q] == es + [Direntry(i, name)]
    ensures HasEntry(t, q, name, i)
  {
    assert t[q][|es|] == Direntry(i, name);
  }

  /** A directory dentry reads the directory it denotes. */
  lemma DirectoryRead(fs: Fs, p: nat)
    requires TreeShape(TreeOf(fs.disk), fs.disk.dinodes) && Coherent(fs.cache, fs.disk.dinodes)
    requires IsDirDentry(fs.cache, p) && fs.cache.dentries[p].inode in fs.cache.vinodes
    ensures var q := InodeOf(fs.cache, p).inum;
            && IsDir(fs.disk.dinodes, q) && q in TreeOf(fs.disk)
            && DirEntries(fs.disk.data, InodeOf(fs.cache, p).meta) == TreeOf(fs.disk)[q]
  {
  }
}
