/**
 Hard links: adding a name for a file and taking one away. The removal of the last name
 is where the caches, the link count on disk and the block freemap have to agree.
 */
module FsLinks {
  import opened RfsDir
  import opened FsState
  import opened FsTree
  import opened FsCache
  import opened FsDisk
  import opened FsInvariant
  import opened FsSteps
  import opened FsLookup

  // ---- link ----

  /** The part of LinkName that does not concern the new dentry. */
  ghost function LinkOnDisk(fs: Fs, pv: nat, name: string, v: nat): Fs {
    var x := VinodeAt(fs.cache, v);
    var c := SetMeta(fs.cache, v, x.meta.(nlinks := x.meta.nlinks + 1));
    WriteBack(AddDirentry(fs.(cache := c), pv, Direntry(x.inum, name)), v)
  }

  /** The state after: file inode `i` has contents `u`, directory inode `q` contents `m1`. */
  ghost predicate Linked(fs: Fs, fs1: Fs, pv: nat, q: nat, name: string, v: nat, i: nat, u: Dinode, m1: Dinode) {
    && q < |fs.disk.dinodes| && i < |fs.disk.dinodes| && q != i && v != pv
    && v in fs.cache.vinodes && fs.cache.vinodes[v].inum == i
    && u == fs.cache.vinodes[v].meta.(nlinks := fs.cache.vinodes[v].meta.nlinks + 1)
    && Recorded(fs, pv, q, Direntry(i, name), SetMeta(fs.cache, pv, m1), fs1.disk.data, m1)
    && fs1.cache == SetMeta(SetMeta(fs.cache, pv, m1), v, u)
    && fs1.disk.dinodes == fs.disk.dinodes[q := m1][i := u]
    && fs1.disk.freemap == fs.disk.freemap
  }

  ghost predicate LinkReady(fs: Fs, fs1: Fs, pv: nat, q: nat, name: string, v: nat, i: nat, u: Dinode, m1: Dinode) {
    && Inv(fs) && Linked(fs, fs1, pv, q, name, v, i, u, m1)
    && IsDir(fs.disk.dinodes, q) && VinodeAt(fs.cache, pv).meta.size < BLOCK_SIZE
    && u.kind == FileI
  }

  lemma LinkOnDiskIs(fs: Fs, pv: nat, name: string, v: nat)
    requires DiskShape(fs.disk) && Hashed(fs.cache) && Coherent(fs.cache, fs.disk.dinodes)
    requires pv in fs.cache.vinodes && fs.cache.vinodes[pv].meta.kind == DirI
    requires fs.cache.vinodes[pv].meta.size < BLOCK_SIZE
    requires v in fs.cache.vinodes && fs.cache.vinodes[v].meta.kind == FileI
    ensures var fs1 := LinkOnDisk(fs, pv, name, v);
            var q, i := fs.cache.vinodes[pv].inum, fs.cache.vinodes[v].inum;
            q < |fs1.disk.dinodes| && i < |fs1.disk.dinodes|
            && Linked(fs, fs1, pv, q, name, v, i, fs1.disk.dinodes[i], fs1.disk.dinodes[q])
  {
    LinkOnDiskGives(fs, pv, name, v);
  }

  lemma LinkOnDiskGives(fs: Fs, pv: nat, name: string, v: nat)
    requires pv in fs.cache.vinodes && v in fs.cache.vinodes && v != pv && fs.cache.vinodes[pv].meta.size < BLOCK_SIZE
    requires |fs.cache.vinodes[pv].meta.addrs| == DIRECT && fs.cache.vinodes[pv].inum != fs.cache.vinodes[v].inum
    requires fs.cache.vinodes[pv].inum < |fs.disk.dinodes| && fs.cache.vinodes[v].inum < |fs.disk.dinodes|
    ensures var fs1 := LinkOnDisk(fs, pv, name, v);
            var q, i := fs.cache.vinodes[pv].inum, fs.cache.vinodes[v].inum;
            q < |fs1.disk.dinodes| && i < |fs1.disk.dinodes|
            && Linked(fs, fs1, pv, q, name, v, i, fs1.disk.dinodes[i], fs1.disk.dinodes[q])
  {
    var x := fs.cache.vinodes[v];
    var u := x.meta.(nlinks := x.meta.nlinks + 1);
    var fs0, e := fs.(cache := SetMeta(fs.cache, v, u)), Direntry(x.inum, name);
    var m1 := fs.cache.vinodes[pv].meta.(size := fs.cache.vinodes[pv].meta.size + ENTRY_SIZE);
    AddDirentryIs(fs0, pv, e);
    SetMetaCommutes(fs.cache, pv, m1, v, u);
    WriteBackIs(AddDirentry(fs0, pv, e), v, x.inum, u);
  }

  lemma WriteBackIs(fs: Fs, v: nat, i: nat, u: Dinode)
    requires v in fs.cache.vinodes && fs.cache.vinodes[v].inum == i < |fs.disk.dinodes| && fs.cache.vinodes[v].meta == u
    ensures WriteBack(fs, v) == fs.(disk := fs.disk.(dinodes := fs.disk.dinodes[i := u]))
  {
  }

  lemma SetMetaCommutes(c: Cache, v: nat, m: Dinode, w: nat, u: Dinode)
    requires v != w && v in c.vinodes && w in c.vinodes
    ensures SetMeta(SetMeta(c, v, m), w, u) == SetMeta(SetMeta(c, w, u), v, m)
  {
    assert SetMeta(SetMeta(c, v, m), w, u).vinodes == SetMeta(SetMeta(c, w, u), v, m).vinodes;
  }

  /** Reading the tree after directory `q` gained a record. */
  lemma TreeAfterRecord(k: Disk, k1: Disk, q: nat, m1: Dinode, es: seq<Direntry>)
    requires |k1.dinodes| == |k.dinodes| && IsDir(k.dinodes, q) && k1.dinodes[q] == m1 && m1.kind == DirI
    requires forall d: nat :: d < |k.dinodes| && d != q && (k.dinodes[d].kind == DirI || k1.dinodes[d].kind == DirI)
                              ==> k1.dinodes[d] == k.dinodes[d]
    requires DirEntries(k1.data, m1) == es
    requires forall d: nat :: IsDir(k.dinodes, d) && d != q ==> DirEntries(k1.data, k.dinodes[d]) == TreeOf(k)[d]
    ensures TreeOf(k1) == TreeOf(k)[q := es]
  {
    var t, t1 := TreeOf(k), TreeOf(k1);
    forall d: nat | d in t1 || d in t ensures d in t && d in t1 && t1[d] == t[q := es][d] {
      if d != q { assert IsDir(k.dinodes, d); }
    }
  }

  lemma LinkedTree(fs: Fs, fs1: Fs, pv: nat, q: nat, name: string, v: nat, i: nat, u: Dinode, m1: Dinode)
    requires DiskShape(fs.disk) && Exclusive(Now(fs)) && Hashed(fs.cache) && Coherent(fs.cache, fs.disk.dinodes)
    requires Linked(fs, fs1, pv, q, name, v, i, u, m1)
    requires IsDir(fs.disk.dinodes, q) && VinodeAt(fs.cache, pv).meta.size < BLOCK_SIZE && u.kind == FileI
    ensures TreeOf(fs1.disk) == TreeOf(fs.disk)[q := TreeOf(fs.disk)[q] + [Direntry(i, name)]]
    ensures ValidData(fs1.disk.data) && InodeOk(m1)
  {
    RecordedTree(fs, pv, q, Direntry(i, name), SetMeta(fs.cache, pv, m1), fs1.disk, m1);
    assert fs.disk.dinodes[i].kind == FileI && m1.kind == DirI;
    TreeAfterRecord(fs.disk, fs1.disk, q, m1, TreeOf(fs.disk)[q] + [Direntry(i, name)]);
  }

  lemma LinkedCounts(fs: Fs, fs1: Fs, pv: nat, q: nat, name: string, v: nat, i: nat, u: Dinode, m1: Dinode)
    requires Coherent(fs.cache, fs.disk.dinodes) && Linked(fs, fs1, pv, q, name, v, i, u, m1)
    ensures var n0, n1 := fs.disk.dinodes, fs1.disk.dinodes;
      && |n1| == |n0| && n1[i].nlinks == n0[i].nlinks + 1 && n1[i].kind == n0[i].kind == u.kind
      && (forall j :: 0 <= j < |n0| && j != i ==> n1[j].kind == n0[j].kind && n1[j].nlinks == n0[j].nlinks)
  {
  }

  lemma LinkedTreeInv(fs: Fs, fs1: Fs, pv: nat, q: nat, name: string, v: nat, i: nat, u: Dinode, m1: Dinode)
    requires Coherent(fs.cache, fs.disk.dinodes) && TreeInv(TreeOf(fs.disk), fs.disk.dinodes)
    requires Linked(fs, fs1, pv, q, name, v, i, u, m1) && IsDir(fs.disk.dinodes, q) && u.kind == FileI
    requires forall j :: 0 <= j < |TreeOf(fs.disk)[q]| ==> TreeOf(fs.disk)[q][j].name != name
    ensures TreeInv(TreeOf(fs.disk)[q := TreeOf(fs.disk)[q] + [Direntry(i, name)]], fs1.disk.dinodes)
  {
    assert i != 0 by { assert IsDir(fs.disk.dinodes, 0); }
    LinkedCounts(fs, fs1, pv, q, name, v, i, u, m1);
    LinkKeepsTree(TreeOf(fs.disk), fs.disk.dinodes, q, Direntry(i, name), fs1.disk.dinodes);
  }

  lemma LinkedCoherent(fs: Fs, fs1: Fs, pv: nat, q: nat, name: string, v: nat, i: nat, u: Dinode, m1: Dinode)
    requires Hashed(fs.cache) && Coherent(fs.cache, fs.disk.dinodes) && Linked(fs, fs1, pv, q, name, v, i, u, m1)
    ensures Coherent(fs1.cache, fs1.disk.dinodes)
  {
    forall w | w in fs1.cache.vinodes && w != v && w != pv
      ensures fs1.cache.vinodes[w].inum != i && fs1.cache.vinodes[w].inum != q
    {
      assert w in fs.cache.vinodes;
    }
  }

  lemma LinkedShape(fs: Fs, fs1: Fs, pv: nat, q: nat, name: string, v: nat, i: nat, u: Dinode, m1: Dinode)
    requires Linked(fs, fs1, pv, q, name, v, i, u, m1)
    ensures SameShape(fs.cache, fs1.cache) && fs1.cache.dentries == fs.cache.dentries
    ensures fs1.cache.files == fs.cache.files
    ensures forall w :: w in fs.cache.vinodes ==> fs1.cache.vinodes[w].ref == fs.cache.vinodes[w].ref
  {
    SetMetaShape(fs.cache, pv, m1);
    SetMetaShape(SetMeta(fs.cache, pv, m1), v, u);
  }

  lemma LinkedCache(fs: Fs, fs1: Fs, pv: nat, q: nat, name: string, v: nat, i: nat, u: Dinode, m1: Dinode)
    requires CacheInv(fs.cache, TreeOf(fs.disk), fs.disk.dinodes) && q in TreeOf(fs.disk)
    requires Linked(fs, fs1, pv, q, name, v, i, u, m1)
    ensures CacheInv(fs1.cache, TreeOf(fs.disk)[q := TreeOf(fs.disk)[q] + [Direntry(i, name)]], fs1.disk.dinodes)
  {
    var t1 := TreeOf(fs.disk)[q := TreeOf(fs.disk)[q] + [Direntry(i, name)]];
    LinkedCoherent(fs, fs1, pv, q, name, v, i, u, m1);
    LinkedShape(fs, fs1, pv, q, name, v, i, u, m1);
    AppendKeepsEntries(TreeOf(fs.disk), q, i, Direntry(i, name), false);
    MetaKeepsCache(fs.cache, TreeOf(fs.disk), fs.disk.dinodes, fs1.cache, t1, fs1.disk.dinodes);
  }

  lemma LinkedCurrent(fs: Fs, fs1: Fs, pv: nat, q: nat, name: string, v: nat, i: nat, u: Dinode, m1: Dinode)
    requires DiskShape(fs.disk) && Hashed(fs.cache) && Linked(fs, fs1, pv, q, name, v, i, u, m1)
    ensures Now(fs1) == Now(fs)[q := m1][i := u]
    ensures Now(fs)[q] == VinodeAt(fs.cache, pv).meta && Now(fs)[i] == VinodeAt(fs.cache, v).meta
  {
  }

  lemma LinkedBlocks(fs: Fs, fs1: Fs, pv: nat, q: nat, name: string, v: nat, i: nat, u: Dinode, m1: Dinode)
    requires DiskShape(fs.disk) && Hashed(fs.cache) && Linked(fs, fs1, pv, q, name, v, i, u, m1) && InodeOk(m1)
    requires Ownership(Now(fs), fs.disk.freemap) && DiskBehind(fs) && u.kind == FileI
    ensures Ownership(Now(fs1), fs1.disk.freemap) && DiskBehind(fs1) && Lost(fs1) == Lost(fs)
  {
    LinkedCurrent(fs, fs1, pv, q, name, v, i, u, m1);
    assert Live(Now(fs), i);
    ResizedOwnership(Now(fs), q, m1, fs.disk.freemap);
    ResizedOwnership(Now(fs)[q := m1], i, u, fs.disk.freemap);
    forall j: nat | Live(fs1.disk.dinodes, j) ensures Behind(fs1.disk.dinodes[j], Current(fs1, j)) {
      assert Current(fs1, j) == Now(fs1)[j];
      if j != i && j != q { assert Live(fs.disk.dinodes, j) && Current(fs, j) == Now(fs)[j]; }
    }
  }

  lemma LinkedWritten(fs: Fs, fs1: Fs, pv: nat, q: nat, name: string, v: nat, i: nat, u: Dinode, m1: Dinode)
    requires DiskShape(fs.disk) && Hashed(fs.cache) && Linked(fs, fs1, pv, q, name, v, i, u, m1) && Written(fs)
    ensures Written(fs1)
  {
    LinkedCurrent(fs, fs1, pv, q, name, v, i, u, m1);
    forall j: nat | Live(fs1.disk.dinodes, j) ensures fs1.disk.dinodes[j].blocks == Current(fs1, j).blocks {
      assert Current(fs1, j) == Now(fs1)[j];
      if j != i && j != q { assert Live(fs.disk.dinodes, j) && Current(fs, j) == Now(fs)[j]; }
    }
  }

  lemma LinkedDiskShape(fs: Fs, fs1: Fs, pv: nat, q: nat, name: string, v: nat, i: nat, u: Dinode, m1: Dinode)
    requires DiskShape(fs.disk) && Linked(fs, fs1, pv, q, name, v, i, u, m1) && InodeOk(m1) && ValidData(fs1.disk.data)
    requires u.kind == FileI && |u.addrs| == DIRECT
    ensures DiskShape(fs1.disk)
  {
    forall d: nat | IsDir(fs1.disk.dinodes, d) ensures InodeOk(fs1.disk.dinodes[d]) {
      if d != q { assert IsDir(fs.disk.dinodes, d); }
    }
  }

  lemma CachedAddrs(fs: Fs, v: nat)
    requires Hashed(fs.cache) && Coherent(fs.cache, fs.disk.dinodes) && DiskBehind(fs) && v in fs.cache.vinodes
    ensures |fs.cache.vinodes[v].meta.addrs| == DIRECT
  {
    var i := fs.cache.vinodes[v].inum;
    assert Behind(fs.disk.dinodes[i], Current(fs, i));
  }

  lemma LinkedInv(fs: Fs, fs1: Fs, pv: nat, q: nat, name: string, v: nat, i: nat, u: Dinode, m1: Dinode)
    requires LinkReady(fs, fs1, pv, q, name, v, i, u, m1)
    requires forall j :: 0 <= j < |TreeOf(fs.disk)[q]| ==> TreeOf(fs.disk)[q][j].name != name
    ensures Inv(fs1) && Steady(fs, fs1)
  {
    LinkedTree(fs, fs1, pv, q, name, v, i, u, m1);
    LinkedTreeInv(fs, fs1, pv, q, name, v, i, u, m1);
    CachedAddrs(fs, v);
    LinkedDiskShape(fs, fs1, pv, q, name, v, i, u, m1);
    LinkedBlocks(fs, fs1, pv, q, name, v, i, u, m1);
    LinkedCache(fs, fs1, pv, q, name, v, i, u, m1);
    if Written(fs) { LinkedWritten(fs, fs1, pv, q, name, v, i, u, m1); }
  }

  lemma LinkNameIs(fs: Fs, alloc: Alloc, p: nat, name: string, v: nat)
    requires Hashed(fs.cache) && v in fs.cache.vinodes && (p, name) !in fs.cache.dhash
    requires DentryAt(fs.cache, p).inode in fs.cache.vinodes && v != DentryAt(fs.cache, p).inode
    ensures var fs1 := LinkOnDisk(fs, DentryAt(fs.cache, p).inode, name, v);
            LinkName(fs, alloc, p, name, v) == fs1.(cache := AddOld(fs1.cache, alloc(Used(fs.cache)), name, v, p))
  {
    var pv := DentryAt(fs.cache, p).inode;
    var fs1 := LinkOnDisk(fs, pv, name, v);
    var fs2 := LinkName(fs, alloc, p, name, v);
    var c2 := AddOld(fs1.cache, alloc(Used(fs.cache)), name, v, p);
    forall w | w in fs2.cache.vinodes || w in c2.vinodes
      ensures w in fs2.cache.vinodes && w in c2.vinodes && fs2.cache.vinodes[w] == c2.vinodes[w]
    {}
    assert fs2.cache.vinodes == c2.vinodes;
  }

  lemma LinkIsReady(fs: Fs, p: nat, name: string, v: nat) returns (u: Dinode, m1: Dinode)
    requires Inv(fs) && IsDirDentry(fs.cache, p) && InodeOf(fs.cache, p).meta.size < BLOCK_SIZE
    requires v in fs.cache.vinodes && fs.cache.vinodes[v].meta.kind == FileI
    ensures var pv := fs.cache.dentries[p].inode;
            LinkReady(fs, LinkOnDisk(fs, pv, name, v), pv, InodeOf(fs.cache, p).inum, name, v, fs.cache.vinodes[v].inum,
                      u, m1)
  {
    var pv := fs.cache.dentries[p].inode;
    var fs1 := LinkOnDisk(fs, pv, name, v);
    LinkOnDiskIs(fs, pv, name, v);
    u := fs1.disk.dinodes[fs.cache.vinodes[v].inum];
    m1 := fs1.disk.dinodes[InodeOf(fs.cache, p).inum];
  }

  /** rfs_link with the new dentry. */
  lemma LinkNameKeepsInv(fs: Fs, alloc: Alloc, p: nat, name: string, v: nat)
    requires Inv(fs) && FreshPages(alloc)
    requires IsDirDentry(fs.cache, p) && (p, name) !in fs.cache.dhash && NameIsFree(fs, p, name)
    requires InodeOf(fs.cache, p).meta.size < BLOCK_SIZE
    requires v in fs.cache.vinodes && fs.cache.vinodes[v].meta.kind == FileI
    ensures var q := InodeOf(fs.cache, p).inum;
            var t := TreeOf(fs.disk);
            var fs1 := LinkName(fs, alloc, p, name, v);
            Inv(fs1) && Steady(fs, fs1) && q in t
              && TreeOf(fs1.disk) == t[q := t[q] + [Direntry(fs.cache.vinodes[v].inum, name)]]
  {
    var pv := fs.cache.dentries[p].inode;
    var q, i := InodeOf(fs.cache, p).inum, fs.cache.vinodes[v].inum;
    var fs1 := LinkOnDisk(fs, pv, name, v);
    var a := alloc(Used(fs.cache));
    DirectoryRead(fs, p);
    var u, m1 := LinkIsReady(fs, p, name, v);
    LinkedInv(fs, fs1, pv, q, name, v, i, u, m1);
    LinkedTree(fs, fs1, pv, q, name, v, i, u, m1);
    LinkedDentry(fs, fs1, a, p, q, name, v, i, u, m1);
    FreshPair(alloc, fs.cache);
    CacheOldKeepsInv(fs1, a, name, v, p);
    LinkNameIs(fs, alloc, p, name, v);
  }

  lemma LinkedDentry(fs: Fs, fs1: Fs, a: nat, p: nat, q: nat, name: string, v: nat, i: nat, u: Dinode, m1: Dinode)
    requires Linked(fs, fs1, DentryAt(fs.cache, p).inode, q, name, v, i, u, m1)
    requires q in TreeOf(fs.disk)
    requires TreeOf(fs1.disk) == TreeOf(fs.disk)[q := TreeOf(fs.disk)[q] + [Direntry(i, name)]]
    requires a !in fs.cache.dentries && a != NULL && IsDirDentry(fs.cache, p) && (p, name) !in fs.cache.dhash
    ensures v in fs1.cache.vinodes && fs1.cache.vinodes[v].inum == i
    ensures Uncached(fs1.cache, TreeOf(fs1.disk), a, p, name, i)
  {
    LastRecord(TreeOf(fs1.disk), TreeOf(fs.disk)[q], q, name, i);
  }

  /** The tree after a link, whether or not the name was free. */
  lemma LinkGrowsTree(fs: Fs, p: nat, name: string, v: nat)
    requires Inv(fs) && IsDirDentry(fs.cache, p) && InodeOf(fs.cache, p).meta.size < BLOCK_SIZE
    requires v in fs.cache.vinodes && fs.cache.vinodes[v].meta.kind == FileI
    ensures var q, t := InodeOf(fs.cache, p).inum, TreeOf(fs.disk);
            && q in t && v != fs.cache.dentries[p].inode && DirEntries(fs.disk.data, InodeOf(fs.cache, p).meta) == t[q]
            && TreeOf(LinkOnDisk(fs, fs.cache.dentries[p].inode, name, v).disk)
              == t[q := t[q] + [Direntry(fs.cache.vinodes[v].inum, name)]]
  {
    DirectoryRead(fs, p);
    var pv, q, i := fs.cache.dentries[p].inode, InodeOf(fs.cache, p).inum, fs.cache.vinodes[v].inum;
    var u, m1 := LinkIsReady(fs, p, name, v);
    LinkedTree(fs, LinkOnDisk(fs, pv, name, v), pv, q, name, v, i, u, m1);
  }

  lemma TwiceInTree(t: Tree, dinodes: seq<Dinode>, q: nat, es: seq<Direntry>, e: Direntry, j: nat)
    requires q in t && t[q] == es + [e] && j < |es| && es[j].name == e.name
    ensures !TreeInv(t, dinodes)
  {
    assert t[q][j].name == t[q][|es|].name;
    assert !UniqueNames(t[q]);
  }

  /** A name the directory already has would be in it twice. */
  lemma SecondRecord(fs: Fs, alloc: Alloc, p: nat, name: string, v: nat)
    requires Inv(fs) && IsDirDentry(fs.cache, p) && !NameIsFree(fs, p, name)
    requires InodeOf(fs.cache, p).meta.size < BLOCK_SIZE
    requires v in fs.cache.vinodes && fs.cache.vinodes[v].meta.kind == FileI
    ensures !Inv(LinkName(fs, alloc, p, name, v))
  {
    var q, t: Tree := InodeOf(fs.cache, p).inum, TreeOf(fs.disk);
    var fs1 := LinkName(fs, alloc, p, name, v);
    LinkGrowsTree(fs, p, name, v);
    LinkNameDisk(fs, alloc, p, name, v);
    var es := t[q];
    var j: nat :| j < |es| && es[j].name == name;
    TwiceInTree(TreeOf(fs1.disk), fs1.disk.dinodes, q, es, Direntry(fs.cache.vinodes[v].inum, name), j);
  }

  lemma LinkNameDisk(fs: Fs, alloc: Alloc, p: nat, name: string, v: nat)
    requires v in fs.cache.vinodes && DentryAt(fs.cache, p).inode in fs.cache.vinodes
    requires v != DentryAt(fs.cache, p).inode
    ensures LinkName(fs, alloc, p, name, v).disk == LinkOnDisk(fs, DentryAt(fs.cache, p).inode, name, v).disk
  {
  }

  lemma LinkVinodes(fs: Fs, alloc: Alloc, p: nat, name: string, v: nat)
    requires IsDirDentry(fs.cache, p) && DentryAt(fs.cache, p).inode in fs.cache.vinodes
    requires v in fs.cache.vinodes && fs.cache.vinodes[v].meta.kind == FileI
    ensures var fs1, pv := LinkName(fs, alloc, p, name, v), DentryAt(fs.cache, p).inode;
            pv in fs1.cache.vinodes && fs1.cache.vinodes[pv].meta ==
              InodeOf(fs.cache, p).meta.(size := InodeOf(fs.cache, p).meta.size + ENTRY_SIZE)
  {
  }

  lemma LinkOutgrows(fs: Fs, alloc: Alloc, p: nat, name: string, v: nat)
    requires Inv(fs) && IsDirDentry(fs.cache, p) && InodeOf(fs.cache, p).meta.size >= BLOCK_SIZE
    requires v in fs.cache.vinodes && fs.cache.vinodes[v].meta.kind == FileI
    ensures !Inv(LinkName(fs, alloc, p, name, v))
  {
    LinkVinodes(fs, alloc, p, name, v);
    NotTooLong(LinkName(fs, alloc, p, name, v), fs.cache.dentries[p].inode);
  }

  /** A hard link keeps the invariant just when the directory has room, and no record of that name yet. */
  lemma LinkNameKeepsInvIff(fs: Fs, alloc: Alloc, p: nat, name: string, v: nat)
    requires Inv(fs) && FreshPages(alloc) && IsDirDentry(fs.cache, p)
    requires v in fs.cache.vinodes && fs.cache.vinodes[v].meta.kind == FileI
    ensures Inv(LinkName(fs, alloc, p, name, v)) <==>
      InodeOf(fs.cache, p).meta.size < BLOCK_SIZE && NameIsFree(fs, p, name)
  {
    if InodeOf(fs.cache, p).meta.size >= BLOCK_SIZE {
      LinkOutgrows(fs, alloc, p, name, v);
    } else if !NameIsFree(fs, p, name) {
      SecondRecord(fs, alloc, p, name, v);
    } else {
      UncachedWhenFree(fs, p, name);
      LinkNameKeepsInv(fs, alloc, p, name, v);
    }
  }
}
