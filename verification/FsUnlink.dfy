/**
 Unlinking a name (rfs_unlink and vfs_unlink). The two run-time asserts of the code hold
 in every state that satisfies the invariant, and the blocks of a file are given back
 completely if and only if its disk inode was up to date.
 */
module FsUnlink {
  import opened RfsDir
  import opened FsState
  import opened FsTree
  import opened FsCache
  import opened FsDisk
  import opened FsInvariant
  import opened FsSteps
  import opened FsLinks

  /** Dentry `d`, an unopened file name under directory dentry `p`. */
  ghost predicate CanUnlink(fs: Fs, p: nat, d: nat) {
    Droppable(fs.cache, d) && DentryAt(fs.cache, d).parent == p
  }

  /** Removing the last name, the disk inode lists every block the file has. */
  ghost predicate DiskUpToDate(fs: Fs, d: nat) {
    var x := InodeOf(fs.cache, d);
    x.meta.nlinks == 1 ==> DinodeAt(fs.disk, x.inum).blocks == x.meta.blocks
  }

  /** The blocks that removing name `d` loses. */
  ghost function Leak(fs: Fs, d: nat): set<int> {
    var x := InodeOf(fs.cache, d);
    if x.meta.nlinks == 1 then Unlisted(DinodeAt(fs.disk, x.inum), x.meta) else {}
  }

  /** Where the record of dentry `d` is, in the directory `q` of its parent. */
  ghost predicate RecordAt(fs: Fs, d: nat, q: nat, index: nat) {
    var es := DirEntries(fs.disk.data, InodeOf(fs.cache, DentryAt(fs.cache, d).parent).meta);
    && q == InodeOf(fs.cache, DentryAt(fs.cache, d).parent).inum
    && q in TreeOf(fs.disk) && es == TreeOf(fs.disk)[q]
    && index == FindEntry(es, DentryAt(fs.cache, d).name)
    && index < |es| && es[index] == Direntry(InodeOf(fs.cache, d).inum, DentryAt(fs.cache, d).name)
  }

  lemma FindRecord(fs: Fs, d: nat) returns (q: nat, index: nat)
    requires Anchored(fs.cache, TreeOf(fs.disk)) && Coherent(fs.cache, fs.disk.dinodes)
    requires TreeShape(TreeOf(fs.disk), fs.disk.dinodes) && d in fs.cache.dentries && d != fs.cache.root
    ensures RecordAt(fs, d, q, index) && IsDir(fs.disk.dinodes, q)
  {
    assert Named(fs.cache, TreeOf(fs.disk), d);
    var p := DentryAt(fs.cache, d).parent;
    DirectoryRead(fs, p);
    q := InodeOf(fs.cache, p).inum;
    var es := TreeOf(fs.disk)[q];
    FindUnique(es, DentryAt(fs.cache, d).name, InodeOf(fs.cache, d).inum);
    index := FindEntry(es, DentryAt(fs.cache, d).name);
  }

  /** kernel/rfs.c:688 and kernel/vfs.c:385: the link counts agree, and the last name is the last reference. */
  lemma AssertsHold(fs: Fs, p: nat, d: nat)
    requires Inv(fs) && CanUnlink(fs, p, d)
    ensures var x := InodeOf(fs.cache, d);
            var es := DirEntries(fs.disk.data, InodeOf(fs.cache, p).meta);
            var k := FindEntry(es, DentryAt(fs.cache, d).name);
            && k < |es| && es[k].inum == x.inum
            && DinodeAt(fs.disk, es[k].inum).nlinks == x.meta.nlinks
            && (x.meta.nlinks - 1 == 0 ==> x.ref - 1 == 0)
  {
    LinkCountsAgree(fs, p, d);
    LastNameIsLastHolder(fs, p, d);
  }

  lemma CountOnDisk(c: Cache, k: Disk, v: nat)
    requires Coherent(c, k.dinodes) && v in c.vinodes
    ensures DinodeAt(k, c.vinodes[v].inum).nlinks == c.vinodes[v].meta.nlinks
  {
  }

  lemma LinkCountsAgree(fs: Fs, p: nat, d: nat)
    requires Anchored(fs.cache, TreeOf(fs.disk)) && Coherent(fs.cache, fs.disk.dinodes)
    requires TreeShape(TreeOf(fs.disk), fs.disk.dinodes) && CanUnlink(fs, p, d)
    ensures var es := DirEntries(fs.disk.data, InodeOf(fs.cache, p).meta);
            var k := FindEntry(es, DentryAt(fs.cache, d).name);
            && k < |es| && es[k].inum == InodeOf(fs.cache, d).inum
            && DinodeAt(fs.disk, es[k].inum).nlinks == InodeOf(fs.cache, d).meta.nlinks
  {
    var q, index := FindRecord(fs, d);
    assert Named(fs.cache, TreeOf(fs.disk), d);
    CountOnDisk(fs.cache, fs.disk, fs.cache.dentries[d].inode);
  }

  lemma LastNameIsLastHolder(fs: Fs, p: nat, d: nat)
    requires Inv(fs) && CanUnlink(fs, p, d)
    ensures InodeOf(fs.cache, d).meta.nlinks == 1 ==> InodeOf(fs.cache, d).ref == 1
  {
    if InodeOf(fs.cache, d).meta.nlinks == 1 {
      LastNameLastHolder(fs.cache, TreeOf(fs.disk), fs.disk.dinodes, d);
    }
  }

  // ---- the state afterwards ----

  /** The disk after: inode `i` has contents `u` there, directory `q` is one record shorter. */
  ghost predicate Unrecorded(fs: Fs, k1: Disk, pv: nat, q: nat, index: nat, i: nat, u: Dinode) {
    var pm := VinodeAt(fs.cache, pv).meta;
    && q < |fs.disk.dinodes| && i < |fs.disk.dinodes| && q != i
    && pv in fs.cache.vinodes && fs.cache.vinodes[pv].inum == q
    && u == fs.disk.dinodes[i].(nlinks := fs.disk.dinodes[i].nlinks - 1,
                                kind := if fs.disk.dinodes[i].nlinks == 1 then FreeI else fs.disk.dinodes[i].kind)
    && k1.dinodes == fs.disk.dinodes[i := u][q := ShrinkDir(pm)]
    && k1.data == RemoveDirentry(fs.disk.data, pm, index)
    && k1.freemap == if u.nlinks == 0 then FreeAll(fs.disk.freemap, Owned(fs.disk.dinodes[i])) else fs.disk.freemap
  }

  /** The cache after: `cd` is the cache without the dentry, then the two inodes get their new contents. */
  ghost function Settle(cd: Cache, pv: nat, pm: Dinode, v: nat, gone: bool): Cache {
    var m := VinodeAt(cd, v).meta;
    SetMeta(if gone then cd else SetMeta(cd, v, m.(nlinks := m.nlinks - 1)), pv, ShrinkDir(pm))
  }

  ghost predicate RemovedName(fs: Fs, fs1: Fs, cd: Cache, d: nat, pv: nat, q: nat, index: nat, v: nat, i: nat,
                              u: Dinode) {
    && pv == DentryAt(fs.cache, DentryAt(fs.cache, d).parent).inode && v == DentryAt(fs.cache, d).inode && v != pv
    && d in fs.cache.dentries && v in fs.cache.vinodes && fs.cache.vinodes[v].inum == i
    && Unrecorded(fs, fs1.disk, pv, q, index, i, u)
    && Dropped(fs.cache, d, u.nlinks == 0, cd)
    && fs1.cache == Settle(cd, pv, VinodeAt(fs.cache, pv).meta, v, u.nlinks == 0)
  }

  /** A name in vinode `v`, recorded at `index` of the directory of vinode `pv`, a directory that keeps its block. */
  ghost predicate NameInPlace(fs: Fs, pv: nat, name: string, v: nat, index: nat) {
    && pv in fs.cache.vinodes && v in fs.cache.vinodes && v != pv && fs.cache.vinodes[pv].inum < |fs.disk.dinodes|
    && fs.cache.vinodes[v].inum < |fs.disk.dinodes| && fs.cache.vinodes[v].inum != fs.cache.vinodes[pv].inum
    && fs.cache.vinodes[v].meta.nlinks == fs.disk.dinodes[fs.cache.vinodes[v].inum].nlinks
    && !DropsLastBlock(fs.cache.vinodes[pv].meta)
    && var es := DirEntries(fs.disk.data, fs.cache.vinodes[pv].meta);
       index == FindEntry(es, name) && index < |es| && es[index].inum == fs.cache.vinodes[v].inum
  }

  lemma NameFound(fs: Fs, d: nat, q: nat, index: nat)
    requires DiskShape(fs.disk) && Coherent(fs.cache, fs.disk.dinodes) && RecordAt(fs, d, q, index)
    requires IsDirDentry(fs.cache, DentryAt(fs.cache, d).parent)
    requires DentryAt(fs.cache, DentryAt(fs.cache, d).parent).inode in fs.cache.vinodes
    requires d in fs.cache.dentries && fs.cache.dentries[d].inode in fs.cache.vinodes && !IsDirDentry(fs.cache, d)
    ensures NameInPlace(fs, DentryAt(fs.cache, DentryAt(fs.cache, d).parent).inode, DentryAt(fs.cache, d).name,
                        fs.cache.dentries[d].inode, index)
  {
  }

  /** RemoveName computes exactly that. */
  lemma UnlinkOnDiskGives(fs: Fs, pv: nat, name: string, v: nat, index: nat)
    requires NameInPlace(fs, pv, name, v, index)
    ensures var i, um := fs.cache.vinodes[v].inum, fs.cache.vinodes[v].meta;
            var fs1 := UnlinkOnDisk(fs, pv, name, v);
            && i < |fs1.disk.dinodes|
            && Unrecorded(fs, fs1.disk, pv, fs.cache.vinodes[pv].inum, index, i, fs1.disk.dinodes[i])
            && fs1.cache == SetMeta(SetMeta(fs.cache, v, um.(nlinks := um.nlinks - 1)), pv,
                                    ShrinkDir(VinodeAt(fs.cache, pv).meta))
  {
    RecordFound(fs, pv, name, v, index);
    ReleaseThenClose(fs, pv, index, v, fs.cache.vinodes[v].inum);
  }

  lemma RecordFound(fs: Fs, pv: nat, name: string, v: nat, index: nat)
    requires v in fs.cache.vinodes
    requires var es := DirEntries(fs.disk.data, VinodeAt(fs.cache, pv).meta);
      index == FindEntry(es, name) && index < |es| && es[index].inum == fs.cache.vinodes[v].inum
    ensures UnlinkOnDisk(fs, pv, name, v) == CloseGapOnDisk(ReleaseOnDisk(fs, fs.cache.vinodes[v].inum, v), pv, index)
  {
  }

  /** The two halves of UnlinkOnDisk, for a directory that keeps its block. */
  lemma ReleaseThenClose(fs: Fs, pv: nat, index: nat, v: nat, i: nat)
    requires pv in fs.cache.vinodes && v in fs.cache.vinodes && v != pv
    requires fs.cache.vinodes[pv].inum < |fs.disk.dinodes| && i < |fs.disk.dinodes| && i != fs.cache.vinodes[pv].inum
    requires !DropsLastBlock(fs.cache.vinodes[pv].meta) && fs.cache.vinodes[v].meta.nlinks == fs.disk.dinodes[i].nlinks
    ensures var um := fs.cache.vinodes[v].meta;
            var fs1 := CloseGapOnDisk(ReleaseOnDisk(fs, i, v), pv, index);
            && i < |fs1.disk.dinodes|
            && Unrecorded(fs, fs1.disk, pv, fs.cache.vinodes[pv].inum, index, i, fs1.disk.dinodes[i])
            && fs1.cache == SetMeta(SetMeta(fs.cache, v, um.(nlinks := um.nlinks - 1)), pv,
                                    ShrinkDir(fs.cache.vinodes[pv].meta))
  {
    var fs0 := ReleaseOnDisk(fs, i, v);
    assert VinodeAt(fs0.cache, pv) == fs.cache.vinodes[pv];
  }

  lemma SettleCommutes(c: Cache, d: nat, pv: nat, v: nat, m: Dinode, pm: Dinode)
    requires d in c.dentries && c.dentries[d].inode == v && v in c.vinodes && pv in c.vinodes && v != pv
    requires m == c.vinodes[v].meta.(nlinks := c.vinodes[v].meta.nlinks - 1)
    ensures var c1 := SetMeta(SetMeta(c, v, m), pv, ShrinkDir(pm));
            && VinodeAt(DropDentry(c1, d), v).meta == m
            && DropDentry(c1, d) == Settle(DropDentry(c, d), pv, pm, v, false)
            && DropVinode(DropDentry(c1, d), v) == Settle(DropVinode(DropDentry(c, d), v), pv, pm, v, true)
  {
    var c1 := SetMeta(SetMeta(c, v, m), pv, ShrinkDir(pm));
    var x, y := DropDentry(c1, d), Settle(DropDentry(c, d), pv, pm, v, false);
    forall w | w in x.vinodes || w in y.vinodes ensures w in x.vinodes && w in y.vinodes
      && x.vinodes[w] == y.vinodes[w] {}
    assert x.vinodes == y.vinodes;
    var z := Settle(DropVinode(DropDentry(c, d), v), pv, pm, v, true);
    assert DropVinode(x, v).vinodes == z.vinodes;
  }

  lemma RemoveNameIs(fs: Fs, p: nat, d: nat) returns (cd: Cache, q: nat, index: nat, u: Dinode)
    requires Inv(fs) && CanUnlink(fs, p, d)
    ensures RecordAt(fs, d, q, index) && IsDir(fs.disk.dinodes, q)
    ensures RemovedName(fs, RemoveName(fs, p, d), cd, d, DentryAt(fs.cache, p).inode, q, index,
                        DentryAt(fs.cache, d).inode, InodeOf(fs.cache, d).inum, u)
  {
    q, index := FindRecord(fs, d);
    AssertsHold(fs, p, d);
    assert Named(fs.cache, TreeOf(fs.disk), d);
    cd, u := RemoveNameEquations(fs, p, d, q, index);
  }

  /** The cache half of RemoveName. */
  ghost function RemoveNameCache(c1: Cache, d: nat, v: nat): Cache {
    var c2 := DropDentry(c1, d);
    if VinodeAt(c2, v).meta.nlinks == 0 then DropVinode(c2, v) else c2
  }

  lemma RemoveNameSettles(c: Cache, d: nat, pv: nat, v: nat, m: Dinode, pm: Dinode) returns (cd: Cache)
    requires d in c.dentries && c.dentries[d].inode == v && v in c.vinodes && pv in c.vinodes && v != pv
    requires m == c.vinodes[v].meta.(nlinks := c.vinodes[v].meta.nlinks - 1)
    requires m.nlinks == 0 ==> c.vinodes[v].ref == 1
    ensures Dropped(c, d, m.nlinks == 0, cd)
    ensures RemoveNameCache(SetMeta(SetMeta(c, v, m), pv, ShrinkDir(pm)), d, v) == Settle(cd, pv, pm, v, m.nlinks == 0)
  {
    SettleCommutes(c, d, pv, v, m, pm);
    DropDentryIs(c, d);
    cd := if m.nlinks == 0 then DropVinode(DropDentry(c, d), v) else DropDentry(c, d);
  }

  lemma RemoveNameEquations(fs: Fs, p: nat, d: nat, q: nat, index: nat) returns (cd: Cache, u: Dinode)
    requires DiskShape(fs.disk) && Coherent(fs.cache, fs.disk.dinodes) && RecordAt(fs, d, q, index)
    requires IsDirDentry(fs.cache, p) && DentryAt(fs.cache, p).inode in fs.cache.vinodes
    requires CanUnlink(fs, p, d) && fs.cache.dentries[d].inode in fs.cache.vinodes
    requires InodeOf(fs.cache, d).meta.nlinks == 1 ==> InodeOf(fs.cache, d).ref == 1
    ensures RemovedName(fs, RemoveName(fs, p, d), cd, d, DentryAt(fs.cache, p).inode, q, index,
                        DentryAt(fs.cache, d).inode, InodeOf(fs.cache, d).inum, u)
  {
    NameFound(fs, d, q, index);
    cd, u := RemoveNameFrom(fs, p, d, index);
  }

  lemma RemoveNameFrom(fs: Fs, p: nat, d: nat, index: nat) returns (cd: Cache, u: Dinode)
    requires CanUnlink(fs, p, d) && d in fs.cache.dentries
    requires NameInPlace(fs, DentryAt(fs.cache, p).inode, DentryAt(fs.cache, d).name, fs.cache.dentries[d].inode, index)
    requires InodeOf(fs.cache, d).meta.nlinks == 1 ==> InodeOf(fs.cache, d).ref == 1
    ensures RemovedName(fs, RemoveName(fs, p, d), cd, d, DentryAt(fs.cache, p).inode, InodeOf(fs.cache, p).inum, index,
                        DentryAt(fs.cache, d).inode, InodeOf(fs.cache, d).inum, u)
  {
    var c := fs.cache;
    var pv, v := DentryAt(c, p).inode, DentryAt(c, d).inode;
    var m := c.vinodes[v].meta.(nlinks := c.vinodes[v].meta.nlinks - 1);
    var fs1 := UnlinkOnDisk(fs, pv, DentryAt(c, d).name, v);
    UnlinkOnDiskGives(fs, pv, DentryAt(c, d).name, v, index);
    u := fs1.disk.dinodes[c.vinodes[v].inum];
    assert u.nlinks == m.nlinks;
    cd := RemoveNameSettles(c, d, pv, v, m, VinodeAt(c, pv).meta);
    var g := u.nlinks == 0;
    assert RemoveNameCache(fs1.cache, d, v) == Settle(cd, pv, VinodeAt(c, pv).meta, v, g);
    assert RemoveName(fs, p, d) == fs1.(cache := RemoveNameCache(fs1.cache, d, v));
  }

  // ---- the invariant afterwards ----

  lemma UnrecordedTree(fs: Fs, k1: Disk, pv: nat, q: nat, index: nat, i: nat, u: Dinode)
    requires DiskShape(fs.disk) && Exclusive(Now(fs)) && Hashed(fs.cache) && Coherent(fs.cache, fs.disk.dinodes)
    requires Unrecorded(fs, k1, pv, q, index, i, u) && IsDir(fs.disk.dinodes, q) && index < |TreeOf(fs.disk)[q]|
    requires fs.disk.dinodes[i].kind == FileI
    ensures ValidData(k1.data) && InodeOk(k1.dinodes[q])
    ensures TreeOf(k1) == TreeOf(fs.disk)[q := RemoveAt(TreeOf(fs.disk)[q], index)]
  {
    var pm := VinodeAt(fs.cache, pv).meta;
    OneBlockDir(fs.disk.data, pm);
    RemoveRecord(fs.disk.data, pm, index);
    OthersReadTheSame(fs, k1, pv, q, index, i, u);
    TreeAfterRecord(fs.disk, k1, q, ShrinkDir(pm), RemoveAt(TreeOf(fs.disk)[q], index));
  }

  /** Directories other than `q` do not share its block. */
  lemma OthersReadTheSame(fs: Fs, k1: Disk, pv: nat, q: nat, index: nat, i: nat, u: Dinode)
    requires DiskShape(fs.disk) && Exclusive(Now(fs)) && Hashed(fs.cache) && Coherent(fs.cache, fs.disk.dinodes)
    requires Unrecorded(fs, k1, pv, q, index, i, u) && IsDir(fs.disk.dinodes, q) && index < |TreeOf(fs.disk)[q]|
    ensures forall d: nat :: IsDir(fs.disk.dinodes, d) && d != q ==>
              DirEntries(k1.data, fs.disk.dinodes[d]) == TreeOf(fs.disk)[d]
  {
    var pm := VinodeAt(fs.cache, pv).meta;
    OneBlockDir(fs.disk.data, pm);
    RemoveRecord(fs.disk.data, pm, index);
    forall d: nat | IsDir(fs.disk.dinodes, d) && d != q
      ensures DirEntries(k1.data, fs.disk.dinodes[d]) == TreeOf(fs.disk)[d]
    {
      DirectoryBlocksDiffer(fs, d, q);
      DirEntriesFrame(fs.disk.data, k1.data, fs.disk.dinodes[d]);
    }
  }

  lemma UnrecordedTreeInv(fs: Fs, k1: Disk, pv: nat, q: nat, index: nat, i: nat, u: Dinode)
    requires TreeInv(TreeOf(fs.disk), fs.disk.dinodes) && Coherent(fs.cache, fs.disk.dinodes)
    requires Unrecorded(fs, k1, pv, q, index, i, u) && IsDir(fs.disk.dinodes, q) && index < |TreeOf(fs.disk)[q]|
    requires TreeOf(fs.disk)[q][index].inum == i && fs.disk.dinodes[i].kind == FileI
    ensures TreeInv(TreeOf(fs.disk)[q := RemoveAt(TreeOf(fs.disk)[q], index)], k1.dinodes)
  {
    UnlinkKeepsTree(TreeOf(fs.disk), fs.disk.dinodes, q, index, k1.dinodes);
  }

  lemma UnrecordedDiskShape(fs: Fs, k1: Disk, pv: nat, q: nat, index: nat, i: nat, u: Dinode)
    requires DiskShape(fs.disk) && Unrecorded(fs, k1, pv, q, index, i, u)
    requires ValidData(k1.data) && InodeOk(k1.dinodes[q]) && fs.disk.dinodes[i].kind == FileI
    ensures DiskShape(k1)
  {
    forall d: nat | IsDir(k1.dinodes, d) ensures InodeOk(k1.dinodes[d]) {
      if d != q { assert IsDir(fs.disk.dinodes, d); }
    }
  }

  lemma SurvivesRemoval(t: Tree, q: nat, index: nat, r: nat, name: string, j: nat)
    requires HasEntry(t, r, name, j) && q in t && index < |t[q]| && (r == q ==> t[q][index].name != name)
    ensures HasEntry(t[q := RemoveAt(t[q], index)], r, name, j)
  {
    InRemoveAt(t[q], index, Direntry(j, name));
  }

  /** The names still cached are still on disk: only `d` stood for the record that went. */
  lemma OtherNamesStay(c: Cache, t: Tree, d: nat, gone: bool, cd: Cache, q: nat, index: nat, e: nat)
    requires Hashed(c) && Anchored(c, t) && RefsCounted(c) && OneDentryPerDir(c)
    requires Droppable(c, d) && Dropped(c, d, gone, cd)
    requires q == InodeOf(c, DentryAt(c, d).parent).inum && q in t && index < |t[q]|
    requires t[q][index].name == DentryAt(c, d).name
    requires e in cd.dentries && e != cd.root
    ensures Named(cd, t[q := RemoveAt(t[q], index)], e)
  {
    assert Named(c, t, e) && e != d;
    DropKeepsNamed(c, t, d, gone, cd, e);
    DropKeepsInode(c, t, d, gone, cd, DentryAt(c, e).parent);
    var (r, name) := (InodeOf(cd, DentryAt(cd, e).parent).inum, DentryAt(cd, e).name);
    assert r == q ==> name != DentryAt(c, d).name by {
      if r == q && name == DentryAt(c, d).name { SameName(c, t, d, e); }
    }
    SurvivesRemoval(t, q, index, r, name, InodeOf(cd, e).inum);
  }

  lemma SettleShape(cd: Cache, pv: nat, pm: Dinode, v: nat, gone: bool)
    requires pv in cd.vinodes && pm == cd.vinodes[pv].meta && v != pv && (!gone ==> v in cd.vinodes)
    ensures SameShape(cd, Settle(cd, pv, pm, v, gone))
    ensures Settle(cd, pv, pm, v, gone).dentries == cd.dentries && Settle(cd, pv, pm, v, gone).files == cd.files
    ensures forall w :: w in cd.vinodes ==> Settle(cd, pv, pm, v, gone).vinodes[w].ref == cd.vinodes[w].ref
  {
    assert cd.vinodes.Keys + {pv} == cd.vinodes.Keys;
    assert !gone ==> cd.vinodes.Keys + {v} == cd.vinodes.Keys;
  }

  lemma RemovedNamed(fs: Fs, fs1: Fs, cd: Cache, d: nat, pv: nat, q: nat, index: nat, v: nat, i: nat, u: Dinode,
                     t1: Tree)
    requires RemovedName(fs, fs1, cd, d, pv, q, index, v, i, u)
    requires Hashed(cd) && Anchored(cd, TreeOf(fs.disk)) && OneDentryPerDir(cd) && RefsCounted(cd) && DrefsCounted(cd)
    requires pv in cd.vinodes && cd.vinodes[pv].meta == VinodeAt(fs.cache, pv).meta
    requires forall e :: e in cd.dentries && e != cd.root ==> Named(cd, t1, e)
    ensures Hashed(fs1.cache) && Anchored(fs1.cache, t1) && OneDentryPerDir(fs1.cache)
    ensures RefsCounted(fs1.cache) && DrefsCounted(fs1.cache)
  {
    SettleShape(cd, pv, VinodeAt(fs.cache, pv).meta, v, u.nlinks == 0);
    MetaKeepsCounts(cd, fs1.cache);
    assert Anchored(cd, t1);
    SameShapeKeepsStructure(cd, fs1.cache, t1);
  }

  lemma RemovedOthers(fs: Fs, fs1: Fs, cd: Cache, d: nat, pv: nat, q: nat, index: nat, v: nat, i: nat, u: Dinode,
                      w: nat)
    requires RemovedName(fs, fs1, cd, d, pv, q, index, v, i, u) && Hashed(fs.cache)
    requires w in fs1.cache.vinodes && w != v && w != pv && Coherent(fs.cache, fs.disk.dinodes)
    ensures EntryCoherent(fs1.cache.vinodes[w], fs1.disk.dinodes)
  {
    OtherVinode(fs, fs1, cd, d, pv, q, index, v, i, u, w);
    assert fs1.cache.vinodes[w].inum != i && fs1.cache.vinodes[w].inum != q;
  }

  lemma OtherVinode(fs: Fs, fs1: Fs, cd: Cache, d: nat, pv: nat, q: nat, index: nat, v: nat, i: nat, u: Dinode, w: nat)
    requires RemovedName(fs, fs1, cd, d, pv, q, index, v, i, u) && w in fs1.cache.vinodes && w != v && w != pv
    ensures w in fs.cache.vinodes && fs1.cache.vinodes[w] == fs.cache.vinodes[w]
  {
  }

  /** What coherence asks of one cached inode. */
  ghost predicate EntryCoherent(x: Vinode, n: seq<Dinode>) {
    && Live(n, x.inum) && x.meta.kind == n[x.inum].kind && x.meta.nlinks == n[x.inum].nlinks
    && (x.meta.kind == DirI ==> x.meta == n[x.inum])
  }

  lemma RemovedFile(fs: Fs, fs1: Fs, cd: Cache, d: nat, pv: nat, q: nat, index: nat, v: nat, i: nat, u: Dinode)
    requires RemovedName(fs, fs1, cd, d, pv, q, index, v, i, u) && v in fs1.cache.vinodes
    requires Coherent(fs.cache, fs.disk.dinodes) && fs.cache.vinodes[v].meta.kind == FileI
    ensures EntryCoherent(fs1.cache.vinodes[v], fs1.disk.dinodes)
  {
  }

  lemma RemovedDirectory(fs: Fs, fs1: Fs, cd: Cache, d: nat, pv: nat, q: nat, index: nat, v: nat, i: nat, u: Dinode)
    requires RemovedName(fs, fs1, cd, d, pv, q, index, v, i, u) && pv in fs1.cache.vinodes
    requires Coherent(fs.cache, fs.disk.dinodes) && IsDir(fs.disk.dinodes, q)
    ensures EntryCoherent(fs1.cache.vinodes[pv], fs1.disk.dinodes)
  {
  }

  lemma RemovedCoherent(fs: Fs, fs1: Fs, cd: Cache, d: nat, pv: nat, q: nat, index: nat, v: nat, i: nat, u: Dinode)
    requires RemovedName(fs, fs1, cd, d, pv, q, index, v, i, u)
    requires Hashed(fs.cache) && Coherent(fs.cache, fs.disk.dinodes) && IsDir(fs.disk.dinodes, q)
    requires fs.cache.vinodes[v].meta.kind == FileI
    ensures Coherent(fs1.cache, fs1.disk.dinodes)
  {
    forall w | w in fs1.cache.vinodes
      ensures EntryCoherent(fs1.cache.vinodes[w], fs1.disk.dinodes)
    {
      if w == v {
        RemovedFile(fs, fs1, cd, d, pv, q, index, v, i, u);
      } else if w == pv {
        RemovedDirectory(fs, fs1, cd, d, pv, q, index, v, i, u);
      } else {
        RemovedOthers(fs, fs1, cd, d, pv, q, index, v, i, u, w);
      }
    }
  }

  lemma RemovedCurrent(fs: Fs, fs1: Fs, cd: Cache, d: nat, pv: nat, q: nat, index: nat, v: nat, i: nat, u: Dinode)
    requires RemovedName(fs, fs1, cd, d, pv, q, index, v, i, u)
    requires DiskShape(fs.disk) && Hashed(fs.cache)
    ensures var um := fs.cache.vinodes[v].meta;
            Now(fs1) == Now(fs)[q := ShrinkDir(VinodeAt(fs.cache, pv).meta)]
                               [i := if u.nlinks == 0 then u else um.(nlinks := um.nlinks - 1)]
    ensures Now(fs)[q] == VinodeAt(fs.cache, pv).meta && Now(fs)[i] == fs.cache.vinodes[v].meta
  {
    assert forall j: nat :: j < INODES && j != i && j != q ==> Current(fs1, j) == Current(fs, j);
  }

  /** The blocks of an inode with contents `now` that its disk copy does not list. */
  ghost function Unlisted(disk: Dinode, now: Dinode): set<int> {
    set b | b in Owned(now) && b !in Owned(disk)
  }

  /** A disk inode that lags lists some of the blocks, and all of them exactly when it has as many. */
  lemma PrefixCovers(disk: Dinode, now: Dinode)
    requires Behind(disk, now) && InodeOk(now)
    ensures forall b :: b in Owned(disk) ==> b in Owned(now)
    ensures Unlisted(disk, now) == {} <==> disk.blocks == now.blocks
  {
    forall b | b in Owned(disk) ensures b in Owned(now) {
      var j :| 0 <= j < disk.blocks && disk.addrs[j] == b;
      assert Owned(now)[j] == b;
    }
    if disk.blocks < now.blocks {
      var b := now.addrs[disk.blocks];
      assert Owned(now)[disk.blocks] == b;
      assert forall j :: 0 <= j < disk.blocks ==> disk.addrs[j] != b;
      assert b in Unlisted(disk, now);
    } else {
      assert Owned(now) == Owned(disk);
    }
  }

  lemma RemovedOwnership(fs: Fs, fs1: Fs, cd: Cache, d: nat, pv: nat, q: nat, index: nat, v: nat, i: nat, u: Dinode)
    requires RemovedName(fs, fs1, cd, d, pv, q, index, v, i, u)
    requires DiskShape(fs.disk) && Hashed(fs.cache)
    requires Ownership(Now(fs), fs.disk.freemap) && DiskBehind(fs)
    requires InodeOk(fs1.disk.dinodes[q]) && fs.disk.dinodes[i].kind == FileI
    requires ShrinkDir(VinodeAt(fs.cache, pv).meta).blocks == VinodeAt(fs.cache, pv).meta.blocks
    ensures Ownership(Now(fs1), fs1.disk.freemap)
    ensures Lost(fs1)
      == Lost(fs) + (if u.nlinks == 0 then Unlisted(fs.disk.dinodes[i], fs.cache.vinodes[v].meta) else {})
  {
    RemovedNow(fs, fs1, cd, d, pv, q, index, v, i, u);
    OwnershipAfter(Now(fs), fs.disk.freemap, q, ShrinkDir(VinodeAt(fs.cache, pv).meta), i, fs.disk.dinodes[i], u,
                   Now(fs1), fs1.disk.freemap);
  }

  /** What the removal does to the inodes as they stand, and to the freemap. */
  lemma RemovedNow(fs: Fs, fs1: Fs, cd: Cache, d: nat, pv: nat, q: nat, index: nat, v: nat, i: nat, u: Dinode)
    requires RemovedName(fs, fs1, cd, d, pv, q, index, v, i, u)
    requires DiskShape(fs.disk) && Hashed(fs.cache) && DiskBehind(fs)
    requires fs.disk.dinodes[i].kind == FileI
    requires InodeOk(fs1.disk.dinodes[q])
    requires ShrinkDir(VinodeAt(fs.cache, pv).meta).blocks == VinodeAt(fs.cache, pv).meta.blocks
    ensures q < |Now(fs)| && i < |Now(fs)|
    ensures LosesName(Now(fs), q, ShrinkDir(VinodeAt(fs.cache, pv).meta), i, fs.disk.dinodes[i], u)
    ensures var now, disk, m1 := Now(fs), fs.disk.dinodes[i], ShrinkDir(VinodeAt(fs.cache, pv).meta);
      && now[i] == fs.cache.vinodes[v].meta
      && Now(fs1) == now[q := m1][i := if u.nlinks == 0 then u else now[i].(nlinks := now[i].nlinks - 1)]
      && fs1.disk.freemap == (if u.nlinks == 0 then FreeAll(fs.disk.freemap, Owned(disk)) else fs.disk.freemap)
  {
    RemovedCurrent(fs, fs1, cd, d, pv, q, index, v, i, u);
    assert Behind(fs.disk.dinodes[i], Current(fs, i)) by { assert Live(fs.disk.dinodes, i); }
    assert Current(fs, i) == Now(fs)[i];
  }

  ghost predicate LosesName(now: seq<Dinode>, q: nat, m1: Dinode, i: nat, disk: Dinode, u: Dinode) {
    && q < |now| && i < |now| && q != i && Behind(disk, now[i]) && disk.kind == FileI
    && InodeOk(m1) && m1.addrs == now[q].addrs && m1.blocks == now[q].blocks && m1.kind == now[q].kind
    && u == disk.(nlinks := disk.nlinks - 1, kind := if disk.nlinks == 1 then FreeI else disk.kind)
  }

  /** Directory `q` is rewritten, and inode `i` loses a name: its last, or not. */
  lemma OwnershipAfter(now: seq<Dinode>, freemap: seq<nat>, q: nat, m1: Dinode, i: nat, disk: Dinode, u: Dinode,
                       n1: seq<Dinode>, f1: seq<nat>)
    requires Ownership(now, freemap) && LosesName(now, q, m1, i, disk, u) && q < |now| && i < |now|
    requires n1 == now[q := m1][i := if u.nlinks == 0 then u else now[i].(nlinks := now[i].nlinks - 1)]
    requires f1 == if u.nlinks == 0 then FreeAll(freemap, Owned(disk)) else freemap
    ensures Ownership(n1, f1)
    ensures LostBlocks(n1, f1) == LostBlocks(now, freemap) + (if u.nlinks == 0 then Unlisted(disk, now[i]) else {})
  {
    ResizedOwnership(now, q, m1, freemap);
    var n0 := now[q := m1];
    assert Live(now, i);
    if u.nlinks == 0 {
      PrefixCovers(disk, now[i]);
      FreeInode(n0, n1, freemap, i, Owned(disk));
    } else {
      ResizedOwnership(n0, i, now[i].(nlinks := now[i].nlinks - 1), freemap);
    }
  }

  lemma RemovedBehind(fs: Fs, fs1: Fs, cd: Cache, d: nat, pv: nat, q: nat, index: nat, v: nat, i: nat, u: Dinode)
    requires RemovedName(fs, fs1, cd, d, pv, q, index, v, i, u)
    requires DiskShape(fs.disk) && Hashed(fs.cache) && DiskBehind(fs) && InodeOk(fs1.disk.dinodes[q])
    requires fs.disk.dinodes[i].kind == FileI
    ensures DiskBehind(fs1)
  {
    RemovedCurrent(fs, fs1, cd, d, pv, q, index, v, i, u);
    assert Live(fs.disk.dinodes, i) && Current(fs, i) == Now(fs)[i];
    forall j: nat | Live(fs1.disk.dinodes, j) ensures Behind(fs1.disk.dinodes[j], Current(fs1, j)) {
      assert Current(fs1, j) == Now(fs1)[j];
      if j != i && j != q { assert Live(fs.disk.dinodes, j) && Current(fs, j) == Now(fs)[j]; }
    }
  }

  lemma RemovedWritten(fs: Fs, fs1: Fs, cd: Cache, d: nat, pv: nat, q: nat, index: nat, v: nat, i: nat, u: Dinode)
    requires RemovedName(fs, fs1, cd, d, pv, q, index, v, i, u) && Written(fs)
    requires DiskShape(fs.disk) && Hashed(fs.cache) && fs.disk.dinodes[i].kind == FileI
    ensures Written(fs1)
  {
    RemovedCurrent(fs, fs1, cd, d, pv, q, index, v, i, u);
    assert Live(fs.disk.dinodes, i) && Current(fs, i) == Now(fs)[i];
    forall j: nat | Live(fs1.disk.dinodes, j) ensures fs1.disk.dinodes[j].blocks == Current(fs1, j).blocks {
      assert Current(fs1, j) == Now(fs1)[j];
      if j != i && j != q { assert Live(fs.disk.dinodes, j) && Current(fs, j) == Now(fs)[j]; }
    }
  }

  lemma ParentStays(c: Cache, t: Tree, d: nat, gone: bool, cd: Cache)
    requires RefsCounted(c) && Anchored(c, t) && Droppable(c, d) && Dropped(c, d, gone, cd)
    ensures var pv := DentryAt(c, DentryAt(c, d).parent).inode;
            pv in cd.vinodes && cd.vinodes[pv].meta == VinodeAt(c, pv).meta
  {
    assert Named(c, t, d);
    DropKeepsInode(c, t, d, gone, cd, DentryAt(c, d).parent);
  }

  lemma RemovedNames(fs: Fs, cd: Cache, d: nat, gone: bool, q: nat, index: nat)
    requires Hashed(fs.cache) && Anchored(fs.cache, TreeOf(fs.disk)) && RefsCounted(fs.cache)
    requires OneDentryPerDir(fs.cache)
    requires Droppable(fs.cache, d) && Dropped(fs.cache, d, gone, cd) && RecordAt(fs, d, q, index)
    ensures forall e :: e in cd.dentries && e != cd.root ==>
                          Named(cd, TreeOf(fs.disk)[q := RemoveAt(TreeOf(fs.disk)[q], index)], e)
  {
    forall e | e in cd.dentries && e != cd.root
      ensures Named(cd, TreeOf(fs.disk)[q := RemoveAt(TreeOf(fs.disk)[q], index)], e)
    {
      OtherNamesStay(fs.cache, TreeOf(fs.disk), d, gone, cd, q, index, e);
    }
  }

  lemma RemovedCache(fs: Fs, fs1: Fs, cd: Cache, d: nat, pv: nat, q: nat, index: nat, v: nat, i: nat, u: Dinode)
    requires RemovedName(fs, fs1, cd, d, pv, q, index, v, i, u) && Droppable(fs.cache, d) && RecordAt(fs, d, q, index)
    requires CacheInv(fs.cache, TreeOf(fs.disk), fs.disk.dinodes) && IsDir(fs.disk.dinodes, q)
    requires fs.cache.vinodes[v].meta.kind == FileI
    ensures CacheInv(fs1.cache, TreeOf(fs.disk)[q := RemoveAt(TreeOf(fs.disk)[q], index)], fs1.disk.dinodes)
  {
    var gone := u.nlinks == 0;
    var t1 := TreeOf(fs.disk)[q := RemoveAt(TreeOf(fs.disk)[q], index)];
    DropKeepsCache(fs.cache, TreeOf(fs.disk), fs.disk.dinodes, d, gone, cd);
    ParentStays(fs.cache, TreeOf(fs.disk), d, gone, cd);
    RemovedNames(fs, cd, d, gone, q, index);
    RemovedNamed(fs, fs1, cd, d, pv, q, index, v, i, u, t1);
    RemovedCoherent(fs, fs1, cd, d, pv, q, index, v, i, u);
  }

  lemma RemovedTree(fs: Fs, fs1: Fs, cd: Cache, d: nat, pv: nat, q: nat, index: nat, v: nat, i: nat, u: Dinode)
    requires Inv(fs) && RecordAt(fs, d, q, index) && IsDir(fs.disk.dinodes, q)
    requires RemovedName(fs, fs1, cd, d, pv, q, index, v, i, u) && fs.disk.dinodes[i].kind == FileI
    ensures DiskShape(fs1.disk) && InodeOk(fs1.disk.dinodes[q]) && fs.cache.vinodes[v].meta.kind == FileI
    ensures ShrinkDir(VinodeAt(fs.cache, pv).meta).blocks == VinodeAt(fs.cache, pv).meta.blocks
    ensures TreeOf(fs1.disk) == TreeOf(fs.disk)[q := RemoveAt(TreeOf(fs.disk)[q], index)]
    ensures TreeInv(TreeOf(fs1.disk), fs1.disk.dinodes)
  {
    UnrecordedTree(fs, fs1.disk, pv, q, index, i, u);
    UnrecordedTreeInv(fs, fs1.disk, pv, q, index, i, u);
    UnrecordedDiskShape(fs, fs1.disk, pv, q, index, i, u);
  }

  lemma RemovedLeak(fs: Fs, fs1: Fs, cd: Cache, d: nat, pv: nat, q: nat, index: nat, v: nat, i: nat, u: Dinode)
    requires DiskShape(fs.disk) && Hashed(fs.cache) && Coherent(fs.cache, fs.disk.dinodes)
    requires RemovedName(fs, fs1, cd, d, pv, q, index, v, i, u)
    ensures Leak(fs, d) == if u.nlinks == 0 then Unlisted(fs.disk.dinodes[i], fs.cache.vinodes[v].meta) else {}
  {
  }

  lemma RemovedBlocks(fs: Fs, fs1: Fs, cd: Cache, d: nat, pv: nat, q: nat, index: nat, v: nat, i: nat, u: Dinode)
    requires DiskShape(fs.disk) && Hashed(fs.cache) && Ownership(Now(fs), fs.disk.freemap) && DiskBehind(fs)
    requires Coherent(fs.cache, fs.disk.dinodes)
    requires RemovedName(fs, fs1, cd, d, pv, q, index, v, i, u) && fs.disk.dinodes[i].kind == FileI
    requires InodeOk(fs1.disk.dinodes[q])
    requires ShrinkDir(VinodeAt(fs.cache, pv).meta).blocks == VinodeAt(fs.cache, pv).meta.blocks
    ensures DiskBehind(fs1) && Ownership(Now(fs1), fs1.disk.freemap)
    ensures Lost(fs1) == Lost(fs) + Leak(fs, d)
  {
    hide DiskShape, Hashed, Ownership, DiskBehind, Coherent, RemovedName, InodeOk, Lost, Leak;
    RemovedLeak(fs, fs1, cd, d, pv, q, index, v, i, u);
    RemovedOwnership(fs, fs1, cd, d, pv, q, index, v, i, u);
    RemovedBehind(fs, fs1, cd, d, pv, q, index, v, i, u);
  }

  lemma RemovedInv(fs: Fs, fs1: Fs, cd: Cache, d: nat, pv: nat, q: nat, index: nat, v: nat, i: nat, u: Dinode)
    requires Inv(fs) && Droppable(fs.cache, d) && RecordAt(fs, d, q, index) && IsDir(fs.disk.dinodes, q)
    requires RemovedName(fs, fs1, cd, d, pv, q, index, v, i, u) && fs.disk.dinodes[i].kind == FileI
    ensures Inv(fs1) && Lost(fs1) == Lost(fs) + Leak(fs, d)
    ensures Written(fs) ==> Written(fs1)
    ensures TreeOf(fs1.disk) == TreeOf(fs.disk)[q := RemoveAt(TreeOf(fs.disk)[q], index)]
  {
    RemovedTree(fs, fs1, cd, d, pv, q, index, v, i, u);
    RemovedCache(fs, fs1, cd, d, pv, q, index, v, i, u);
    RemovedBlocks(fs, fs1, cd, d, pv, q, index, v, i, u);
    if Written(fs) { RemovedWritten(fs, fs1, cd, d, pv, q, index, v, i, u); }
  }

  /**
   vfs_unlink on an unopened file: one record less in its directory, the invariant holds, and the blocks lost are, if
   the name was the last, exactly those that the disk inode does not list.
   */
  lemma RemoveNameKeepsInv(fs: Fs, p: nat, d: nat)
    requires Inv(fs) && CanUnlink(fs, p, d)
    ensures var q := InodeOf(fs.cache, p).inum;
            var t := TreeOf(fs.disk);
            var fs1 := RemoveName(fs, p, d);
            && Inv(fs1) && Lost(fs1) == Lost(fs) + Leak(fs, d) && (Written(fs) ==> Written(fs1))
            && q in t && FindEntry(t[q], DentryAt(fs.cache, d).name) < |t[q]|
            && TreeOf(fs1.disk) == t[q := RemoveAt(t[q], FindEntry(t[q], DentryAt(fs.cache, d).name))]
  {
    FileKind(fs, d);
    var cd, q, index, u := RemoveNameIs(fs, p, d);
    RemovedInv(fs, RemoveName(fs, p, d), cd, d, DentryAt(fs.cache, p).inode, q, index,
               DentryAt(fs.cache, d).inode, InodeOf(fs.cache, d).inum, u);
  }

  /**
   A removal loses blocks, and leaves a freemap that is not exact, if and only if it removes a last name and the
   disk inode lags.
   */
  lemma LeaksIff(fs: Fs, p: nat, d: nat)
    requires Inv(fs) && CanUnlink(fs, p, d)
    ensures Leak(fs, d) == {} <==> DiskUpToDate(fs, d)
    ensures Leak(fs, d) !! Lost(fs)
    ensures var fs1 := RemoveName(fs, p, d);
            FreemapExact(Now(fs1), fs1.disk.freemap) <==> FreemapExact(Now(fs), fs.disk.freemap) && DiskUpToDate(fs, d)
  {
    var fs1 := RemoveName(fs, p, d);
    LeakIsHeld(fs, d);
    RemoveNameKeepsInv(fs, p, d);
    ExactIffNoneLost(Now(fs), fs.disk.freemap);
    ExactIffNoneLost(Now(fs1), fs1.disk.freemap);
  }

  lemma LeakIsHeld(fs: Fs, d: nat)
    requires DiskShape(fs.disk) && Hashed(fs.cache) && Coherent(fs.cache, fs.disk.dinodes)
    requires Ownership(Now(fs), fs.disk.freemap) && DiskBehind(fs)
    requires d in fs.cache.dentries && fs.cache.dentries[d].inode in fs.cache.vinodes
    ensures Leak(fs, d) == {} <==> DiskUpToDate(fs, d)
    ensures Leak(fs, d) !! Lost(fs)
  {
    var x := InodeOf(fs.cache, d);
    assert Live(fs.disk.dinodes, x.inum) && Current(fs, x.inum) == x.meta == Now(fs)[x.inum];
    assert Live(Now(fs), x.inum);
    PrefixCovers(DinodeAt(fs.disk, x.inum), x.meta);
    forall b | b in Leak(fs, d) ensures Held(Now(fs), b) {
      assert Owns(Now(fs), x.inum, b);
    }
  }
}
