/**
 What the calls leave alone: a file's size, blocks and the data in them change by writes to that file only, and end with
 its last name. And what they do to the open files: which handle a call adds or drops, and what it stands for.
 */
module FsFiles {
  import opened Options
  import opened RfsDir
  import opened FsState
  import opened FsTree
  import opened FsCache
  import opened FsDisk
  import opened FsInvariant
  import opened FsSteps
  import opened FsLinks
  import opened FsUnlink
  import opened FsWrite
  import opened FsLookup
  import opened FsPlaces
  import opened FsOps
  import opened FsRuns

  ghost predicate SameBody(m: Dinode, m1: Dinode) {
    m1.kind == m.kind && m1.size == m.size && m1.blocks == m.blocks && m1.addrs == m.addrs
  }

  ghost predicate SameOn(data: seq<Block>, data1: seq<Block>, addrs: seq<int>) {
    |data1| == |data| && forall b :: 0 <= b < |data| && b in addrs ==> data1[b] == data[b]
  }

  /** Inode `i` has the size, the blocks and the data that it had. */
  ghost predicate Kept(fs: Fs, fs1: Fs, i: nat) {
    && i < INODES && SameBody(Now(fs)[i], Now(fs1)[i])
    && SameOn(fs.disk.data, fs1.disk.data, Owned(Now(fs)[i]))
  }

  /** So has every file that is not `touched`. */
  ghost predicate FilesKept(fs: Fs, fs1: Fs, touched: set<nat>) {
    forall i: nat :: i < INODES && Now(fs)[i].kind == FileI && i !in touched ==> Kept(fs, fs1, i)
  }

  /** The inodes in force and the data are the same. */
  ghost predicate SameFiles(fs: Fs, fs1: Fs) {
    Now(fs1) == Now(fs) && fs1.disk.data == fs.disk.data
  }

  lemma SameIsKept(fs: Fs, fs1: Fs)
    requires SameFiles(fs, fs1)
    ensures FilesKept(fs, fs1, {})
  {
  }

  lemma KeptInTurn(fs: Fs, fs1: Fs, fs2: Fs, i: nat)
    requires Kept(fs, fs1, i) && Kept(fs1, fs2, i)
    ensures Kept(fs, fs2, i)
  {
  }

  lemma FilesKeptInTurn(fs: Fs, fs1: Fs, fs2: Fs, touched: set<nat>)
    requires FilesKept(fs, fs1, {}) && FilesKept(fs1, fs2, touched)
    ensures FilesKept(fs, fs2, touched)
  {
    forall i: nat | i < INODES && Now(fs)[i].kind == FileI && i !in touched ensures Kept(fs, fs2, i) {
      assert Kept(fs, fs1, i);
      KeptInTurn(fs, fs1, fs2, i);
    }
  }

  lemma Apart(n: seq<Dinode>, i: nat, j: nat, b: int)
    requires Exclusive(n) && Live(n, i) && Live(n, j) && i != j && b in Owned(n[i])
    ensures b !in Owned(n[j])
  {
    assert Owns(n, i, b) && (Owns(n, j, b) <==> b in Owned(n[j]));
  }

  /** A change to one directory's blocks is no change to any file's. */
  lemma DirectoryWrite(fs: Fs, fs1: Fs, q: nat, touched: set<nat>)
    requires Ownership(Now(fs), fs.disk.freemap) && q < INODES && Now(fs)[q].kind == DirI
    requires |fs1.disk.data| == |fs.disk.data|
    requires forall b :: 0 <= b < |fs.disk.data| && b !in Owned(Now(fs)[q]) ==> fs1.disk.data[b] == fs.disk.data[b]
    requires forall i: nat :: i < INODES && Now(fs)[i].kind == FileI && i !in touched ==>
      SameBody(Now(fs)[i], Now(fs1)[i])
    ensures FilesKept(fs, fs1, touched)
  {
    var n := Now(fs);
    forall i: nat | i < INODES && n[i].kind == FileI && i !in touched ensures Kept(fs, fs1, i) {
      forall b | 0 <= b < |fs.disk.data| && b in Owned(n[i]) ensures fs1.disk.data[b] == fs.disk.data[b] {
        Apart(n, i, q, b);
      }
    }
  }

  // ---- steps that change no inode ----

  lemma LookupKeepsFiles(fs: Fs, fs1: Fs)
    requires Hashed(fs.cache) && Hashed(fs1.cache) && OnlyCached(fs, fs1)
    ensures SameFiles(fs, fs1)
  {
    forall i: nat | i < INODES ensures Current(fs1, i) == Current(fs, i) {
      CachingKeepsCurrent(fs, fs1, i);
    }
  }

  lemma OpeningKeepsFiles(fs: Fs, alloc: Alloc, d: nat, readable: bool, writable: bool)
    ensures SameFiles(fs, OpenFile(fs, alloc, d, readable, writable).0)
  {
  }

  lemma ReleasingKeepsFiles(fs: Fs, f: nat)
    ensures SameFiles(fs, ReleaseFile(fs, f))
  {
  }

  lemma WriteBackKeepsNow(fs: Fs, v: nat)
    requires DiskShape(fs.disk) && Hashed(fs.cache) && Coherent(fs.cache, fs.disk.dinodes) && v in fs.cache.vinodes
    ensures SameFiles(fs, WriteBack(fs, v))
  {
    var fs1 := WriteBack(fs, v);
    forall i: nat | i < INODES ensures Current(fs1, i) == Current(fs, i) {
    }
  }

  lemma DroppingKeepsFiles(fs: Fs, d: nat, gone: bool, c1: Cache)
    requires Hashed(fs.cache) && d in fs.cache.dentries && fs.cache.dentries[d].inode in fs.cache.vinodes
    requires Dropped(fs.cache, d, gone, c1)
    requires gone ==> DinodeAt(fs.disk, InodeOf(fs.cache, d).inum) == InodeOf(fs.cache, d).meta
    ensures SameFiles(fs, fs.(cache := c1))
  {
    DropSameCurrent(fs, d, gone, c1);
  }

  /** The end of vfs_close leaves on disk the inode that was in force. */
  lemma ForgettingKeepsFiles(fs: Fs, d: nat)
    requires DiskShape(fs.disk) && Hashed(fs.cache) && Coherent(fs.cache, fs.disk.dinodes)
    requires d in fs.cache.dentries && fs.cache.dentries[d].inode in fs.cache.vinodes
    ensures SameFiles(fs, ForgetDentry(fs, d)) && ForgetDentry(fs, d).cache.files == fs.cache.files
  {
    hide Now, Dropped, DiskShape;
    var v := fs.cache.dentries[d].inode;
    DropDentryIs(fs.cache, d);
    if InodeOf(fs.cache, d).ref == 1 {
      WriteBackKeepsNow(fs, v);
      DroppingKeepsFiles(WriteBack(fs, v), d, true, DropVinode(DropDentry(fs.cache, d), v));
    } else {
      DroppingKeepsFiles(fs, d, false, DropDentry(fs.cache, d));
    }
  }

  /** vfs_close changes no file, and drops the handle of a file and no other. */
  lemma CloseDrops(fs: Fs, f: nat)
    requires Inv(fs) && f in fs.cache.files
    ensures SameFiles(fs, Close(fs, f))
    ensures Close(fs, f).cache.files ==
      if InodeOf(fs.cache, fs.cache.files[f].dentry).meta.kind == FileI then fs.cache.files - {f} else fs.cache.files
  {
    var d := fs.cache.files[f].dentry;
    ReleaseFileKeepsInv(fs, f);
    ReleasingKeepsFiles(fs, f);
    if InodeOf(fs.cache, d).meta.kind == FileI && DentryAt(ReleaseFile(fs, f).cache, d).dref == 0 {
      ReleasedIsDroppable(fs, f);
      ForgettingKeepsFiles(ReleaseFile(fs, f), d);
    }
  }

  /**
   What the last close on a name leaves: the name is no longer cached, and if it was the only cached name of its inode,
   the inode is no longer cached either and the disk has what was in force. Any other close leaves the disk alone and
   the name cached.
   */
  lemma CloseWritesBack(fs: Fs, f: nat)
    requires Inv(fs) && f in fs.cache.files && InodeOf(fs.cache, fs.cache.files[f].dentry).meta.kind == FileI
    ensures var d, fs1 := fs.cache.files[f].dentry, Close(fs, f);
            var v, i := DentryAt(fs.cache, d).inode, InodeOf(fs.cache, d).inum;
            && (d in fs1.cache.dentries <==> OpenOn(fs.cache, d) != {f})
            && (v in fs1.cache.vinodes <==> d in fs1.cache.dentries || Holders(fs.cache, v) != {d})
            && (if v in fs1.cache.vinodes then fs1.disk == fs.disk else DinodeAt(fs1.disk, i) == Current(fs, i))
  {
    hide ReleaseFile, ForgetDentry;
    var d := fs.cache.files[f].dentry;
    var fs0 := ReleaseFile(fs, f);
    ReleaseFileKeepsInv(fs, f);
    ReleaseIs(fs, f);
    OneOpen(fs, d, f);
    if fs0.cache.dentries[d].dref == 0 {
      ReleasedIsDroppable(fs, f);
      ForgottenIs(fs0, d);
      SameHolders(fs, fs0, d);
    }
  }

  lemma ReleaseIs(fs: Fs, f: nat)
    requires f in fs.cache.files && fs.cache.files[f].dentry in fs.cache.dentries
    ensures var d, c := fs.cache.files[f].dentry, ReleaseFile(fs, f).cache;
            && c.dentries == fs.cache.dentries[d := DentryAt(fs.cache, d).(dref := DentryAt(fs.cache, d).dref - 1)]
            && c.vinodes == fs.cache.vinodes && c.vhash == fs.cache.vhash && ReleaseFile(fs, f).disk == fs.disk
  {
  }

  /** The count says whether `f` is the only file on its name. */
  lemma OneOpen(fs: Fs, d: nat, f: nat)
    requires DrefsCounted(fs.cache) && d in fs.cache.dentries && f in fs.cache.files && fs.cache.files[f].dentry == d
    ensures fs.cache.dentries[d].dref == 1 <==> OpenOn(fs.cache, d) == {f}
  {
    var s := OpenOn(fs.cache, d);
    assert f in s;
    if |s| == 1 {
      assert |s - {f}| == 0;
    }
  }

  lemma SameHolders(fs: Fs, fs0: Fs, d: nat)
    requires RefsCounted(fs.cache) && d in fs.cache.dentries && fs.cache.dentries[d].inode in fs.cache.vinodes
    requires fs0.cache.vinodes == fs.cache.vinodes && fs0.cache.vhash == fs.cache.vhash && fs0.disk == fs.disk
    ensures var v := fs.cache.dentries[d].inode;
            fs0.cache.vinodes[v].ref == 1 <==> Holders(fs.cache, v) == {d}
    ensures forall i: nat :: Current(fs0, i) == Current(fs, i)
  {
    var s := Holders(fs.cache, fs.cache.dentries[d].inode);
    assert d in s;
    if |s| == 1 {
      assert |s - {d}| == 0;
    }
  }

  lemma ForgottenIs(fs: Fs, d: nat)
    requires Hashed(fs.cache) && Coherent(fs.cache, fs.disk.dinodes)
    requires d in fs.cache.dentries && fs.cache.dentries[d].inode in fs.cache.vinodes
    ensures var v, fs1 := fs.cache.dentries[d].inode, ForgetDentry(fs, d);
            && d !in fs1.cache.dentries && (v in fs1.cache.vinodes <==> fs.cache.vinodes[v].ref != 1)
            && if fs.cache.vinodes[v].ref != 1 then fs1.disk == fs.disk
               else DinodeAt(fs1.disk, fs.cache.vinodes[v].inum) == Current(fs, fs.cache.vinodes[v].inum)
  {
    assert Live(fs.disk.dinodes, fs.cache.vinodes[fs.cache.dentries[d].inode].inum);
  }

  /** vfs_closedir drops the handle of a directory and changes nothing else but its dentry's count. */
  lemma CloseDirDrops(fs: Fs, f: nat)
    requires Inv(fs) && f in fs.cache.files
    ensures SameFiles(fs, CloseDir(fs, f)) && CloseDir(fs, f).disk == fs.disk
    ensures CloseDir(fs, f).cache.files ==
      if InodeOf(fs.cache, fs.cache.files[f].dentry).meta.kind == DirI then fs.cache.files - {f} else fs.cache.files
  {
    ReleasingKeepsFiles(fs, f);
  }

  // ---- creation, link and unlink: one directory changes ----

  /** A record is written into the one block of directory `q`. */
  lemma RecordedElsewhere(fs: Fs, pv: nat, q: nat, e: Direntry, c1: Cache, data1: seq<Block>, m1: Dinode)
    requires Recorded(fs, pv, q, e, c1, data1, m1) && InodeOk(VinodeAt(fs.cache, pv).meta)
    requires VinodeAt(fs.cache, pv).meta.kind == DirI
    ensures |data1| == |fs.disk.data|
    ensures var m := VinodeAt(fs.cache, pv).meta;
            forall b :: 0 <= b < |fs.disk.data| && b !in Owned(m) ==> data1[b] == fs.disk.data[b]
  {
    var m := VinodeAt(fs.cache, pv).meta;
    assert Owned(m)[0] == m.addrs[0];
  }

  lemma CreatedKeepsFiles(fs: Fs, fs1: Fs, pv: nat, q: nat, name: string, i: nat, b: nat, m: Dinode, m1: Dinode)
    requires DiskShape(fs.disk) && Hashed(fs.cache) && Coherent(fs.cache, fs.disk.dinodes)
    requires Ownership(Now(fs), fs.disk.freemap) && IsDir(fs.disk.dinodes, q)
    requires Created(fs, fs1, pv, q, name, i, b, m, m1) && q != i
    ensures FilesKept(fs, fs1, {})
  {
    hide Now, Ownership, DiskShape, Hashed, Coherent, FilesKept, InodeOk;
    CreatedCurrent(fs, fs1, pv, q, name, i, b, m, m1);
    DirectoryInForce(fs, pv, q);
    RecordedElsewhere(fs, pv, q, Direntry(i, name), fs1.cache, fs1.disk.data, m1);
    DirectoryWrite(fs, fs1, q, {});
  }

  lemma ReadyKeepsFiles(fs: Fs, fs1: Fs, pv: nat, q: nat, name: string, i: nat, b: nat, m: Dinode, m1: Dinode)
    requires CreateReady(fs, fs1, pv, q, name, i, b, m, m1)
    ensures FilesKept(fs, fs1, {})
  {
    CreatedKeepsFiles(fs, fs1, pv, q, name, i, b, m, m1);
  }

  lemma DirectoryInForce(fs: Fs, pv: nat, q: nat)
    requires DiskShape(fs.disk) && Coherent(fs.cache, fs.disk.dinodes) && IsDir(fs.disk.dinodes, q)
    requires pv in fs.cache.vinodes && fs.cache.vinodes[pv].inum == q
    ensures VinodeAt(fs.cache, pv).meta.kind == DirI && InodeOk(VinodeAt(fs.cache, pv).meta)
    ensures q < INODES == |fs.disk.dinodes|
  {
  }

  /** rfs_create and rfs_mkdir, with the caches brought up to date. */
  lemma CreationKeepsFiles(fs: Fs, alloc: Alloc, p: nat, name: string, kind: Kind)
    requires Inv(fs) && FreshPages(alloc) && kind != FreeI
    requires IsDirDentry(fs.cache, p) && (p, name) !in fs.cache.dhash && NameIsFree(fs, p, name) && CanCreate(fs, p)
    ensures FilesKept(fs, CreateChild(fs, alloc, p, name, kind).0, {})
  {
    hide FilesKept, SameFiles, Hashed, OnlyCached, CreateReady, CacheChild, NewChild;
    var i := FirstFreeInode(fs.disk.dinodes);
    var fs1 := CreateOnDisk(fs, fs.cache.dentries[p].inode, name, kind);
    var m, m1 := CreateIsReady(fs, p, name, kind);
    ReadyKeepsFiles(fs, fs1, fs.cache.dentries[p].inode, InodeOf(fs.cache, p).inum, name, i,
                    FirstFreeBlock(fs.disk.freemap), m, m1);
    CachedAfterCreate(fs, alloc, p, name, kind);
    SameIsKept(fs1, CreateChild(fs, alloc, p, name, kind).0);
    FilesKeptInTurn(fs, fs1, CreateChild(fs, alloc, p, name, kind).0, {});
  }

  lemma CachedAfterCreate(fs: Fs, alloc: Alloc, p: nat, name: string, kind: Kind)
    requires Inv(fs) && FreshPages(alloc) && kind != FreeI
    requires IsDirDentry(fs.cache, p) && (p, name) !in fs.cache.dhash && NameIsFree(fs, p, name) && CanCreate(fs, p)
    ensures SameFiles(CreateOnDisk(fs, fs.cache.dentries[p].inode, name, kind),
                      CreateChild(fs, alloc, p, name, kind).0)
  {
    var fs1 := CreateOnDisk(fs, fs.cache.dentries[p].inode, name, kind);
    var i := FirstFreeInode(fs.disk.dinodes);
    CreateOnDiskKeepsInv(fs, p, name, kind);
    CreateChildIs(fs, alloc, p, name, kind);
    assert IsDirDentry(fs1.cache, p);
    CacheChildKeepsInv(fs1, alloc, p, name, i);
    ChildIsCached(fs1, CacheChild(fs1, alloc, p, name, i).0, CacheChild(fs1, alloc, p, name, i).1, p, name, i);
    LookupKeepsFiles(fs1, CacheChild(fs1, alloc, p, name, i).0);
  }

  lemma ChildIsCached(fs: Fs, fs1: Fs, a: nat, p: nat, name: string, i: nat)
    requires NewChild(fs, fs1, a, p, name, i)
    ensures OnlyCached(fs, fs1)
  {
  }

  lemma LinkedKeepsFiles(fs: Fs, fs1: Fs, pv: nat, q: nat, name: string, v: nat, i: nat, u: Dinode, m1: Dinode)
    requires DiskShape(fs.disk) && Hashed(fs.cache) && Coherent(fs.cache, fs.disk.dinodes)
    requires Ownership(Now(fs), fs.disk.freemap) && IsDir(fs.disk.dinodes, q)
    requires Linked(fs, fs1, pv, q, name, v, i, u, m1)
    ensures FilesKept(fs, fs1, {})
  {
    hide Now, Ownership, DiskShape, Hashed, Coherent, FilesKept, InodeOk;
    LinkedCurrent(fs, fs1, pv, q, name, v, i, u, m1);
    DirectoryInForce(fs, pv, q);
    RecordedElsewhere(fs, pv, q, Direntry(i, name), SetMeta(fs.cache, pv, m1), fs1.disk.data, m1);
    DirectoryWrite(fs, fs1, q, {});
  }

  lemma LinkReadyKeepsFiles(fs: Fs, fs1: Fs, pv: nat, q: nat, name: string, v: nat, i: nat, u: Dinode, m1: Dinode)
    requires LinkReady(fs, fs1, pv, q, name, v, i, u, m1)
    ensures FilesKept(fs, fs1, {})
  {
    LinkedKeepsFiles(fs, fs1, pv, q, name, v, i, u, m1);
  }

  /** rfs_link, with the new dentry. */
  lemma LinkingKeepsFiles(fs: Fs, alloc: Alloc, p: nat, name: string, v: nat)
    requires Inv(fs) && FreshPages(alloc)
    requires IsDirDentry(fs.cache, p) && (p, name) !in fs.cache.dhash && NameIsFree(fs, p, name)
    requires InodeOf(fs.cache, p).meta.size < BLOCK_SIZE
    requires v in fs.cache.vinodes && fs.cache.vinodes[v].meta.kind == FileI
    ensures FilesKept(fs, LinkName(fs, alloc, p, name, v), {})
  {
    hide FilesKept, SameFiles, LinkReady, AddOld;
    var pv := fs.cache.dentries[p].inode;
    var fs1 := LinkOnDisk(fs, pv, name, v);
    var u, m1 := LinkIsReady(fs, p, name, v);
    LinkReadyKeepsFiles(fs, fs1, pv, InodeOf(fs.cache, p).inum, name, v, fs.cache.vinodes[v].inum, u, m1);
    LinkNameIs(fs, alloc, p, name, v);
    AddingKeepsFiles(fs1, alloc(Used(fs.cache)), name, v, p);
    SameIsKept(fs1, LinkName(fs, alloc, p, name, v));
    FilesKeptInTurn(fs, fs1, LinkName(fs, alloc, p, name, v), {});
  }

  lemma AddingKeepsFiles(fs: Fs, a: nat, name: string, v: nat, p: nat)
    ensures SameFiles(fs, fs.(cache := AddOld(fs.cache, a, name, v, p)))
  {
  }

  lemma RemovedKeepsFiles(fs: Fs, fs1: Fs, cd: Cache, d: nat, pv: nat, q: nat, index: nat, v: nat, i: nat, u: Dinode)
    requires DiskShape(fs.disk) && Hashed(fs.cache) && Coherent(fs.cache, fs.disk.dinodes)
    requires Ownership(Now(fs), fs.disk.freemap) && IsDir(fs.disk.dinodes, q)
    requires RemovedName(fs, fs1, cd, d, pv, q, index, v, i, u)
    requires index < VinodeAt(fs.cache, pv).meta.size / ENTRY_SIZE
    ensures FilesKept(fs, fs1, if InodeOf(fs.cache, d).meta.nlinks == 1 then {i} else {})
  {
    hide Now, Ownership, FilesKept, Dropped;
    RemovedCurrent(fs, fs1, cd, d, pv, q, index, v, i, u);
    DirectoryInForce(fs, pv, q);
    RemovedElsewhere(fs, fs1.disk.data, pv, index);
    CountsAgree(fs, fs.cache.dentries[d].inode);
    DirectoryWrite(fs, fs1, q, if InodeOf(fs.cache, d).meta.nlinks == 1 then {i} else {});
  }

  lemma CountsAgree(fs: Fs, v: nat)
    requires Coherent(fs.cache, fs.disk.dinodes) && v in fs.cache.vinodes
    ensures Live(fs.disk.dinodes, fs.cache.vinodes[v].inum)
    ensures fs.disk.dinodes[fs.cache.vinodes[v].inum].nlinks == fs.cache.vinodes[v].meta.nlinks
  {
  }

  lemma RemovedElsewhere(fs: Fs, data1: seq<Block>, pv: nat, index: nat)
    requires ValidData(fs.disk.data) && InodeOk(VinodeAt(fs.cache, pv).meta) && VinodeAt(fs.cache, pv).meta.kind == DirI
    requires index < VinodeAt(fs.cache, pv).meta.size / ENTRY_SIZE
    requires data1 == RemoveDirentry(fs.disk.data, VinodeAt(fs.cache, pv).meta, index)
    ensures |data1| == |fs.disk.data|
    ensures var m := VinodeAt(fs.cache, pv).meta;
            forall b :: 0 <= b < |fs.disk.data| && b !in Owned(m) ==> data1[b] == fs.disk.data[b]
  {
    hide RemoveDirentry;
    RemoveRecord(fs.disk.data, VinodeAt(fs.cache, pv).meta, index);
    OneBlock(VinodeAt(fs.cache, pv).meta);
  }

  lemma OneBlock(m: Dinode)
    requires InodeOk(m) && m.kind == DirI
    ensures Owned(m) == [m.addrs[0]]
  {
  }

  /** rfs_unlink, with the caches brought up to date: only a file that loses its last name is touched. */
  lemma RemovingKeepsFiles(fs: Fs, p: nat, d: nat)
    requires Inv(fs) && CanUnlink(fs, p, d)
    ensures FilesKept(fs, RemoveName(fs, p, d),
                      if InodeOf(fs.cache, d).meta.nlinks == 1 then {InodeOf(fs.cache, d).inum} else {})
  {
    var cd, q, index, u := RemoveNameIs(fs, p, d);
    RecordInside(fs, d, q, index);
    RemovedKeepsFiles(fs, RemoveName(fs, p, d), cd, d, DentryAt(fs.cache, p).inode, q, index,
                      DentryAt(fs.cache, d).inode, InodeOf(fs.cache, d).inum, u);
  }

  lemma RecordInside(fs: Fs, d: nat, q: nat, index: nat)
    requires RecordAt(fs, d, q, index)
    ensures index < InodeOf(fs.cache, DentryAt(fs.cache, d).parent).meta.size / ENTRY_SIZE
  {
  }

  /** rfs_write touches its own file. */
  lemma WritingKeepsFiles(fs: Fs, v: nat, offset: nat, len: nat, contents: int -> Block)
    requires Inv(fs) && CanWrite(fs, v, offset, len) && WholeBlocks(contents)
    ensures FilesKept(fs, Write(fs, v, offset, len, contents), {fs.cache.vinodes[v].inum})
  {
    WriteKeepsInv(fs, v, offset, len, contents);
    WriteLives(fs, v);
    WriteKeepsOthers(fs, v, offset, len, contents);
  }

  lemma WriteLives(fs: Fs, v: nat)
    requires DiskShape(fs.disk) && Coherent(fs.cache, fs.disk.dinodes) && v in fs.cache.vinodes
    ensures fs.cache.vinodes[v].inum < INODES
  {
  }

  lemma WriteKeepsOthers(fs: Fs, v: nat, offset: nat, len: nat, contents: int -> Block)
    requires DiskShape(fs.disk) && Hashed(fs.cache) && v in fs.cache.vinodes && fs.cache.vinodes[v].inum < INODES
    requires fs.cache.vinodes[v].meta.kind == FileI && Exclusive(Now(Write(fs, v, offset, len, contents)))
    ensures FilesKept(fs, Write(fs, v, offset, len, contents), {fs.cache.vinodes[v].inum})
  {
    hide Now, DiskShape, Hashed, Kept, Exclusive, WriteMeta;
    var fs1 := Write(fs, v, offset, len, contents);
    var i := fs.cache.vinodes[v].inum;
    WriteCurrent(fs, v, offset, len, contents);
    WriteKeepsKind(fs.cache.vinodes[v].meta, fs.disk.freemap, offset, len);
    forall j: nat | j < INODES && Now(fs)[j].kind == FileI && j != i ensures Kept(fs, fs1, j) {
      WrittenElsewhere(fs, fs1, i, j);
    }
  }

  lemma WriteKeepsKind(m: Dinode, freemap: seq<nat>, offset: nat, len: nat)
    ensures WriteMeta(m, freemap, offset, len).0.kind == m.kind
  {
    GrowKeepsKind(m, freemap, BlocksFor(offset + len));
  }

  lemma {:induction false} GrowKeepsKind(m: Dinode, freemap: seq<nat>, target: nat)
    ensures Grow(m, freemap, target).0.kind == m.kind
    decreases target - m.blocks
  {
    if m.blocks < target && m.blocks < |m.addrs| {
      var b := FirstFreeBlock(freemap);
      GrowKeepsKind(m.(addrs := m.addrs[m.blocks := FIRST_DATA + b], blocks := m.blocks + 1),
                    SetFree(freemap, FIRST_DATA + b, 1), target);
    }
  }

  lemma WrittenElsewhere(fs: Fs, fs1: Fs, i: nat, j: nat)
    requires Exclusive(Now(fs1)) && i < INODES && j < INODES && i != j && Now(fs1)[j] == Now(fs)[j]
    requires Now(fs)[j].kind == FileI && Now(fs1)[i].kind == FileI && |fs1.disk.data| == |fs.disk.data|
    requires forall b :: 0 <= b < |fs.disk.data| && b !in Owned(Now(fs1)[i]) ==> fs1.disk.data[b] == fs.disk.data[b]
    ensures Kept(fs, fs1, j)
  {
    forall b | 0 <= b < |fs.disk.data| && b in Owned(Now(fs)[j]) ensures fs1.disk.data[b] == fs.disk.data[b] {
      Apart(Now(fs1), j, i, b);
    }
  }

  // ---- the calls ----

  lemma LookupIsQuiet(fs: Fs, alloc: Alloc, start: nat, path: Path)
    requires Inv(fs) && LookupReady(fs, alloc, start, path)
    ensures var (fs1, r) := LookupPath(fs, alloc, start, path);
            && Outcome(fs, fs1, r, PathWalk(fs, start, path))
            && FilesKept(fs, fs1, {}) && fs1.cache.files == fs.cache.files && fs1.disk == fs.disk
  {
    LookupIsWalk(fs, alloc, start, path);
    var (fs1, r) := LookupPath(fs, alloc, start, path);
    LookupKeepsFiles(fs, fs1);
    SameIsKept(fs, fs1);
  }

  lemma CreateAtMiss(fs: Fs, alloc: Alloc, r: Lookup, dir: nat, kind: Kind)
    requires Inv(fs) && FreshPages(alloc) && kind != FreeI && r.Missing?
    requires Agrees(fs, r, Miss(dir, r.name)) && DiskRoom(fs.disk, dir)
    ensures FilesKept(fs, CreateChild(fs, alloc, r.parent, r.name, kind).0, {})
  {
    RoomMeansCanCreate(fs, r.parent);
    CreationKeepsFiles(fs, alloc, r.parent, r.name, kind);
  }

  lemma OpenResolvedKeepsFiles(fs: Fs, alloc: Alloc, r: Lookup, w: WalkResult, create: bool, readable: bool,
                               writable: bool)
    requires Inv(fs) && FreshPages(alloc) && Agrees(fs, r, w) && (create && w.Miss? ==> DiskRoom(fs.disk, w.dir))
    ensures FilesKept(fs, OpenResolved(fs, alloc, r, create, readable, writable).0, {})
  {
    hide Inv, FilesKept, SameFiles, CreateChild, OpenFile;
    var fs1 := OpenResolved(fs, alloc, r, create, readable, writable).0;
    if r.Found? && InodeOf(fs.cache, r.dentry).meta.kind == FileI {
      OpeningKeepsFiles(fs, alloc, r.dentry, readable, writable);
      SameIsKept(fs, fs1);
    } else if r.Missing? && create {
      CreateAtMiss(fs, alloc, r, w.dir, FileI);
      var (fs2, a) := CreateChild(fs, alloc, r.parent, r.name, FileI);
      OpeningKeepsFiles(fs2, alloc, a, readable, writable);
      SameIsKept(fs2, fs1);
      FilesKeptInTurn(fs, fs2, fs1, {});
    } else {
      NothingDone(fs);
    }
  }

  lemma NothingDone(fs: Fs)
    ensures FilesKept(fs, fs, {})
  {
    SameIsKept(fs, fs);
  }

  lemma OpenKeepsFiles(fs: Fs, alloc: Alloc, start: nat, path: Path, create: bool, readable: bool, writable: bool)
    requires Inv(fs) && LookupReady(fs, alloc, start, path)
    requires create ==> RoomToCreate(fs, PathWalk(fs, start, path), path)
    ensures FilesKept(fs, Open(fs, alloc, start, path, create, readable, writable).0, {})
  {
    hide Inv, FilesKept, OnlyCached, OpenResolved, DiskRoom;
    LookupIsQuiet(fs, alloc, start, path);
    var (fs1, r) := LookupPath(fs, alloc, start, path);
    var make := create && r.Missing? && MayCreate(path, r.name);
    OpenResolvedKeepsFiles(fs1, alloc, r, PathWalk(fs, start, path), make, readable, writable);
    FilesKeptInTurn(fs, fs1, Open(fs, alloc, start, path, create, readable, writable).0, {});
  }

  lemma MkDirKeepsFiles(fs: Fs, alloc: Alloc, start: nat, path: Path)
    requires Inv(fs) && LookupReady(fs, alloc, start, path) && RoomToCreate(fs, PathWalk(fs, start, path), path)
    ensures FilesKept(fs, MkDir(fs, alloc, start, path).0, {})
  {
    hide Inv, FilesKept, OnlyCached, CreateChild, DiskRoom;
    LookupIsQuiet(fs, alloc, start, path);
    var (fs1, r) := LookupPath(fs, alloc, start, path);
    if r.Missing? && MayCreate(path, r.name) {
      CreateAtMiss(fs1, alloc, r, PathWalk(fs, start, path).dir, DirI);
      FilesKeptInTurn(fs, fs1, MkDir(fs, alloc, start, path).0, {});
    }
  }

  lemma OpenDirKeepsFiles(fs: Fs, alloc: Alloc, start: nat, path: Path)
    requires Inv(fs) && LookupReady(fs, alloc, start, path)
    ensures FilesKept(fs, OpenDir(fs, alloc, start, path).0, {})
  {
    hide Inv, FilesKept, OnlyCached, OpenFile, SameFiles;
    LookupIsQuiet(fs, alloc, start, path);
    var (fs1, r) := LookupPath(fs, alloc, start, path);
    if r.Found? && InodeOf(fs1.cache, r.dentry).meta.kind == DirI {
      OpeningKeepsFiles(fs1, alloc, r.dentry, true, false);
      SameIsKept(fs1, OpenDir(fs, alloc, start, path).0);
      FilesKeptInTurn(fs, fs1, OpenDir(fs, alloc, start, path).0, {});
    }
  }

  /** The file that an unlink by path ends, if it is the last name. */
  ghost function Ended(fs: Fs, start: nat, path: Path): set<nat> {
    var w := PathWalk(fs, start, path);
    if Removes(fs, start, path) && DinodeAt(fs.disk, w.place.file).nlinks == 1 then {w.place.file} else {}
  }

  lemma UnlinkKeepsFiles(fs: Fs, alloc: Alloc, start: nat, path: Path)
    requires Inv(fs) && LookupReady(fs, alloc, start, path)
    ensures FilesKept(fs, Unlink(fs, alloc, start, path).0, Ended(fs, start, path))
  {
    hide Inv, FilesKept, OnlyCached, RemoveName, Removes, CanUnlink;
    LookupIsQuiet(fs, alloc, start, path);
    var (fs1, r) := LookupPath(fs, alloc, start, path);
    UnlinksIff(fs, alloc, start, path);
    if Unlinks(fs1, r) {
      FoundIsUnlinkable(fs1, r);
      FoundFile(fs1, r, PathWalk(fs, start, path));
      RemovingKeepsFiles(fs1, r.parent, r.dentry);
      DiskCount(fs1, r.dentry);
      FilesKeptInTurn(fs, fs1, Unlink(fs, alloc, start, path).0, Ended(fs, start, path));
    }
  }

  lemma DiskCount(fs: Fs, d: nat)
    requires Inv(fs) && d in fs.cache.dentries
    ensures DinodeAt(fs.disk, InodeOf(fs.cache, d).inum).nlinks == InodeOf(fs.cache, d).meta.nlinks
  {
    CountsAgree(fs, fs.cache.dentries[d].inode);
  }

  lemma LinkKeepsFiles(fs: Fs, alloc: Alloc, start: nat, oldPath: Path, newPath: Path)
    requires Inv(fs) && LookupReady(fs, alloc, start, oldPath) && LookupReady(fs, alloc, start, newPath)
    requires FileAtOld(PathWalk(fs, start, oldPath)) ==> StartCanTake(fs, start, PathWalk(fs, start, newPath), newPath)
    ensures FilesKept(fs, Link(fs, alloc, start, oldPath, newPath).0, {})
  {
    hide Inv, FilesKept, LinkPoint, Link, LinkResolved;
    if FileAtOld(PathWalk(fs, start, oldPath)) {
      var fs2, d, q := LinkReaches(fs, alloc, start, oldPath, newPath);
      LinkPointKeepsFiles(fs, fs2, alloc, start, d, q, newPath, PathWalk(fs, start, oldPath).place.file);
    } else {
      LinkRefused(fs, alloc, start, oldPath, newPath);
    }
  }

  lemma LinkPointKeepsFiles(fs: Fs, fs2: Fs, alloc: Alloc, start: nat, d: nat, q: Lookup, newPath: Path, i: nat)
    requires Inv(fs) && FreshPages(alloc) && LinkPoint(fs, fs2, start, d, q, PathWalk(fs, start, newPath), i)
    requires StartCanTake(fs, start, PathWalk(fs, start, newPath), newPath)
    ensures FilesKept(fs, LinkResolved(fs2, alloc, start, d, q, q.Missing? && MayCreate(newPath, q.name)).0, {})
  {
    hide Inv, FilesKept, SameFiles, OnlyCached, LinkName;
    SoundLookup(fs, fs2);
    if q.Missing? && MayCreate(newPath, q.name) {
      MissingIffCreates(fs2, q, PathWalk(fs, start, newPath), newPath);
      LinkMadeKeepsFiles(fs2, alloc, start, d, q.name);
      FilesKeptInTurn(fs, fs2, LinkName(fs2, alloc, start, q.name, DentryAt(fs2.cache, d).inode), {});
    }
  }

  lemma SoundLookup(fs: Fs, fs1: Fs)
    requires Inv(fs) && Inv(fs1) && OnlyCached(fs, fs1)
    ensures FilesKept(fs, fs1, {})
  {
    hide FilesKept, SameFiles;
    LookupKeepsFiles(fs, fs1);
    SameIsKept(fs, fs1);
  }

  lemma LinkMadeKeepsFiles(fs: Fs, alloc: Alloc, start: nat, d: nat, name: string)
    requires Inv(fs) && FreshPages(alloc) && IsDirDentry(fs.cache, start)
    requires d in fs.cache.dentries && InodeOf(fs.cache, d).meta.kind == FileI
    requires InodeOf(fs.cache, start).meta.size < BLOCK_SIZE && NameIsFree(fs, start, name)
    ensures FilesKept(fs, LinkName(fs, alloc, start, name, DentryAt(fs.cache, d).inode), {})
  {
    hide FilesKept, LinkName;
    UncachedWhenFree(fs, start, name);
    LinkingKeepsFiles(fs, alloc, start, name, DentryAt(fs.cache, d).inode);
  }

  lemma LinkRefused(fs: Fs, alloc: Alloc, start: nat, oldPath: Path, newPath: Path)
    requires Inv(fs) && LookupReady(fs, alloc, start, oldPath) && !FileAtOld(PathWalk(fs, start, oldPath))
    ensures FilesKept(fs, Link(fs, alloc, start, oldPath, newPath).0, {})
  {
    hide Inv, FilesKept, OnlyCached, LinkFound;
    LookupIsQuiet(fs, alloc, start, oldPath);
    var (fs1, r) := LookupPath(fs, alloc, start, oldPath);
    if r.Found? { SoundKind(fs1, r.dentry); }
  }

  lemma SoundKind(fs: Fs, d: nat)
    requires Inv(fs) && d in fs.cache.dentries
    ensures InodeOf(fs.cache, d).meta.kind == FileI <==> !IsDirDentry(fs.cache, d)
  {
    FileOrDirectory(fs, d);
  }

  // ---- runs ----

  /** The files whose contents a step may change: the one written to, or the one whose last name goes. */
  ghost function Touched(fs: Fs, op: Op): set<nat> {
    match op
    case DoWrite(f, _, _, _) => {InodeOf(fs.cache, FileAt(fs.cache, f).dentry).inum}
    case DoUnlink(_, start, path) => Ended(fs, start, path)
    case _ => {}
  }

  /** Every call keeps the size, blocks and data of every other file. */
  lemma StepKeepsFiles(fs: Fs, op: Op)
    requires Inv(fs) && Enabled(fs, op)
    ensures FilesKept(fs, Apply(fs, op), Touched(fs, op))
  {
    hide Inv, FilesKept, SameFiles, Ended, Open, OpenDir, MkDir, Unlink, Link, Close, CloseDir, Write;
    match op
    case DoOpen(alloc, start, path, create, readable, writable) =>
      OpenKeepsFiles(fs, alloc, start, path, create, readable, writable);
    case DoClose(f) =>
      CloseDrops(fs, f);
      SameIsKept(fs, Close(fs, f));
    case DoOpenDir(alloc, start, path) => OpenDirKeepsFiles(fs, alloc, start, path);
    case DoCloseDir(f) =>
      CloseDirDrops(fs, f);
      SameIsKept(fs, CloseDir(fs, f));
    case DoMkDir(alloc, start, path) => MkDirKeepsFiles(fs, alloc, start, path);
    case DoUnlink(alloc, start, path) => UnlinkKeepsFiles(fs, alloc, start, path);
    case DoLink(alloc, start, oldPath, newPath) => LinkKeepsFiles(fs, alloc, start, oldPath, newPath);
    case DoWrite(f, offset, len, contents) =>
      WritingKeepsFiles(fs, DentryAt(fs.cache, fs.cache.files[f].dentry).inode, offset, len, contents);
  }

  /** No step of the run touches inode `i`. */
  ghost predicate Untouched(fs: Fs, ops: seq<Op>, i: nat)
    decreases |ops|
  {
    ops == [] || (i !in Touched(fs, ops[0]) && Untouched(Apply(fs, ops[0]), ops[1..], i))
  }

  /** Through any run in which it is not written to and keeps a name, a file keeps its size, blocks and data. */
  lemma {:induction false} OnlyWritesChangeFiles(fs: Fs, ops: seq<Op>, i: nat)
    requires Inv(fs) && AllEnabled(fs, ops) && Untouched(fs, ops, i) && i < INODES && Now(fs)[i].kind == FileI
    ensures Kept(fs, Run(fs, ops), i)
    decreases |ops|
  {
    hide Inv, Kept, Apply, Enabled, Touched;
    if ops == [] {
      KeepsItself(fs, i);
    } else {
      var fs1 := Apply(fs, ops[0]);
      StepKeepsInv(fs, ops[0]);
      AdvancesKeepsInv(fs, fs1, Leaks(fs, ops[0]), ops[0].DoWrite?);
      StepKeepsFiles(fs, ops[0]);
      StillFile(fs, fs1, i);
      OnlyWritesChangeFiles(fs1, ops[1..], i);
      KeptInTurn(fs, fs1, Run(fs, ops), i);
    }
  }

  lemma KeepsItself(fs: Fs, i: nat)
    requires i < INODES
    ensures Kept(fs, fs, i)
  {
  }

  lemma StillFile(fs: Fs, fs1: Fs, i: nat)
    requires Kept(fs, fs1, i)
    ensures i < INODES && Now(fs1)[i].kind == Now(fs)[i].kind
  {
  }

  lemma AdvancesKeepsInv(fs: Fs, fs1: Fs, leak: set<int>, wrote: bool)
    requires Advances(fs, fs1, leak, wrote)
    ensures Inv(fs1)
  {
  }
}
