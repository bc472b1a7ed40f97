/**
 The VFS operations one at a time, on any path: where the names go, that the invariant
 holds afterwards, and exactly when it does not.
 */
module FsOps {
  import opened Options
  import opened RfsDir
  import opened FsState
  import opened FsTree
  import opened FsCache
  import opened FsDisk
  import opened FsInvariant
  import opened FsSteps
  import opened FsLinks
  import opened FsUnlink
  import opened FsLookup
  import opened FsPlaces

  ghost function StartPlace(fs: Fs, start: nat, path: Path): Place {
    PlaceOf(fs.cache, if path.absolute then fs.cache.root else start)
  }

  ghost function PathWalk(fs: Fs, start: nat, path: Path): WalkResult {
    Walk(TreeOf(fs.disk), StartPlace(fs, start, path), path.tokens)
  }

  /** The tokens behind the one that a walk misses. */
  ghost function After(fs: Fs, start: nat, path: Path): seq<string>
    requires PathWalk(fs, start, path).Miss?
  {
    path.tokens[MissIndex(TreeOf(fs.disk), StartPlace(fs, start, path), path.tokens) + 1..]
  }

  /** The start is a cached directory and the path has only directories as intermediates. */
  ghost predicate LookupReady(fs: Fs, alloc: Alloc, start: nat, path: Path) {
    FreshPages(alloc) && IsDirDentry(fs.cache, start) && PathWalk(fs, start, path) != NotADirectory
  }

  lemma RootIsDirectory(fs: Fs)
    requires Anchored(fs.cache, TreeOf(fs.disk)) && Coherent(fs.cache, fs.disk.dinodes)
    requires TreeShape(TreeOf(fs.disk), fs.disk.dinodes)
    ensures IsDirDentry(fs.cache, fs.cache.root)
  {
    assert IsDir(fs.disk.dinodes, 0);
  }

  /** Main theorem on lookup: cached and uncached resolution of any path agree. */
  lemma LookupIsWalk(fs: Fs, alloc: Alloc, start: nat, path: Path)
    requires Inv(fs) && LookupReady(fs, alloc, start, path)
    ensures var (fs1, r) := LookupPath(fs, alloc, start, path);
            Outcome(fs, fs1, r, PathWalk(fs, start, path)) == true && Steady(fs, fs1)
  {
    RootIsDirectory(fs);
    ResolveIsWalk(fs, alloc, if path.absolute then fs.cache.root else start, start, path.tokens);
    CachingIsSteady(fs, LookupPath(fs, alloc, start, path).0);
  }

  /** A lookup does not change the contents in force of any inode. */
  lemma CachingKeepsCurrent(fs: Fs, fs1: Fs, i: nat)
    requires Hashed(fs.cache) && Hashed(fs1.cache) && OnlyCached(fs, fs1)
    ensures Current(fs1, i) == Current(fs, i)
  {
    if i in fs.cache.vhash {
      var w := fs.cache.vhash[i];
      assert w in fs.cache.vinodes && fs1.cache.vinodes[w].inum == i;
      assert fs1.cache.vhash[i] == w;
    } else if i in fs1.cache.vhash {
      var v := fs1.cache.vhash[i];
      assert v in fs1.cache.vinodes && fs1.cache.vinodes[v].inum == i;
      assert v !in fs.cache.vinodes;
    }
  }

  lemma CachingIsSteady(fs: Fs, fs1: Fs)
    requires DiskShape(fs.disk) && Hashed(fs.cache) && Hashed(fs1.cache) && OnlyCached(fs, fs1)
    ensures Steady(fs, fs1)
  {
    forall i: nat ensures Current(fs1, i) == Current(fs, i) {
      CachingKeepsCurrent(fs, fs1, i);
    }
    SameCurrentIsSteady(fs, fs1);
  }

  /** A lookup leaves the directories where they are. */
  lemma SameAfterLookup(fs: Fs, fs1: Fs, d: nat)
    requires OnlyCached(fs, fs1) && d in fs.cache.dentries && fs.cache.dentries[d].inode in fs.cache.vinodes
    ensures PlaceOf(fs.cache, d).InDir? ==> PlaceOf(fs1.cache, d) == PlaceOf(fs.cache, d)
    ensures IsDirDentry(fs1.cache, d) == IsDirDentry(fs.cache, d)
    ensures InodeOf(fs1.cache, d).meta == InodeOf(fs.cache, d).meta && DentryAt(fs1.cache, d) == DentryAt(fs.cache, d)
    ensures InodeOf(fs1.cache, d).inum == InodeOf(fs.cache, d).inum
    ensures forall name :: NameIsFree(fs1, d, name) == NameIsFree(fs, d, name)
  {
  }

  // ---- where paths start, before and after ----

  /** Directory dentries stay, with their inode numbers. */
  ghost predicate SameDirs(fs: Fs, fs1: Fs) {
    && fs1.cache.root == fs.cache.root
    && forall s :: IsDirDentry(fs.cache, s) ==>
      IsDirDentry(fs1.cache, s) && InodeOf(fs1.cache, s).inum == InodeOf(fs.cache, s).inum
  }

  lemma SameDirsTransitive(fs: Fs, fs1: Fs, fs2: Fs)
    requires SameDirs(fs, fs1) && SameDirs(fs1, fs2)
    ensures SameDirs(fs, fs2)
  {
  }

  lemma CachingKeepsDirs(fs: Fs, fs1: Fs)
    requires OnlyCached(fs, fs1) && Anchored(fs.cache, TreeOf(fs.disk))
    ensures SameDirs(fs, fs1)
  {
    forall s | IsDirDentry(fs.cache, s)
      ensures IsDirDentry(fs1.cache, s) && InodeOf(fs1.cache, s).inum == InodeOf(fs.cache, s).inum
    {
      SameAfterLookup(fs, fs1, s);
    }
  }

  lemma CreationKeepsDirs(fs: Fs, alloc: Alloc, p: nat, name: string, kind: Kind)
    requires Anchored(fs.cache, TreeOf(fs.disk)) && FreshPages(alloc) && IsDirDentry(fs.cache, p)
    ensures SameDirs(fs, CreateChild(fs, alloc, p, name, kind).0)
  {
    hide CreateChild;
    var c1 := CreateChild(fs, alloc, p, name, kind).0.cache;
    FreshPair(alloc, fs.cache);
    CreatedVinodes(fs, alloc, p, name, kind);
    CreatedDentries(fs, alloc, p, name, kind);
    forall s | IsDirDentry(fs.cache, s)
      ensures IsDirDentry(c1, s) && InodeOf(c1, s).inum == InodeOf(fs.cache, s).inum
    {
      assert DentryAt(c1, s) == DentryAt(fs.cache, s);
      assert fs.cache.dentries[s].inode in fs.cache.vinodes;
    }
  }

  lemma OpeningKeepsDirs(fs: Fs, alloc: Alloc, d: nat, readable: bool, writable: bool)
    requires d in fs.cache.dentries
    ensures SameDirs(fs, OpenFile(fs, alloc, d, readable, writable).0)
  {
  }

  lemma SameStart(fs: Fs, fs1: Fs, start: nat, path: Path)
    requires SameDirs(fs, fs1) && IsDirDentry(fs.cache, start) && IsDirDentry(fs.cache, fs.cache.root)
    ensures StartPlace(fs1, start, path) == StartPlace(fs, start, path)
  {
  }

  lemma StartIsPlaced(fs: Fs, start: nat, path: Path)
    requires Inv(fs) && IsDirDentry(fs.cache, start)
    ensures Placed(TreeOf(fs.disk), StartPlace(fs, start, path)) && IsDirDentry(fs.cache, fs.cache.root)
  {
    RootIsDirectory(fs);
    DirectoryRead(fs, start);
    DirectoryRead(fs, fs.cache.root);
  }

  // ---- create ----

  /** An inode, a data block and a slot in directory `q` are there to create a name. */
  predicate DiskRoom(k: Disk, q: nat) {
    && FirstFreeInode(k.dinodes) < |k.dinodes|
    && FirstFreeBlock(k.freemap) < |k.freemap|
    && DinodeAt(k, q).size < BLOCK_SIZE
  }

  ghost predicate Creates(w: WalkResult, path: Path) {
    w.Miss? && MayCreate(path, w.name)
  }

  ghost predicate RoomToCreate(fs: Fs, w: WalkResult, path: Path) {
    Creates(w, path) ==> DiskRoom(fs.disk, w.dir)
  }

  /** rfs_alloc_block panics when there is no block. */
  ghost predicate BlockToCreate(fs: Fs, w: WalkResult, path: Path) {
    Creates(w, path) ==> FirstFreeBlock(fs.disk.freemap) < |fs.disk.freemap|
  }

  lemma RoomMeansCanCreate(fs: Fs, p: nat)
    requires Coherent(fs.cache, fs.disk.dinodes) && IsDirDentry(fs.cache, p)
    requires fs.cache.dentries[p].inode in fs.cache.vinodes
    ensures DinodeAt(fs.disk, InodeOf(fs.cache, p).inum).size == InodeOf(fs.cache, p).meta.size
    ensures DiskRoom(fs.disk, InodeOf(fs.cache, p).inum) ==> CanCreate(fs, p)
  {
  }

  lemma {:induction false} MissedNameIsNoDot(t: Tree, here: Place, tokens: seq<string>)
    requires Walk(t, here, tokens).Miss?
    ensures Walk(t, here, tokens).name != "." && Walk(t, here, tokens).name != ".."
    decreases |tokens|
  {
    WalkByNext(t, here, tokens);
    var s := Next(t, here, tokens[0]);
    if s.To? { MissedNameIsNoDot(t, s.place, tokens[1..]); }
  }

  lemma FreeMeansUnfound(es: seq<Direntry>, name: string)
    requires forall j :: 0 <= j < |es| ==> es[j].name != name
    ensures FindEntry(es, name) == |es|
  {
  }

  lemma CreateAfterLookup(fs: Fs, alloc: Alloc, r: Lookup, dir: nat, kind: Kind)
    requires Inv(fs) && FreshPages(alloc) && kind != FreeI && r.Missing? && r.name != "." && r.name != ".."
    requires Agrees(fs, r, Miss(dir, r.name)) && DiskRoom(fs.disk, dir)
    ensures var i := FirstFreeInode(fs.disk.dinodes);
            var (fs1, a) := CreateChild(fs, alloc, r.parent, r.name, kind);
            && Inv(fs1) && Steady(fs, fs1) && a in fs1.cache.dentries && !Live(fs.disk.dinodes, i)
            && Added(TreeOf(fs.disk), TreeOf(fs1.disk), dir, r.name, i, kind == DirI)
  {
    RoomMeansCanCreate(fs, r.parent);
    CreateChildKeepsInv(fs, alloc, r.parent, r.name, kind);
    DirectoryRead(fs, r.parent);
    FreeMeansUnfound(TreeOf(fs.disk)[dir], r.name);
    FreshInode(fs, FirstFreeInode(fs.disk.dinodes));
  }

  lemma FreshInode(fs: Fs, i: nat)
    requires TreeShape(TreeOf(fs.disk), fs.disk.dinodes) && !Live(fs.disk.dinodes, i)
    ensures i !in TreeOf(fs.disk) && i != 0
  {
    assert IsDir(fs.disk.dinodes, 0);
  }

  lemma OpenResolvedKeepsInv(fs: Fs, alloc: Alloc, r: Lookup, w: WalkResult, create: bool, readable: bool,
                             writable: bool)
    requires Inv(fs) && FreshPages(alloc) && Agrees(fs, r, w) && (create && w.Miss? ==> DiskRoom(fs.disk, w.dir))
    requires w.Miss? ==> w.name != "." && w.name != ".."
    ensures var fs1 := OpenResolved(fs, alloc, r, create, readable, writable).0;
            Inv(fs1) && Steady(fs, fs1)
  {
    if r.Found? && InodeOf(fs.cache, r.dentry).meta.kind == FileI {
      OpenFileKeepsInv(fs, alloc, r.dentry, readable, writable);
    } else if r.Missing? && create {
      CreateAfterLookup(fs, alloc, r, w.dir, FileI);
      var (fs1, a) := CreateChild(fs, alloc, r.parent, r.name, FileI);
      OpenFileKeepsInv(fs1, alloc, a, readable, writable);
    }
  }

  lemma WalkNameIsNoDot(fs: Fs, start: nat, path: Path)
    requires PathWalk(fs, start, path).Miss?
    ensures PathWalk(fs, start, path).name != "." && PathWalk(fs, start, path).name != ".."
  {
    MissedNameIsNoDot(TreeOf(fs.disk), StartPlace(fs, start, path), path.tokens);
  }

  lemma OpenKeepsInv(fs: Fs, alloc: Alloc, start: nat, path: Path, create: bool, readable: bool, writable: bool)
    requires Inv(fs) && LookupReady(fs, alloc, start, path)
    requires create ==> RoomToCreate(fs, PathWalk(fs, start, path), path)
    ensures var fs1 := Open(fs, alloc, start, path, create, readable, writable).0;
            Inv(fs1) && Steady(fs, fs1)
  {
    LookupIsWalk(fs, alloc, start, path);
    var w := PathWalk(fs, start, path);
    if w.Miss? { WalkNameIsNoDot(fs, start, path); }
    var (fs1, r) := LookupPath(fs, alloc, start, path);
    OpenResolvedKeepsInv(fs1, alloc, r, w, create && r.Missing? && MayCreate(path, r.name), readable, writable);
  }

  /** Opening a file changes no cached inode. */
  lemma OpeningKeepsVinodes(fs: Fs, alloc: Alloc, d: nat, readable: bool, writable: bool)
    ensures OpenFile(fs, alloc, d, readable, writable).0.cache.vinodes == fs.cache.vinodes
  {
  }

  /** Creation after a lookup breaks the invariant when there is no inode or no room, whatever is opened afterwards. */
  lemma CreateFails(fs: Fs, alloc: Alloc, r: Lookup, dir: nat, kind: Kind)
    requires Inv(fs) && FreshPages(alloc) && r.Missing? && Agrees(fs, r, Miss(dir, r.name))
    requires FirstFreeInode(fs.disk.dinodes) == |fs.disk.dinodes| || DinodeAt(fs.disk, dir).size >= BLOCK_SIZE
    ensures BadVinodes(CreateChild(fs, alloc, r.parent, r.name, kind).0.cache.vinodes)
  {
    RoomMeansCanCreate(fs, r.parent);
    CreateBreaks(fs, alloc, r.parent, r.name, kind);
  }

  lemma OpenFails(fs: Fs, alloc: Alloc, start: nat, path: Path, readable: bool, writable: bool)
    requires Inv(fs) && LookupReady(fs, alloc, start, path) && BlockToCreate(fs, PathWalk(fs, start, path), path)
    requires !RoomToCreate(fs, PathWalk(fs, start, path), path)
    ensures !Inv(Open(fs, alloc, start, path, true, readable, writable).0)
  {
    LookupIsWalk(fs, alloc, start, path);
    var (fs1, r) := LookupPath(fs, alloc, start, path);
    CreateFails(fs1, alloc, r, PathWalk(fs, start, path).dir, FileI);
    var (fs2, a) := CreateChild(fs1, alloc, r.parent, r.name, FileI);
    OpeningKeepsVinodes(fs2, alloc, a, readable, writable);
    BadIsUnsound(OpenFile(fs2, alloc, a, readable, writable).0);
  }

  /**
   vfs_open, given a block, keeps the invariant if and only if what it creates finds a free inode and room in the
   directory.
   */
  lemma OpenKeepsInvIff(fs: Fs, alloc: Alloc, start: nat, path: Path, create: bool, readable: bool, writable: bool)
    requires Inv(fs) && LookupReady(fs, alloc, start, path)
    requires create ==> BlockToCreate(fs, PathWalk(fs, start, path), path)
    ensures Inv(Open(fs, alloc, start, path, create, readable, writable).0) <==>
            (create ==> RoomToCreate(fs, PathWalk(fs, start, path), path))
  {
    if create ==> RoomToCreate(fs, PathWalk(fs, start, path), path) {
      OpenKeepsInv(fs, alloc, start, path, create, readable, writable);
    } else {
      OpenFails(fs, alloc, start, path, readable, writable);
    }
  }

  lemma OpenDirKeepsInv(fs: Fs, alloc: Alloc, start: nat, path: Path)
    requires Inv(fs) && LookupReady(fs, alloc, start, path)
    ensures var fs1 := OpenDir(fs, alloc, start, path).0;
            Inv(fs1) && Steady(fs, fs1)
  {
    LookupIsWalk(fs, alloc, start, path);
    var (fs1, r) := LookupPath(fs, alloc, start, path);
    OpenDirResolvedKeepsInv(fs1, alloc, r);
    SteadyTransitive(fs, fs1, OpenDir(fs, alloc, start, path).0);
  }

  lemma OpenDirResolvedKeepsInv(fs: Fs, alloc: Alloc, r: Lookup)
    requires Inv(fs) && FreshPages(alloc) && (r.Found? ==> r.dentry in fs.cache.dentries)
    ensures var fs1 := OpenDirResolved(fs, alloc, r).0;
            Inv(fs1) && Steady(fs, fs1)
  {
    if r.Found? && InodeOf(fs.cache, r.dentry).meta.kind == DirI {
      OpenFileKeepsInv(fs, alloc, r.dentry, true, false);
    } else {
      SteadyItself(fs);
    }
  }

  lemma MkDirKeepsInv(fs: Fs, alloc: Alloc, start: nat, path: Path)
    requires Inv(fs) && LookupReady(fs, alloc, start, path) && RoomToCreate(fs, PathWalk(fs, start, path), path)
    ensures var fs1 := MkDir(fs, alloc, start, path).0;
            Inv(fs1) && Steady(fs, fs1)
  {
    LookupIsWalk(fs, alloc, start, path);
    var (fs1, r) := LookupPath(fs, alloc, start, path);
    if r.Missing? && MayCreate(path, r.name) {
      WalkNameIsNoDot(fs, start, path);
      CreateAfterLookup(fs1, alloc, r, PathWalk(fs, start, path).dir, DirI);
    }
  }

  lemma MkDirFails(fs: Fs, alloc: Alloc, start: nat, path: Path)
    requires Inv(fs) && LookupReady(fs, alloc, start, path) && BlockToCreate(fs, PathWalk(fs, start, path), path)
    requires !RoomToCreate(fs, PathWalk(fs, start, path), path)
    ensures !Inv(MkDir(fs, alloc, start, path).0)
  {
    LookupIsWalk(fs, alloc, start, path);
    var (fs1, r) := LookupPath(fs, alloc, start, path);
    CreateFails(fs1, alloc, r, PathWalk(fs, start, path).dir, DirI);
    BadIsUnsound(CreateChild(fs1, alloc, r.parent, r.name, DirI).0);
  }

  lemma MkDirKeepsInvIff(fs: Fs, alloc: Alloc, start: nat, path: Path)
    requires Inv(fs) && LookupReady(fs, alloc, start, path) && BlockToCreate(fs, PathWalk(fs, start, path), path)
    ensures Inv(MkDir(fs, alloc, start, path).0) <==> RoomToCreate(fs, PathWalk(fs, start, path), path)
  {
    if RoomToCreate(fs, PathWalk(fs, start, path), path) {
      MkDirKeepsInv(fs, alloc, start, path);
    } else {
      MkDirFails(fs, alloc, start, path);
    }
  }

  // ---- where what is created lands ----

  /** What a successful creation means: a record in the directory where the walk missed, at the path or not. */
  ghost predicate Lands(fs: Fs, fs1: Fs, start: nat, path: Path, isDir: bool) {
    var w := PathWalk(fs, start, path);
    var i := FirstFreeInode(fs.disk.dinodes);
    && w.Miss?
    && StartPlace(fs1, start, path) == StartPlace(fs, start, path)
    && Added(TreeOf(fs.disk), TreeOf(fs1.disk), w.dir, w.name, i, isDir)
    && ArrivesIff(TreeOf(fs.disk), TreeOf(fs1.disk), w.dir, w.name, i, isDir, StartPlace(fs, start, path), path.tokens)
  }

  lemma LandsMeans(fs: Fs, fs1: Fs, start: nat, path: Path, isDir: bool)
    requires Lands(fs, fs1, start, path, isDir)
    ensures var w := PathWalk(fs, start, path);
            PathWalk(fs1, start, path) == Hit(NewPlace(w.dir, FirstFreeInode(fs.disk.dinodes), isDir)) <==>
            ComesBack(TreeOf(fs.disk), w.dir, w.name, After(fs, start, path))
  {
  }

  lemma CreatedLands(fs: Fs, fs1: Fs, start: nat, path: Path, isDir: bool)
    requires Inv(fs) && Inv(fs1) && SameDirs(fs, fs1) && IsDirDentry(fs.cache, start)
    requires var w := PathWalk(fs, start, path);
             var i := FirstFreeInode(fs.disk.dinodes);
             && Creates(w, path) && !Live(fs.disk.dinodes, i)
             && Added(TreeOf(fs.disk), TreeOf(fs1.disk), w.dir, w.name, i, isDir)
    ensures Lands(fs, fs1, start, path, isDir)
  {
    var w := PathWalk(fs, start, path);
    StartIsPlaced(fs, start, path);
    SameStart(fs, fs1, start, path);
    LandsIff(TreeOf(fs.disk), TreeOf(fs1.disk), fs.disk.dinodes, fs1.disk.dinodes, w.dir, w.name,
             FirstFreeInode(fs.disk.dinodes), isDir, StartPlace(fs, start, path), path.tokens);
  }

  /**
   A creating open succeeds, and the path leads to the new file if and only if the tokens behind the missing one
   come back to it.
   */
  lemma OpenLands(fs: Fs, alloc: Alloc, start: nat, path: Path, readable: bool, writable: bool)
    requires Inv(fs) && LookupReady(fs, alloc, start, path)
    requires Creates(PathWalk(fs, start, path), path) && DiskRoom(fs.disk, PathWalk(fs, start, path).dir)
    ensures var (fs1, f) := Open(fs, alloc, start, path, true, readable, writable);
            f.Some? && Lands(fs, fs1, start, path, false)
  {
    LookupIsWalk(fs, alloc, start, path);
    WalkNameIsNoDot(fs, start, path);
    var (fs1, r) := LookupPath(fs, alloc, start, path);
    CreateAfterLookup(fs1, alloc, r, PathWalk(fs, start, path).dir, FileI);
    var (fs2, a) := CreateChild(fs1, alloc, r.parent, r.name, FileI);
    OpenFileKeepsInv(fs2, alloc, a, readable, writable);
    var fs3 := OpenFile(fs2, alloc, a, readable, writable).0;
    CachingKeepsDirs(fs, fs1);
    CreationKeepsDirs(fs1, alloc, r.parent, r.name, FileI);
    OpeningKeepsDirs(fs2, alloc, a, readable, writable);
    SameDirsTransitive(fs, fs1, fs2);
    SameDirsTransitive(fs, fs2, fs3);
    CreatedLands(fs, fs3, start, path, false);
  }

  lemma MkDirLands(fs: Fs, alloc: Alloc, start: nat, path: Path)
    requires Inv(fs) && LookupReady(fs, alloc, start, path)
    requires Creates(PathWalk(fs, start, path), path) && DiskRoom(fs.disk, PathWalk(fs, start, path).dir)
    ensures var (fs1, ok) := MkDir(fs, alloc, start, path);
            ok && Lands(fs, fs1, start, path, true)
  {
    LookupIsWalk(fs, alloc, start, path);
    WalkNameIsNoDot(fs, start, path);
    var (fs1, r) := LookupPath(fs, alloc, start, path);
    CreateAfterLookup(fs1, alloc, r, PathWalk(fs, start, path).dir, DirI);
    var fs2 := CreateChild(fs1, alloc, r.parent, r.name, DirI).0;
    CachingKeepsDirs(fs, fs1);
    CreationKeepsDirs(fs1, alloc, r.parent, r.name, DirI);
    SameDirsTransitive(fs, fs1, fs2);
    CreatedLands(fs, fs2, start, path, true);
  }

  /** On a path without `..` what was created is at the path if and only if the missing token was the last. */
  lemma LandsIffLast(fs: Fs, fs1: Fs, start: nat, path: Path, isDir: bool)
    requires Lands(fs, fs1, start, path, isDir) && MayCreate(path, PathWalk(fs, start, path).name)
    requires ".." !in path.tokens
    ensures var leaf := NewPlace(PathWalk(fs, start, path).dir, FirstFreeInode(fs.disk.dinodes), isDir);
            PathWalk(fs1, start, path) == Hit(leaf) <==>
            MissIndex(TreeOf(fs.disk), StartPlace(fs, start, path), path.tokens) == |path.tokens| - 1
  {
    var w := PathWalk(fs, start, path);
    LandsMeans(fs, fs1, start, path, isDir);
    ComesBackIffLast(TreeOf(fs.disk), w.dir, w.name, After(fs, start, path));
  }

  lemma WalkTwice(t: Tree, d: nat, x: string)
    requires d in t && x != "." && x != ".."
    ensures FindEntry(t[d], x) == |t[d]| ==> Walk(t, InDir(d), [x, x]) == Miss(d, x)
    ensures FindEntry(t[d], x) < |t[d]| && t[d][FindEntry(t[d], x)].inum !in t ==>
      Walk(t, InDir(d), [x, x]) == NotADirectory
  {
    WalkByNext(t, InDir(d), [x, x]);
    var k := FindEntry(t[d], x);
    if k < |t[d]| { WalkByNext(t, PlaceFor(t, d, t[d][k].inum), [x]); }
  }

  /** open("x/x") with creation, in a directory without x, makes x, and the path it was given leads nowhere. */
  lemma OpenTwiceTheName(fs: Fs, alloc: Alloc, start: nat, x: string, readable: bool, writable: bool)
    requires Inv(fs) && FreshPages(alloc) && IsDirDentry(fs.cache, start) && NameIsFree(fs, start, x) && x != "."
    requires x != ".."
    requires DiskRoom(fs.disk, InodeOf(fs.cache, start).inum)
    ensures var (fs1, f) := Open(fs, alloc, start, Path(false, [x, x]), true, readable, writable);
            && f.Some? && HasEntry(TreeOf(fs1.disk), InodeOf(fs.cache, start).inum, x, FirstFreeInode(fs.disk.dinodes))
            && PathWalk(fs1, start, Path(false, [x, x])) == NotADirectory
  {
    var path, d := Path(false, [x, x]), InodeOf(fs.cache, start).inum;
    DirectoryRead(fs, start);
    FreeMeansUnfound(TreeOf(fs.disk)[d], x);
    WalkTwice(TreeOf(fs.disk), d, x);
    OpenLands(fs, alloc, start, path, readable, writable);
    TwiceLands(fs, Open(fs, alloc, start, path, true, readable, writable).0, start, d, x);
  }

  lemma TwiceLands(fs: Fs, fs1: Fs, start: nat, d: nat, x: string)
    requires PathWalk(fs, start, Path(false, [x, x])) == Miss(d, x) && PlaceOf(fs.cache, start) == InDir(d)
    requires Lands(fs, fs1, start, Path(false, [x, x]), false)
    ensures HasEntry(TreeOf(fs1.disk), d, x, FirstFreeInode(fs.disk.dinodes))
    ensures PathWalk(fs1, start, Path(false, [x, x])) == NotADirectory
  {
    var t, t1, i := TreeOf(fs.disk), TreeOf(fs1.disk), FirstFreeInode(fs.disk.dinodes);
    TwiceInNew(t, t1, d, x, i);
  }

  lemma TwiceInNew(t: Tree, t1: Tree, d: nat, x: string, i: nat)
    requires Added(t, t1, d, x, i, false)
    ensures HasEntry(t1, d, x, i) && Walk(t1, InDir(d), [x, x]) == NotADirectory
  {
    FindInAppended(t[d], Direntry(i, x), x);
    assert t1[d][|t[d]|] == Direntry(i, x);
    WalkTwice(t1, d, x);
  }

  /** With `..` a path can come back: x/../x names what it made, though its first token was missing. */
  lemma BackThroughParent(t: Tree, d: nat, x: string)
    requires d in t && FindEntry(t[d], x) == |t[d]| && x != "." && x != ".."
    ensures Walk(t, InDir(d), [x, "..", x]) == Miss(d, x) && MissIndex(t, InDir(d), [x, "..", x]) == 0
    ensures ComesBack(t, d, x, [x, "..", x][1..])
  {
    WalkByNext(t, InDir(d), [x, "..", x]);
    WalkByNext(t, InDir(d), [x]);
    assert ["..", x][1..] == [x] && [x, "..", x][1..] == ["..", x];
  }

  // ---- close ----

  lemma ReleasedIsDroppable(fs: Fs, f: nat)
    requires Inv(fs) && f in fs.cache.files
    requires InodeOf(fs.cache, fs.cache.files[f].dentry).meta.kind == FileI
    requires DentryAt(ReleaseFile(fs, f).cache, fs.cache.files[f].dentry).dref == 0
    ensures Droppable(ReleaseFile(fs, f).cache, fs.cache.files[f].dentry)
  {
    RootIsDirectory(fs);
  }

  lemma CloseKeepsInv(fs: Fs, f: nat)
    requires Inv(fs) && f in fs.cache.files
    ensures Inv(Close(fs, f)) && Steady(fs, Close(fs, f)) && TreeOf(Close(fs, f).disk) == TreeOf(fs.disk)
  {
    var d := fs.cache.files[f].dentry;
    ReleaseFileKeepsInv(fs, f);
    if InodeOf(fs.cache, d).meta.kind == FileI && DentryAt(ReleaseFile(fs, f).cache, d).dref == 0 {
      ReleasedIsDroppable(fs, f);
      ForgetDentryKeepsInv(ReleaseFile(fs, f), d);
    }
  }

  lemma CloseDirKeepsInv(fs: Fs, f: nat)
    requires Inv(fs) && f in fs.cache.files
    ensures Inv(CloseDir(fs, f)) && Steady(fs, CloseDir(fs, f))
  {
    ReleaseFileKeepsInv(fs, f);
  }

  // ---- unlink ----

  lemma FoundIsUnlinkable(fs: Fs, r: Lookup)
    requires Inv(fs) && r.Found? && r.dentry in fs.cache.dentries && ParentFits(fs.cache, r.dentry, r.parent)
    requires InodeOf(fs.cache, r.dentry).meta.kind == FileI && DentryAt(fs.cache, r.dentry).dref <= 0
    ensures CanUnlink(fs, r.parent, r.dentry)
  {
    RootIsDirectory(fs);
  }

  lemma NothingMore(s: set<int>)
    ensures s + {} == s
  {
  }

  /** Whether vfs_unlink goes on after its lookup. */
  ghost predicate Unlinks(fs: Fs, r: Lookup) {
    r.Found? && InodeOf(fs.cache, r.dentry).meta.kind == FileI && DentryAt(fs.cache, r.dentry).dref <= 0
  }

  /** The blocks an unlink by path loses. */
  ghost function PathLeak(fs: Fs, alloc: Alloc, start: nat, path: Path): set<int> {
    var (fs1, r) := LookupPath(fs, alloc, start, path);
    if Unlinks(fs1, r) then Leak(fs1, r.dentry) else {}
  }

  /**
   vfs_unlink keeps the invariant always, and loses exactly the blocks that the disk inode of a last name does not
   list.
   */
  lemma UnlinkKeepsInv(fs: Fs, alloc: Alloc, start: nat, path: Path)
    requires Inv(fs) && LookupReady(fs, alloc, start, path)
    ensures var fs1 := Unlink(fs, alloc, start, path).0;
            Inv(fs1) && Lost(fs1) == Lost(fs) + PathLeak(fs, alloc, start, path)
              && (Written(fs) ==> Written(fs1))
  {
    LookupIsWalk(fs, alloc, start, path);
    var (fs1, r) := LookupPath(fs, alloc, start, path);
    UnlinkResolvedKeepsInv(fs1, r);
    NothingMore(Lost(fs));
  }

  lemma UnlinkResolvedKeepsInv(fs: Fs, r: Lookup)
    requires Inv(fs) && (r.Found? ==> r.dentry in fs.cache.dentries && ParentFits(fs.cache, r.dentry, r.parent))
    ensures var fs1 := UnlinkResolved(fs, r).0;
            && Inv(fs1) && (Written(fs) ==> Written(fs1))
            && Lost(fs1) == if Unlinks(fs, r) then Lost(fs) + Leak(fs, r.dentry) else Lost(fs)
  {
    hide Inv, Written, Lost, Leak, RemoveName, CanUnlink;
    if Unlinks(fs, r) {
      FoundIsUnlinkable(fs, r);
      RemoveNameKeepsInv(fs, r.parent, r.dentry);
    }
  }

  /** The walk ends at a file whose disk inode, if one name is left, lists every block. */
  ghost predicate UpToDate(fs: Fs, w: WalkResult) {
    w.Hit? && w.place.AtFile? && DinodeAt(fs.disk, w.place.file).nlinks == 1 ==>
      DinodeAt(fs.disk, w.place.file).blocks == Current(fs, w.place.file).blocks
  }

  /** A file is open under `name` in directory inode `q`. */
  ghost predicate OpenAt(c: Cache, q: nat, name: string) {
    exists f :: f in c.files && StandsFor(c, c.files[f].dentry, q, name)
  }

  ghost predicate StandsFor(c: Cache, d: nat, q: nat, name: string) {
    d != c.root && DentryAt(c, d).name == name && InodeOf(c, DentryAt(c, d).parent).inum == q
  }

  /** The path leads to a file that is not open under the name in which the path ends. */
  ghost predicate Removes(fs: Fs, start: nat, path: Path) {
    var w := PathWalk(fs, start, path);
    w.Hit? && w.place.AtFile? && !OpenAt(fs.cache, w.place.dir, FinalName("", path.tokens))
  }

  /** In a sound state the dentry of a file is the only one for its directory and name. */
  lemma OnlyOneStandsFor(fs: Fs, d: nat, e: nat)
    requires Hashed(fs.cache) && Anchored(fs.cache, TreeOf(fs.disk)) && OneDentryPerDir(fs.cache)
    requires d in fs.cache.dentries && d != fs.cache.root && e in fs.cache.dentries
    requires StandsFor(fs.cache, e, InodeOf(fs.cache, DentryAt(fs.cache, d).parent).inum, DentryAt(fs.cache, d).name)
    ensures e == d
  {
    var p, q := DentryAt(fs.cache, d).parent, DentryAt(fs.cache, e).parent;
    assert Named(fs.cache, TreeOf(fs.disk), d) && Named(fs.cache, TreeOf(fs.disk), e);
    assert fs.cache.dentries[p].inode in fs.cache.vinodes && fs.cache.dentries[q].inode in fs.cache.vinodes;
    assert p == q;
  }

  lemma StandsForItself(fs: Fs, d: nat)
    requires d != fs.cache.root
    ensures StandsFor(fs.cache, d, InodeOf(fs.cache, DentryAt(fs.cache, d).parent).inum, DentryAt(fs.cache, d).name)
  {
  }

  lemma OpenAtIff(fs: Fs, d: nat)
    requires Hashed(fs.cache) && Anchored(fs.cache, TreeOf(fs.disk)) && OneDentryPerDir(fs.cache)
    requires DrefsCounted(fs.cache) && d in fs.cache.dentries && d != fs.cache.root
    ensures OpenAt(fs.cache, InodeOf(fs.cache, DentryAt(fs.cache, d).parent).inum, DentryAt(fs.cache, d).name) <==>
            DentryAt(fs.cache, d).dref > 0
  {
    hide Hashed, Anchored, OneDentryPerDir, StandsFor;
    var q, name := InodeOf(fs.cache, DentryAt(fs.cache, d).parent).inum, DentryAt(fs.cache, d).name;
    StandsForItself(fs, d);
    forall f | f in fs.cache.files
      ensures StandsFor(fs.cache, fs.cache.files[f].dentry, q, name) <==> f in OpenOn(fs.cache, d)
    {
      var e := fs.cache.files[f].dentry;
      if StandsFor(fs.cache, e, q, name) { OnlyOneStandsFor(fs, d, e); }
    }
    if DentryAt(fs.cache, d).dref > 0 {
      var f :| f in OpenOn(fs.cache, d);
    }
  }

  /** A lookup opens and closes nothing. */
  lemma CachingKeepsOpen(fs: Fs, fs1: Fs, q: nat, name: string)
    requires Anchored(fs.cache, TreeOf(fs.disk)) && DrefsCounted(fs.cache) && OnlyCached(fs, fs1)
    ensures OpenAt(fs1.cache, q, name) <==> OpenAt(fs.cache, q, name)
  {
    forall f | f in fs.cache.files
      ensures StandsFor(fs1.cache, fs.cache.files[f].dentry, q, name) <==>
              StandsFor(fs.cache, fs.cache.files[f].dentry, q, name)
    {
      var d := fs.cache.files[f].dentry;
      SameAfterLookup(fs, fs1, d);
      if d != fs.cache.root {
        assert Named(fs.cache, TreeOf(fs.disk), d);
        SameAfterLookup(fs, fs1, DentryAt(fs.cache, d).parent);
      }
    }
  }

  lemma FileOrDirectory(fs: Fs, d: nat)
    requires Anchored(fs.cache, TreeOf(fs.disk)) && Coherent(fs.cache, fs.disk.dinodes)
    requires TreeShape(TreeOf(fs.disk), fs.disk.dinodes) && d in fs.cache.dentries
    ensures InodeOf(fs.cache, d).meta.kind == FileI <==> !IsDirDentry(fs.cache, d)
    ensures !IsDirDentry(fs.cache, d) ==> d != fs.cache.root
  {
    RootIsDirectory(fs);
    assert Live(fs.disk.dinodes, InodeOf(fs.cache, d).inum);
  }

  /** vfs_unlink goes on exactly when the path leads to a file that is not open under that name. */
  lemma UnlinksIff(fs: Fs, alloc: Alloc, start: nat, path: Path)
    requires Inv(fs) && LookupReady(fs, alloc, start, path)
    ensures var (fs1, r) := LookupPath(fs, alloc, start, path);
            Unlinks(fs1, r) <==> Removes(fs, start, path)
  {
    LookupIsWalk(fs, alloc, start, path);
    var (fs1, r) := LookupPath(fs, alloc, start, path);
    PathName(fs, alloc, start, path);
    FoundUnlinksIff(fs, fs1, r, PathWalk(fs, start, path), FinalName("", path.tokens));
  }

  lemma PathName(fs: Fs, alloc: Alloc, start: nat, path: Path)
    requires Inv(fs) && LookupReady(fs, alloc, start, path)
    ensures var (fs1, r) := LookupPath(fs, alloc, start, path);
            r.Found? && !IsDirDentry(fs1.cache, r.dentry) ==>
              DentryAt(fs1.cache, r.dentry).name == FinalName("", path.tokens)
  {
    RootIsDirectory(fs);
    FoundName(fs, alloc, if path.absolute then fs.cache.root else start, start, path.tokens, "");
  }

  lemma FoundUnlinksIff(fs: Fs, fs1: Fs, r: Lookup, w: WalkResult, name: string)
    requires Inv(fs) && Outcome(fs, fs1, r, w) && w != NotADirectory
    requires r.Found? && !IsDirDentry(fs1.cache, r.dentry) ==> DentryAt(fs1.cache, r.dentry).name == name
    ensures Unlinks(fs1, r) <==> w.Hit? && w.place.AtFile? && !OpenAt(fs.cache, w.place.dir, name)
  {
    if w.Hit? {
      FileOrDirectory(fs1, r.dentry);
      if w.place.AtFile? {
        OpenAtIff(fs1, r.dentry);
        CachingKeepsOpen(fs, fs1, w.place.dir, name);
      }
    }
  }

  lemma UnlinkSucceedsIff(fs: Fs, alloc: Alloc, start: nat, path: Path)
    requires Inv(fs) && LookupReady(fs, alloc, start, path)
    ensures Unlink(fs, alloc, start, path).1 <==> Removes(fs, start, path)
  {
    hide Inv, Removes, LookupPath;
    UnlinksIff(fs, alloc, start, path);
  }

  /** An unlink loses blocks if and only if it goes on, removes a last name, and the disk inode lags. */
  lemma PathLeaksIff(fs: Fs, alloc: Alloc, start: nat, path: Path)
    requires Inv(fs) && LookupReady(fs, alloc, start, path)
    ensures PathLeak(fs, alloc, start, path) == {} <==>
            (Removes(fs, start, path) ==> UpToDate(fs, PathWalk(fs, start, path)))
  {
    LookupIsWalk(fs, alloc, start, path);
    UnlinksIff(fs, alloc, start, path);
    var (fs1, r) := LookupPath(fs, alloc, start, path);
    if Unlinks(fs1, r) {
      FoundIsUnlinkable(fs1, r);
      LeaksIff(fs1, r.parent, r.dentry);
      FoundFile(fs1, r, PathWalk(fs, start, path));
      CachingKeepsCurrent(fs, fs1, InodeOf(fs1.cache, r.dentry).inum);
      UpToDateHere(fs1, r.dentry);
    }
  }

  lemma UpToDateHere(fs: Fs, d: nat)
    requires Hashed(fs.cache) && Coherent(fs.cache, fs.disk.dinodes)
    requires d in fs.cache.dentries && fs.cache.dentries[d].inode in fs.cache.vinodes
    ensures var i := InodeOf(fs.cache, d).inum;
            DiskUpToDate(fs, d) <==>
              (DinodeAt(fs.disk, i).nlinks == 1 ==> DinodeAt(fs.disk, i).blocks == Current(fs, i).blocks)
  {
  }

  lemma FoundFile(fs: Fs, r: Lookup, w: WalkResult)
    requires Agrees(fs, r, w) && r.Found? && InodeOf(fs.cache, r.dentry).meta.kind == FileI
    ensures w.Hit? && w.place.AtFile? && w.place.file == InodeOf(fs.cache, r.dentry).inum
  {
  }

  /** If every disk inode lists all its blocks, nothing is lost. */
  lemma WrittenLosesNothing(fs: Fs, alloc: Alloc, start: nat, path: Path)
    requires Inv(fs) && Written(fs) && LookupReady(fs, alloc, start, path)
    ensures PathLeak(fs, alloc, start, path) == {}
  {
    LookupIsWalk(fs, alloc, start, path);
    var (fs1, r) := LookupPath(fs, alloc, start, path);
    if Unlinks(fs1, r) {
      FoundIsUnlinkable(fs1, r);
      LeaksIff(fs1, r.parent, r.dentry);
      WrittenIsUpToDate(fs1, r.dentry);
    }
  }

  lemma WrittenIsUpToDate(fs: Fs, d: nat)
    requires Hashed(fs.cache) && Coherent(fs.cache, fs.disk.dinodes) && Written(fs)
    requires d in fs.cache.dentries && fs.cache.dentries[d].inode in fs.cache.vinodes
    ensures DiskUpToDate(fs, d)
  {
    assert Live(fs.disk.dinodes, InodeOf(fs.cache, d).inum);
  }

  // ---- link ----

  /** The start directory can take the new name. */
  ghost predicate StartCanTake(fs: Fs, start: nat, w: WalkResult, newPath: Path) {
    Creates(w, newPath) ==> InodeOf(fs.cache, start).meta.size < BLOCK_SIZE && NameIsFree(fs, start, w.name)
  }

  lemma SecondLookup(fs: Fs, fs1: Fs, alloc: Alloc, start: nat, path: Path)
    requires Inv(fs) && OnlyCached(fs, fs1) && LookupReady(fs, alloc, start, path)
    ensures LookupReady(fs1, alloc, start, path) && PathWalk(fs1, start, path) == PathWalk(fs, start, path)
  {
    RootIsDirectory(fs);
    SameAfterLookup(fs, fs1, start);
    SameAfterLookup(fs, fs1, fs.cache.root);
  }

  /** Whether vfs_link finds a file at the old path. */
  ghost predicate FileAtOld(w: WalkResult) {
    w.Hit? && w.place.AtFile?
  }

  /** The state of vfs_link after both lookups: `d` is the old file, and `q` what looking up the new path gave. */
  ghost predicate LinkPoint(fs: Fs, fs2: Fs, start: nat, d: nat, q: Lookup, w: WalkResult, i: nat) {
    && Inv(fs2) && OnlyCached(fs, fs2) && Steady(fs, fs2) && Agrees(fs2, q, w)
    && IsDirDentry(fs2.cache, start) && InodeOf(fs2.cache, start).meta == InodeOf(fs.cache, start).meta
    && InodeOf(fs2.cache, start).inum == InodeOf(fs.cache, start).inum
    && (forall name :: NameIsFree(fs2, start, name) == NameIsFree(fs, start, name))
    && d in fs2.cache.dentries && InodeOf(fs2.cache, d).meta.kind == FileI && InodeOf(fs2.cache, d).inum == i
  }

  lemma LinkReaches(fs: Fs, alloc: Alloc, start: nat, oldPath: Path, newPath: Path) returns (fs2: Fs, d: nat, q: Lookup)
    requires Inv(fs) && LookupReady(fs, alloc, start, oldPath) && LookupReady(fs, alloc, start, newPath)
    requires FileAtOld(PathWalk(fs, start, oldPath))
    ensures LinkPoint(fs, fs2, start, d, q, PathWalk(fs, start, newPath),
                      PathWalk(fs, start, oldPath).place.file)
    ensures Link(fs, alloc, start, oldPath, newPath) ==
            LinkResolved(fs2, alloc, start, d, q, q.Missing? && MayCreate(newPath, q.name))
  {
    var fs1 := FirstLookup(fs, alloc, start, oldPath);
    d := LookupPath(fs, alloc, start, oldPath).1.dentry;
    fs2, q := LookupAgain(fs, fs1, alloc, start, newPath, d);
    var w, i := PathWalk(fs, start, newPath), PathWalk(fs, start, oldPath).place.file;
    assert LinkPoint(fs, fs2, start, d, q, w, i);
    LinkUnfolds(fs, alloc, start, oldPath, newPath);
  }

  lemma LinkUnfolds(fs: Fs, alloc: Alloc, start: nat, oldPath: Path, newPath: Path)
    requires var (fs1, r) := LookupPath(fs, alloc, start, oldPath);
             r.Found? && InodeOf(fs1.cache, r.dentry).meta.kind == FileI
    ensures var (fs1, r) := LookupPath(fs, alloc, start, oldPath);
            var (fs2, q) := LookupPath(fs1, alloc, start, newPath);
            Link(fs, alloc, start, oldPath, newPath) ==
              LinkResolved(fs2, alloc, start, r.dentry, q, q.Missing? && MayCreate(newPath, q.name))
  {
  }

  /** The old file, after the first lookup. */
  lemma FirstLookup(fs: Fs, alloc: Alloc, start: nat, oldPath: Path) returns (fs1: Fs)
    requires Inv(fs) && LookupReady(fs, alloc, start, oldPath) && FileAtOld(PathWalk(fs, start, oldPath))
    ensures var (fs0, r) := LookupPath(fs, alloc, start, oldPath);
            && fs1 == fs0 && Inv(fs1) && OnlyCached(fs, fs1) && Steady(fs, fs1)
            && r.Found? && r.dentry in fs1.cache.dentries && fs1.cache.dentries[r.dentry].inode in fs1.cache.vinodes
            && InodeOf(fs1.cache, r.dentry).meta.kind == FileI
            && InodeOf(fs1.cache, r.dentry).inum == PathWalk(fs, start, oldPath).place.file
  {
    LookupIsWalk(fs, alloc, start, oldPath);
    var (fs0, r) := LookupPath(fs, alloc, start, oldPath);
    fs1 := fs0;
    OldIsFile(fs1, r, PathWalk(fs, start, oldPath));
  }

  lemma LookupAgain(fs: Fs, fs1: Fs, alloc: Alloc, start: nat, newPath: Path, d: nat) returns (fs2: Fs, q: Lookup)
    requires Inv(fs) && Inv(fs1) && OnlyCached(fs, fs1) && Steady(fs, fs1)
    requires LookupReady(fs, alloc, start, newPath)
    requires d in fs1.cache.dentries && fs1.cache.dentries[d].inode in fs1.cache.vinodes
    requires InodeOf(fs1.cache, d).meta.kind == FileI
    ensures (fs2, q) == LookupPath(fs1, alloc, start, newPath)
    ensures LinkPoint(fs, fs2, start, d, q, PathWalk(fs, start, newPath), InodeOf(fs1.cache, d).inum)
  {
    SecondLookup(fs, fs1, alloc, start, newPath);
    LookupIsWalk(fs1, alloc, start, newPath);
    fs2, q := LookupPath(fs1, alloc, start, newPath).0, LookupPath(fs1, alloc, start, newPath).1;
    BothLookups(fs, fs1, fs2, start, d);
  }

  lemma OldIsFile(fs: Fs, r: Lookup, w: WalkResult)
    requires Coherent(fs.cache, fs.disk.dinodes) && Anchored(fs.cache, TreeOf(fs.disk)) && Agrees(fs, r, w)
    requires FileAtOld(w)
    ensures r.Found? && r.dentry in fs.cache.dentries && fs.cache.dentries[r.dentry].inode in fs.cache.vinodes
    ensures InodeOf(fs.cache, r.dentry).meta.kind == FileI && InodeOf(fs.cache, r.dentry).inum == w.place.file
  {
  }

  lemma BothLookups(fs: Fs, fs1: Fs, fs2: Fs, start: nat, d: nat)
    requires OnlyCached(fs, fs1) && OnlyCached(fs1, fs2) && Steady(fs, fs1) && Steady(fs1, fs2)
    requires start in fs.cache.dentries && fs.cache.dentries[start].inode in fs.cache.vinodes
    requires d in fs1.cache.dentries && fs1.cache.dentries[d].inode in fs1.cache.vinodes
    ensures OnlyCached(fs, fs2) && Steady(fs, fs2)
    ensures IsDirDentry(fs2.cache, start) == IsDirDentry(fs.cache, start)
    ensures InodeOf(fs2.cache, start).meta == InodeOf(fs.cache, start).meta
    ensures InodeOf(fs2.cache, start).inum == InodeOf(fs.cache, start).inum
    ensures forall name :: NameIsFree(fs2, start, name) == NameIsFree(fs, start, name)
    ensures d in fs2.cache.dentries && InodeOf(fs2.cache, d).meta == InodeOf(fs1.cache, d).meta
    ensures InodeOf(fs2.cache, d).inum == InodeOf(fs1.cache, d).inum
  {
    OnlyCachedTransitive(fs, fs1, fs2);
    SteadyTransitive(fs, fs1, fs2);
    SameAfterLookup(fs, fs2, start);
    SameAfterLookup(fs1, fs2, d);
  }

  lemma LinkDoesNothing(fs: Fs, alloc: Alloc, start: nat, oldPath: Path, newPath: Path)
    requires Inv(fs) && LookupReady(fs, alloc, start, oldPath) && !FileAtOld(PathWalk(fs, start, oldPath))
    ensures var (fs1, ok) := Link(fs, alloc, start, oldPath, newPath);
            Inv(fs1) && Steady(fs, fs1) && !ok && fs1.disk == fs.disk
  {
    LookupIsWalk(fs, alloc, start, oldPath);
    var (fs1, r) := LookupPath(fs, alloc, start, oldPath);
    if r.Found? { NoFileFound(fs1, r, PathWalk(fs, start, oldPath)); }
  }

  lemma NoFileFound(fs: Fs, r: Lookup, w: WalkResult)
    requires Inv(fs) && Agrees(fs, r, w) && r.Found? && !FileAtOld(w)
    ensures InodeOf(fs.cache, r.dentry).meta.kind != FileI
  {
  }

  /**
   vfs_link keeps the invariant if and only if the start directory, where it puts its record, has room for the new
   name and no record of it. That is asked only when there is something to link.
   */
  lemma LinkKeepsInvIff(fs: Fs, alloc: Alloc, start: nat, oldPath: Path, newPath: Path)
    requires Inv(fs) && LookupReady(fs, alloc, start, oldPath) && LookupReady(fs, alloc, start, newPath)
    ensures Inv(Link(fs, alloc, start, oldPath, newPath).0) <==>
            (FileAtOld(PathWalk(fs, start, oldPath)) ==> StartCanTake(fs, start, PathWalk(fs, start, newPath), newPath))
  {
    if FileAtOld(PathWalk(fs, start, oldPath)) {
      var fs2, d, q := LinkReaches(fs, alloc, start, oldPath, newPath);
      MissingIffCreates(fs2, q, PathWalk(fs, start, newPath), newPath);
      LinkResolvedKeepsInvIff(fs2, alloc, start, d, q, q.Missing? && MayCreate(newPath, q.name));
    } else {
      LinkDoesNothing(fs, alloc, start, oldPath, newPath);
    }
  }

  lemma LinkKeepsInv(fs: Fs, alloc: Alloc, start: nat, oldPath: Path, newPath: Path)
    requires Inv(fs) && LookupReady(fs, alloc, start, oldPath) && LookupReady(fs, alloc, start, newPath)
    requires FileAtOld(PathWalk(fs, start, oldPath)) ==> StartCanTake(fs, start, PathWalk(fs, start, newPath), newPath)
    ensures var fs1 := Link(fs, alloc, start, oldPath, newPath).0;
            Inv(fs1) && Steady(fs, fs1)
  {
    if FileAtOld(PathWalk(fs, start, oldPath)) {
      var fs2, d, q := LinkReaches(fs, alloc, start, oldPath, newPath);
      LinkResolvedKeepsInv(fs2, alloc, start, d, q, q.Missing? && MayCreate(newPath, q.name));
      SteadyTransitive(fs, fs2, Link(fs, alloc, start, oldPath, newPath).0);
    } else {
      LinkDoesNothing(fs, alloc, start, oldPath, newPath);
    }
  }

  lemma LinkResolvedKeepsInvIff(fs: Fs, alloc: Alloc, start: nat, d: nat, q: Lookup, create: bool)
    requires Inv(fs) && FreshPages(alloc) && IsDirDentry(fs.cache, start)
    requires d in fs.cache.dentries && InodeOf(fs.cache, d).meta.kind == FileI
    ensures Inv(LinkResolved(fs, alloc, start, d, q, create).0) <==>
            (q.Missing? && create ==> InodeOf(fs.cache, start).meta.size < BLOCK_SIZE && NameIsFree(fs, start, q.name))
  {
    if q.Missing? && create {
      LinkNameKeepsInvIff(fs, alloc, start, q.name, DentryAt(fs.cache, d).inode);
    }
  }

  lemma LinkResolvedKeepsInv(fs: Fs, alloc: Alloc, start: nat, d: nat, q: Lookup, create: bool)
    requires Inv(fs) && FreshPages(alloc) && IsDirDentry(fs.cache, start)
    requires d in fs.cache.dentries && InodeOf(fs.cache, d).meta.kind == FileI
    requires q.Missing? && create ==> InodeOf(fs.cache, start).meta.size < BLOCK_SIZE && NameIsFree(fs, start, q.name)
    ensures var fs1 := LinkResolved(fs, alloc, start, d, q, create).0;
            Inv(fs1) && Steady(fs, fs1)
  {
    if q.Missing? && create {
      UncachedWhenFree(fs, start, q.name);
      LinkNameKeepsInv(fs, alloc, start, q.name, DentryAt(fs.cache, d).inode);
    }
  }

  /** What a successful link means: a record for the old file in the start directory, at the new path or not. */
  ghost predicate LinkLands(fs: Fs, fs1: Fs, start: nat, newPath: Path, i: nat) {
    var w := PathWalk(fs, start, newPath);
    var s := InodeOf(fs.cache, start).inum;
    && w.Miss?
    && Added(TreeOf(fs.disk), TreeOf(fs1.disk), s, w.name, i, false)
    && StartPlace(fs1, start, newPath) == StartPlace(fs, start, newPath)
    && LinkArrivesIff(TreeOf(fs.disk), TreeOf(fs1.disk), s, w.dir, w.name, i, StartPlace(fs, start, newPath),
                      newPath.tokens)
  }

  lemma LinkLandsMeans(fs: Fs, fs1: Fs, start: nat, newPath: Path, i: nat)
    requires LinkLands(fs, fs1, start, newPath, i)
    ensures var w := PathWalk(fs, start, newPath);
            var s := InodeOf(fs.cache, start).inum;
            PathWalk(fs1, start, newPath) == Hit(AtFile(s, i)) <==>
            w.dir == s && ComesBack(TreeOf(fs.disk), s, w.name, After(fs, start, newPath))
  {
  }

  /** The path leads to a record for `i` in `s` if and only if it missed there, and comes back. */
  ghost predicate LinkArrivesIff(t: Tree, t1: Tree, s: nat, dir: nat, name: string, i: nat, here: Place,
                                 tokens: seq<string>) {
    && Walk(t, here, tokens) == Miss(dir, name)
    && (Walk(t1, here, tokens) == Hit(AtFile(s, i)) <==>
        dir == s && ComesBack(t, s, name, tokens[MissIndex(t, here, tokens) + 1..]))
  }

  /** A link in one directory is not seen by a walk that misses the name in another. */
  lemma LinkArrives(t: Tree, t1: Tree, n: seq<Dinode>, n1: seq<Dinode>, s: nat, dir: nat, name: string, i: nat,
                    here: Place, tokens: seq<string>)
    requires Setting(t, t1, n, n1, s, name, i, false) && Placed(t, here)
    requires Walk(t, here, tokens) == Miss(dir, name) && tokens[|tokens| - 1] == name
    ensures LinkArrivesIff(t, t1, s, dir, name, i, here, tokens)
  {
    if dir == s {
      LandsIff(t, t1, n, n1, s, name, i, false, here, tokens);
      LinkArrivesHere(t, t1, s, name, i, here, tokens);
    } else {
      TreesAlike(t, t1, n, n1, s, name, i, false);
      LinkNeverArrives(t, t1, s, dir, name, i, here, tokens);
    }
  }

  lemma LinkArrivesHere(t: Tree, t1: Tree, s: nat, name: string, i: nat, here: Place, tokens: seq<string>)
    requires ArrivesIff(t, t1, s, name, i, false, here, tokens)
    ensures LinkArrivesIff(t, t1, s, s, name, i, here, tokens)
  {
  }

  lemma LinkNeverArrives(t: Tree, t1: Tree, s: nat, dir: nat, name: string, i: nat, here: Place, tokens: seq<string>)
    requires Alike(t, t1, s, name, AtFile(s, i)) && Placed(t, here) && dir != s
    requires Walk(t, here, tokens) == Miss(dir, name)
    ensures LinkArrivesIff(t, t1, s, dir, name, i, here, tokens)
  {
    WalkUnaffected(t, t1, s, name, AtFile(s, i), here, tokens);
  }

  /** What a link does to the caches: a new dentry, and new contents for two inodes. */
  lemma LinkCaches(fs: Fs, alloc: Alloc, p: nat, name: string, v: nat)
    requires DentryAt(fs.cache, p).inode in fs.cache.vinodes && v in fs.cache.vinodes
    requires DentryAt(fs.cache, p).inode != v
    ensures var c1, pv, a := LinkName(fs, alloc, p, name, v).cache, DentryAt(fs.cache, p).inode, alloc(Used(fs.cache));
            var x, y := fs.cache.vinodes[v], fs.cache.vinodes[pv];
            && c1.root == fs.cache.root && c1.files == fs.cache.files
            && c1.dentries == fs.cache.dentries[a := Dentry(name, 0, v, p)]
            && c1.vinodes == fs.cache.vinodes[v := x.(ref := x.ref + 1, meta := x.meta.(nlinks := x.meta.nlinks + 1))]
                                             [pv := y.(meta := y.meta.(size := y.meta.size + ENTRY_SIZE))]
  {
  }

  lemma LinkKeepsDirs(fs: Fs, alloc: Alloc, p: nat, name: string, v: nat)
    requires Anchored(fs.cache, TreeOf(fs.disk)) && FreshPages(alloc) && IsDirDentry(fs.cache, p)
    requires v in fs.cache.vinodes && fs.cache.vinodes[v].meta.kind == FileI
    ensures SameDirs(fs, LinkName(fs, alloc, p, name, v))
  {
    hide LinkName;
    var c1 := LinkName(fs, alloc, p, name, v).cache;
    FreshPair(alloc, fs.cache);
    LinkCaches(fs, alloc, p, name, v);
    forall s | IsDirDentry(fs.cache, s)
      ensures IsDirDentry(c1, s) && InodeOf(c1, s).inum == InodeOf(fs.cache, s).inum
    {
      assert DentryAt(c1, s) == DentryAt(fs.cache, s);
      assert fs.cache.dentries[s].inode in fs.cache.vinodes;
    }
  }

  /** The tree after a link, from the state before the lookups. */
  lemma LinkAdds(fs: Fs, alloc: Alloc, start: nat, oldPath: Path, newPath: Path)
    requires Inv(fs) && LookupReady(fs, alloc, start, oldPath) && LookupReady(fs, alloc, start, newPath)
    requires FileAtOld(PathWalk(fs, start, oldPath)) && Creates(PathWalk(fs, start, newPath), newPath)
    requires StartCanTake(fs, start, PathWalk(fs, start, newPath), newPath)
    ensures var (fs1, ok) := Link(fs, alloc, start, oldPath, newPath);
            && ok && Inv(fs1) && SameDirs(fs, fs1)
            && Added(TreeOf(fs.disk), TreeOf(fs1.disk), InodeOf(fs.cache, start).inum,
                     PathWalk(fs, start, newPath).name,
                     PathWalk(fs, start, oldPath).place.file, false)
  {
    var fs2, d, q := LinkReaches(fs, alloc, start, oldPath, newPath);
    WalkNameIsNoDot(fs, start, newPath);
    MissingIffCreates(fs2, q, PathWalk(fs, start, newPath), newPath);
    LinkNameAdds(fs2, alloc, start, d, q.name);
    CachingKeepsDirs(fs, fs2);
    SameDirsTransitive(fs, fs2, LinkName(fs2, alloc, start, q.name, DentryAt(fs2.cache, d).inode));
  }

  lemma LinkNameAdds(fs: Fs, alloc: Alloc, start: nat, d: nat, name: string)
    requires Inv(fs) && FreshPages(alloc) && IsDirDentry(fs.cache, start) && name != "." && name != ".."
    requires d in fs.cache.dentries && InodeOf(fs.cache, d).meta.kind == FileI
    requires InodeOf(fs.cache, start).meta.size < BLOCK_SIZE && NameIsFree(fs, start, name)
    ensures var fs1 := LinkName(fs, alloc, start, name, DentryAt(fs.cache, d).inode);
            && Inv(fs1) && SameDirs(fs, fs1)
            && Added(TreeOf(fs.disk), TreeOf(fs1.disk), InodeOf(fs.cache, start).inum, name, InodeOf(fs.cache, d).inum,
                     false)
  {
    UncachedWhenFree(fs, start, name);
    LinkNameKeepsInv(fs, alloc, start, name, DentryAt(fs.cache, d).inode);
    LinkKeepsDirs(fs, alloc, start, name, DentryAt(fs.cache, d).inode);
    DirectoryRead(fs, start);
    FreeMeansUnfound(TreeOf(fs.disk)[InodeOf(fs.cache, start).inum], name);
    FileIsNoDirectory(fs, d);
  }

  lemma FileIsNoDirectory(fs: Fs, d: nat)
    requires TreeShape(TreeOf(fs.disk), fs.disk.dinodes) && Coherent(fs.cache, fs.disk.dinodes)
    requires d in fs.cache.dentries && fs.cache.dentries[d].inode in fs.cache.vinodes
    requires InodeOf(fs.cache, d).meta.kind == FileI
    ensures InodeOf(fs.cache, d).inum !in TreeOf(fs.disk) && InodeOf(fs.cache, d).inum != 0
  {
    DirectoryInTree(fs, d);
  }

  /**
   A link that can be made is made, in the start directory whatever directory the new path names; the new path leads to
   it if and only if its walk missed in the start directory and the tokens behind the missing one come back.
   */
  lemma LinkLandsInStart(fs: Fs, alloc: Alloc, start: nat, oldPath: Path, newPath: Path)
    requires Inv(fs) && LookupReady(fs, alloc, start, oldPath) && LookupReady(fs, alloc, start, newPath)
    requires FileAtOld(PathWalk(fs, start, oldPath)) && Creates(PathWalk(fs, start, newPath), newPath)
    requires StartCanTake(fs, start, PathWalk(fs, start, newPath), newPath)
    ensures var (fs1, ok) := Link(fs, alloc, start, oldPath, newPath);
            ok && LinkLands(fs, fs1, start, newPath, PathWalk(fs, start, oldPath).place.file)
  {
    LinkAdds(fs, alloc, start, oldPath, newPath);
    LinkedLands(fs, Link(fs, alloc, start, oldPath, newPath).0, start, newPath,
                PathWalk(fs, start, oldPath).place.file);
  }

  lemma LinkedLands(fs: Fs, fs1: Fs, start: nat, newPath: Path, i: nat)
    requires Inv(fs) && Inv(fs1) && SameDirs(fs, fs1) && IsDirDentry(fs.cache, start)
    requires Creates(PathWalk(fs, start, newPath), newPath)
    requires Added(TreeOf(fs.disk), TreeOf(fs1.disk), InodeOf(fs.cache, start).inum, PathWalk(fs, start, newPath).name,
                   i, false)
    ensures LinkLands(fs, fs1, start, newPath, i)
  {
    var w := PathWalk(fs, start, newPath);
    StartIsPlaced(fs, start, newPath);
    SameStart(fs, fs1, start, newPath);
    LinkArrives(TreeOf(fs.disk), TreeOf(fs1.disk), fs.disk.dinodes, fs1.disk.dinodes, InodeOf(fs.cache, start).inum,
                w.dir, w.name, i, StartPlace(fs, start, newPath), newPath.tokens);
  }

  /** vfs_link reports success exactly when a file is at the old path and the new name can be made. */
  lemma LinkSucceedsIff(fs: Fs, alloc: Alloc, start: nat, oldPath: Path, newPath: Path)
    requires Inv(fs) && LookupReady(fs, alloc, start, oldPath) && LookupReady(fs, alloc, start, newPath)
    ensures Link(fs, alloc, start, oldPath, newPath).1 <==>
            FileAtOld(PathWalk(fs, start, oldPath)) && Creates(PathWalk(fs, start, newPath), newPath)
  {
    if FileAtOld(PathWalk(fs, start, oldPath)) {
      var fs2, d, q := LinkReaches(fs, alloc, start, oldPath, newPath);
      MissingIffCreates(fs2, q, PathWalk(fs, start, newPath), newPath);
    } else {
      LinkDoesNothing(fs, alloc, start, oldPath, newPath);
    }
  }

  lemma MissingIffCreates(fs: Fs, q: Lookup, w: WalkResult, path: Path)
    requires Agrees(fs, q, w)
    ensures q.Missing? && MayCreate(path, q.name) <==> Creates(w, path)
  {
  }
}
