/**
 What a program gets from the calls that take a path: when they succeed, which handle they return, what it stands for,
 and which record goes. All of it is told from the walk of the path before the call.
 */
module FsHandles {
  import opened Options
  import opened RfsDir
  import opened FsState
  import opened FsTree
  import opened FsCache
  import opened FsDisk
  import opened FsInvariant
  import opened FsSteps
  import opened FsUnlink
  import opened FsLookup
  import opened FsPlaces
  import opened FsOps
  import opened FsFiles
  import opened FsRuns
  import opened FsWrite

  /** The open files are the old ones and `h`, which has these rights and stands for this place under this name. */
  ghost predicate Gains(c: Cache, c1: Cache, h: nat, readable: bool, writable: bool, place: Place, name: string) {
    && h !in c.files && h in c1.files
    && c1.files == c.files[h := File(c1.files[h].dentry, readable, writable)]
    && c1.files[h].dentry in c1.dentries && PlaceOf(c1, c1.files[h].dentry) == place
    && (place.AtFile? ==> DentryAt(c1, c1.files[h].dentry).name == name)
  }

  /** alloc_vfs_file on a cached dentry. */
  lemma OpenedGains(fs: Fs, alloc: Alloc, d: nat, readable: bool, writable: bool)
    requires Inv(fs) && FreshPages(alloc) && d in fs.cache.dentries
    ensures var (fs1, h) := OpenFile(fs, alloc, d, readable, writable);
            Gains(fs.cache, fs1.cache, h, readable, writable, PlaceOf(fs.cache, d), DentryAt(fs.cache, d).name)
  {
    hide Inv, FreshPages;
    OpenFileKeepsInv(fs, alloc, d, readable, writable);
    OpeningKeepsPlace(fs, alloc, d, readable, writable);
  }

  lemma OpeningKeepsPlace(fs: Fs, alloc: Alloc, d: nat, readable: bool, writable: bool)
    requires d in fs.cache.dentries
    ensures var c1 := OpenFile(fs, alloc, d, readable, writable).0.cache;
            d in c1.dentries && PlaceOf(c1, d) == PlaceOf(fs.cache, d)
              && DentryAt(c1, d).name == DentryAt(fs.cache, d).name
  {
  }

  lemma GainsAfter(c: Cache, c0: Cache, c1: Cache, h: nat, readable: bool, writable: bool, place: Place, name: string)
    requires Gains(c0, c1, h, readable, writable, place, name) && c0.files == c.files
    ensures Gains(c, c1, h, readable, writable, place, name)
  {
  }

  /** What a freshly created file's dentry stands for. */
  lemma CreatedPlace(fs: Fs, alloc: Alloc, p: nat, name: string)
    requires Anchored(fs.cache, TreeOf(fs.disk)) && FreshPages(alloc) && IsDirDentry(fs.cache, p)
    requires FirstFreeInode(fs.disk.dinodes) < |fs.disk.dinodes|
    ensures var (fs1, a) := CreateChild(fs, alloc, p, name, FileI);
            && a in fs1.cache.dentries && DentryAt(fs1.cache, a).name == name
            && PlaceOf(fs1.cache, a) == AtFile(InodeOf(fs.cache, p).inum, FirstFreeInode(fs.disk.dinodes))
            && fs1.cache.files == fs.cache.files
  {
    hide CreateChild, Anchored;
    CreationKeepsDirs(fs, alloc, p, name, FileI);
    CreatedVinodes(fs, alloc, p, name, FileI);
    CreatedDentries(fs, alloc, p, name, FileI);
    NewInodeIs(fs.disk);
  }

  lemma NewInodeIs(k: Disk)
    requires FirstFreeInode(k.dinodes) < |k.dinodes|
    ensures PickedInode(k.dinodes) == FirstFreeInode(k.dinodes)
    ensures DinodeAt(NewInode(k, FileI).0, PickedInode(k.dinodes)).kind == FileI
  {
  }

  /** Where the walk ends, or where creation puts the missing file. */
  ghost function Opened(fs: Fs, w: WalkResult): Place {
    if w.Hit? then w.place else if w.Miss? then AtFile(w.dir, FirstFreeInode(fs.disk.dinodes)) else InDir(0)
  }

  ghost function OpenedName(w: WalkResult, path: Path): string {
    if w.Miss? then w.name else FinalName("", path.tokens)
  }

  /** Whether vfs_open returns a handle. */
  ghost predicate Opens(w: WalkResult, path: Path, create: bool) {
    || (w.Hit? && w.place.AtFile?)
    || (create && w.Miss? && path.tokens != [] && path.tokens[|path.tokens| - 1] == w.name)
  }

  /** vfs_open returns a handle if and only if the path leads to a file, or may be created and misses its base name. */
  lemma OpenReturnsIff(fs: Fs, alloc: Alloc, start: nat, path: Path, create: bool, readable: bool, writable: bool)
    requires Inv(fs) && LookupReady(fs, alloc, start, path)
    ensures Open(fs, alloc, start, path, create, readable, writable).1.Some? <==>
            Opens(PathWalk(fs, start, path), path, create)
  {
    hide Inv, OnlyCached, CreateChild, OpenFile, FilesKept;
    LookupIsQuiet(fs, alloc, start, path);
    var (fs1, r) := LookupPath(fs, alloc, start, path);
    if r.Found? { SoundKind(fs1, r.dentry); }
  }

  /** A refused open changes no handle; a granted one adds one, with the rights asked for, on what the path leads to. */
  lemma OpenGains(fs: Fs, alloc: Alloc, start: nat, path: Path, create: bool, readable: bool, writable: bool)
    requires Inv(fs) && LookupReady(fs, alloc, start, path)
    requires create ==> RoomToCreate(fs, PathWalk(fs, start, path), path)
    ensures var (fs1, h) := Open(fs, alloc, start, path, create, readable, writable);
            var w := PathWalk(fs, start, path);
            if h.Some? then Gains(fs.cache, fs1.cache, h.value, readable, writable, Opened(fs, w), OpenedName(w, path))
            else fs1.cache.files == fs.cache.files
  {
    hide Inv, OnlyCached, FilesKept, Gains, CreateChild, OpenFile, PlaceOf;
    LookupIsQuiet(fs, alloc, start, path);
    var (fs1, r) := LookupPath(fs, alloc, start, path);
    var w := PathWalk(fs, start, path);
    var fs2 := Open(fs, alloc, start, path, create, readable, writable).0;
    if r.Found? && InodeOf(fs1.cache, r.dentry).meta.kind == FileI {
      PathName(fs, alloc, start, path);
      OpenedGains(fs1, alloc, r.dentry, readable, writable);
      GainsAfter(fs.cache, fs1.cache, fs2.cache, OpenFile(fs1, alloc, r.dentry, readable, writable).1, readable,
                 writable,
                 PlaceOf(fs1.cache, r.dentry), DentryAt(fs1.cache, r.dentry).name);
    } else if r.Missing? && create && MayCreate(path, r.name) {
      WalkNameIsNoDot(fs, start, path);
      CreatedGains(fs1, alloc, r, w.dir, readable, writable);
      var a := CreateChild(fs1, alloc, r.parent, r.name, FileI);
      GainsAfter(fs.cache, fs1.cache, fs2.cache, OpenFile(a.0, alloc, a.1, readable, writable).1, readable, writable,
                 AtFile(w.dir, FirstFreeInode(fs1.disk.dinodes)), r.name);
    }
  }

  lemma CreatedGains(fs: Fs, alloc: Alloc, r: Lookup, dir: nat, readable: bool, writable: bool)
    requires Inv(fs) && FreshPages(alloc) && r.Missing? && r.name != "." && r.name != ".."
    requires Agrees(fs, r, Miss(dir, r.name)) && DiskRoom(fs.disk, dir)
    ensures var (fs1, a) := CreateChild(fs, alloc, r.parent, r.name, FileI);
            var (fs2, h) := OpenFile(fs1, alloc, a, readable, writable);
            Gains(fs.cache, fs2.cache, h, readable, writable, AtFile(dir, FirstFreeInode(fs.disk.dinodes)), r.name)
  {
    hide Gains, CreateChild, OpenFile, PlaceOf;
    CreateAfterLookup(fs, alloc, r, dir, FileI);
    CreatedPlace(fs, alloc, r.parent, r.name);
    var (fs1, a) := CreateChild(fs, alloc, r.parent, r.name, FileI);
    var (fs2, h) := OpenFile(fs1, alloc, a, readable, writable);
    OpenedGains(fs1, alloc, a, readable, writable);
    GainsAfter(fs.cache, fs1.cache, fs2.cache, h, readable, writable,
               AtFile(dir, FirstFreeInode(fs.disk.dinodes)), r.name);
  }

  /** vfs_opendir returns a handle if and only if the path leads to a directory; it may be read, not written. */
  lemma OpenDirGains(fs: Fs, alloc: Alloc, start: nat, path: Path)
    requires Inv(fs) && LookupReady(fs, alloc, start, path)
    ensures var (fs1, h) := OpenDir(fs, alloc, start, path);
            var w := PathWalk(fs, start, path);
            && (h.Some? <==> w.Hit? && w.place.InDir?)
            && if h.Some? then Gains(fs.cache, fs1.cache, h.value, true, false, w.place, "")
               else fs1.cache.files == fs.cache.files
  {
    hide Inv, OnlyCached, FilesKept, Gains, OpenFile;
    LookupIsQuiet(fs, alloc, start, path);
    var (fs1, r) := LookupPath(fs, alloc, start, path);
    if r.Found? && InodeOf(fs1.cache, r.dentry).meta.kind == DirI {
      OpenedGains(fs1, alloc, r.dentry, true, false);
      DirectoryGains(fs, fs1, alloc, r.dentry);
    }
  }

  lemma DirectoryGains(fs: Fs, fs1: Fs, alloc: Alloc, d: nat)
    requires fs1.cache.files == fs.cache.files && IsDirDentry(fs1.cache, d)
    requires var (fs2, h) := OpenFile(fs1, alloc, d, true, false);
             Gains(fs1.cache, fs2.cache, h, true, false, PlaceOf(fs1.cache, d), DentryAt(fs1.cache, d).name)
    ensures var (fs2, h) := OpenFile(fs1, alloc, d, true, false);
            Gains(fs.cache, fs2.cache, h, true, false, InDir(InodeOf(fs1.cache, d).inum), "")
  {
  }

  /** vfs_unlink by path removes the record in which the path ends, and no other; refused, it leaves the tree alone. */
  lemma UnlinkRemoves(fs: Fs, alloc: Alloc, start: nat, path: Path)
    requires Inv(fs) && LookupReady(fs, alloc, start, path)
    ensures var fs1 := Unlink(fs, alloc, start, path).0;
            var t, q, name := TreeOf(fs.disk), PathWalk(fs, start, path), FinalName("", path.tokens);
            if Removes(fs, start, path) then
              && q.place.dir in t && FindEntry(t[q.place.dir], name) < |t[q.place.dir]|
              && TreeOf(fs1.disk) == t[q.place.dir := RemoveAt(t[q.place.dir], FindEntry(t[q.place.dir], name))]
            else TreeOf(fs1.disk) == t
  {
    hide Inv, OnlyCached, FilesKept, RemoveName, Removes, CanUnlink, Lost, Leak, Written, TreeOf;
    LookupIsQuiet(fs, alloc, start, path);
    var (fs1, r) := LookupPath(fs, alloc, start, path);
    UnlinksIff(fs, alloc, start, path);
    if Unlinks(fs1, r) {
      FoundIsUnlinkable(fs1, r);
      FoundFile(fs1, r, PathWalk(fs, start, path));
      PathName(fs, alloc, start, path);
      RemoveNameKeepsInv(fs1, r.parent, r.dentry);
      RemovesMeans(fs, start, path);
    }
  }

  lemma RemovesMeans(fs: Fs, start: nat, path: Path)
    requires Removes(fs, start, path)
    ensures PathWalk(fs, start, path).Hit? && PathWalk(fs, start, path).place.AtFile?
  {
  }

  // ---- the handles, call by call ----

  /** A created file is empty, with one block and one name. */
  lemma CreatedIsEmpty(fs: Fs, alloc: Alloc, start: nat, path: Path, readable: bool, writable: bool)
    requires Inv(fs) && LookupReady(fs, alloc, start, path)
    requires Creates(PathWalk(fs, start, path), path) && DiskRoom(fs.disk, PathWalk(fs, start, path).dir)
    ensures var (fs1, h) := Open(fs, alloc, start, path, true, readable, writable);
            && h.Some? && h.value in fs1.cache.files
            && var m := InodeOf(fs1.cache, fs1.cache.files[h.value].dentry).meta;
               m.kind == FileI && m.size == 0 && m.blocks == 1 && m.nlinks == 1
  {
    hide Inv, OnlyCached, FilesKept, CreateChild, OpenFile;
    LookupIsQuiet(fs, alloc, start, path);
    var (fs1, r) := LookupPath(fs, alloc, start, path);
    NewIsEmpty(fs1, alloc, r.parent, r.name);
    var a := CreateChild(fs1, alloc, r.parent, r.name, FileI);
    OpensThat(a.0, alloc, a.1, readable, writable);
  }

  lemma NewIsEmpty(fs: Fs, alloc: Alloc, p: nat, name: string)
    requires FirstFreeInode(fs.disk.dinodes) < |fs.disk.dinodes|
    ensures var (fs1, a) := CreateChild(fs, alloc, p, name, FileI);
            && a in fs1.cache.dentries
            && var m := InodeOf(fs1.cache, a).meta; m.kind == FileI && m.size == 0 && m.blocks == 1 && m.nlinks == 1
  {
    hide CreateChild;
    CreatedVinodes(fs, alloc, p, name, FileI);
    CreatedDentries(fs, alloc, p, name, FileI);
  }

  lemma OpensThat(fs: Fs, alloc: Alloc, d: nat, readable: bool, writable: bool)
    requires d in fs.cache.dentries
    ensures var (fs1, h) := OpenFile(fs, alloc, d, readable, writable);
            h in fs1.cache.files && InodeOf(fs1.cache, fs1.cache.files[h].dentry) == InodeOf(fs.cache, d)
  {
  }

  lemma MkDirKeepsHandles(fs: Fs, alloc: Alloc, start: nat, path: Path)
    requires Inv(fs) && LookupReady(fs, alloc, start, path)
    ensures MkDir(fs, alloc, start, path).0.cache.files == fs.cache.files
  {
    hide Inv, OnlyCached, FilesKept, CreateChild;
    LookupIsQuiet(fs, alloc, start, path);
    var (fs1, r) := LookupPath(fs, alloc, start, path);
    if r.Missing? { CreatedDentries(fs1, alloc, r.parent, r.name, DirI); }
  }

  lemma UnlinkKeepsHandles(fs: Fs, alloc: Alloc, start: nat, path: Path)
    requires Inv(fs) && LookupReady(fs, alloc, start, path)
    ensures Unlink(fs, alloc, start, path).0.cache.files == fs.cache.files
  {
    hide Inv, OnlyCached, FilesKept, RemoveName, CanUnlink;
    LookupIsQuiet(fs, alloc, start, path);
    var (fs1, r) := LookupPath(fs, alloc, start, path);
    if Unlinks(fs1, r) {
      FoundIsUnlinkable(fs1, r);
      RemovalKeepsHandles(fs1, r.parent, r.dentry);
    }
  }

  lemma RemovalKeepsHandles(fs: Fs, p: nat, d: nat)
    requires Inv(fs) && CanUnlink(fs, p, d)
    ensures RemoveName(fs, p, d).cache.files == fs.cache.files
  {
    hide Inv, RemoveName, Unrecorded;
    var cd, q, index, u := RemoveNameIs(fs, p, d);
  }

  lemma LinkKeepsHandles(fs: Fs, alloc: Alloc, start: nat, oldPath: Path, newPath: Path)
    requires Inv(fs) && LookupReady(fs, alloc, start, oldPath) && LookupReady(fs, alloc, start, newPath)
    ensures Link(fs, alloc, start, oldPath, newPath).0.cache.files == fs.cache.files
  {
    hide Inv, FilesKept;
    if FileAtOld(PathWalk(fs, start, oldPath)) {
      var fs2, d, q := LinkReaches(fs, alloc, start, oldPath, newPath);
      if q.Missing? { LinkNameKeepsHandles(fs2, alloc, start, q.name, DentryAt(fs2.cache, d).inode); }
    } else {
      LookupIsQuiet(fs, alloc, start, oldPath);
      var (fs1, r) := LookupPath(fs, alloc, start, oldPath);
      if r.Found? { SoundKind(fs1, r.dentry); }
    }
  }

  lemma LinkNameKeepsHandles(fs: Fs, alloc: Alloc, p: nat, name: string, v: nat)
    ensures LinkName(fs, alloc, p, name, v).cache.files == fs.cache.files
  {
  }

  /**
   What a call does to the open files: open and opendir may add one, close and closedir drop theirs, no other does.
   */
  ghost predicate HandlesAfter(fs: Fs, op: Op, files: map<nat, File>) {
    match op
    case DoOpen(alloc, start, path, create, readable, writable) =>
      if Opens(PathWalk(fs, start, path), path, create) then OneMore(fs.cache.files, files, readable, writable)
      else files == fs.cache.files
    case DoOpenDir(alloc, start, path) =>
      var w := PathWalk(fs, start, path);
      if w.Hit? && w.place.InDir? then OneMore(fs.cache.files, files, true, false) else files == fs.cache.files
    case DoClose(f) =>
      files == if InodeOf(fs.cache, FileAt(fs.cache, f).dentry).meta.kind == FileI then fs.cache.files - {f}
        else fs.cache.files
    case DoCloseDir(f) =>
      files == if InodeOf(fs.cache, FileAt(fs.cache, f).dentry).meta.kind == DirI then fs.cache.files - {f}
        else fs.cache.files
    case _ => files == fs.cache.files
  }

  /** One handle more, with these rights. */
  ghost predicate OneMore(files: map<nat, File>, files1: map<nat, File>, readable: bool, writable: bool) {
    exists h: nat, d: nat :: h !in files && files1 == files[h := File(d, readable, writable)]
  }

  lemma GainsIsOneMore(c: Cache, c1: Cache, h: nat, readable: bool, writable: bool, place: Place, name: string)
    requires Gains(c, c1, h, readable, writable, place, name)
    ensures OneMore(c.files, c1.files, readable, writable)
  {
  }

  /** Every call, in every run. */
  lemma StepHandles(fs: Fs, op: Op)
    requires Inv(fs) && Enabled(fs, op)
    ensures HandlesAfter(fs, op, Apply(fs, op).cache.files)
  {
    hide Inv, Gains, OneMore, SameFiles, Open, OpenDir, MkDir, Unlink, Link, Close, CloseDir, RoomToCreate;
    match op
    case DoOpen(alloc, start, path, create, readable, writable) =>
      var w := PathWalk(fs, start, path);
      OpenReturnsIff(fs, alloc, start, path, create, readable, writable);
      OpenGains(fs, alloc, start, path, create, readable, writable);
      var (fs1, h) := Open(fs, alloc, start, path, create, readable, writable);
      if h.Some? {
        GainsIsOneMore(fs.cache, fs1.cache, h.value, readable, writable, Opened(fs, w), OpenedName(w, path));
      }
    case DoOpenDir(alloc, start, path) =>
      OpenDirGains(fs, alloc, start, path);
      var (fs1, h) := OpenDir(fs, alloc, start, path);
      if h.Some? {
        GainsIsOneMore(fs.cache, fs1.cache, h.value, true, false, PathWalk(fs, start, path).place, "");
      }
    case DoClose(f) => CloseDrops(fs, f);
    case DoCloseDir(f) => CloseDirDrops(fs, f);
    case DoMkDir(alloc, start, path) => MkDirKeepsHandles(fs, alloc, start, path);
    case DoUnlink(alloc, start, path) => UnlinkKeepsHandles(fs, alloc, start, path);
    case DoLink(alloc, start, oldPath, newPath) => LinkKeepsHandles(fs, alloc, start, oldPath, newPath);
    case DoWrite(f, offset, len, contents) =>
  }
}
