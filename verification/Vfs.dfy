/**
 The virtual file system layer as kernel/vfs.c runs it: path lookup through the two hash
 tables, and the operations built on it. Each method has the effect its namesake in
 module FsState describes, so the theorems of module FsRuns apply to every run of them.
 */
module Vfs {
  import opened Options
  import opened RfsDir
  import opened FsState
  import opened FsTree
  import opened FsCache
  import opened FsDisk
  import opened FsInvariant
  import opened FsSteps
  import opened FsUnlink
  import opened FsLookup
  import opened FsOps
  import opened FsWrite
  import opened FsRuns
  import opened Rfs
  import RfsFile

  /** What reading directory dentry `d` relies on. */
  lemma DirectoryIsReadable(s: Fs, d: nat)
    requires Coherent(s.cache, s.disk.dinodes) && DiskShape(s.disk) && IsDirDentry(s.cache, d)
    requires s.cache.dentries[d].inode in s.cache.vinodes
    ensures var m := InodeOf(s.cache, d).meta;
            && DirShape(m) && ValidAddrs(Owned(m)) && Owned(m) == m.addrs[..m.blocks] && m.blocks == 1
            && FIRST_DATA <= m.addrs[0] < FIRST_DATA + DATA_BLOCKS
            && InodeOf(s.cache, d).inum < |s.disk.dinodes|
  {
    OneBlockDir(s.disk.data, InodeOf(s.cache, d).meta);
  }

  /** Directory dentry `d` can be searched for `name`, and what is found can be cached. */
  ghost predicate Readable(s: Fs, d: nat, name: string) {
    && d in s.cache.dentries && s.cache.dentries[d].inode in s.cache.vinodes
    && var m := s.cache.vinodes[s.cache.dentries[d].inode].meta;
    && DirShape(m) && ValidAddrs(m.addrs[..m.blocks])
    && var es := DirEntries(s.disk.data, m);
    && var k := FindEntry(es, name);
    && (k < |es| ==>
      es[k].inum < |s.disk.dinodes| && (es[k].inum in s.cache.vhash ==> s.cache.vhash[es[k].inum] in s.cache.vinodes))
  }

  lemma SoundIsReadable(s: Fs, d: nat, name: string)
    requires Inv(s) && IsDirDentry(s.cache, d)
    ensures Readable(s, d, name)
  {
    DirectoryIsReadable(s, d);
    NamedIsLive(s, d, name);
  }

  /** The entry of the block list where the next record goes is a block of the disk; the device panics otherwise. */
  ghost predicate HasSlot(m: Dinode) {
    m.size / BLOCK_SIZE < |m.addrs| && 0 <= m.addrs[m.size / BLOCK_SIZE] < DISK_BLOCKS
  }

  /** Creation under directory dentry `p` does not panic. */
  ghost predicate Creatable(s: Fs, p: nat) {
    && p in s.cache.dentries && s.cache.dentries[p].inode in s.cache.vinodes
    && var x := s.cache.vinodes[s.cache.dentries[p].inode];
    && x.inum < |s.disk.dinodes| && HasSlot(x.meta)
    && |ScannedInode(s.disk).addrs| == DIRECT && FirstFreeBlock(s.disk.freemap) < |s.disk.freemap|
  }

  /** What is created, if anything, finds a free block and a slot for its record. It need not find a free inode. */
  ghost predicate SlotToCreate(s: Fs, w: WalkResult, path: Path) {
    Creates(w, path) ==> FirstFreeBlock(s.disk.freemap) < |s.disk.freemap| && HasSlot(DinodeAt(s.disk, w.dir))
  }

  /** A directory with room for a record has a slot for it. */
  lemma RoomHasSlot(s: Fs, dir: nat)
    requires DiskShape(s.disk) && IsDir(s.disk.dinodes, dir) && DiskRoom(s.disk, dir)
    ensures HasSlot(DinodeAt(s.disk, dir))
  {
    OneBlockDir(s.disk.data, s.disk.dinodes[dir]);
  }

  lemma MissedInDirectory(s: Fs, r: Lookup, w: WalkResult)
    requires Coherent(s.cache, s.disk.dinodes) && Anchored(s.cache, TreeOf(s.disk)) && w.Miss? && Agrees(s, r, w)
    ensures IsDir(s.disk.dinodes, w.dir)
  {
  }

  /** The opens and mkdirs of runs are among those that do not panic. */
  lemma RoomIsSlot(s: Fs, alloc: Alloc, start: nat, path: Path)
    requires Inv(s) && LookupReady(s, alloc, start, path) && RoomToCreate(s, PathWalk(s, start, path), path)
    ensures SlotToCreate(s, PathWalk(s, start, path), path)
  {
    var w := PathWalk(s, start, path);
    if Creates(w, path) {
      LookupIsWalk(s, alloc, start, path);
      var (s1, r) := LookupPath(s, alloc, start, path);
      MissedInDirectory(s1, r, w);
      RoomHasSlot(s, w.dir);
    }
  }

  lemma MissingIsCreatable(s: Fs, r: Lookup, dir: nat)
    requires Inv(s) && r.Missing? && Agrees(s, r, Miss(dir, r.name))
    requires FirstFreeBlock(s.disk.freemap) < |s.disk.freemap| && HasSlot(DinodeAt(s.disk, dir))
    ensures Creatable(s, r.parent)
  {
    DirectoryIsReadable(s, r.parent);
    ScannedIsWhole(s.disk);
  }

  lemma ScannedIsWhole(k: Disk)
    requires DiskShape(k)
    ensures |ScannedInode(k).addrs| == DIRECT
  {
  }

  lemma LookupLeavesRoom(s: Fs, alloc: Alloc, start: nat, path: Path)
    requires Inv(s) && LookupReady(s, alloc, start, path) && SlotToCreate(s, PathWalk(s, start, path), path)
    ensures var (s1, r) := LookupPath(s, alloc, start, path);
            r.Missing? && MayCreate(path, r.name) ==> Creatable(s1, r.parent)
  {
    LookupIsWalk(s, alloc, start, path);
    var (s1, r) := LookupPath(s, alloc, start, path);
    if r.Missing? && MayCreate(path, r.name) {
      MissingIsCreatable(s1, r, PathWalk(s, start, path).dir);
    }
  }

  lemma FoundIsCached(s: Fs, alloc: Alloc, start: nat, path: Path)
    requires Inv(s) && LookupReady(s, alloc, start, path)
    ensures var (s1, r) := LookupPath(s, alloc, start, path);
            r.Found? ==> r.dentry in s1.cache.dentries && s1.cache.dentries[r.dentry].inode in s1.cache.vinodes
  {
    LookupIsWalk(s, alloc, start, path);
  }

  /** Directory dentry `p` can lose a record. */
  ghost predicate Shrinkable(s: Fs, p: nat) {
    && p in s.cache.dentries && s.cache.dentries[p].inode in s.cache.vinodes
    && var x := s.cache.vinodes[s.cache.dentries[p].inode];
    && x.inum < |s.disk.dinodes| && DirShape(x.meta) && ValidAddrs(Owned(x.meta))
    && (forall j :: 0 <= j < x.meta.blocks ==> FIRST_DATA <= x.meta.addrs[j] < FIRST_DATA + |s.disk.freemap|)
    && (forall e :: e in DirEntries(s.disk.data, x.meta) ==> Freeable(s.disk.dinodes, s.disk.freemap, e.inum))
  }

  /** Dentry `d` of directory dentry `p` can be unlinked: its record is there, and the code's two asserts hold. */
  ghost predicate Unlinkable(s: Fs, p: nat, d: nat) {
    && Shrinkable(s, p)
    && d in s.cache.dentries && s.cache.dentries[d].inode in s.cache.vinodes
      && s.cache.dentries[d].inode != s.cache.dentries[p].inode
    && var x := s.cache.vinodes[s.cache.dentries[d].inode];
    && var es := DirEntries(s.disk.data, InodeOf(s.cache, p).meta);
    && var k := FindEntry(es, s.cache.dentries[d].name);
    && k < |es| && es[k].inum == x.inum
    && x.inum < |s.disk.dinodes| && s.disk.dinodes[x.inum].nlinks == x.meta.nlinks
    && (x.meta.nlinks == 1 ==> x.ref == 1)
  }

  /** The cached counts after the disk part of an unlink. */
  lemma UnlinkCounts(s: Fs, p: nat, d: nat)
    requires Unlinkable(s, p, d)
    ensures var pv, v := s.cache.dentries[p].inode, s.cache.dentries[d].inode;
            var c1 := UnlinkOnDisk(s, pv, s.cache.dentries[d].name, v).cache;
            && c1.dentries == s.cache.dentries && v in c1.vinodes
            && c1.vinodes[v].ref == s.cache.vinodes[v].ref
              && c1.vinodes[v].meta.nlinks == s.cache.vinodes[v].meta.nlinks - 1
  {
  }

  lemma LiveIsFreeable(s: Fs, i: nat)
    requires DiskBehind(s) && Ownership(Now(s), s.disk.freemap) && DiskShape(s.disk) && Live(s.disk.dinodes, i)
    ensures Freeable(s.disk.dinodes, s.disk.freemap, i)
  {
    assert Current(s, i) == Now(s)[i];
    assert Behind(s.disk.dinodes[i], Current(s, i));
    assert Live(Now(s), i);
  }

  lemma DirectoryIsFreeable(s: Fs, p: nat)
    requires Inv(s) && IsDirDentry(s.cache, p)
    ensures forall e :: e in DirEntries(s.disk.data, InodeOf(s.cache, p).meta) ==>
      Freeable(s.disk.dinodes, s.disk.freemap, e.inum)
  {
    DirectoryRead(s, p);
    forall e | e in DirEntries(s.disk.data, InodeOf(s.cache, p).meta) ensures Freeable(s.disk.dinodes, s.disk.freemap,
                                                                                       e.inum) {
      EntryIsLive(s.disk, InodeOf(s.cache, p).inum, e.name, e.inum);
      LiveIsFreeable(s, e.inum);
    }
  }

  lemma SoundIsShrinkable(s: Fs, p: nat)
    requires Inv(s) && IsDirDentry(s.cache, p)
    ensures Shrinkable(s, p)
  {
    DirectoryIsFreeable(s, p);
    FreeableIsShrinkable(s, p);
  }

  lemma FreeableIsShrinkable(s: Fs, p: nat)
    requires Coherent(s.cache, s.disk.dinodes) && DiskShape(s.disk) && IsDirDentry(s.cache, p)
    requires s.cache.dentries[p].inode in s.cache.vinodes && |s.disk.freemap| == DATA_BLOCKS
    requires forall e :: e in DirEntries(s.disk.data, InodeOf(s.cache, p).meta) ==>
      Freeable(s.disk.dinodes, s.disk.freemap, e.inum)
    ensures Shrinkable(s, p)
  {
    DirectoryIsReadable(s, p);
  }

  lemma SoundIsUnlinkable(s: Fs, p: nat, d: nat)
    requires Inv(s) && CanUnlink(s, p, d)
    ensures Unlinkable(s, p, d)
  {
    assert Named(s.cache, TreeOf(s.disk), d);
    SoundIsShrinkable(s, p);
    AssertsHold(s, p, d);
    InodeInRange(s, d);
  }

  lemma FoundUnlinks(s: Fs, alloc: Alloc, start: nat, path: Path)
    requires Inv(s) && LookupReady(s, alloc, start, path)
    ensures var (s1, r) := LookupPath(s, alloc, start, path);
            r.Found? && InodeOf(s1.cache, r.dentry).meta.kind == FileI && DentryAt(s1.cache, r.dentry).dref <= 0
            ==> Unlinkable(s1, r.parent, r.dentry)
  {
    LookupIsWalk(s, alloc, start, path);
    var (s1, r) := LookupPath(s, alloc, start, path);
    if r.Found? && InodeOf(s1.cache, r.dentry).meta.kind == FileI && DentryAt(s1.cache, r.dentry).dref <= 0 {
      FoundIsUnlinkable(s1, r);
      SoundIsUnlinkable(s1, r.parent, r.dentry);
    }
  }

  /** The inode cached as `v` can get one more name under directory dentry `p`. */
  ghost predicate Linkable(s: Fs, p: nat, v: nat) {
    && p in s.cache.dentries && s.cache.dentries[p].inode in s.cache.vinodes && v in s.cache.vinodes
    && s.cache.dentries[p].inode != v
    && var x := s.cache.vinodes[s.cache.dentries[p].inode];
    && x.inum < |s.disk.dinodes| && s.cache.vinodes[v].inum < |s.disk.dinodes| && HasSlot(x.meta)
  }

  /** The part of LinkName before the new dentry. */
  ghost function LinkRecorded(s: Fs, p: nat, name: string, v: nat): Fs {
    var x := VinodeAt(s.cache, v);
    var c := SetMeta(AddRef(s.cache, v, 1), v, x.meta.(nlinks := x.meta.nlinks + 1));
    WriteBack(AddDirentry(s.(cache := c), DentryAt(s.cache, p).inode, Direntry(x.inum, name)), v)
  }

  /** vfs_link gets as far as making the new name. */
  ghost predicate MakesLink(s: Fs, start: nat, oldPath: Path, newPath: Path) {
    FileAtOld(PathWalk(s, start, oldPath)) && Creates(PathWalk(s, start, newPath), newPath)
  }

  lemma StillLinkable(s: Fs, alloc: Alloc, start: nat, d: nat, newPath: Path)
    requires Inv(s) && LookupReady(s, alloc, start, newPath) && d in s.cache.dentries
    requires InodeOf(s.cache, d).meta.kind == FileI
    requires Creates(PathWalk(s, start, newPath), newPath) ==> HasSlot(InodeOf(s.cache, start).meta)
    ensures var (s1, q) := LookupPath(s, alloc, start, newPath);
            d in s1.cache.dentries
              && (q.Missing? && MayCreate(newPath, q.name) ==> Linkable(s1, start, s1.cache.dentries[d].inode))
  {
    LookupIsWalk(s, alloc, start, newPath);
    var (s1, q) := LookupPath(s, alloc, start, newPath);
    InodeInRange(s, start);
    InodeInRange(s, d);
    SameAfterLookup(s, s1, start);
    SameAfterLookup(s, s1, d);
    MissingIffCreates(s1, q, PathWalk(s, start, newPath), newPath);
    InodeInRange(s1, start);
    InodeInRange(s1, d);
  }

  lemma InodeInRange(s: Fs, d: nat)
    requires Inv(s) && d in s.cache.dentries
    ensures s.cache.dentries[d].inode in s.cache.vinodes && InodeOf(s.cache, d).inum < |s.disk.dinodes|
  {
  }

  lemma LinkAfterOld(s: Fs, alloc: Alloc, start: nat, oldPath: Path, newPath: Path)
    requires Inv(s) && LookupReady(s, alloc, start, oldPath) && LookupReady(s, alloc, start, newPath)
    requires MakesLink(s, start, oldPath, newPath) ==> HasSlot(InodeOf(s.cache, start).meta)
    ensures var (s1, r) := LookupPath(s, alloc, start, oldPath);
            && Inv(s1) && LookupReady(s1, alloc, start, newPath)
            && (r.Found? ==> r.dentry in s1.cache.dentries && s1.cache.dentries[r.dentry].inode in s1.cache.vinodes)
            && (&& r.Found? && InodeOf(s1.cache, r.dentry).meta.kind == FileI
                && Creates(PathWalk(s1, start, newPath), newPath)
                ==> HasSlot(InodeOf(s1.cache, start).meta))
  {
    LookupIsWalk(s, alloc, start, oldPath);
    var (s1, r) := LookupPath(s, alloc, start, oldPath);
    SecondLookup(s, s1, alloc, start, newPath);
    InodeInRange(s, start);
    SameAfterLookup(s, s1, start);
    if r.Found? && InodeOf(s1.cache, r.dentry).meta.kind == FileI { FoundFile(s1, r, PathWalk(s, start, oldPath)); }
  }

  class VirtualFs {
    const fs: FileSystem
    /** The page allocator. */
    const alloc: Alloc
    var root: nat
    var dentries: map<nat, Dentry>
    var dhash: map<(nat, string), nat>
    var vhash: map<nat, nat>
    var files: map<nat, File>

    constructor (disk: FileSystem, pages: Alloc, rootDentry: nat, rootVinode: nat)
      requires disk.Valid() && 0 < |disk.dinodes|
      modifies disk
      ensures Valid() && fs == disk && alloc == pages && root == rootDentry
      ensures State() == Fs(old(disk.OnDisk()), MountedCache(rootDentry, rootVinode, old(disk.dinodes)[0]))
    {
      fs, alloc, root := disk, pages, rootDentry;
      dentries := map[rootDentry := Dentry("/", 0, rootVinode, NULL)];
      dhash := map[(NULL, "/") := rootDentry];
      vhash := map[0 := rootVinode];
      files := map[];
      disk.vinodes := map[rootVinode := Vinode(0, 1, disk.dinodes[0])];
    }

    ghost predicate Valid()
      reads this, fs, fs.dev
    {
      fs.Valid()
    }

    ghost function Caches(): Cache
      reads this, fs
    {
      Cache(root, dentries, fs.vinodes, dhash, vhash, files)
    }

    ghost function State(): Fs
      reads this, fs, fs.dev
    {
      fs.View(Caches())
    }

    /** The pages in use. */
    function Occupied(): set<nat>
      reads this, fs
    {
      dentries.Keys + fs.vinodes.Keys + files.Keys
    }

    /** Bring an inode found on disk into the caches: vinode, then dentry. */
    method CacheFound(parent: nat, name: string, inum: nat) returns (a: nat)
      requires Valid() && inum < |fs.dinodes|
      requires inum in vhash ==> vhash[inum] in fs.vinodes
      modifies this`dentries, this`dhash, this`vhash, fs`vinodes
      ensures Valid() && (State(), a) == CacheChild(old(State()), alloc, parent, name, inum)
    {
      a := alloc(Occupied());
      var v;
      if inum in vhash {
        v := vhash[inum];
        fs.vinodes := fs.vinodes[v := fs.vinodes[v].(ref := fs.vinodes[v].ref + 1)];
      } else {
        v := alloc(Occupied() + {a});
        fs.vinodes := fs.vinodes[v := Vinode(inum, 1, fs.dinodes[inum])];
        vhash := vhash[inum := v];
      }
      dentries := dentries[a := Dentry(name, 0, v, parent)];
      if (parent, name) !in dhash {
        dhash := dhash[(parent, name) := a];
      }
    }

    /** One name token of lookup_final_dentry: the dentry cache first, then the directory on disk. */
    method LookupToken(parent: nat, name: string) returns (child: Option<nat>)
      requires Valid() && Readable(State(), parent, name)
      modifies this`dentries, this`dhash, this`vhash, fs`vinodes, fs.dev`iobuffer
      ensures Valid()
      ensures if (parent, name) in old(dhash) then State() == old(State()) && child == Some(old(dhash)[(parent, name)])
              else
                var es := DirEntries(old(fs.dev.data), InodeOf(old(State()).cache, parent).meta);
                var k := FindEntry(es, name);
                if k == |es| then State() == old(State()) && child == None
                else child.Some? && (State(), child.value) == CacheChild(old(State()), alloc, parent, name, es[k].inum)
    {
      if (parent, name) in dhash {
        child := Some(dhash[(parent, name)]);
      } else {
        var inum := fs.LookupName(dentries[parent].inode, name);
        if inum.None? {
          child := None;
        } else {
          var a := CacheFound(parent, name, inum.value);
          child := Some(a);
        }
      }
    }

    /** A name token in the middle of a path: either the lookup ends here, or it goes on from `child`. */
    method EnterName(here: nat, ghost parent: nat, tokens: seq<string>) returns (child: Option<nat>)
      requires Valid() && ResolveReady(State(), alloc, here, parent, tokens)
      requires tokens != [] && tokens[0] != "." && tokens[0] != ".."
      modifies this`dentries, this`dhash, this`vhash, fs`vinodes, fs.dev`iobuffer
      ensures Valid()
      ensures Resolve(old(State()), alloc, here, parent, tokens) ==
                if child.None? then (State(), Missing(here, tokens[0]))
                else Resolve(State(), alloc, child.value, here, tokens[1..])
      ensures child.Some? ==> ResolveReady(State(), alloc, child.value, here, tokens[1..])
    {
      ghost var s := State();
      NameReady(s, alloc, here, parent, tokens);
      if (here, tokens[0]) in dhash {
        HitReady(s, alloc, here, parent, tokens);
      } else {
        DiskReady(s, alloc, here, parent, tokens);
      }
      child := LookupToken(here, tokens[0]);
    }

    /** lookup_final_dentry */
    method LookupFinalDentry(start: nat, path: Path) returns (r: Lookup)
      requires Valid() && Inv(State()) && LookupReady(State(), alloc, start, path)
      modifies this`dentries, this`dhash, this`vhash, fs`vinodes, fs.dev`iobuffer
      ensures Valid() && (State(), r) == LookupPath(old(State()), alloc, start, path)
    {
      RootIsDirectory(State());
      var tokens := path.tokens;
      var parent: nat := start;
      var here: nat := if path.absolute then root else start;
      ghost var whole := LookupPath(State(), alloc, start, path);
      while tokens != []
        invariant Valid() && ResolveReady(State(), alloc, here, parent, tokens)
        invariant Resolve(State(), alloc, here, parent, tokens) == whole
        decreases |tokens|
      {
        ghost var s := State();
        if tokens[0] == "." {
          DotReady(s, alloc, here, parent, tokens);
        } else if tokens[0] == ".." {
          UpReady(s, alloc, here, parent, tokens);
          if dentries[here].parent == NULL {
            return AboveRoot;
          }
          here := dentries[here].parent;
        } else {
          var child := EnterName(here, parent, tokens);
          if child.None? {
            return Missing(here, tokens[0]);
          }
          parent, here := here, child.value;
        }
        tokens := tokens[1..];
      }
      r := Found(here, parent);
    }

    /** alloc_vfs_file */
    method OpenDentry(d: nat, readable: bool, writable: bool) returns (f: nat)
      requires Valid() && d in dentries
      modifies this`dentries, this`files
      ensures Valid() && (State(), f) == OpenFile(old(State()), alloc, d, readable, writable)
    {
      f := alloc(Occupied());
      files := files[f := File(d, readable, writable)];
      dentries := dentries[d := dentries[d].(dref := dentries[d].dref + 1)];
    }

    /** The create branch of vfs_open, and vfs_mkdir after its lookup. */
    method CreateUnder(p: nat, name: string, kind: Kind) returns (a: nat)
      requires Valid() && Creatable(State(), p)
      modifies this`dentries, this`dhash, this`vhash, fs`dinodes, fs`freemap, fs`vinodes, fs.dev
      ensures Valid() && (State(), a) == CreateChild(old(State()), alloc, p, name, kind)
    {
      a := alloc(Occupied());
      var v := alloc(Occupied() + {a});
      var i, made := fs.CreateInode(dentries[p].inode, name, kind, Caches());
      fs.vinodes := fs.vinodes[v := Vinode(i, 1, made)];
      if i !in vhash {
        vhash := vhash[i := v];
      }
      dentries := dentries[a := Dentry(name, 0, v, p)];
      if (p, name) !in dhash {
        dhash := dhash[(p, name) := a];
      }
    }

    /** vfs_open */
    method OpenPath(start: nat, path: Path, create: bool, readable: bool, writable: bool) returns (f: Option<nat>)
      requires Valid() && Inv(State()) && LookupReady(State(), alloc, start, path)
      requires create ==> SlotToCreate(State(), PathWalk(State(), start, path), path)
      modifies this, fs, fs.dev
      ensures Valid() && (State(), f) == Open(old(State()), alloc, start, path, create, readable, writable)
    {
      FoundIsCached(State(), alloc, start, path);
      if create { LookupLeavesRoom(State(), alloc, start, path); }
      var r := LookupFinalDentry(start, path);
      var make := create && r.Missing? && path.tokens != [] && path.tokens[|path.tokens| - 1] == r.name;
      f := OpenFound(r, make, readable, writable);
    }

    /** vfs_open after its lookup. */
    method OpenFound(r: Lookup, create: bool, readable: bool, writable: bool) returns (f: Option<nat>)
      requires Valid() && (r.Found? ==> r.dentry in dentries && dentries[r.dentry].inode in fs.vinodes)
      requires create && r.Missing? ==> Creatable(State(), r.parent)
      modifies this, fs, fs.dev
      ensures Valid() && (State(), f) == OpenResolved(old(State()), alloc, r, create, readable, writable)
    {
      f := None;
      if r.Found? {
        if fs.vinodes[dentries[r.dentry].inode].meta.kind == FileI {
          var o := OpenDentry(r.dentry, readable, writable);
          f := Some(o);
        }
      } else if r.Missing? && create {
        var a := CreateUnder(r.parent, r.name, FileI);
        var o := OpenDentry(a, readable, writable);
        f := Some(o);
      }
    }

    /** vfs_opendir */
    method OpenDirectory(start: nat, path: Path) returns (f: Option<nat>)
      requires Valid() && Inv(State()) && Enabled(State(), DoOpenDir(alloc, start, path))
      modifies this, fs, fs.dev
      ensures Valid() && (State(), f) == OpenDir(old(State()), alloc, start, path)
    {
      FoundIsCached(State(), alloc, start, path);
      var r := LookupFinalDentry(start, path);
      f := OpenDirFound(r);
    }

    method OpenDirFound(r: Lookup) returns (f: Option<nat>)
      requires Valid() && (r.Found? ==> r.dentry in dentries && dentries[r.dentry].inode in fs.vinodes)
      modifies this, fs, fs.dev
      ensures Valid() && (State(), f) == OpenDirResolved(old(State()), alloc, r)
    {
      f := None;
      if r.Found? && fs.vinodes[dentries[r.dentry].inode].meta.kind == DirI {
        var o := OpenDentry(r.dentry, true, false);
        f := Some(o);
      }
    }

    /** File `f` no longer counts on its dentry. */
    method DropFile(f: nat)
      requires Valid() && f in files && files[f].dentry in dentries
      modifies this`dentries, this`files
      ensures Valid() && State() == ReleaseFile(old(State()), f)
    {
      var d := files[f].dentry;
      dentries := dentries[d := dentries[d].(dref := dentries[d].dref - 1)];
      files := files - {f};
    }

    /** hash_erase_dentry, free_vfs_dentry and the inode's reference count. */
    method EraseDentry(d: nat)
      requires Valid() && d in dentries && dentries[d].inode in fs.vinodes
      modifies this`dentries, this`dhash, fs`vinodes
      ensures Valid() && State() == old(State()).(cache := DropDentry(old(State()).cache, d))
    {
      var x := dentries[d];
      dentries := dentries - {d};
      dhash := dhash - {(x.parent, x.name)};
      fs.vinodes := fs.vinodes[x.inode := fs.vinodes[x.inode].(ref := fs.vinodes[x.inode].ref - 1)];
    }

    /** hash_erase_vinode and freeing the page. */
    method EraseVinode(v: nat)
      requires Valid() && v in fs.vinodes
      modifies this`vhash, fs`vinodes
      ensures Valid() && State() == old(State()).(cache := DropVinode(old(State()).cache, v))
    {
      vhash := vhash - {fs.vinodes[v].inum};
      fs.vinodes := fs.vinodes - {v};
    }

    /** The end of vfs_close, when no open file is left on the dentry. */
    method Forget(d: nat)
      requires Valid() && d in dentries && dentries[d].inode in fs.vinodes
      requires fs.vinodes[dentries[d].inode].inum < |fs.dinodes|
      modifies this`dentries, this`dhash, this`vhash, fs`vinodes, fs`dinodes
      ensures Valid() && State() == ForgetDentry(old(State()), d)
    {
      var v := dentries[d].inode;
      EraseDentry(d);
      if fs.vinodes[v].ref == 0 {
        fs.WriteBackVinode(v, Caches());
        EraseVinode(v);
      }
    }

    /** vfs_close */
    method CloseFile(f: nat)
      requires Valid() && Inv(State()) && f in files
      modifies this`dentries, this`dhash, this`vhash, this`files, fs`vinodes, fs`dinodes
      ensures Valid() && State() == Close(old(State()), f)
    {
      var d := files[f].dentry;
      if fs.vinodes[dentries[d].inode].meta.kind != FileI {
        return;
      }
      assert fs.vinodes[dentries[d].inode].inum < |fs.dinodes|;
      DropFile(f);
      if dentries[d].dref == 0 {
        Forget(d);
      }
    }

    /** vfs_closedir */
    method CloseDirectory(f: nat)
      requires Valid() && Inv(State()) && f in files
      modifies this`dentries, this`files
      ensures Valid() && State() == CloseDir(old(State()), f)
    {
      if fs.vinodes[dentries[files[f].dentry].inode].meta.kind == DirI {
        DropFile(f);
      }
    }

    /** The end of vfs_unlink: the record and the dentry go, and the inode with its last name. */
    method UnlinkDentry(p: nat, d: nat)
      requires Valid() && Unlinkable(State(), p, d)
      modifies this`dentries, this`dhash, this`vhash, fs`dinodes, fs`freemap, fs`vinodes, fs.dev
      ensures Valid() && State() == RemoveName(old(State()), p, d)
    {
      var x := dentries[d];
      assert fs.dinodes[fs.vinodes[x.inode].inum].nlinks == fs.vinodes[x.inode].meta.nlinks;  // kernel/rfs.c:688
      UnlinkCounts(State(), p, d);
      var found := fs.RemoveRecord(dentries[p].inode, x.name, x.inode, Caches());
      EraseDentry(d);
      if fs.vinodes[x.inode].meta.nlinks == 0 {
        assert fs.vinodes[x.inode].ref == 0;  // kernel/vfs.c:385
        EraseVinode(x.inode);
      }
    }

    /** vfs_unlink */
    method UnlinkPath(start: nat, path: Path) returns (ok: bool)
      requires Valid() && Inv(State()) && LookupReady(State(), alloc, start, path)
      modifies this, fs, fs.dev
      ensures Valid() && (State(), ok) == Unlink(old(State()), alloc, start, path)
    {
      FoundIsCached(State(), alloc, start, path);
      FoundUnlinks(State(), alloc, start, path);
      var r := LookupFinalDentry(start, path);
      ok := UnlinkFound(r);
    }

    method UnlinkFound(r: Lookup) returns (ok: bool)
      requires Valid() && (r.Found? ==> r.dentry in dentries && dentries[r.dentry].inode in fs.vinodes)
      requires
        && r.Found? && InodeOf(State().cache, r.dentry).meta.kind == FileI
        && DentryAt(State().cache, r.dentry).dref <= 0
        ==> Unlinkable(State(), r.parent, r.dentry)
      modifies this, fs, fs.dev
      ensures Valid() && (State(), ok) == UnlinkResolved(old(State()), r)
    {
      ok := r.Found? && fs.vinodes[dentries[r.dentry].inode].meta.kind == FileI && dentries[r.dentry].dref <= 0;
      if ok {
        UnlinkDentry(r.parent, r.dentry);
      }
    }

    /** The end of vfs_link. */
    method LinkUnder(p: nat, name: string, v: nat)
      requires Valid() && Linkable(State(), p, v)
      modifies this`dentries, this`dhash, fs`dinodes, fs`vinodes, fs.dev
      ensures Valid() && State() == LinkName(old(State()), alloc, p, name, v)
    {
      var a := alloc(Occupied());
      LinkRecord(p, name, v);
      HashDentry(a, name, v, p);
    }

    /** The reference of the new dentry, and rfs_link. */
    method LinkRecord(p: nat, name: string, v: nat)
      requires Valid() && Linkable(State(), p, v)
      modifies fs`dinodes, fs`vinodes, fs.dev
      ensures Valid() && State() == LinkRecorded(old(State()), p, name, v)
    {
      var x := fs.vinodes[v];
      fs.vinodes := fs.vinodes[v := x.(ref := x.ref + 1)];
      fs.vinodes := fs.vinodes[v := fs.vinodes[v].(meta := x.meta.(nlinks := x.meta.nlinks + 1))];
      fs.AddRecord(dentries[p].inode, Direntry(x.inum, name), Caches());
      fs.WriteBackVinode(v, Caches());
    }

    /** alloc_vfs_dentry and hash_put_dentry */
    method HashDentry(a: nat, name: string, v: nat, p: nat)
      requires Valid()
      modifies this`dentries, this`dhash
      ensures Valid() && State() == old(State()).(cache := PutDentry(old(State()).cache, a, name, v, p))
    {
      dentries := dentries[a := Dentry(name, 0, v, p)];
      if (p, name) !in dhash {
        dhash := dhash[(p, name) := a];
      }
    }

    /** vfs_link once the old file is found. */
    method LinkTo(start: nat, d: nat, newPath: Path) returns (ok: bool)
      requires Valid() && Inv(State()) && LookupReady(State(), alloc, start, newPath)
      requires d in dentries && fs.vinodes[dentries[d].inode].meta.kind == FileI
      requires Creates(PathWalk(State(), start, newPath), newPath) ==> HasSlot(InodeOf(State().cache, start).meta)
      modifies this, fs, fs.dev
      ensures Valid() && (State(), ok) == LinkFound(old(State()), alloc, start, d, newPath)
    {
      StillLinkable(State(), alloc, start, d, newPath);
      var q := LookupFinalDentry(start, newPath);
      var make := q.Missing? && newPath.tokens != [] && newPath.tokens[|newPath.tokens| - 1] == q.name;
      ok := LinkMissing(start, d, q, make);
    }

    method LinkMissing(start: nat, d: nat, q: Lookup, make: bool) returns (ok: bool)
      requires Valid() && d in dentries && (q.Missing? && make ==> Linkable(State(), start, dentries[d].inode))
      modifies this, fs, fs.dev
      ensures Valid() && (State(), ok) == LinkResolved(old(State()), alloc, start, d, q, make)
    {
      ok := q.Missing? && make;
      if ok {
        LinkUnder(start, q.name, dentries[d].inode);
      }
    }

    /** vfs_link */
    method LinkPath(start: nat, oldPath: Path, newPath: Path) returns (ok: bool)
      requires Valid() && Inv(State()) && LookupReady(State(), alloc, start, oldPath)
      requires LookupReady(State(), alloc, start, newPath)
      requires MakesLink(State(), start, oldPath, newPath) ==> HasSlot(InodeOf(State().cache, start).meta)
      modifies this, fs, fs.dev
      ensures Valid() && (State(), ok) == Link(old(State()), alloc, start, oldPath, newPath)
    {
      LinkAfterOld(State(), alloc, start, oldPath, newPath);
      var r := LookupFinalDentry(start, oldPath);
      ok := false;
      if r.Found? && fs.vinodes[dentries[r.dentry].inode].meta.kind == FileI {
        ok := LinkTo(start, r.dentry, newPath);
      }
    }

    /**
     rfs_write of `w` through the open file `f` at `offset`. The step is the one that runs take, for what the blocks of
     the file then hold; no other file changes its contents.
     */
    method WriteFile(io: RfsFile.FileIo, f: nat, w: seq<RfsFile.byte>, offset: nat)
      returns (n: nat, ghost contents: int -> Block, ghost left: RfsFile.Page)
      requires Valid() && Inv(State()) && io.fs == fs && io.Ready() && RfsFile.ValidPages(io.pages) && f in files
      requires CanWrite(State(), DentryAt(State().cache, files[f].dentry).inode, offset, |w|)
      modifies io, fs`vinodes, fs`freemap, fs.dev`data
      ensures Valid() && io.Ready() && n == |w|
      ensures WriteDone(old(State()), State(), old(io.Blocks()), io.Blocks(), f, w, offset, contents, left)
    {
      hide Inv, Write, CanWrite, CanGrow, WholeBlocks, SameContents, RfsFile.Sound, RfsFile.Completed, RfsFile.Wrote;
      ghost var s0, before := State(), io.Blocks();
      OpenFileIsCached(s0, f, offset, |w|);
      var v := dentries[files[f].dentry].inode;
      SoundHas(s0, before, v);
      n, left := io.Write(v, w, offset);
      RfsFile.CompletedWrote(before, io.Blocks(), v, w, offset, left);
      contents := OnBlocks(fs.dev.data);
      WriteIsStep(s0, State(), before, io.Blocks(), v, offset, |w|);
      OthersKept(s0, State(), before, io.Blocks(), v, offset, |w|, contents);
    }

    /** vfs_write: a file that was not opened for writing, or is a directory, is refused. */
    method WriteOpened(io: RfsFile.FileIo, f: nat, w: seq<RfsFile.byte>, offset: nat)
      returns (n: int, ghost contents: int -> Block, ghost left: RfsFile.Page)
      requires Valid() && Inv(State()) && io.fs == fs && io.Ready() && RfsFile.ValidPages(io.pages) && f in files
      requires MayWrite(State(), f) ==> CanWrite(State(), DentryAt(State().cache, files[f].dentry).inode, offset, |w|)
      modifies io, fs`vinodes, fs`freemap, fs.dev`data
      ensures Valid() && io.Ready() && n == if MayWrite(old(State()), f) then |w| else -1
      ensures !MayWrite(old(State()), f) ==> State() == old(State()) && io.Blocks() == old(io.Blocks())
      ensures MayWrite(old(State()), f) ==>
                WriteDone(old(State()), State(), old(io.Blocks()), io.Blocks(), f, w, offset, contents, left)
    {
      hide Inv, CanWrite, WriteDone;
      FileIsCached(State(), f);
      if !files[f].writable || fs.vinodes[dentries[files[f].dentry].inode].meta.kind != FileI {
        n, contents, left := -1, OnBlocks(fs.dev.data), [];
      } else {
        n, contents, left := WriteFile(io, f, w, offset);
      }
    }

    /** vfs_read: a file that was not opened for reading, or is a directory, is refused. */
    method ReadOpened(io: RfsFile.FileIo, f: nat, len: nat, offset: nat) returns (n: int, bytes: seq<RfsFile.byte>)
      requires Valid() && Inv(State()) && io.fs == fs && io.Ready() && RfsFile.ValidPages(io.pages) && f in files
      requires MayRead(State(), f) ==> CanRead(State(), DentryAt(State().cache, files[f].dentry).inode, offset)
      modifies io`iobuffer
      ensures Valid() && io.Ready()
      ensures !MayRead(State(), f) ==> n == -1 && bytes == []
      ensures MayRead(State(), f) ==>
                ReadDone(io.Blocks(), DentryAt(State().cache, files[f].dentry).inode, len, offset, n, bytes)
    {
      hide Inv, RfsFile.Sound, RfsFile.GoodInode;
      FileIsCached(State(), f);
      if !files[f].readable || fs.vinodes[dentries[files[f].dentry].inode].meta.kind != FileI {
        n, bytes := -1, [];
      } else {
        var v := dentries[files[f].dentry].inode;
        FilesAreGood(State(), v);
        DiskIsValid(State());
        SoundHas(State(), io.Blocks(), v);
        bytes, n := io.Read(v, len, offset);
      }
    }

    /** vfs_mkdir */
    method MakeDirectory(start: nat, path: Path) returns (ok: bool)
      requires Valid() && Inv(State()) && LookupReady(State(), alloc, start, path)
      requires SlotToCreate(State(), PathWalk(State(), start, path), path)
      modifies this, fs, fs.dev
      ensures Valid() && (State(), ok) == MkDir(old(State()), alloc, start, path)
    {
      LookupLeavesRoom(State(), alloc, start, path);
      var r := LookupFinalDentry(start, path);
      var make := r.Missing? && path.tokens != [] && path.tokens[|path.tokens| - 1] == r.name;
      ok := MakeFound(r, make);
    }

    /** vfs_mkdir after its lookup. */
    method MakeFound(r: Lookup, make: bool) returns (ok: bool)
      requires Valid() && (r.Missing? && make ==> Creatable(State(), r.parent))
      modifies this, fs, fs.dev
      ensures Valid() && (State(), ok) == MkDirResolved(old(State()), alloc, r, make)
    {
      ok := r.Missing? && make;
      if ok {
        var a := CreateUnder(r.parent, r.name, DirI);
      }
    }
  }

  /** What each block of the disk holds. */
  ghost function OnBlocks(data: seq<Block>): int -> Block {
    b => if 0 <= b < |data| then data[b] else seq(PER_BLOCK, _ => Direntry(0, ""))
  }

  /** The file cached as `u` has the same bytes. */
  ghost predicate SameContents(s0: RfsFile.Store, s1: RfsFile.Store, u: nat) {
    RfsFile.Sound(s0, u) && RfsFile.Sound(s1, u) && RfsFile.ContentsOf(s1, u) == RfsFile.ContentsOf(s0, u)
  }

  /** The store has the state's records, inodes and freemap; its pages are as many, and whole. */
  ghost predicate SameDisk(s: Fs, t: RfsFile.Store) {
    t.data == s.disk.data && t.vinodes == s.cache.vinodes && t.freemap == s.disk.freemap && RfsFile.ValidPages(t.pages)
  }

  /**
   A write through `f`: the step of the runs, with the bytes spliced into the file and a piece of the buffer behind them
   where the last block was not read; every other cached inode keeps its contents.
   */
  ghost predicate WriteDone(s0: Fs, s1: Fs, t0: RfsFile.Store, t1: RfsFile.Store, f: nat, w: seq<RfsFile.byte>,
                            offset: nat, contents: int -> Block, left: RfsFile.Page) {
    var v := DentryAt(s0.cache, FileAt(s0.cache, f).dentry).inode;
    && |left| == RfsFile.B && WholeBlocks(contents)
    && s1 == Write(s0, v, offset, |w|, contents)
    && RfsFile.Sound(t0, v) && offset <= t0.vinodes[v].meta.size
    && RfsFile.Completed(t0, t1, v, w, offset, left)
    && forall u :: u in s1.cache.vinodes && u != v ==> SameContents(t0, t1, u)
  }

  /** An open file was opened for reading, and is no directory. */
  ghost predicate MayRead(s: Fs, f: nat) {
    FileAt(s.cache, f).readable && InodeOf(s.cache, FileAt(s.cache, f).dentry).meta.kind == FileI
  }

  /** The original does not panic: the offset is within the file, and the first block it reads is one of the disk. */
  ghost predicate CanRead(s: Fs, v: nat, offset: nat) {
    var m := VinodeAt(s.cache, v).meta;
    offset <= m.size && (offset == m.size ==> RfsFile.HasPage(m.addrs, offset / RfsFile.B))
  }

  /** `n` bytes of the file from `offset` on, as far as it goes, and those before the first NUL are handed out. */
  ghost predicate ReadDone(t: RfsFile.Store, v: nat, len: nat, offset: nat, n: int, bytes: seq<RfsFile.byte>) {
    && RfsFile.Sound(t, v) && offset <= t.vinodes[v].meta.size
    && n == (if t.vinodes[v].meta.size < offset + len then t.vinodes[v].meta.size - offset else len)
    && bytes == RfsFile.BeforeNul(RfsFile.ContentsOf(t, v)[offset..offset + n])
  }

  lemma DiskIsValid(s: Fs)
    requires Inv(s)
    ensures ValidData(s.disk.data)
  {
  }

  /** An open file was opened for writing, and is no directory. */
  ghost predicate MayWrite(s: Fs, f: nat) {
    FileAt(s.cache, f).writable && InodeOf(s.cache, FileAt(s.cache, f).dentry).meta.kind == FileI
  }

  lemma FileIsCached(s: Fs, f: nat)
    requires Inv(s) && f in s.cache.files
    ensures s.cache.files[f].dentry in s.cache.dentries
    ensures s.cache.dentries[s.cache.files[f].dentry].inode in s.cache.vinodes
  {
  }

  lemma OpenFileIsCached(s: Fs, f: nat, offset: nat, len: nat)
    requires Inv(s) && f in s.cache.files && CanWrite(s, DentryAt(s.cache, s.cache.files[f].dentry).inode, offset, len)
    ensures s.cache.files[f].dentry in s.cache.dentries && ValidData(s.disk.data)
    ensures var v := s.cache.dentries[s.cache.files[f].dentry].inode;
            && v in s.cache.vinodes && RfsFile.GoodInode(s.cache.vinodes[v].meta, s.disk.freemap)
            && offset <= s.cache.vinodes[v].meta.size
              && CanGrow(s.cache.vinodes[v].meta, s.disk.freemap, BlocksFor(offset + len))
  {
    FilesAreGood(s, s.cache.dentries[s.cache.files[f].dentry].inode);
  }

  /** A write of bytes is the step of the runs, with what the blocks then hold. */
  lemma WriteIsStep(s0: Fs, s1: Fs, t0: RfsFile.Store, t1: RfsFile.Store, v: nat, offset: nat, len: nat)
    requires SameDisk(s0, t0) && SameDisk(s1, t1) && RfsFile.Wrote(t0, t1, v, offset, len)
    requires ValidData(s0.disk.data) && ValidData(s1.disk.data)
    requires s1.disk.dinodes == s0.disk.dinodes && s1.cache == s0.cache.(vinodes := s1.cache.vinodes)
    ensures WholeBlocks(OnBlocks(s1.disk.data)) && s1 == Write(s0, v, offset, len, OnBlocks(s1.disk.data))
  {
    var m := s1.cache.vinodes[v].meta;
    assert Overwrite(s0.disk.data, Owned(m), OnBlocks(s1.disk.data)) == s1.disk.data;
  }

  /** Exclusive blocks keep the other files as they were. */
  lemma OthersKept(s0: Fs, s1: Fs, t0: RfsFile.Store, t1: RfsFile.Store, v: nat, offset: nat, len: nat,
                   contents: int -> Block)
    requires Inv(s0) && CanWrite(s0, v, offset, len) && WholeBlocks(contents)
    requires s1 == Write(s0, v, offset, len, contents)
    requires SameDisk(s0, t0) && SameDisk(s1, t1) && RfsFile.Wrote(t0, t1, v, offset, len)
    ensures forall u :: u in s1.cache.vinodes && u != v ==> SameContents(t0, t1, u)
  {
    hide Inv, Write, CanWrite, SameContents, RfsFile.OnlyThese;
    WriteKeepsInv(s0, v, offset, len, contents);
    forall u | u in s1.cache.vinodes && u != v ensures SameContents(t0, t1, u) {
      OtherKept(s0, s1, t0, t1, v, u);
    }
  }

  lemma OtherKept(s0: Fs, s1: Fs, t0: RfsFile.Store, t1: RfsFile.Store, v: nat, u: nat)
    requires Inv(s0) && Inv(s1) && SameDisk(s0, t0) && SameDisk(s1, t1)
    requires v in s1.cache.vinodes && u in s1.cache.vinodes && u != v
    requires u in s0.cache.vinodes && s1.cache.vinodes[u] == s0.cache.vinodes[u]
    requires RfsFile.OnlyThese(t0, t1, Owned(s1.cache.vinodes[v].meta))
    ensures SameContents(t0, t1, u)
  {
    FilesAreGood(s0, u);
    FilesAreGood(s1, u);
    BlocksApart(s1, u, v);
    SoundHas(s0, t0, u);
    SoundHas(s1, t1, u);
    RfsFile.OthersKeepContents(t0, t1, u, Owned(s1.cache.vinodes[v].meta));
  }

  lemma SoundHas(s: Fs, t: RfsFile.Store, u: nat)
    requires SameDisk(s, t) && ValidData(s.disk.data) && u in s.cache.vinodes
    requires RfsFile.GoodInode(s.cache.vinodes[u].meta, s.disk.freemap)
    ensures RfsFile.Sound(t, u)
  {
  }

  /** Two cached inodes share no block. */
  lemma BlocksApart(s: Fs, u: nat, v: nat)
    requires DiskShape(s.disk) && Hashed(s.cache) && Coherent(s.cache, s.disk.dinodes) && Exclusive(Now(s))
    requires u in s.cache.vinodes && v in s.cache.vinodes && u != v
    ensures forall b :: b in Owned(s.cache.vinodes[u].meta) ==> b !in Owned(s.cache.vinodes[v].meta)
  {
    var i, j := s.cache.vinodes[u].inum, s.cache.vinodes[v].inum;
    assert Now(s)[i] == s.cache.vinodes[u].meta && Now(s)[j] == s.cache.vinodes[v].meta && i != j;
    forall b | b in Owned(s.cache.vinodes[u].meta) && b in Owned(s.cache.vinodes[v].meta) ensures false {
      assert Owns(Now(s), i, b) && Owns(Now(s), j, b);
    }
  }

  /** In a sound state every cached file is fit for rfs_read and rfs_write. */
  lemma FilesAreGood(s: Fs, v: nat)
    requires Inv(s) && v in s.cache.vinodes
    ensures RfsFile.GoodInode(s.cache.vinodes[v].meta, s.disk.freemap)
  {
    var x := s.cache.vinodes[v];
    assert Current(s, x.inum) == x.meta == Now(s)[x.inum];
    assert Live(Now(s), x.inum);
    OwnedIsMarked(Now(s), s.disk.freemap, x.inum);
  }

  lemma OwnedIsMarked(n: seq<Dinode>, freemap: seq<nat>, i: nat)
    requires Ownership(n, freemap) && Live(n, i)
    ensures RfsFile.GoodInode(n[i], freemap)
  {
    var m := n[i];
    forall j | 0 <= j < m.blocks ensures freemap[m.addrs[j] - FIRST_DATA] != 0 {
      assert Owned(m)[j] == m.addrs[j];
      assert Owns(n, i, FIRST_DATA + (m.addrs[j] - FIRST_DATA));
      assert Held(n, FIRST_DATA + (m.addrs[j] - FIRST_DATA));
    }
  }

  // ---- the loop of lookup_final_dentry, token by token ----

  lemma DotReady(s: Fs, alloc: Alloc, d: nat, parent: nat, tokens: seq<string>)
    requires ResolveReady(s, alloc, d, parent, tokens) && tokens != [] && tokens[0] == "."
    ensures ResolveReady(s, alloc, d, parent, tokens[1..])
  {
  }

  lemma UpReady(s: Fs, alloc: Alloc, d: nat, parent: nat, tokens: seq<string>)
    requires ResolveReady(s, alloc, d, parent, tokens) && tokens != [] && tokens[0] == ".."
    ensures DentryAt(s.cache, d).parent != NULL ==>
      ResolveReady(s, alloc, DentryAt(s.cache, d).parent, parent, tokens[1..])
  {
    RootIsZero(s, d);
    if d != s.cache.root { UpStep(s, d, tokens); }
  }

  lemma NameReady(s: Fs, alloc: Alloc, d: nat, parent: nat, tokens: seq<string>)
    requires ResolveReady(s, alloc, d, parent, tokens) && tokens != [] && tokens[0] != "." && tokens[0] != ".."
    ensures Readable(s, d, tokens[0])
  {
    AtDirectory(s, alloc, d, parent, tokens);
    SoundIsReadable(s, d, tokens[0]);
  }

  lemma HitReady(s: Fs, alloc: Alloc, d: nat, parent: nat, tokens: seq<string>)
    requires ResolveReady(s, alloc, d, parent, tokens) && tokens != [] && tokens[0] != "." && tokens[0] != ".."
    requires (d, tokens[0]) in s.cache.dhash
    ensures ResolveReady(s, alloc, s.cache.dhash[(d, tokens[0])], d, tokens[1..])
  {
    var a := s.cache.dhash[(d, tokens[0])];
    AtDirectory(s, alloc, d, parent, tokens);
    HashedChild(s, d, tokens[0], a);
    ChildStep(s, d, tokens[0], a);
  }

  lemma DiskReady(s: Fs, alloc: Alloc, d: nat, parent: nat, tokens: seq<string>)
    requires ResolveReady(s, alloc, d, parent, tokens) && tokens != [] && tokens[0] != "." && tokens[0] != ".."
    requires (d, tokens[0]) !in s.cache.dhash
    ensures var es := DirEntries(s.disk.data, InodeOf(s.cache, d).meta);
            var k := FindEntry(es, tokens[0]);
            k < |es| ==>
              var (s1, a) := CacheChild(s, alloc, d, tokens[0], es[k].inum);
              ResolveReady(s1, alloc, a, d, tokens[1..])
  {
    AtDirectory(s, alloc, d, parent, tokens);
    var es := DirEntries(s.disk.data, InodeOf(s.cache, d).meta);
    var k := FindEntry(es, tokens[0]);
    if k < |es| { MissReady(s, alloc, d, tokens[0], es, k); }
  }

  lemma NamedIsLive(s: Fs, d: nat, name: string)
    requires Inv(s) && IsDirDentry(s.cache, d)
    ensures var es := DirEntries(s.disk.data, InodeOf(s.cache, d).meta);
            var k := FindEntry(es, name);
            k < |es| ==> es[k].inum < |s.disk.dinodes| && HasEntry(TreeOf(s.disk), InodeOf(s.cache, d).inum, name,
                                                                   es[k].inum)
  {
    DirectoryRead(s, d);
    var es := DirEntries(s.disk.data, InodeOf(s.cache, d).meta);
    var k := FindEntry(es, name);
    if k < |es| {
      assert es[k] == Direntry(es[k].inum, name);
      EntryIsLive(s.disk, InodeOf(s.cache, d).inum, name, es[k].inum);
    }
  }
}
