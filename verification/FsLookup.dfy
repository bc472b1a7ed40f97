/**
 Path lookup. The reference is a walk over the directories on disk that knows no cache;
 lookup_final_dentry, which goes through the dentry and vinode caches and fills them on
 the way, ends at the same place.
 */
module FsLookup {
  import opened RfsDir
  import opened FsState
  import opened FsTree
  import opened FsCache
  import opened FsDisk
  import opened FsInvariant
  import opened FsSteps

  /** Where a walk stands: in a directory, or at a file found in a directory. */
  datatype Place = InDir(dir: nat) | AtFile(dir: nat, file: nat)

  datatype WalkResult = Hit(place: Place) | Miss(dir: nat, name: string) | Above | NotADirectory

  /** The directory with a record for directory `d`. */
  ghost function ParentOnDisk(t: Tree, d: nat): nat {
    if exists p: nat, name :: HasEntry(t, p, name, d) then
      var p: nat, name :| HasEntry(t, p, name, d);
      p
    else 0
  }

  ghost function PlaceFor(t: Tree, dir: nat, i: nat): Place {
    if i in t then InDir(i) else AtFile(dir, i)
  }

  /** The uncached walk. */
  ghost function Walk(t: Tree, here: Place, tokens: seq<string>): WalkResult
    decreases |tokens|
  {
    if tokens == [] then Hit(here)
    else if tokens[0] == "." then Walk(t, here, tokens[1..])
    else if tokens[0] == ".." then
      if here.AtFile? then Walk(t, InDir(here.dir), tokens[1..])
      else if here.dir == 0 then Above
      else Walk(t, InDir(ParentOnDisk(t, here.dir)), tokens[1..])
    else if here.AtFile? || here.dir !in t then NotADirectory
    else
      var es := t[here.dir];
      var k := FindEntry(es, tokens[0]);
      if k == |es| then Miss(here.dir, tokens[0])
      else Walk(t, PlaceFor(t, here.dir, es[k].inum), tokens[1..])
  }

  /** The place a dentry stands for. */
  ghost function PlaceOf(c: Cache, d: nat): Place {
    if IsDirDentry(c, d) then InDir(InodeOf(c, d).inum)
    else AtFile(InodeOf(c, DentryAt(c, d).parent).inum, InodeOf(c, d).inum)
  }

  /** What a lookup result must be for the walk to have ended as it did. */
  ghost predicate Agrees(fs: Fs, r: Lookup, w: WalkResult) {
    match w
    case Hit(place) => r.Found? && r.dentry in fs.cache.dentries && PlaceOf(fs.cache, r.dentry) == place
    case Miss(dir, name) =>
      && r.Missing? && r.name == name
      && IsDirDentry(fs.cache, r.parent) && InodeOf(fs.cache, r.parent).inum == dir
      && (r.parent, name) !in fs.cache.dhash && NameIsFree(fs, r.parent, name)
    case Above => r.AboveRoot?
    case NotADirectory => false
  }

  /** The parent pointer a lookup hands back belongs to the file it found. */
  ghost predicate ParentFits(c: Cache, d: nat, parent: nat) {
    !IsDirDentry(c, d) ==> parent == DentryAt(c, d).parent
  }

  // ---- single steps ----

  lemma DirectoryInTree(fs: Fs, d: nat)
    requires TreeShape(TreeOf(fs.disk), fs.disk.dinodes) && Coherent(fs.cache, fs.disk.dinodes)
    requires d in fs.cache.dentries && fs.cache.dentries[d].inode in fs.cache.vinodes
    ensures IsDirDentry(fs.cache, d) <==> InodeOf(fs.cache, d).inum in TreeOf(fs.disk)
  {
    assert InodeOf(fs.cache, d).inum in TreeOf(fs.disk) <==> IsDir(fs.disk.dinodes, InodeOf(fs.cache, d).inum);
  }

  /** Only the root dentry stands for inode 0. */
  lemma RootIsZero(fs: Fs, d: nat)
    requires Anchored(fs.cache, TreeOf(fs.disk)) && TreeShape(TreeOf(fs.disk), fs.disk.dinodes)
    requires d in fs.cache.dentries
    ensures InodeOf(fs.cache, d).inum == 0 <==> d == fs.cache.root
    ensures DentryAt(fs.cache, d).parent == NULL <==> d == fs.cache.root
  {
    if d != fs.cache.root {
      assert Named(fs.cache, TreeOf(fs.disk), d);
      assert Direntry(InodeOf(fs.cache, d).inum, DentryAt(fs.cache, d).name)
          in TreeOf(fs.disk)[InodeOf(fs.cache, DentryAt(fs.cache, d).parent).inum];
    }
  }

  /** Following the parent pointer goes where the disk says. */
  lemma ParentStep(fs: Fs, d: nat)
    requires Inv(fs) && IsDirDentry(fs.cache, d) && d != fs.cache.root
    ensures var p := DentryAt(fs.cache, d).parent;
            IsDirDentry(fs.cache, p)
              && InodeOf(fs.cache, p).inum == ParentOnDisk(TreeOf(fs.disk), InodeOf(fs.cache, d).inum)
  {
    var t := TreeOf(fs.disk);
    var i := InodeOf(fs.cache, d).inum;
    assert Named(fs.cache, t, d);
    DirectoryRead(fs, d);
    UniqueParent(t, fs.disk.dinodes, InodeOf(fs.cache, DentryAt(fs.cache, d).parent).inum,
                 DentryAt(fs.cache, d).name, i);
  }

  lemma UniqueParent(t: Tree, n: seq<Dinode>, p: nat, name: string, i: nat)
    requires TreeInv(t, n) && IsDir(n, i) && HasEntry(t, p, name, i)
    ensures ParentOnDisk(t, i) == p
  {
    var q: nat, nm :| HasEntry(t, q, nm, i) && ParentOnDisk(t, i) == q;
    OneNamePerDirectory(t, n, i, p, name, q, nm);
  }

  /** A cached child is the one on disk. */
  lemma ChildStep(fs: Fs, d: nat, name: string, a: nat)
    requires Inv(fs) && IsDirDentry(fs.cache, d) && a in fs.cache.dentries && a != fs.cache.root
    requires DentryAt(fs.cache, a).parent == d && DentryAt(fs.cache, a).name == name
    ensures var q := InodeOf(fs.cache, d).inum;
            && q in TreeOf(fs.disk)
            && FindEntry(TreeOf(fs.disk)[q], name) < |TreeOf(fs.disk)[q]|
            && PlaceOf(fs.cache, a)
              == PlaceFor(TreeOf(fs.disk), q, TreeOf(fs.disk)[q][FindEntry(TreeOf(fs.disk)[q], name)].inum)
  {
    assert Named(fs.cache, TreeOf(fs.disk), a);
    DirectoryInTree(fs, d);
    DirectoryInTree(fs, a);
    FindUnique(TreeOf(fs.disk)[InodeOf(fs.cache, d).inum], name, InodeOf(fs.cache, a).inum);
  }

  /** A name that is not on disk is not cached either. */
  lemma UncachedWhenFree(fs: Fs, d: nat, name: string)
    requires Inv(fs) && IsDirDentry(fs.cache, d) && NameIsFree(fs, d, name)
    ensures (d, name) !in fs.cache.dhash
  {
    if (d, name) in fs.cache.dhash {
      var a := fs.cache.dhash[(d, name)];
      HashedChild(fs, d, name, a);
      ChildStep(fs, d, name, a);
      DirectoryRead(fs, d);
    }
  }

  lemma HashedChild(fs: Fs, d: nat, name: string, a: nat)
    requires Hashed(fs.cache) && Anchored(fs.cache, TreeOf(fs.disk)) && d in fs.cache.dentries
    requires (d, name) in fs.cache.dhash && fs.cache.dhash[(d, name)] == a
    ensures a in fs.cache.dentries && a != fs.cache.root && DentryAt(fs.cache, a).parent == d
    ensures DentryAt(fs.cache, a).name == name
  {
  }

  // ---- the whole path ----

  /** What a lookup must leave behind: a sound state `fs1`, and a result that agrees with the walk `w`. */
  ghost predicate Outcome(fs: Fs, fs1: Fs, r: Lookup, w: WalkResult) {
    && Inv(fs1)
    && OnlyCached(fs, fs1)
    && Agrees(fs1, r, w)
    && (r.Found? ==> ParentFits(fs1.cache, r.dentry, r.parent))
  }

  /** Outcome of the whole lookup. */
  ghost predicate ResolveOk(fs: Fs, alloc: Alloc, d: nat, parent: nat, tokens: seq<string>) {
    var (fs1, r) := Resolve(fs, alloc, d, parent, tokens);
    Outcome(fs, fs1, r, Walk(TreeOf(fs.disk), PlaceOf(fs.cache, d), tokens))
  }

  ghost predicate ResolveReady(fs: Fs, alloc: Alloc, d: nat, parent: nat, tokens: seq<string>) {
    && Inv(fs) && FreshPages(alloc) && d in fs.cache.dentries && ParentFits(fs.cache, d, parent)
    && Walk(TreeOf(fs.disk), PlaceOf(fs.cache, d), tokens) != NotADirectory
  }

  /**
   For every path that uses only directories as intermediates, from every cached dentry and in every state that
   satisfies the invariant: the cached lookup ends where the walk on disk ends, and only fills the caches.
   */
  lemma {:induction false} ResolveIsWalk(fs: Fs, alloc: Alloc, d: nat, parent: nat, tokens: seq<string>)
    requires ResolveReady(fs, alloc, d, parent, tokens)
    ensures ResolveOk(fs, alloc, d, parent, tokens)
    decreases |tokens|, 2
  {
    if tokens == [] {
      StopHere(fs, d, parent);
    } else if tokens[0] == "." {
      ResolveIsWalk(fs, alloc, d, parent, tokens[1..]);
    } else if tokens[0] == ".." {
      ResolveUp(fs, alloc, d, parent, tokens);
    } else if (d, tokens[0]) in fs.cache.dhash {
      ResolveHit(fs, alloc, d, parent, tokens);
    } else {
      ResolveMiss(fs, alloc, d, parent, tokens);
    }
  }

  lemma {:induction false} ResolveUp(fs: Fs, alloc: Alloc, d: nat, parent: nat, tokens: seq<string>)
    requires ResolveReady(fs, alloc, d, parent, tokens) && tokens != [] && tokens[0] == ".."
    ensures ResolveOk(fs, alloc, d, parent, tokens)
    decreases |tokens|, 0
  {
    RootIsZero(fs, d);
    if d != fs.cache.root {
      UpStep(fs, d, tokens);
      ResolveIsWalk(fs, alloc, DentryAt(fs.cache, d).parent, parent, tokens[1..]);
    } else {
      Stop(fs, AboveRoot, Above);
    }
  }

  lemma StopHere(fs: Fs, d: nat, parent: nat)
    requires Inv(fs) && d in fs.cache.dentries && ParentFits(fs.cache, d, parent)
    ensures Outcome(fs, fs, Found(d, parent), Hit(PlaceOf(fs.cache, d)))
  {
    NothingCached(fs);
    AgreesFound(fs, d, parent);
  }

  lemma NothingCached(fs: Fs)
    ensures OnlyCached(fs, fs)
  {
  }

  lemma AgreesFound(fs: Fs, d: nat, parent: nat)
    requires d in fs.cache.dentries
    ensures Agrees(fs, Found(d, parent), Hit(PlaceOf(fs.cache, d)))
  {
  }

  lemma Stop(fs: Fs, r: Lookup, w: WalkResult)
    requires Inv(fs) && !r.Found? && Agrees(fs, r, w)
    ensures Outcome(fs, fs, r, w)
  {
    NothingCached(fs);
  }

  lemma AgreesMissing(fs: Fs, d: nat, name: string)
    requires IsDirDentry(fs.cache, d) && (d, name) !in fs.cache.dhash && NameIsFree(fs, d, name)
    ensures Agrees(fs, Missing(d, name), Miss(InodeOf(fs.cache, d).inum, name))
  {
  }

  lemma {:induction false} ResolveHit(fs: Fs, alloc: Alloc, d: nat, parent: nat, tokens: seq<string>)
    requires ResolveReady(fs, alloc, d, parent, tokens) && tokens != [] && tokens[0] != "." && tokens[0] != ".."
    requires (d, tokens[0]) in fs.cache.dhash
    ensures ResolveOk(fs, alloc, d, parent, tokens)
    decreases |tokens|, 0
  {
    var a := fs.cache.dhash[(d, tokens[0])];
    AtDirectory(fs, alloc, d, parent, tokens);
    HashedChild(fs, d, tokens[0], a);
    ChildStep(fs, d, tokens[0], a);
    ResolveIsWalk(fs, alloc, a, d, tokens[1..]);
  }

  lemma {:induction false} ResolveMiss(fs: Fs, alloc: Alloc, d: nat, parent: nat, tokens: seq<string>)
    requires ResolveReady(fs, alloc, d, parent, tokens) && tokens != [] && tokens[0] != "." && tokens[0] != ".."
    requires (d, tokens[0]) !in fs.cache.dhash
    ensures ResolveOk(fs, alloc, d, parent, tokens)
    decreases |tokens|, 1
  {
    AtDirectory(fs, alloc, d, parent, tokens);
    var es := DirEntries(fs.disk.data, InodeOf(fs.cache, d).meta);
    var k := FindEntry(es, tokens[0]);
    if k < |es| {
      ResolveFromDisk(fs, alloc, d, parent, tokens, es, k);
    } else {
      AgreesMissing(fs, d, tokens[0]);
      Stop(fs, Missing(d, tokens[0]), Miss(InodeOf(fs.cache, d).inum, tokens[0]));
    }
  }

  lemma {:induction false} ResolveFromDisk(fs: Fs, alloc: Alloc, d: nat, parent: nat, tokens: seq<string>,
                                           es: seq<Direntry>, k: nat)
    requires Inv(fs) && FreshPages(alloc) && IsDirDentry(fs.cache, d) && tokens != []
    requires tokens[0] != "." && tokens[0] != ".." && (d, tokens[0]) !in fs.cache.dhash
    requires es == DirEntries(fs.disk.data, InodeOf(fs.cache, d).meta) && k == FindEntry(es, tokens[0]) < |es|
    requires InodeOf(fs.cache, d).inum in TreeOf(fs.disk) && es == TreeOf(fs.disk)[InodeOf(fs.cache, d).inum]
    requires Walk(TreeOf(fs.disk), PlaceOf(fs.cache, d), tokens) != NotADirectory
    requires Walk(TreeOf(fs.disk), PlaceOf(fs.cache, d), tokens)
          == Walk(TreeOf(fs.disk), PlaceFor(TreeOf(fs.disk), InodeOf(fs.cache, d).inum, es[k].inum), tokens[1..])
    ensures ResolveOk(fs, alloc, d, parent, tokens)
    decreases |tokens|, 0
  {
    hide Inv, OnlyCached, Agrees, CacheChild, IsDirDentry, FreshPages;
    var (fs1, a) := CacheChild(fs, alloc, d, tokens[0], es[k].inum);
    MissReady(fs, alloc, d, tokens[0], es, k);
    ResolveIsWalk(fs1, alloc, a, d, tokens[1..]);
    var (fs2, r) := Resolve(fs1, alloc, a, d, tokens[1..]);
    OutcomeTransitive(fs, fs1, fs2, r, Walk(TreeOf(fs1.disk), PlaceOf(fs1.cache, a), tokens[1..]));
  }

  lemma OutcomeTransitive(fs: Fs, fs1: Fs, fs2: Fs, r: Lookup, w: WalkResult)
    requires OnlyCached(fs, fs1) && Outcome(fs1, fs2, r, w)
    ensures Outcome(fs, fs2, r, w)
  {
    OnlyCachedTransitive(fs, fs1, fs2);
  }

  lemma UpStep(fs: Fs, d: nat, tokens: seq<string>)
    requires Inv(fs) && d in fs.cache.dentries && d != fs.cache.root && tokens != [] && tokens[0] == ".."
    ensures var up := DentryAt(fs.cache, d).parent;
            && up != NULL && IsDirDentry(fs.cache, up)
            && Walk(TreeOf(fs.disk), PlaceOf(fs.cache, d), tokens)
              == Walk(TreeOf(fs.disk), PlaceOf(fs.cache, up), tokens[1..])
  {
    UpIsDirectory(fs, d);
    if IsDirDentry(fs.cache, d) { ParentStep(fs, d); }
    WalkUp(TreeOf(fs.disk), fs.cache, d, tokens);
  }

  lemma UpIsDirectory(fs: Fs, d: nat)
    requires Anchored(fs.cache, TreeOf(fs.disk)) && TreeShape(TreeOf(fs.disk), fs.disk.dinodes)
    requires d in fs.cache.dentries && d != fs.cache.root
    ensures DentryAt(fs.cache, d).parent != NULL && IsDirDentry(fs.cache, DentryAt(fs.cache, d).parent)
    ensures InodeOf(fs.cache, d).inum != 0
  {
    RootIsZero(fs, d);
    assert Named(fs.cache, TreeOf(fs.disk), d);
  }

  lemma WalkUp(t: Tree, c: Cache, d: nat, tokens: seq<string>)
    requires tokens != [] && tokens[0] == ".." && IsDirDentry(c, DentryAt(c, d).parent) && InodeOf(c, d).inum != 0
    requires IsDirDentry(c, d) ==> InodeOf(c, DentryAt(c, d).parent).inum == ParentOnDisk(t, InodeOf(c, d).inum)
    ensures Walk(t, PlaceOf(c, d), tokens) == Walk(t, PlaceOf(c, DentryAt(c, d).parent), tokens[1..])
  {
  }

  /** Only a directory can be the current dentry when a name follows. */
  lemma AtDirectory(fs: Fs, alloc: Alloc, d: nat, parent: nat, tokens: seq<string>)
    requires ResolveReady(fs, alloc, d, parent, tokens) && tokens != [] && tokens[0] != "." && tokens[0] != ".."
    ensures IsDirDentry(fs.cache, d)
    ensures var q := InodeOf(fs.cache, d).inum;
            var t := TreeOf(fs.disk);
            && q in t && DirEntries(fs.disk.data, InodeOf(fs.cache, d).meta) == t[q]
            && Walk(t, PlaceOf(fs.cache, d), tokens) ==
                 var k := FindEntry(t[q], tokens[0]);
                 if k == |t[q]| then Miss(q, tokens[0]) else Walk(t, PlaceFor(t, q, t[q][k].inum), tokens[1..])
  {
    DirectoryRead(fs, d);
  }

  lemma MissReady(fs: Fs, alloc: Alloc, d: nat, name: string, es: seq<Direntry>, k: nat)
    requires Inv(fs) && FreshPages(alloc) && IsDirDentry(fs.cache, d) && (d, name) !in fs.cache.dhash
    requires InodeOf(fs.cache, d).inum in TreeOf(fs.disk) && es == TreeOf(fs.disk)[InodeOf(fs.cache, d).inum]
    requires k == FindEntry(es, name) < |es|
    ensures var (fs1, a) := CacheChild(fs, alloc, d, name, es[k].inum);
            && Inv(fs1) && OnlyCached(fs, fs1) && a in fs1.cache.dentries && DentryAt(fs1.cache, a).parent == d
            && DentryAt(fs1.cache, a).name == name
            && PlaceOf(fs1.cache, a) == PlaceFor(TreeOf(fs.disk), InodeOf(fs.cache, d).inum, es[k].inum)
  {
    assert es[k] == Direntry(es[k].inum, name);
    CacheChildKeepsInv(fs, alloc, d, name, es[k].inum);
    var (fs1, a) := CacheChild(fs, alloc, d, name, es[k].inum);
    GrownDirectory(fs, fs1, d);
    ChildStep(fs1, d, name, a);
  }

  lemma GrownDirectory(fs: Fs, fs1: Fs, d: nat)
    requires OnlyCached(fs, fs1) && d in fs.cache.dentries && fs.cache.dentries[d].inode in fs.cache.vinodes
    ensures d in fs1.cache.dentries && DentryAt(fs1.cache, d) == DentryAt(fs.cache, d)
    ensures InodeOf(fs1.cache, d).inum == InodeOf(fs.cache, d).inum
    ensures InodeOf(fs1.cache, d).meta == InodeOf(fs.cache, d).meta
    ensures IsDirDentry(fs1.cache, d) == IsDirDentry(fs.cache, d)
  {
  }

  // ---- the name a path ends in ----

  /** The last token that is not `.`, or `name` when there is none. */
  ghost function FinalName(name: string, tokens: seq<string>): string
    decreases |tokens|
  {
    if tokens == [] then name
    else if tokens[0] == "." then FinalName(name, tokens[1..])
    else FinalName(tokens[0], tokens[1..])
  }

  ghost predicate EndsInName(fs: Fs, alloc: Alloc, d: nat, parent: nat, tokens: seq<string>, name: string) {
    var (fs1, r) := Resolve(fs, alloc, d, parent, tokens);
    r.Found? && !IsDirDentry(fs1.cache, r.dentry) ==> DentryAt(fs1.cache, r.dentry).name == FinalName(name, tokens)
  }

  /** A file that a lookup finds is the dentry of the last name in the path. */
  lemma {:induction false} FoundName(fs: Fs, alloc: Alloc, d: nat, parent: nat, tokens: seq<string>, name: string)
    requires ResolveReady(fs, alloc, d, parent, tokens)
    requires !IsDirDentry(fs.cache, d) ==> DentryAt(fs.cache, d).name == name
    ensures EndsInName(fs, alloc, d, parent, tokens, name)
    decreases |tokens|, 1
  {
    if tokens == [] {
    } else if tokens[0] == "." {
      FoundName(fs, alloc, d, parent, tokens[1..], name);
    } else if tokens[0] == ".." {
      NameUp(fs, alloc, d, parent, tokens, name);
    } else if (d, tokens[0]) in fs.cache.dhash {
      NameHit(fs, alloc, d, parent, tokens, name);
    } else {
      NameMiss(fs, alloc, d, parent, tokens, name);
    }
  }

  lemma {:induction false} NameUp(fs: Fs, alloc: Alloc, d: nat, parent: nat, tokens: seq<string>, name: string)
    requires ResolveReady(fs, alloc, d, parent, tokens) && tokens != [] && tokens[0] == ".."
    ensures EndsInName(fs, alloc, d, parent, tokens, name)
    decreases |tokens|, 0
  {
    RootIsZero(fs, d);
    if d != fs.cache.root {
      UpStep(fs, d, tokens);
      FoundName(fs, alloc, DentryAt(fs.cache, d).parent, parent, tokens[1..], "..");
    }
  }

  lemma {:induction false} NameHit(fs: Fs, alloc: Alloc, d: nat, parent: nat, tokens: seq<string>, name: string)
    requires ResolveReady(fs, alloc, d, parent, tokens) && tokens != [] && tokens[0] != "." && tokens[0] != ".."
    requires (d, tokens[0]) in fs.cache.dhash
    ensures EndsInName(fs, alloc, d, parent, tokens, name)
    decreases |tokens|, 0
  {
    var a := fs.cache.dhash[(d, tokens[0])];
    AtDirectory(fs, alloc, d, parent, tokens);
    HashedChild(fs, d, tokens[0], a);
    ChildStep(fs, d, tokens[0], a);
    FoundName(fs, alloc, a, d, tokens[1..], tokens[0]);
  }

  lemma {:induction false} NameMiss(fs: Fs, alloc: Alloc, d: nat, parent: nat, tokens: seq<string>, name: string)
    requires ResolveReady(fs, alloc, d, parent, tokens) && tokens != [] && tokens[0] != "." && tokens[0] != ".."
    requires (d, tokens[0]) !in fs.cache.dhash
    ensures EndsInName(fs, alloc, d, parent, tokens, name)
    decreases |tokens|, 0
  {
    hide Inv, OnlyCached, Agrees, CacheChild;
    AtDirectory(fs, alloc, d, parent, tokens);
    var es := DirEntries(fs.disk.data, InodeOf(fs.cache, d).meta);
    var k := FindEntry(es, tokens[0]);
    if k < |es| {
      var (fs1, a) := CacheChild(fs, alloc, d, tokens[0], es[k].inum);
      MissReady(fs, alloc, d, tokens[0], es, k);
      DiskStays(fs, fs1);
      FoundName(fs1, alloc, a, d, tokens[1..], tokens[0]);
    }
  }

  lemma DiskStays(fs: Fs, fs1: Fs)
    requires OnlyCached(fs, fs1)
    ensures fs1.disk == fs.disk
  {
  }
}
