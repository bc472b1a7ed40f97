/**
 Runs that go wrong: an unlink that loses blocks, and a link that is not where its path
 says. Both are enabled step by step from a freshly mounted disk.
 */
module FsFailures {
  import opened RfsDir
  import opened FsState
  import opened FsTree
  import opened FsCache
  import opened FsDisk
  import opened FsInvariant
  import opened FsSteps
  import opened FsLinks
  import opened FsUnlink
  import opened FsWrite
  import opened FsLookup
  import opened FsPlaces
  import opened FsOps
  import opened FsRuns

  // ---- a file that grows, and loses its last name before its inode is written ----

  /** The disk copy of inode `i` lacks blocks that the inode has. */
  ghost predicate Stale(fs: Fs, i: nat) {
    Live(fs.disk.dinodes, i) && fs.disk.dinodes[i].blocks < Current(fs, i).blocks
  }

  /** Dentry `e` is an unopened name of file vinode `v`, inode `i`, which has `n` links. */
  ghost predicate NameOf(fs: Fs, e: nat, v: nat, i: nat, n: int) {
    && e in fs.cache.dentries && fs.cache.dentries[e].inode == v && fs.cache.dentries[e].dref == 0
    && v in fs.cache.vinodes && fs.cache.vinodes[v].inum == i
    && fs.cache.vinodes[v].meta.kind == FileI && fs.cache.vinodes[v].meta.nlinks == n
  }

  lemma {:induction false} GrowReaches(m: Dinode, freemap: seq<nat>, target: nat)
    requires CanGrow(m, freemap, target)
    ensures Grow(m, freemap, target).0.blocks == (if m.blocks < target then target else m.blocks)
    ensures Grow(m, freemap, target).0.nlinks == m.nlinks && Grow(m, freemap, target).0.kind == m.kind
    decreases target - m.blocks
  {
    if m.blocks < target {
      var b := FirstFreeBlock(freemap);
      GrowReaches(m.(addrs := m.addrs[m.blocks := FIRST_DATA + b], blocks := m.blocks + 1), freemap[b := 1], target);
    }
  }

  lemma DiskNotAhead(fs: Fs, v: nat)
    requires Hashed(fs.cache) && Coherent(fs.cache, fs.disk.dinodes) && DiskBehind(fs) && v in fs.cache.vinodes
    ensures DinodeAt(fs.disk, fs.cache.vinodes[v].inum).blocks <= fs.cache.vinodes[v].meta.blocks
    ensures Live(fs.disk.dinodes, fs.cache.vinodes[v].inum)
    ensures Current(fs, fs.cache.vinodes[v].inum) == fs.cache.vinodes[v].meta
  {
    assert Behind(fs.disk.dinodes[fs.cache.vinodes[v].inum], Current(fs, fs.cache.vinodes[v].inum));
  }

  /** As many bytes from the end of the file as need one block more. */
  ghost function PastLastBlock(m: Dinode): nat {
    if m.size <= m.blocks * BLOCK_SIZE then m.blocks * BLOCK_SIZE + 1 - m.size else 1
  }

  lemma OneBlockMore(m: Dinode)
    requires m.size <= m.blocks * BLOCK_SIZE
    ensures BlocksFor(m.size + PastLastBlock(m)) == m.blocks + 1
  {
  }

  lemma StaleFrom(fs: Fs, v: nat)
    requires Hashed(fs.cache) && Coherent(fs.cache, fs.disk.dinodes) && v in fs.cache.vinodes
    requires DinodeAt(fs.disk, fs.cache.vinodes[v].inum).blocks < fs.cache.vinodes[v].meta.blocks
    ensures Stale(fs, fs.cache.vinodes[v].inum)
  {
  }

  /** What the write does, as far as names and block counts go. */
  ghost predicate Grew(fs: Fs, fs1: Fs, v: nat) {
    && v in fs.cache.vinodes && fs1.disk.dinodes == fs.disk.dinodes
    && fs1.cache == SetMeta(fs.cache, v, VinodeAt(fs1.cache, v).meta)
    && VinodeAt(fs1.cache, v).meta.blocks == fs.cache.vinodes[v].meta.blocks + 1
    && VinodeAt(fs1.cache, v).meta.nlinks == fs.cache.vinodes[v].meta.nlinks
    && VinodeAt(fs1.cache, v).meta.kind == fs.cache.vinodes[v].meta.kind
  }

  lemma WriteGrows(fs: Fs, v: nat, contents: int -> Block)
    requires v in fs.cache.vinodes && fs.cache.vinodes[v].meta.size <= fs.cache.vinodes[v].meta.blocks * BLOCK_SIZE
    requires CanWrite(fs, v, fs.cache.vinodes[v].meta.size, PastLastBlock(fs.cache.vinodes[v].meta))
    ensures var m := fs.cache.vinodes[v].meta;
            Grew(fs, Write(fs, v, m.size, PastLastBlock(m), contents), v)
  {
    var m := fs.cache.vinodes[v].meta;
    OneBlockMore(m);
    GrowReaches(m, fs.disk.freemap, m.blocks + 1);
  }

  /** The write: the inode grows by a block, its disk copy does not, and all names stay. */
  lemma WriteMakesStale(fs: Fs, v: nat, contents: int -> Block)
    requires Inv(fs) && v in fs.cache.vinodes && WholeBlocks(contents)
    requires CanWrite(fs, v, fs.cache.vinodes[v].meta.size, PastLastBlock(fs.cache.vinodes[v].meta))
    ensures var x := fs.cache.vinodes[v];
            var fs1 := Write(fs, v, x.meta.size, PastLastBlock(x.meta), contents);
            Inv(fs1) && Stale(fs1, x.inum) && Grew(fs, fs1, v) && Lost(fs1) == Lost(fs)
  {
    var m := fs.cache.vinodes[v].meta;
    var fs1 := Write(fs, v, m.size, PastLastBlock(m), contents);
    CachedFacts(fs, v);
    WriteKeepsInv(fs, v, m.size, PastLastBlock(m), contents);
    WriteGrows(fs, v, contents);
    StaleFrom(fs1, v);
  }

  lemma CachedFacts(fs: Fs, v: nat)
    requires Inv(fs) && v in fs.cache.vinodes
    ensures DinodeAt(fs.disk, fs.cache.vinodes[v].inum).blocks <= fs.cache.vinodes[v].meta.blocks
    ensures fs.cache.vinodes[v].meta.size <= fs.cache.vinodes[v].meta.blocks * BLOCK_SIZE
  {
    DiskNotAhead(fs, v);
    CachedFits(fs, v);
  }

  lemma CachedFits(fs: Fs, v: nat)
    requires DiskShape(fs.disk) && Hashed(fs.cache) && Coherent(fs.cache, fs.disk.dinodes)
    requires Ownership(Now(fs), fs.disk.freemap)
    requires v in fs.cache.vinodes
    ensures InodeOk(fs.cache.vinodes[v].meta)
  {
    var i := fs.cache.vinodes[v].inum;
    assert Now(fs)[i] == Current(fs, i) == fs.cache.vinodes[v].meta;
    assert Live(Now(fs), i);
  }

  lemma TwoHolders(c: Cache, d: nat, e: nat)
    requires RefsCounted(c) && d in c.dentries && e in c.dentries && d != e
    requires c.dentries[d].inode == c.dentries[e].inode
    requires c.dentries[d].inode in c.vinodes
    ensures InodeOf(c, d).ref >= 2
  {
    var h := Holders(c, c.dentries[d].inode);
    assert h == (h - {d, e}) + {d, e};
    assert |{d, e}| == 2;
  }

  /** What closing does: dentry `d` and its key go, and the vinode stays with one reference less. */
  ghost predicate Closed(fs: Fs, fs1: Fs, d: nat) {
    var v := DentryAt(fs.cache, d).inode;
    && fs1.disk == fs.disk && fs1.cache.root == fs.cache.root
    && fs1.cache.dentries == fs.cache.dentries - {d} && fs1.cache.dhash == fs.cache.dhash - {DKey(fs.cache, d)}
    && fs1.cache.vinodes == fs.cache.vinodes[v := VinodeAt(fs.cache, v).(ref := VinodeAt(fs.cache, v).ref - 1)]
    && fs1.cache.vhash == fs.cache.vhash
  }

  /** Closing one name of a file that another name still caches writes nothing back. */
  lemma CloseKeepsStale(fs: Fs, f: nat, d: nat, e: nat, i: nat)
    requires Inv(fs) && f in fs.cache.files && fs.cache.files[f].dentry == d && d in fs.cache.dentries && d != e
    requires fs.cache.dentries[d].dref == 1 && NameOf(fs, e, fs.cache.dentries[d].inode, i, 2) && Stale(fs, i)
    ensures var fs1 := Close(fs, f);
            && Inv(fs1) && Stale(fs1, i) && NameOf(fs1, e, fs.cache.dentries[d].inode, i, 2)
            && Closed(fs, fs1, d) && Lost(fs1) == Lost(fs)
  {
    CloseKeepsInv(fs, f);
    CloseIsClosed(fs, f, d, e, i);
    ClosedKeepsStale(fs, Close(fs, f), d, e, i);
  }

  lemma CloseIsClosed(fs: Fs, f: nat, d: nat, e: nat, i: nat)
    requires RefsCounted(fs.cache) && f in fs.cache.files && fs.cache.files[f].dentry == d && d in fs.cache.dentries
    requires d != e
    requires fs.cache.dentries[d].dref == 1 && NameOf(fs, e, fs.cache.dentries[d].inode, i, 2)
    ensures Closed(fs, Close(fs, f), d)
  {
    TwoHolders(fs.cache, d, e);
    CloseDrops(fs, f, d);
  }

  lemma ClosedKeepsStale(fs: Fs, fs1: Fs, d: nat, e: nat, i: nat)
    requires Stale(fs, i) && Closed(fs, fs1, d) && d != e && NameOf(fs, e, DentryAt(fs.cache, d).inode, i, 2)
    ensures Stale(fs1, i) && NameOf(fs1, e, DentryAt(fs.cache, d).inode, i, 2)
  {
  }

  lemma CloseDrops(fs: Fs, f: nat, d: nat)
    requires f in fs.cache.files && fs.cache.files[f].dentry == d && d in fs.cache.dentries
    requires fs.cache.dentries[d].dref == 1
    requires fs.cache.dentries[d].inode in fs.cache.vinodes && InodeOf(fs.cache, d).meta.kind == FileI
    requires InodeOf(fs.cache, d).ref >= 2
    ensures Closed(fs, Close(fs, f), d)
  {
  }

  /** A path of one name. */
  ghost function Just(name: string): Path {
    Path(false, [name])
  }

  lemma JustReady(fs: Fs, alloc: Alloc, p: nat, name: string)
    requires TreeShape(TreeOf(fs.disk), fs.disk.dinodes) && Coherent(fs.cache, fs.disk.dinodes) && FreshPages(alloc)
    requires IsDirDentry(fs.cache, p) && fs.cache.dentries[p].inode in fs.cache.vinodes && name != "." && name != ".."
    ensures LookupReady(fs, alloc, p, Just(name))
  {
    DirectoryRead(fs, p);
    WalkByNext(TreeOf(fs.disk), InDir(InodeOf(fs.cache, p).inum), [name]);
  }

  /** Unlinking a name that is not cached: it is read in, and then goes. */
  lemma UnlinkUncached(fs: Fs, alloc: Alloc, p: nat, name: string, i: nat)
    requires (p, name) !in fs.cache.dhash && name != "." && name != ".."
    requires var es := DirEntries(fs.disk.data, InodeOf(fs.cache, p).meta);
             FindEntry(es, name) < |es| && es[FindEntry(es, name)].inum == i
    requires var (fs1, a) := CacheChild(fs, alloc, p, name, i);
             InodeOf(fs1.cache, a).meta.kind == FileI && DentryAt(fs1.cache, a).dref == 0
    ensures var (fs1, a) := CacheChild(fs, alloc, p, name, i);
            Unlink(fs, alloc, p, Just(name)) == (RemoveName(fs1, p, a), true)
  {
    var (fs1, a) := CacheChild(fs, alloc, p, name, i);
    assert Just(name).tokens[1..] == [];
    assert Resolve(fs1, alloc, a, p, []) == (fs1, Found(a, p));
    assert LookupPath(fs, alloc, p, Just(name)) == (fs1, Found(a, p));
  }

  /** Unlinking a name that is cached. */
  lemma UnlinkCached(fs: Fs, alloc: Alloc, p: nat, name: string, e: nat)
    requires (p, name) in fs.cache.dhash && fs.cache.dhash[(p, name)] == e && name != "." && name != ".."
    requires InodeOf(fs.cache, e).meta.kind == FileI && DentryAt(fs.cache, e).dref == 0
    ensures LookupPath(fs, alloc, p, Just(name)) == (fs, Found(e, p))
    ensures Unlink(fs, alloc, p, Just(name)) == (RemoveName(fs, p, e), true)
  {
    assert Just(name).tokens[1..] == [];
    assert Resolve(fs, alloc, e, p, []) == (fs, Found(e, p));
  }

  /** Reading in a second name of a cached inode. */
  lemma ReadInKeepsStale(fs: Fs, alloc: Alloc, p: nat, name: string, e: nat, v: nat, i: nat)
    requires Hashed(fs.cache) && FreshPages(alloc) && NameOf(fs, e, v, i, 2) && Stale(fs, i)
    ensures var (fs1, a) := CacheChild(fs, alloc, p, name, i);
            && Stale(fs1, i) && NameOf(fs1, e, v, i, 2) && NameOf(fs1, a, v, i, 2) && a != e
            && fs1.cache.dentries[a].parent == p && fs1.cache.dentries[a].name == name
            && fs1.cache.dentries[e] == fs.cache.dentries[e] && fs1.disk == fs.disk
  {
    FreshPair(alloc, fs.cache);
  }

  lemma RemovedKeepsStale(fs: Fs, fs1: Fs, cd: Cache, d: nat, e: nat, pv: nat, q: nat, index: nat, v: nat, i: nat,
                          u: Dinode)
    requires RemovedName(fs, fs1, cd, d, pv, q, index, v, i, u) && DiskShape(fs.disk) && Hashed(fs.cache)
    requires Stale(fs, i) && NameOf(fs, e, v, i, 2) && e != d && fs.disk.dinodes[i].nlinks == 2
    requires fs.disk.dinodes[i].kind == FileI
    ensures Stale(fs1, i) && NameOf(fs1, e, v, i, 1) && fs1.cache.dentries[e] == fs.cache.dentries[e]
  {
    RemovedCurrent(fs, fs1, cd, d, pv, q, index, v, i, u);
    assert Current(fs1, i) == Now(fs1)[i] && Current(fs, i) == Now(fs)[i];
  }

  /** Removing a name that is not the last leaves the disk inode as far behind as it was. */
  lemma RemovalKeepsStale(fs: Fs, p: nat, d: nat, e: nat, v: nat, i: nat)
    requires Inv(fs) && CanUnlink(fs, p, d) && NameOf(fs, d, v, i, 2) && NameOf(fs, e, v, i, 2) && d != e
    requires Stale(fs, i)
    ensures var fs1 := RemoveName(fs, p, d);
            && Stale(fs1, i) && NameOf(fs1, e, v, i, 1) && fs1.cache.dentries[e] == fs.cache.dentries[e]
  {
    var cd, q, index, u := RemoveNameIs(fs, p, d);
    LinkCountsAgree(fs, p, d);
    RemovedKeepsStale(fs, RemoveName(fs, p, d), cd, d, e, DentryAt(fs.cache, p).inode, q, index, v, i, u);
  }

  lemma NameIsDroppable(fs: Fs, e: nat, v: nat, i: nat, n: int)
    requires Inv(fs) && NameOf(fs, e, v, i, n)
    ensures Droppable(fs.cache, e) && e != fs.cache.root && Named(fs.cache, TreeOf(fs.disk), e)
    ensures DKey(fs.cache, e) in fs.cache.dhash && fs.cache.dhash[DKey(fs.cache, e)] == e
  {
    RootIsDirectory(fs);
  }

  /** The first unlink: the name `name` of directory `p`, which was closed and is no longer cached, goes. */
  lemma FirstUnlink(fs: Fs, alloc: Alloc, p: nat, name: string, e: nat, v: nat, i: nat)
    requires Inv(fs) && FreshPages(alloc) && NameOf(fs, e, v, i, 2) && Stale(fs, i)
    requires IsDirDentry(fs.cache, p) && (p, name) !in fs.cache.dhash && name != "." && name != ".."
    requires HasEntry(TreeOf(fs.disk), InodeOf(fs.cache, p).inum, name, i)
    ensures var fs1 := Unlink(fs, alloc, p, Just(name)).0;
            && Inv(fs1) && Stale(fs1, i) && NameOf(fs1, e, v, i, 1)
            && fs1.cache.dentries[e] == fs.cache.dentries[e] && Lost(fs1) == Lost(fs)
  {
    var (fs1, a) := CacheChild(fs, alloc, p, name, i);
    RecordOf(fs, p, name, i);
    ReadInKeepsStale(fs, alloc, p, name, e, v, i);
    UnlinkUncached(fs, alloc, p, name, i);
    CacheChildKeepsInv(fs, alloc, p, name, i);
    RemoveSecondName(fs1, a, e, v, i);
  }

  lemma RemoveSecondName(fs: Fs, a: nat, e: nat, v: nat, i: nat)
    requires Inv(fs) && NameOf(fs, a, v, i, 2) && NameOf(fs, e, v, i, 2) && a != e && Stale(fs, i)
    ensures var fs1 := RemoveName(fs, fs.cache.dentries[a].parent, a);
            && Inv(fs1) && Stale(fs1, i) && NameOf(fs1, e, v, i, 1)
            && fs1.cache.dentries[e] == fs.cache.dentries[e] && Lost(fs1) == Lost(fs)
  {
    NameIsDroppable(fs, a, v, i, 2);
    RemovalKeepsStale(fs, fs.cache.dentries[a].parent, a, e, v, i);
    SecondNameLosesNothing(fs, a, v, i);
  }

  lemma SecondNameLosesNothing(fs: Fs, a: nat, v: nat, i: nat)
    requires Inv(fs) && NameOf(fs, a, v, i, 2) && Droppable(fs.cache, a)
    ensures var fs1 := RemoveName(fs, fs.cache.dentries[a].parent, a);
            Inv(fs1) && Lost(fs1) == Lost(fs)
  {
    RemoveNameKeepsInv(fs, fs.cache.dentries[a].parent, a);
    NothingMore(Lost(fs));
  }

  lemma RecordOf(fs: Fs, p: nat, name: string, i: nat)
    requires TreeShape(TreeOf(fs.disk), fs.disk.dinodes) && Coherent(fs.cache, fs.disk.dinodes)
    requires IsDirDentry(fs.cache, p) && fs.cache.dentries[p].inode in fs.cache.vinodes
    requires HasEntry(TreeOf(fs.disk), InodeOf(fs.cache, p).inum, name, i)
    ensures var es := DirEntries(fs.disk.data, InodeOf(fs.cache, p).meta);
            FindEntry(es, name) < |es| && es[FindEntry(es, name)].inum == i
  {
    DirectoryRead(fs, p);
    FindUnique(TreeOf(fs.disk)[InodeOf(fs.cache, p).inum], name, i);
  }

  /** The second: the last name goes, and the blocks the disk inode lacks are lost. */
  lemma SecondUnlink(fs: Fs, alloc: Alloc, e: nat, v: nat, i: nat)
    requires Inv(fs) && NameOf(fs, e, v, i, 1) && Stale(fs, i)
    requires fs.cache.dentries[e].name != "." && fs.cache.dentries[e].name != ".."
    ensures var fs1 := Unlink(fs, alloc, fs.cache.dentries[e].parent, Just(fs.cache.dentries[e].name)).0;
            Inv(fs1) && Lost(fs) < Lost(fs1)
  {
    var p := fs.cache.dentries[e].parent;
    NameIsDroppable(fs, e, v, i, 1);
    UnlinkCached(fs, alloc, p, fs.cache.dentries[e].name, e);
    RemoveNameKeepsInv(fs, p, e);
    LeaksIff(fs, p, e);
    DiskNotAhead(fs, v);
  }

  // ---- the run ----

  /** A file open as `f` under one of its two names, the other being dentry `e`; there is a block to grow into. */
  ghost predicate OpenUnderOneOfTwo(fs: Fs, f: nat, e: nat, i: nat) {
    && f in fs.cache.files && fs.cache.files[f].dentry in fs.cache.dentries && fs.cache.files[f].dentry != e
    && var d := fs.cache.files[f].dentry;
    && var v := fs.cache.dentries[d].inode;
    && fs.cache.dentries[d].dref == 1 && NameOf(fs, e, v, i, 2)
    && fs.cache.dentries[d].name != "." && fs.cache.dentries[d].name != ".."
    && fs.cache.dentries[e].name != "." && fs.cache.dentries[e].name != ".."
    && CanWrite(fs, v, fs.cache.vinodes[v].meta.size, PastLastBlock(fs.cache.vinodes[v].meta))
  }

  ghost function GrowOp(fs: Fs, f: nat, contents: int -> Block): Op {
    var m := InodeOf(fs.cache, FileAt(fs.cache, f).dentry).meta;
    DoWrite(f, m.size, PastLastBlock(m), contents)
  }

  /** Unlink the name of dentry `d`, from its directory. */
  ghost function UnlinkOp(fs: Fs, alloc: Alloc, d: nat): Op {
    DoUnlink(alloc, DentryAt(fs.cache, d).parent, Just(DentryAt(fs.cache, d).name))
  }

  /** Grow the file, close it, and unlink both names. */
  ghost function LeakingRun(fs: Fs, alloc: Alloc, f: nat, e: nat, contents: int -> Block): seq<Op> {
    [GrowOp(fs, f, contents), DoClose(f), UnlinkOp(fs, alloc, FileAt(fs.cache, f).dentry), UnlinkOp(fs, alloc, e)]
  }

  lemma OneStep(fs: Fs, op: Op, rest: seq<Op>)
    ensures Run(fs, [op] + rest) == Run(Apply(fs, op), rest)
    ensures AllEnabled(fs, [op] + rest) == (Enabled(fs, op) && AllEnabled(Apply(fs, op), rest))
  {
    assert ([op] + rest)[0] == op && ([op] + rest)[1..] == rest;
  }

  lemma FourSteps(fs: Fs, a: Op, b: Op, c: Op, d: Op)
    ensures var fs1 := Apply(fs, a);
            var fs2 := Apply(fs1, b);
            var fs3 := Apply(fs2, c);
            && Run(fs, [a, b, c, d]) == Apply(fs3, d)
            && (Enabled(fs, a) && Enabled(fs1, b) && Enabled(fs2, c) && Enabled(fs3, d) ==>
              AllEnabled(fs, [a, b, c, d]))
  {
    var fs1 := Apply(fs, a);
    var fs2 := Apply(fs1, b);
    var fs3 := Apply(fs2, c);
    OneStep(fs, a, [b, c, d]);
    OneStep(fs1, b, [c, d]);
    OneStep(fs2, c, [d]);
    OneStep(fs3, d, []);
    assert [a] + [b, c, d] == [a, b, c, d] && [b] + [c, d] == [b, c, d] && [c] + [d] == [c, d] && [d] + [] == [d];
  }

  /** The first two steps: the disk inode is behind, and the name the file was open under is not cached. */
  lemma GrowAndClose(fs: Fs, f: nat, e: nat, i: nat, contents: int -> Block)
    requires Inv(fs) && OpenUnderOneOfTwo(fs, f, e, i) && WholeBlocks(contents)
    ensures var d := fs.cache.files[f].dentry;
            var fs1 := Apply(fs, GrowOp(fs, f, contents));
            var fs2 := Close(fs1, f);
            && Enabled(fs, GrowOp(fs, f, contents)) && Enabled(fs1, DoClose(f))
            && Inv(fs2) && Stale(fs2, i) && NameOf(fs2, e, fs.cache.dentries[d].inode, i, 2)
              && Lost(fs2) == Lost(fs)
            && Grew(fs, fs1, fs.cache.dentries[d].inode) && Closed(fs1, fs2, d)
  {
    var d := fs.cache.files[f].dentry;
    var v := fs.cache.dentries[d].inode;
    WriteMakesStale(fs, v, contents);
    var fs1 := Apply(fs, GrowOp(fs, f, contents));
    assert fs1 == Write(fs, v, fs.cache.vinodes[v].meta.size, PastLastBlock(fs.cache.vinodes[v].meta), contents);
    CloseKeepsStale(fs1, f, d, e, i);
  }

  /** The directory of the closed name is still cached, its record still on disk, and its key gone. */
  lemma ClosedNameOnDisk(fs: Fs, fs1: Fs, fs2: Fs, d: nat)
    requires Anchored(fs.cache, TreeOf(fs.disk)) && d in fs.cache.dentries && d != fs.cache.root
    requires !IsDirDentry(fs.cache, d)
    requires Grew(fs, fs1, fs.cache.dentries[d].inode) && Closed(fs1, fs2, d) && TreeOf(fs1.disk) == TreeOf(fs.disk)
    ensures var p := fs.cache.dentries[d].parent;
            && IsDirDentry(fs2.cache, p) && (p, fs.cache.dentries[d].name) !in fs2.cache.dhash
            && HasEntry(TreeOf(fs2.disk), InodeOf(fs2.cache, p).inum, fs.cache.dentries[d].name,
                        InodeOf(fs.cache, d).inum)
  {
    assert Named(fs.cache, TreeOf(fs.disk), d);
    var p := fs.cache.dentries[d].parent;
    OtherDirStays(fs, fs1, fs2, d, p);
  }

  lemma OtherDirStays(fs: Fs, fs1: Fs, fs2: Fs, d: nat, p: nat)
    requires d in fs.cache.dentries && !IsDirDentry(fs.cache, d) && IsDirDentry(fs.cache, p)
    requires fs.cache.dentries[p].inode in fs.cache.vinodes && fs.cache.dentries[d].inode in fs.cache.vinodes
    requires Grew(fs, fs1, fs.cache.dentries[d].inode) && Closed(fs1, fs2, d)
    ensures IsDirDentry(fs2.cache, p) && InodeOf(fs2.cache, p).inum == InodeOf(fs.cache, p).inum
    ensures DKey(fs.cache, d) !in fs2.cache.dhash && fs2.disk == fs1.disk
  {
    assert p != d && fs.cache.dentries[p].inode != fs.cache.dentries[d].inode;
    assert fs2.cache.dentries[p] == fs.cache.dentries[p] && DKey(fs1.cache, d) == DKey(fs.cache, d);
  }

  lemma OpenNameIsNoRoot(fs: Fs, f: nat, e: nat, i: nat)
    requires Inv(fs) && OpenUnderOneOfTwo(fs, f, e, i)
    ensures var d := fs.cache.files[f].dentry;
            d != fs.cache.root && !IsDirDentry(fs.cache, d) && InodeOf(fs.cache, d).inum == i
  {
    RootIsDirectory(fs);
  }

  /**
   The failing family. A file has two names and is open under one of them. It grows by a block and is closed: the other
   name still holds the vinode, so nothing is written back. Then both names are unlinked, and the last unlink frees
   only the blocks that the disk inode lists.
   */
  lemma UnwrittenGrowthLeaks(fs: Fs, alloc: Alloc, f: nat, e: nat, i: nat, contents: int -> Block)
    requires Inv(fs) && FreshPages(alloc) && OpenUnderOneOfTwo(fs, f, e, i) && WholeBlocks(contents)
    ensures AllEnabled(fs, LeakingRun(fs, alloc, f, e, contents))
    ensures Lost(fs) < Lost(Run(fs, LeakingRun(fs, alloc, f, e, contents)))
  {
    var d := fs.cache.files[f].dentry;
    var v, p, name := fs.cache.dentries[d].inode, fs.cache.dentries[d].parent, fs.cache.dentries[d].name;
    var grow := GrowOp(fs, f, contents);
    var fs1 := Apply(fs, grow);
    var fs2 := Close(fs1, f);
    GrowAndClose(fs, f, e, i, contents);
    OpenNameIsNoRoot(fs, f, e, i);
    WriteKeepsTree(fs, v, contents);
    ClosedNameOnDisk(fs, fs1, fs2, d);
    assert DentryAt(fs2.cache, e) == fs.cache.dentries[e];
    BothUnlinks(fs2, alloc, p, name, e, v, i);
    FourSteps(fs, grow, DoClose(f), UnlinkOp(fs, alloc, d), UnlinkOp(fs, alloc, e));
  }

  lemma WriteKeepsTree(fs: Fs, v: nat, contents: int -> Block)
    requires Inv(fs) && v in fs.cache.vinodes && WholeBlocks(contents)
    requires CanWrite(fs, v, fs.cache.vinodes[v].meta.size, PastLastBlock(fs.cache.vinodes[v].meta))
    ensures var m := fs.cache.vinodes[v].meta;
            TreeOf(Write(fs, v, m.size, PastLastBlock(m), contents).disk) == TreeOf(fs.disk)
  {
    WriteKeepsInv(fs, v, fs.cache.vinodes[v].meta.size, PastLastBlock(fs.cache.vinodes[v].meta), contents);
  }

  lemma BothUnlinks(fs: Fs, alloc: Alloc, p: nat, name: string, e: nat, v: nat, i: nat)
    requires Inv(fs) && FreshPages(alloc) && NameOf(fs, e, v, i, 2) && Stale(fs, i)
    requires IsDirDentry(fs.cache, p) && (p, name) !in fs.cache.dhash && name != "." && name != ".."
    requires HasEntry(TreeOf(fs.disk), InodeOf(fs.cache, p).inum, name, i)
    requires fs.cache.dentries[e].name != "." && fs.cache.dentries[e].name != ".."
    ensures var first := DoUnlink(alloc, p, Just(name));
            var second := UnlinkOp(fs, alloc, e);
            var fs1 := Apply(fs, first);
            && Enabled(fs, first) && Enabled(fs1, second) && Lost(fs) < Lost(Apply(fs1, second))
  {
    JustReady(fs, alloc, p, name);
    FirstUnlink(fs, alloc, p, name, e, v, i);
    var fs1 := Unlink(fs, alloc, p, Just(name)).0;
    NameIsDroppable(fs1, e, v, i, 1);
    JustReady(fs1, alloc, fs1.cache.dentries[e].parent, fs1.cache.dentries[e].name);
    SecondUnlink(fs1, alloc, e, v, i);
  }

  // ---- the family is reachable ----

  lemma {:induction false} RunAppend(fs: Fs, a: seq<Op>, b: seq<Op>)
    ensures Run(fs, a + b) == Run(Run(fs, a), b)
    ensures AllEnabled(fs, a + b) == (AllEnabled(fs, a) && AllEnabled(Run(fs, a), b))
    decreases |a|
  {
    if a == [] {
      assert a + b == b;
    } else {
      assert (a + b)[0] == a[0] && (a + b)[1..] == a[1..] + b;
      RunAppend(Apply(fs, a[0]), a[1..], b);
    }
  }

  lemma LookupMisses(fs: Fs, alloc: Alloc, p: nat, name: string)
    requires (p, name) !in fs.cache.dhash && name != "." && name != ".."
    requires var es := DirEntries(fs.disk.data, InodeOf(fs.cache, p).meta); FindEntry(es, name) == |es|
    ensures LookupPath(fs, alloc, p, Just(name)) == (fs, Missing(p, name))
  {
  }

  lemma LookupHits(fs: Fs, alloc: Alloc, p: nat, name: string, d: nat)
    requires (p, name) in fs.cache.dhash && fs.cache.dhash[(p, name)] == d && name != "." && name != ".."
    ensures LookupPath(fs, alloc, p, Just(name)) == (fs, Found(d, p))
  {
    assert Just(name).tokens[1..] == [];
    assert Resolve(fs, alloc, d, p, []) == (fs, Found(d, p));
  }

  /** A disk with a free block, and one directory that is known to be short. */
  ghost predicate Roomy(fs: Fs, size: nat) {
    && FirstFreeBlock(fs.disk.freemap) < |fs.disk.freemap| && FirstFreeInode(fs.disk.dinodes) < |fs.disk.dinodes|
    && InodeOf(fs.cache, fs.cache.root).meta.size == size < BLOCK_SIZE
  }

  lemma MountedIsRoomy(fs: Fs)
    requires Mounted(fs)
    ensures Roomy(fs, 0) && FirstFreeBlock(fs.disk.freemap) == 1 && FirstFreeInode(fs.disk.dinodes) == 1
    ensures IsDirDentry(fs.cache, fs.cache.root) && InodeOf(fs.cache, fs.cache.root).inum == 0
    ensures DentryAt(fs.cache, fs.cache.root).inode in fs.cache.vinodes
    ensures fs.cache.dhash == map[(NULL, "/") := fs.cache.root] && fs.cache.files == map[]
  {
    var v :| fs.cache == MountedCache(fs.cache.root, v, fs.disk.dinodes[0]);
  }

  /** The root after one creation: what is left on the disk. */
  lemma CreatedRoom(fs: Fs, alloc: Alloc, name: string, kind: Kind)
    requires Mounted(fs) && FreshPages(alloc) && kind != FreeI
    ensures var fs1 := CreateChild(fs, alloc, fs.cache.root, name, kind).0;
            Roomy(fs1, ENTRY_SIZE) && fs1.cache.root == fs.cache.root
  {
    MountedIsRoomy(fs);
    FreshPair(alloc, fs.cache);
    CreatedVinodes(fs, alloc, fs.cache.root, name, kind);
    CreatedDentries(fs, alloc, fs.cache.root, name, kind);
    CreatedOnDisk(fs, alloc, fs.cache.root, name, kind);
    var k := CreateChild(fs, alloc, fs.cache.root, name, kind).0.disk;
    assert k.dinodes[2].kind == FreeI && k.freemap[2] == 0;
  }

  lemma CreatedOnDisk(fs: Fs, alloc: Alloc, p: nat, name: string, kind: Kind)
    requires DentryAt(fs.cache, p).inode in fs.cache.vinodes && InodeOf(fs.cache, p).inum < |fs.disk.dinodes|
    requires FirstFreeInode(fs.disk.dinodes) < |fs.disk.dinodes| && FirstFreeBlock(fs.disk.freemap) < |fs.disk.freemap|
    ensures var k := CreateChild(fs, alloc, p, name, kind).0.disk;
            var i, q := FirstFreeInode(fs.disk.dinodes), InodeOf(fs.cache, p).inum;
            && |k.dinodes| == |fs.disk.dinodes|
              && (forall j :: 0 <= j < |k.dinodes| && j != i && j != q ==> k.dinodes[j] == fs.disk.dinodes[j])
            && k.freemap == fs.disk.freemap[FirstFreeBlock(fs.disk.freemap) := 1]
  {
  }

  /** Dentry `d` is the name `name` in the root of file vinode `v`, inode `i`: cached, hashed, and with one block. */
  ghost predicate RootFile(fs: Fs, d: nat, name: string, v: nat, i: nat) {
    && d in fs.cache.dentries && fs.cache.dentries[d].name == name
    && fs.cache.dentries[d].parent == fs.cache.root && fs.cache.dentries[d].inode == v
    && v in fs.cache.vinodes && fs.cache.vinodes[v].inum == i
    && fs.cache.vinodes[v].meta.kind == FileI && fs.cache.vinodes[v].meta.blocks == 1
      && fs.cache.vinodes[v].meta.size == 0
    && |fs.cache.vinodes[v].meta.addrs| == DIRECT
  }

  /** What a creation in the root caches. */
  lemma CreatedFile(fs: Fs, alloc: Alloc, name: string)
    requires Mounted(fs) && FreshPages(alloc)
    ensures var (fs1, a) := CreateChild(fs, alloc, fs.cache.root, name, FileI);
            var v := alloc(Used(fs.cache) + {a});
            && RootFile(fs1, a, name, v, FirstFreeInode(fs.disk.dinodes)) && fs1.cache.vinodes[v].meta.nlinks == 1
            && fs1.cache.dentries[a].dref == 0 && a != fs1.cache.root && fs1.cache.root == fs.cache.root
            && fs1.cache.files == map[]
  {
    MountedIsRoomy(fs);
    FreshPair(alloc, fs.cache);
    CreatedVinodes(fs, alloc, fs.cache.root, name, FileI);
    CreatedDentries(fs, alloc, fs.cache.root, name, FileI);
    NewInodeIs(fs.disk, FileI);
  }

  lemma NewInodeIs(k: Disk, kind: Kind)
    requires FirstFreeInode(k.dinodes) < |k.dinodes| && |k.dinodes[FirstFreeInode(k.dinodes)].addrs| == DIRECT
    ensures var m := DinodeAt(NewInode(k, kind).0, FirstFreeInode(k.dinodes));
            m.size == 0 && m.kind == kind && m.nlinks == 1 && m.blocks == 1 && |m.addrs| == DIRECT
  {
  }

  lemma MountedMisses(fs: Fs, alloc: Alloc, name: string)
    requires Mounted(fs) && name != "." && name != ".."
    ensures LookupPath(fs, alloc, fs.cache.root, Just(name)) == (fs, Missing(fs.cache.root, name))
    ensures PathWalk(fs, fs.cache.root, Just(name)) == Miss(0, name)
  {
    MountedIsRoomy(fs);
    MountedTree(fs);
    var v :| fs.cache == MountedCache(fs.cache.root, v, fs.disk.dinodes[0]);
    assert DirEntries(fs.disk.data, InodeOf(fs.cache, fs.cache.root).meta) == TreeOf(fs.disk)[0];
    LookupMisses(fs, alloc, fs.cache.root, name);
    WalkByNext(TreeOf(fs.disk), InDir(0), [name]);
  }

  ghost function OpenOp(fs: Fs, alloc: Alloc, name: string): Op {
    DoOpen(alloc, fs.cache.root, Just(name), true, true, true)
  }

  /** The first step: a file in the root, open once. */
  ghost predicate OneFile(fs: Fs, f: nat, d: nat, v: nat, name: string) {
    && Inv(fs) && f in fs.cache.files && fs.cache.files[f].dentry == d && FileMade(fs, d, v, name)
    && fs.cache.dentries[d].dref == 1
  }

  ghost predicate FileMade(fs: Fs, d: nat, v: nat, name: string) {
    && Roomy(fs, ENTRY_SIZE) && d != fs.cache.root && RootFile(fs, d, name, v, 1)
      && fs.cache.vinodes[v].meta.nlinks == 1
    && IsDirDentry(fs.cache, fs.cache.root) && InodeOf(fs.cache, fs.cache.root).inum == 0
    && DentryAt(fs.cache, fs.cache.root).inode in fs.cache.vinodes
    && 0 in TreeOf(fs.disk) && TreeOf(fs.disk)[0] == [Direntry(1, name)]
  }

  lemma OpenFirst(fs: Fs, alloc: Alloc, name: string) returns (f: nat, d: nat, v: nat)
    requires Mounted(fs) && FreshPages(alloc) && name != "." && name != ".."
    ensures Enabled(fs, OpenOp(fs, alloc, name)) && OneFile(Apply(fs, OpenOp(fs, alloc, name)), f, d, v, name)
    ensures Apply(fs, OpenOp(fs, alloc, name)).cache.root == fs.cache.root
  {
    var (fs1, a) := CreateChild(fs, alloc, fs.cache.root, name, FileI);
    d, v := a, alloc(Used(fs.cache) + {a});
    f := OpenFile(fs1, alloc, a, true, true).1;
    CreatedIsMade(fs, alloc, name);
    CreatedInRoot(fs, alloc, name);
    OpenFileKeepsInv(fs1, alloc, a, true, true);
    OpenedIsMade(fs1, alloc, d, v, name);
    OpenIsThat(fs, alloc, name);
  }

  lemma CreatedIsMade(fs: Fs, alloc: Alloc, name: string)
    requires Mounted(fs) && FreshPages(alloc) && name != "." && name != ".."
    ensures var (fs1, a) := CreateChild(fs, alloc, fs.cache.root, name, FileI);
            FileMade(fs1, a, alloc(Used(fs.cache) + {a}), name) && fs1.cache.dentries[a].dref == 0
              && fs1.cache.root == fs.cache.root
  {
    MountedIsRoomy(fs);
    CreatedFile(fs, alloc, name);
    CreatedRoom(fs, alloc, name, FileI);
    CreatedInRoot(fs, alloc, name);
  }

  lemma OpenedIsMade(fs: Fs, alloc: Alloc, d: nat, v: nat, name: string)
    requires FileMade(fs, d, v, name) && fs.cache.dentries[d].dref == 0
    ensures var (fs1, f) := OpenFile(fs, alloc, d, true, true);
            && FileMade(fs1, d, v, name) && fs1.cache.dentries[d].dref == 1
            && f in fs1.cache.files && fs1.cache.files[f].dentry == d && fs1.cache.root == fs.cache.root
  {
  }

  lemma OpenIsThat(fs: Fs, alloc: Alloc, name: string)
    requires Mounted(fs) && FreshPages(alloc) && name != "." && name != ".."
    ensures var (fs1, a) := CreateChild(fs, alloc, fs.cache.root, name, FileI);
            Apply(fs, OpenOp(fs, alloc, name)) == OpenFile(fs1, alloc, a, true, true).0
              && Enabled(fs, OpenOp(fs, alloc, name))
  {
    MountedIsRoomy(fs);
    MountedMisses(fs, alloc, name);
  }

  lemma CreatedInRoot(fs: Fs, alloc: Alloc, name: string)
    requires Mounted(fs) && FreshPages(alloc) && name != "." && name != ".."
    ensures var fs1 := CreateChild(fs, alloc, fs.cache.root, name, FileI).0;
            && Inv(fs1) && SameDirs(fs, fs1) && 0 in TreeOf(fs1.disk)
              && TreeOf(fs1.disk)[0] == [Direntry(1, name)]
            && DentryAt(fs1.cache, fs.cache.root).inode in fs1.cache.vinodes
  {
    MountedInv(fs);
    MountedIsRoomy(fs);
    MountedTree(fs);
    MountedNameFree(fs, name);
    FirstName(fs, alloc, name, FileI);
  }

  lemma MountedNameFree(fs: Fs, name: string)
    requires Mounted(fs)
    ensures NameIsFree(fs, fs.cache.root, name) && (fs.cache.root, name) !in fs.cache.dhash
  {
    MountedInv(fs);
    MountedTree(fs);
    MountedIsRoomy(fs);
    DirectoryRead(fs, fs.cache.root);
  }

  /** The first name in an empty tree. */
  lemma FirstName(fs: Fs, alloc: Alloc, name: string, kind: Kind)
    requires Inv(fs) && FreshPages(alloc) && Roomy(fs, 0) && FirstFreeInode(fs.disk.dinodes) == 1
    requires kind != FreeI
    requires IsDirDentry(fs.cache, fs.cache.root) && InodeOf(fs.cache, fs.cache.root).inum == 0
    requires NameIsFree(fs, fs.cache.root, name) && (fs.cache.root, name) !in fs.cache.dhash
    requires TreeOf(fs.disk) == map[0 := []]
    ensures var fs1 := CreateChild(fs, alloc, fs.cache.root, name, kind).0;
            && Inv(fs1) && SameDirs(fs, fs1) && DentryAt(fs1.cache, fs.cache.root).inode in fs1.cache.vinodes
            && TreeOf(fs1.disk) == if kind == DirI then map[0 := [Direntry(1, name)], 1 := []]
              else map[0 := [Direntry(1, name)]]
  {
    CreateChildKeepsInv(fs, alloc, fs.cache.root, name, kind);
    CreationKeepsDirs(fs, alloc, fs.cache.root, name, kind);
    TreeWithOne(map[0 := []], name);
    CreatedVinodes(fs, alloc, fs.cache.root, name, kind);
    CreatedDentries(fs, alloc, fs.cache.root, name, kind);
    FreshPair(alloc, fs.cache);
  }

  lemma TreeWithOne(t: Tree, name: string)
    requires t == map[0 := []]
    ensures t[1 := []][0 := t[0] + [Direntry(1, name)]] == map[0 := [Direntry(1, name)], 1 := []]
    ensures t[0 := t[0] + [Direntry(1, name)]] == map[0 := [Direntry(1, name)]]
  {
    assert t[0] + [Direntry(1, name)] == [Direntry(1, name)];
  }

  ghost function LinkOp(fs: Fs, alloc: Alloc, old_: string, name: string): Op {
    DoLink(alloc, fs.cache.root, Just(old_), Just(name))
  }

  lemma OtherIsFree(fs: Fs, f: nat, d: nat, v: nat, name: string, other: string)
    requires OneFile(fs, f, d, v, name) && name != other
    ensures NameIsFree(fs, fs.cache.root, other) && (fs.cache.root, other) !in fs.cache.dhash
    ensures (fs.cache.root, name) in fs.cache.dhash && fs.cache.dhash[(fs.cache.root, name)] == d
  {
    var es := MadeReads(fs, d, v, name, other);
    FreeInRoot(fs, es, other);
    KeyOf(fs, d);
  }

  lemma MadeReads(fs: Fs, d: nat, v: nat, name: string, other: string) returns (es: seq<Direntry>)
    requires FileMade(fs, d, v, name) && name != other
    ensures RootReads(fs, es) && FindEntry(es, other) == |es| && d in fs.cache.dentries
    ensures fs.cache.dentries[d].parent == fs.cache.root && fs.cache.dentries[d].name == name
  {
    es := [Direntry(1, name)];
  }

  /** The root is cached and holds the records `es`. */
  ghost predicate RootReads(fs: Fs, es: seq<Direntry>) {
    && IsDirDentry(fs.cache, fs.cache.root) && InodeOf(fs.cache, fs.cache.root).inum == 0
    && 0 in TreeOf(fs.disk) && TreeOf(fs.disk)[0] == es
  }

  lemma FreeInRoot(fs: Fs, es: seq<Direntry>, other: string)
    requires Inv(fs) && RootReads(fs, es) && FindEntry(es, other) == |es|
    ensures NameIsFree(fs, fs.cache.root, other) && (fs.cache.root, other) !in fs.cache.dhash
  {
    DirectoryRead(fs, fs.cache.root);
    UncachedWhenFree(fs, fs.cache.root, other);
  }

  lemma KeyOf(fs: Fs, d: nat)
    requires Inv(fs) && d in fs.cache.dentries
    ensures var key := (fs.cache.dentries[d].parent, fs.cache.dentries[d].name);
            key in fs.cache.dhash && fs.cache.dhash[key] == d
  {
    assert DKey(fs.cache, d) in fs.cache.dhash;
  }

  /** The lookups of the second step: the old name is cached, the new one is nowhere. */
  lemma LinkLookups(fs: Fs, alloc: Alloc, d: nat, name: string, other: string)
    requires NameIsFree(fs, fs.cache.root, other) && (fs.cache.root, other) !in fs.cache.dhash
    requires (fs.cache.root, name) in fs.cache.dhash && fs.cache.dhash[(fs.cache.root, name)] == d
    requires name != "." && name != ".." && other != "." && other != ".."
    ensures LookupPath(fs, alloc, fs.cache.root, Just(name)) == (fs, Found(d, fs.cache.root))
    ensures LookupPath(fs, alloc, fs.cache.root, Just(other)) == (fs, Missing(fs.cache.root, other))
  {
    LookupHits(fs, alloc, fs.cache.root, name, d);
    FreeMeansUnfound(DirEntries(fs.disk.data, InodeOf(fs.cache, fs.cache.root).meta), other);
    LookupMisses(fs, alloc, fs.cache.root, other);
  }

  lemma LinkIsThat(fs: Fs, alloc: Alloc, f: nat, d: nat, v: nat, name: string, other: string)
    requires OneFile(fs, f, d, v, name) && FreshPages(alloc) && name != other
    requires name != "." && name != ".." && other != "." && other != ".."
    ensures Apply(fs, LinkOp(fs, alloc, name, other)) == LinkName(fs, alloc, fs.cache.root, other, v)
    ensures Enabled(fs, LinkOp(fs, alloc, name, other))
  {
    OtherIsFree(fs, f, d, v, name, other);
    LinkEnabled(fs, alloc, name, other);
    LinkApplied(fs, alloc, d, v, name, other);
  }

  lemma LinkApplied(fs: Fs, alloc: Alloc, d: nat, v: nat, name: string, other: string)
    requires NameIsFree(fs, fs.cache.root, other) && (fs.cache.root, other) !in fs.cache.dhash
    requires (fs.cache.root, name) in fs.cache.dhash && fs.cache.dhash[(fs.cache.root, name)] == d
    requires name != "." && name != ".." && other != "." && other != ".."
    requires DentryAt(fs.cache, d).inode == v && InodeOf(fs.cache, d).meta.kind == FileI
    ensures Apply(fs, LinkOp(fs, alloc, name, other)) == LinkName(fs, alloc, fs.cache.root, other, v)
  {
    LinkLookups(fs, alloc, d, name, other);
    LinkUnfolds(fs, alloc, fs.cache.root, Just(name), Just(other));
  }

  lemma LinkEnabled(fs: Fs, alloc: Alloc, name: string, other: string)
    requires TreeShape(TreeOf(fs.disk), fs.disk.dinodes) && Coherent(fs.cache, fs.disk.dinodes) && FreshPages(alloc)
    requires IsDirDentry(fs.cache, fs.cache.root) && DentryAt(fs.cache, fs.cache.root).inode in fs.cache.vinodes
    requires NameIsFree(fs, fs.cache.root, other) && InodeOf(fs.cache, fs.cache.root).meta.size < BLOCK_SIZE
    requires name != "." && name != ".." && other != "." && other != ".."
    ensures Enabled(fs, LinkOp(fs, alloc, name, other))
  {
    JustReady(fs, alloc, fs.cache.root, name);
    JustReady(fs, alloc, fs.cache.root, other);
    WalkByNext(TreeOf(fs.disk), InDir(InodeOf(fs.cache, fs.cache.root).inum), [other]);
  }

  /** The second step gives the file its other name. */
  lemma LinkSecond(fs: Fs, alloc: Alloc, f: nat, d: nat, v: nat, name: string, other: string) returns (e: nat)
    requires OneFile(fs, f, d, v, name) && FreshPages(alloc) && name != other
    requires name != "." && name != ".." && other != "." && other != ".."
    ensures var fs1 := LinkName(fs, alloc, fs.cache.root, other, v);
            Inv(fs1) && OpenUnderOneOfTwo(fs1, f, e, 1)
  {
    hide Inv, Steady;
    OtherIsFree(fs, f, d, v, name, other);
    LinkNameKeepsInv(fs, alloc, fs.cache.root, other, v);
    LinkCaches(fs, alloc, fs.cache.root, other, v);
    FreshPair(alloc, fs.cache);
    e := alloc(Used(fs.cache));
    LinkedIsOpen(fs, LinkName(fs, alloc, fs.cache.root, other, v), f, d, e, v, name, other);
  }

  lemma LinkedIsOpen(fs: Fs, fs1: Fs, f: nat, d: nat, e: nat, v: nat, name: string, other: string)
    requires f in fs.cache.files && fs.cache.files[f].dentry == d && FileMade(fs, d, v, name)
    requires fs.cache.dentries[d].dref == 1
    requires name != "." && name != ".." && other != "." && other != ".."
    requires e !in fs.cache.dentries && fs1.cache.files == fs.cache.files && fs1.disk.freemap == fs.disk.freemap
    requires fs1.cache.dentries == fs.cache.dentries[e := Dentry(other, 0, v, fs.cache.root)]
    requires var x, pv := fs.cache.vinodes[v], DentryAt(fs.cache, fs.cache.root).inode;
             && v != pv && v in fs1.cache.vinodes
             && fs1.cache.vinodes[v] == x.(ref := x.ref + 1, meta := x.meta.(nlinks := x.meta.nlinks + 1))
    ensures OpenUnderOneOfTwo(fs1, f, e, 1)
  {
    var m := fs1.cache.vinodes[v].meta;
    OneBlockMore(m);
    CanGrowByOne(m, fs.disk.freemap);
  }

  lemma CanGrowByOne(m: Dinode, freemap: seq<nat>)
    requires m.blocks == 1 && |m.addrs| == DIRECT && FirstFreeBlock(freemap) < |freemap|
    ensures CanGrow(m, freemap, 2)
  {
    var b := FirstFreeBlock(freemap);
    assert CanGrow(m.(addrs := m.addrs[m.blocks := FIRST_DATA + b], blocks := m.blocks + 1), freemap[b := 1], 2);
  }

  /** A run from a freshly mounted disk, of steps each of which the code carries out, that loses a block. */
  lemma SomeRunLosesBlocks(fs: Fs, alloc: Alloc, contents: int -> Block) returns (ops: seq<Op>)
    requires Mounted(fs) && FreshPages(alloc) && WholeBlocks(contents)
    ensures AllEnabled(fs, ops) && Lost(Run(fs, ops)) != {}
  {
    var f, d, v := OpenFirst(fs, alloc, "a");
    var open := OpenOp(fs, alloc, "a");
    var fs1 := Apply(fs, open);
    LinkIsThat(fs1, alloc, f, d, v, "a", "b");
    var link := LinkOp(fs1, alloc, "a", "b");
    var fs2 := Apply(fs1, link);
    var e := LinkSecond(fs1, alloc, f, d, v, "a", "b");
    UnwrittenGrowthLeaks(fs2, alloc, f, e, 1, contents);
    var rest := LeakingRun(fs2, alloc, f, e, contents);
    OneStep(fs, open, [link] + rest);
    OneStep(fs1, link, rest);
    ops := [open] + ([link] + rest);
  }

  // ---- a link that is not where its path says ----

  /** The state after mkdir("d") and open("a") with creation. */
  ghost predicate DirectoryAndFile(fs: Fs, i: nat, j: nat) {
    Inv(fs) && TwoInRoot(fs, i, j)
  }

  ghost predicate TwoInRoot(fs: Fs, i: nat, j: nat) {
    && IsDirDentry(fs.cache, fs.cache.root) && InodeOf(fs.cache, fs.cache.root).inum == 0
    && InodeOf(fs.cache, fs.cache.root).meta.size < BLOCK_SIZE && i != 0 && j != 0
    && TreeOf(fs.disk) == map[0 := [Direntry(i, "d"), Direntry(j, "a")], i := []] && j !in TreeOf(fs.disk)
  }

  lemma WalkToFile(t: Tree, i: nat, j: nat)
    requires i != 0 && j != 0 && i != j && t == map[0 := [Direntry(i, "d"), Direntry(j, "a")], i := []]
    ensures Walk(t, InDir(0), ["a"]) == Hit(AtFile(0, j))
    ensures Walk(t, InDir(0), ["d", "b"]) == Miss(i, "b")
  {
    assert FindEntry(t[0], "a") == 1 && FindEntry(t[0], "d") == 0;
    WalkByNext(t, InDir(0), ["a"]);
    assert ["a"][1..] == [] && ["d", "b"][1..] == ["b"];
    assert Walk(t, AtFile(0, j), []) == Hit(AtFile(0, j));
    WalkByNext(t, InDir(0), ["d", "b"]);
    WalkByNext(t, InDir(i), ["b"]);
  }

  /** link("a", "d/b") succeeds, puts b into the start directory, and leaves d empty. */
  lemma LinkMisplaced(fs: Fs, alloc: Alloc, i: nat, j: nat)
    requires DirectoryAndFile(fs, i, j) && FreshPages(alloc)
    ensures Enabled(fs, DoLink(alloc, fs.cache.root, Just("a"), Path(false, ["d", "b"])))
    ensures var (fs1, ok) := Link(fs, alloc, fs.cache.root, Just("a"), Path(false, ["d", "b"]));
            && ok && HasEntry(TreeOf(fs1.disk), 0, "b", j) && HasEntry(TreeOf(fs1.disk), 0, "d", i)
            && i in TreeOf(fs1.disk) && TreeOf(fs1.disk)[i] == []
              && !PathWalk(fs1, fs.cache.root, Path(false, ["d", "b"])).Hit?
  {
    var newPath := Path(false, ["d", "b"]);
    WalkToFile(TreeOf(fs.disk), i, j);
    RootTakes(fs, i, j);
    LinkLandsInStart(fs, alloc, fs.cache.root, Just("a"), newPath);
    MisplacedTree(fs, Link(fs, alloc, fs.cache.root, Just("a"), newPath).0, i, j);
  }

  lemma RootTakes(fs: Fs, i: nat, j: nat)
    requires DirectoryAndFile(fs, i, j)
    ensures NameIsFree(fs, fs.cache.root, "b")
  {
    var es := TwoRead(fs, i, j);
    FreeInRoot(fs, es, "b");
  }

  lemma TwoRead(fs: Fs, i: nat, j: nat) returns (es: seq<Direntry>)
    requires TwoInRoot(fs, i, j)
    ensures RootReads(fs, es) && FindEntry(es, "b") == |es|
  {
    es := [Direntry(i, "d"), Direntry(j, "a")];
  }

  lemma MisplacedTree(fs: Fs, fs1: Fs, i: nat, j: nat)
    requires i != 0 && j != 0 && TreeOf(fs.disk) == map[0 := [Direntry(i, "d"), Direntry(j, "a")], i := []]
    requires j !in TreeOf(fs.disk)
    requires LinkLands(fs, fs1, fs.cache.root, Path(false, ["d", "b"]), j)
    requires StartPlace(fs, fs.cache.root, Path(false, ["d", "b"])) == InDir(0)
    requires InodeOf(fs.cache, fs.cache.root).inum == 0
    requires PathWalk(fs, fs.cache.root, Path(false, ["d", "b"])) == Miss(i, "b")
    ensures HasEntry(TreeOf(fs1.disk), 0, "b", j) && HasEntry(TreeOf(fs1.disk), 0, "d", i) && i in TreeOf(fs1.disk)
    ensures TreeOf(fs1.disk)[i] == []
    ensures !PathWalk(fs1, fs.cache.root, Path(false, ["d", "b"])).Hit?
  {
    var t1 := TreeOf(fs1.disk);
    assert t1[0][2] == Direntry(j, "b") && t1[0][0] == Direntry(i, "d");
    WalkByNext(t1, InDir(0), ["d", "b"]);
    assert FindEntry(t1[0], "d") == 0 && ["d", "b"][1..] == ["b"];
    WalkByNext(t1, InDir(i), ["b"]);
  }

  lemma DirectorySize(fs: Fs, p: nat)
    requires Inv(fs) && IsDirDentry(fs.cache, p)
    ensures var q := InodeOf(fs.cache, p).inum;
            q in TreeOf(fs.disk) && InodeOf(fs.cache, p).meta.size == |TreeOf(fs.disk)[q]| * ENTRY_SIZE
  {
    DirectoryRead(fs, p);
    var m := InodeOf(fs.cache, p).meta;
    assert IsDir(fs.disk.dinodes, InodeOf(fs.cache, p).inum);
    OneBlockDir(fs.disk.data, m);
  }

  ghost function MkDirOp(fs: Fs, alloc: Alloc, name: string): Op {
    DoMkDir(alloc, fs.cache.root, Just(name))
  }

  /** The state after mkdir("d"). */
  ghost predicate OnlyDirectory(fs: Fs) {
    && Inv(fs) && IsDirDentry(fs.cache, fs.cache.root) && InodeOf(fs.cache, fs.cache.root).inum == 0
    && Roomy(fs, ENTRY_SIZE) && TreeOf(fs.disk) == map[0 := [Direntry(1, "d")], 1 := []]
  }

  lemma MakeDirectory(fs: Fs, alloc: Alloc)
    requires Mounted(fs) && FreshPages(alloc)
    ensures Enabled(fs, MkDirOp(fs, alloc, "d")) && OnlyDirectory(Apply(fs, MkDirOp(fs, alloc, "d")))
    ensures Apply(fs, MkDirOp(fs, alloc, "d")).cache.root == fs.cache.root
  {
    MkDirIsThat(fs, alloc, "d");
    CreatedRoom(fs, alloc, "d", DirI);
    DirectoryInRoot(fs, alloc);
  }

  lemma MkDirIsThat(fs: Fs, alloc: Alloc, name: string)
    requires Mounted(fs) && FreshPages(alloc) && name != "." && name != ".."
    ensures Apply(fs, MkDirOp(fs, alloc, name)) == CreateChild(fs, alloc, fs.cache.root, name, DirI).0
    ensures Enabled(fs, MkDirOp(fs, alloc, name))
  {
    MountedIsRoomy(fs);
    MountedMisses(fs, alloc, name);
  }

  lemma DirectoryInRoot(fs: Fs, alloc: Alloc)
    requires Mounted(fs) && FreshPages(alloc)
    ensures var fs1 := CreateChild(fs, alloc, fs.cache.root, "d", DirI).0;
            && Inv(fs1) && TreeOf(fs1.disk) == map[0 := [Direntry(1, "d")], 1 := []]
            && IsDirDentry(fs1.cache, fs.cache.root) && InodeOf(fs1.cache, fs.cache.root).inum == 0
  {
    MountedInv(fs);
    MountedIsRoomy(fs);
    MountedNameFree(fs, "d");
    MountedTree(fs);
    FirstName(fs, alloc, "d", DirI);
  }

  lemma OpenBeside(fs: Fs, alloc: Alloc) returns (j: nat)
    requires OnlyDirectory(fs) && FreshPages(alloc)
    ensures Enabled(fs, OpenOp(fs, alloc, "a")) && DirectoryAndFile(Apply(fs, OpenOp(fs, alloc, "a")), 1, j)
    ensures Apply(fs, OpenOp(fs, alloc, "a")).cache.root == fs.cache.root
  {
    var r, path := fs.cache.root, Just("a");
    RootMisses(fs, alloc);
    OpenKeepsInv(fs, alloc, r, path, true, true, true);
    OpenLands(fs, alloc, r, path, true, true);
    j := FirstFreeInode(fs.disk.dinodes);
    var fs1 := Open(fs, alloc, r, path, true, true, true).0;
    OpenKeepsRoot(fs, alloc, r, path);
    BesideTree(TreeOf(fs.disk), TreeOf(fs1.disk), j);
    DirectorySize(fs1, r);
  }

  lemma RootMisses(fs: Fs, alloc: Alloc)
    requires OnlyDirectory(fs) && FreshPages(alloc)
    ensures PathWalk(fs, fs.cache.root, Just("a")) == Miss(0, "a") && LookupReady(fs, alloc, fs.cache.root, Just("a"))
    ensures DiskRoom(fs.disk, 0)
  {
    MissesA(TreeOf(fs.disk));
    RoomMeansCanCreate(fs, fs.cache.root);
  }

  lemma MissesA(t: Tree)
    requires 0 in t && t[0] == [Direntry(1, "d")]
    ensures Walk(t, InDir(0), ["a"]) == Miss(0, "a")
  {
    WalkByNext(t, InDir(0), ["a"]);
  }

  lemma BesideTree(t: Tree, t1: Tree, j: nat)
    requires t == map[0 := [Direntry(1, "d")], 1 := []] && Added(t, t1, 0, "a", j, false)
    ensures j != 0 && j != 1 && t1 == map[0 := [Direntry(1, "d"), Direntry(j, "a")], 1 := []] && j !in t1
  {
    assert t[0] + [Direntry(j, "a")] == [Direntry(1, "d"), Direntry(j, "a")];
  }

  lemma OpenKeepsRoot(fs: Fs, alloc: Alloc, start: nat, path: Path)
    requires Inv(fs) && LookupReady(fs, alloc, start, path)
    ensures Open(fs, alloc, start, path, true, true, true).0.cache.root == fs.cache.root
  {
    LookupIsWalk(fs, alloc, start, path);
  }

  /** From a freshly mounted disk: after mkdir("d") and open("a"), link("a", "d/b") puts b into the root. */
  lemma SomeLinkIsMisplaced(fs: Fs, alloc: Alloc) returns (j: nat)
    requires Mounted(fs) && FreshPages(alloc)
    ensures var link := DoLink(alloc, fs.cache.root, Just("a"), Path(false, ["d", "b"]));
            var ops := [MkDirOp(fs, alloc, "d"), OpenOp(fs, alloc, "a"), link];
            var t := TreeOf(Run(fs, ops).disk);
            AllEnabled(fs, ops) && HasEntry(t, 0, "b", j) && HasEntry(t, 0, "d", 1) && 1 in t && t[1] == []
  {
    var mk, open := MkDirOp(fs, alloc, "d"), OpenOp(fs, alloc, "a");
    var link := DoLink(alloc, fs.cache.root, Just("a"), Path(false, ["d", "b"]));
    MakeDirectory(fs, alloc);
    var fs1 := Apply(fs, mk);
    j := OpenBeside(fs1, alloc);
    var fs2 := Apply(fs1, open);
    LinkMisplaced(fs2, alloc, 1, j);
    ThreeSteps(fs, mk, open, link);
  }

  lemma ThreeSteps(fs: Fs, a: Op, b: Op, c: Op)
    ensures Run(fs, [a, b, c]) == Apply(Apply(Apply(fs, a), b), c)
    ensures Enabled(fs, a) && Enabled(Apply(fs, a), b) && Enabled(Apply(Apply(fs, a), b), c) ==>
      AllEnabled(fs, [a, b, c])
  {
    OneStep(fs, a, [b, c]);
    OneStep(Apply(fs, a), b, [c]);
    OneStep(Apply(Apply(fs, a), b), c, []);
    assert [a] + [b, c] == [a, b, c] && [b] + [c] == [b, c] && [c] + [] == [c];
  }
}
