/**
 Writing to a file: the blocks it takes come from the freemap, so no other inode and no
 directory is affected.
 */
module FsWrite {
  import opened RfsDir
  import opened FsState
  import opened FsTree
  import opened FsCache
  import opened FsDisk
  import opened FsInvariant
  import opened FsSteps

  /** Growing a file keeps its old blocks in place and takes only free ones. */
  lemma {:induction false} GrowKeepsOwnership(n: seq<Dinode>, freemap: seq<nat>, i: nat, target: nat)
    requires Ownership(n, freemap) && Live(n, i) && n[i].kind == FileI && CanGrow(n[i], freemap, target)
    ensures var (m, f) := Grow(n[i], freemap, target);
            && Ownership(n[i := m], f) && LostBlocks(n[i := m], f) == LostBlocks(n, freemap)
            && m.blocks == (if n[i].blocks < target then target else n[i].blocks)
            && m.kind == FileI && m.nlinks == n[i].nlinks && m.size == n[i].size && |m.addrs| == DIRECT
            && forall j :: 0 <= j < n[i].blocks ==> m.addrs[j] == n[i].addrs[j]
    decreases target - n[i].blocks
  {
    if target <= n[i].blocks {
      assert n[i := n[i]] == n;
    } else {
      var b := FirstFreeBlock(freemap);
      var m := n[i].(addrs := n[i].addrs[n[i].blocks := FIRST_DATA + b], blocks := n[i].blocks + 1);
      OneMoreBlock(n, freemap, i, b, m);
      GrowKeepsOwnership(n[i := m], freemap[b := 1], i, target);
      var (m1, f) := Grow(m, freemap[b := 1], target);
      assert n[i := m][i := m1] == n[i := m1];
    }
  }

  lemma OneMoreBlock(n: seq<Dinode>, freemap: seq<nat>, i: nat, b: nat, m: Dinode)
    requires Ownership(n, freemap) && Live(n, i) && n[i].kind == FileI && n[i].blocks < DIRECT
    requires b < |freemap| && freemap[b] == 0
    requires m == n[i].(addrs := n[i].addrs[n[i].blocks := FIRST_DATA + b], blocks := n[i].blocks + 1)
    ensures Ownership(n[i := m], freemap[b := 1]) && LostBlocks(n[i := m], freemap[b := 1]) == LostBlocks(n, freemap)
  {
    assert !Held(n, FIRST_DATA + b);
    forall j | 0 <= j < n[i].blocks ensures n[i].addrs[j] != FIRST_DATA + b {
      assert Owned(n[i])[j] == n[i].addrs[j];
      assert Owns(n, i, n[i].addrs[j]);
    }
    assert Owned(m) == Owned(n[i]) + [FIRST_DATA + b];
    GrantBlock(n, n[i := m], freemap, i, b);
  }

  /** What rfs_write asks for: it panics on an offset behind the end, and when there is no block to take. */
  ghost predicate CanWrite(fs: Fs, v: nat, offset: nat, len: nat) {
    && v in fs.cache.vinodes && fs.cache.vinodes[v].meta.kind == FileI && offset <= fs.cache.vinodes[v].meta.size
    && CanGrow(fs.cache.vinodes[v].meta, fs.disk.freemap, BlocksFor(offset + len))
  }

  ghost predicate WholeBlocks(contents: int -> Block) {
    forall b :: |contents(b)| == PER_BLOCK
  }

  lemma WriteCurrent(fs: Fs, v: nat, offset: nat, len: nat, contents: int -> Block)
    requires DiskShape(fs.disk) && Hashed(fs.cache) && v in fs.cache.vinodes && fs.cache.vinodes[v].inum < INODES
    ensures var i := fs.cache.vinodes[v].inum;
            var (m, f) := WriteMeta(fs.cache.vinodes[v].meta, fs.disk.freemap, offset, len);
            && Now(fs)[i] == fs.cache.vinodes[v].meta
            && Now(Write(fs, v, offset, len, contents)) == Now(fs)[i := m]
  {
    var i := fs.cache.vinodes[v].inum;
    var fs1 := Write(fs, v, offset, len, contents);
    assert forall j: nat :: j < INODES && j != i ==> Current(fs1, j) == Current(fs, j);
  }

  /** The inode contents `m1` a write leaves, compared with `m` before. */
  ghost predicate Longer(m: Dinode, m1: Dinode) {
    && m1.kind == m.kind && m1.nlinks == m.nlinks && |m1.addrs| == |m.addrs| == DIRECT
    && m.blocks <= m1.blocks <= DIRECT
    && forall j :: 0 <= j < m.blocks ==> m1.addrs[j] == m.addrs[j]
  }

  lemma WriteMetaOwnership(n: seq<Dinode>, freemap: seq<nat>, i: nat, offset: nat, len: nat)
    requires Ownership(n, freemap) && Live(n, i) && n[i].kind == FileI
    requires CanGrow(n[i], freemap, BlocksFor(offset + len))
    ensures var (m1, f1) := WriteMeta(n[i], freemap, offset, len);
            Ownership(n[i := m1], f1) && Longer(n[i], m1) && LostBlocks(n[i := m1], f1) == LostBlocks(n, freemap)
  {
    GrowKeepsOwnership(n, freemap, i, BlocksFor(offset + len));
    var (g, f) := Grow(n[i], freemap, BlocksFor(offset + len));
    var m1 := g.(size := if n[i].size < offset + len then offset + len else n[i].size);
    assert Live(n[i := g], i);
    ResizedOwnership(n[i := g], i, m1, f);
    assert n[i := g][i := m1] == n[i := m1];
  }

  lemma WriteOwnership(fs: Fs, v: nat, offset: nat, len: nat, contents: int -> Block)
    requires DiskShape(fs.disk) && Hashed(fs.cache) && Coherent(fs.cache, fs.disk.dinodes)
    requires Ownership(Now(fs), fs.disk.freemap) && CanWrite(fs, v, offset, len)
    ensures var fs1 := Write(fs, v, offset, len, contents);
            var m1 := VinodeAt(fs1.cache, v).meta;
            && Ownership(Now(fs1), fs1.disk.freemap) && Lost(fs1) == Lost(fs)
            && Now(fs1) == Now(fs)[fs.cache.vinodes[v].inum := m1]
            && Longer(fs.cache.vinodes[v].meta, m1)
  {
    WriteCurrent(fs, v, offset, len, contents);
    WriteMetaOwnership(Now(fs), fs.disk.freemap, fs.cache.vinodes[v].inum, offset, len);
  }

  lemma WriteTree(fs: Fs, v: nat, offset: nat, len: nat, contents: int -> Block)
    requires DiskShape(fs.disk) && WholeBlocks(contents)
    requires Hashed(fs.cache) && Coherent(fs.cache, fs.disk.dinodes) && v in fs.cache.vinodes
    requires var fs1 := Write(fs, v, offset, len, contents);
             && Exclusive(Now(fs1)) && VinodeAt(fs1.cache, v).meta.kind == FileI
             && Now(fs1) == Now(fs)[fs.cache.vinodes[v].inum := VinodeAt(fs1.cache, v).meta]
             && fs.cache.vinodes[v].meta.kind == FileI
    ensures ValidData(Write(fs, v, offset, len, contents).disk.data)
    ensures TreeOf(Write(fs, v, offset, len, contents).disk) == TreeOf(fs.disk)
  {
    var fs1 := Write(fs, v, offset, len, contents);
    var i := fs.cache.vinodes[v].inum;
    var m1 := VinodeAt(fs1.cache, v).meta;
    forall d: nat | IsDir(fs.disk.dinodes, d)
      ensures DirEntries(fs1.disk.data, fs.disk.dinodes[d]) == DirEntries(fs.disk.data, fs.disk.dinodes[d])
    {
      DirectoryNow(fs, d);
      var b := fs.disk.dinodes[d].addrs[0];
      assert Owned(fs.disk.dinodes[d])[0] == b;
      assert Owns(Now(fs1), d, b);
      assert b in Owned(m1) ==> Owns(Now(fs1), i, b);
      DirEntriesFrame(fs.disk.data, fs1.disk.data, fs.disk.dinodes[d]);
    }
    assert TreeOf(fs1.disk).Keys == TreeOf(fs.disk).Keys;
  }

  lemma WriteCache(fs: Fs, v: nat, m1: Dinode, k1: Disk)
    requires CacheInv(fs.cache, TreeOf(fs.disk), fs.disk.dinodes) && TreeOf(k1) == TreeOf(fs.disk)
    requires k1.dinodes == fs.disk.dinodes && v in fs.cache.vinodes && fs.cache.vinodes[v].meta.kind == FileI
    requires m1.kind == FileI && m1.nlinks == fs.cache.vinodes[v].meta.nlinks
    ensures CacheInv(SetMeta(fs.cache, v, m1), TreeOf(k1), k1.dinodes)
  {
    SetMetaKeepsCache(fs, v, m1, k1);
  }

  lemma WriteBehind(fs: Fs, v: nat, offset: nat, len: nat, contents: int -> Block)
    requires DiskShape(fs.disk) && Hashed(fs.cache) && Coherent(fs.cache, fs.disk.dinodes) && DiskBehind(fs)
    requires v in fs.cache.vinodes && fs.cache.vinodes[v].meta.kind == FileI
    requires var fs1 := Write(fs, v, offset, len, contents);
             var m, m1 := fs.cache.vinodes[v].meta, VinodeAt(fs1.cache, v).meta;
             && Now(fs1) == Now(fs)[fs.cache.vinodes[v].inum := m1]
             && Longer(m, m1)
    ensures DiskBehind(Write(fs, v, offset, len, contents))
  {
    var fs1 := Write(fs, v, offset, len, contents);
    var i := fs.cache.vinodes[v].inum;
    assert Behind(fs.disk.dinodes[i], Current(fs, i));
    forall j: nat | Live(fs1.disk.dinodes, j) ensures Behind(fs1.disk.dinodes[j], Current(fs1, j)) {
      assert Current(fs1, j) == Now(fs1)[j];
      if j != i { assert Live(fs.disk.dinodes, j) && Current(fs, j) == Now(fs)[j]; }
    }
  }

  /** rfs_write with room to grow keeps the invariant and touches no directory. */
  lemma WriteKeepsInv(fs: Fs, v: nat, offset: nat, len: nat, contents: int -> Block)
    requires Inv(fs) && CanWrite(fs, v, offset, len) && WholeBlocks(contents)
    ensures Inv(Write(fs, v, offset, len, contents)) && Lost(Write(fs, v, offset, len, contents)) == Lost(fs)
    ensures TreeOf(Write(fs, v, offset, len, contents).disk) == TreeOf(fs.disk)
  {
    var fs1 := Write(fs, v, offset, len, contents);
    WriteOwnership(fs, v, offset, len, contents);
    WriteTree(fs, v, offset, len, contents);
    WriteBehind(fs, v, offset, len, contents);
    WriteCache(fs, v, VinodeAt(fs1.cache, v).meta, fs1.disk);
  }
}
