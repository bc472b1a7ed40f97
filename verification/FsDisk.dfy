/**
 Block ownership: which inode holds which data block, and the freemap that must record
 exactly that. Also how the directory tree is read off the disk blocks.
 */
module FsDisk {
  import opened RfsDir
  import opened FsState
  import opened FsTree

  /** Direct blocks are distinct data blocks and enough for the size; a directory has one block and whole records. */
  ghost predicate InodeOk(m: Dinode) {
    && |m.addrs| == DIRECT && m.blocks <= DIRECT && m.size <= m.blocks * BLOCK_SIZE
    && (forall j :: 0 <= j < m.blocks ==> FIRST_DATA <= m.addrs[j] < FIRST_DATA + DATA_BLOCKS)
    && (forall j, k :: 0 <= j < k < m.blocks ==> m.addrs[j] != m.addrs[k])
    && (m.kind == DirI ==> m.blocks == 1 && m.size % ENTRY_SIZE == 0 && m.size <= BLOCK_SIZE)
  }

  ghost predicate Owns(n: seq<Dinode>, i: nat, b: int) {
    Live(n, i) && b in Owned(n[i])
  }

  ghost predicate Held(n: seq<Dinode>, b: int) {
    exists i: nat :: Owns(n, i, b)
  }

  /** No block has two owners. */
  ghost predicate Exclusive(n: seq<Dinode>) {
    forall i: nat, j: nat, b :: Owns(n, i, b) && Owns(n, j, b) ==> i == j
  }

  /** Bit `b` is set exactly when some live inode holds that block. */
  ghost predicate FreemapExact(n: seq<Dinode>, freemap: seq<nat>) {
    forall b :: 0 <= b < |freemap| ==> (freemap[b] != 0 <==> Held(n, FIRST_DATA + b))
  }

  /** A block some live inode holds is marked, so it is never given to another. */
  ghost predicate HeldIsMarked(n: seq<Dinode>, freemap: seq<nat>) {
    forall b :: 0 <= b < |freemap| && Held(n, FIRST_DATA + b) ==> freemap[b] != 0
  }

  ghost predicate Ownership(n: seq<Dinode>, freemap: seq<nat>) {
    && |freemap| == DATA_BLOCKS
    && (forall i: nat :: Live(n, i) ==> InodeOk(n[i]))
    && Exclusive(n)
    && HeldIsMarked(n, freemap)
  }

  /** The blocks marked in the freemap that no live inode holds: nothing can use them any more. */
  ghost function LostBlocks(n: seq<Dinode>, freemap: seq<nat>): set<int> {
    set b | FIRST_DATA <= b < FIRST_DATA + |freemap| && freemap[b - FIRST_DATA] != 0 && !Held(n, b)
  }

  lemma ExactIffNoneLost(n: seq<Dinode>, freemap: seq<nat>)
    requires HeldIsMarked(n, freemap)
    ensures FreemapExact(n, freemap) <==> LostBlocks(n, freemap) == {}
  {
    if LostBlocks(n, freemap) != {} {
      var b :| b in LostBlocks(n, freemap);
      assert freemap[b - FIRST_DATA] != 0 && !Held(n, FIRST_DATA + (b - FIRST_DATA));
    } else {
      forall x | 0 <= x < |freemap| && freemap[x] != 0 ensures Held(n, FIRST_DATA + x) {
        assert FIRST_DATA + x !in LostBlocks(n, freemap);
      }
    }
  }

  lemma OwnedInRange(n: seq<Dinode>, i: nat, b: int)
    requires forall i: nat :: Live(n, i) ==> InodeOk(n[i])
    requires Owns(n, i, b)
    ensures FIRST_DATA <= b < FIRST_DATA + DATA_BLOCKS
  {
  }

  /** Sizes, link counts and the like do not matter to ownership. */
  lemma SameOwnership(n0: seq<Dinode>, n1: seq<Dinode>, freemap: seq<nat>)
    requires Ownership(n0, freemap) && |n1| == |n0|
    requires forall i: nat :: Live(n0, i) <==> Live(n1, i)
    requires forall i: nat :: Live(n1, i) ==> InodeOk(n1[i]) && Owned(n1[i]) == Owned(n0[i])
    ensures Ownership(n1, freemap) && LostBlocks(n1, freemap) == LostBlocks(n0, freemap)
  {
    assert forall i: nat, b :: Owns(n0, i, b) <==> Owns(n1, i, b);
    SameHeld(n0, n1, freemap);
  }

  lemma SameHeld(n0: seq<Dinode>, n1: seq<Dinode>, freemap: seq<nat>)
    requires forall i: nat, b :: Owns(n0, i, b) <==> Owns(n1, i, b)
    ensures HeldIsMarked(n0, freemap) ==> HeldIsMarked(n1, freemap)
    ensures LostBlocks(n1, freemap) == LostBlocks(n0, freemap)
  {
    forall b ensures Held(n0, b) <==> Held(n1, b) {
      if i: nat :| Owns(n0, i, b) { assert Owns(n1, i, b); }
      if i: nat :| Owns(n1, i, b) { assert Owns(n0, i, b); }
    }
  }

  /** Inode `i` gets the free block `b` on top of what it had, if it was live before. */
  lemma GrantBlock(n0: seq<Dinode>, n1: seq<Dinode>, freemap: seq<nat>, i: nat, b: nat)
    requires Ownership(n0, freemap) && |n1| == |n0| && i < |n0|
    requires b < DATA_BLOCKS && freemap[b] == 0
    requires forall j: nat :: j < |n0| && j != i ==> n1[j] == n0[j]
    requires n1[i].kind != FreeI && InodeOk(n1[i])
    requires Owned(n1[i]) == (if n0[i].kind == FreeI then [] else Owned(n0[i])) + [FIRST_DATA + b]
    ensures Ownership(n1, freemap[b := 1]) && LostBlocks(n1, freemap[b := 1]) == LostBlocks(n0, freemap)
  {
    assert !Held(n0, FIRST_DATA + b);
    forall j: nat, x ensures Owns(n1, j, x) <==> Owns(n0, j, x) || (j == i && x == FIRST_DATA + b) {
      assert j < |n0| && j != i ==> n1[j] == n0[j];
    }
    forall j: nat | Live(n1, j) ensures InodeOk(n1[j]) {
      assert j != i ==> Live(n0, j);
    }
    GrantKeepsFreemap(n0, n1, freemap, i, b);
  }

  lemma GrantKeepsFreemap(n0: seq<Dinode>, n1: seq<Dinode>, freemap: seq<nat>, i: nat, b: nat)
    requires HeldIsMarked(n0, freemap) && b < |freemap| && freemap[b] == 0
    requires forall j: nat, x :: Owns(n1, j, x) <==> Owns(n0, j, x) || (j == i && x == FIRST_DATA + b)
    ensures HeldIsMarked(n1, freemap[b := 1]) && LostBlocks(n1, freemap[b := 1]) == LostBlocks(n0, freemap)
  {
    assert Owns(n1, i, FIRST_DATA + b);
    forall x ensures Held(n1, x) <==> Held(n0, x) || x == FIRST_DATA + b {
      if j: nat :| Owns(n0, j, x) { assert Owns(n1, j, x); }
      if j: nat :| Owns(n1, j, x) { assert x != FIRST_DATA + b ==> Owns(n0, j, x); }
    }
  }

  lemma {:induction false} FreeAllAt(freemap: seq<nat>, addrs: seq<int>, x: nat)
    requires x < |freemap|
    ensures FreeAll(freemap, addrs)[x] == if FIRST_DATA + x in addrs then 0 else freemap[x]
  {
    if addrs != [] {
      var front := addrs[..|addrs| - 1];
      FreeAllAt(freemap, front, x);
      assert addrs == front + [addrs[|addrs| - 1]];
    }
  }

  /** Freeing inode `i` while returning the blocks `given`, some of those it holds, loses exactly the others. */
  lemma FreeInode(n0: seq<Dinode>, n1: seq<Dinode>, freemap: seq<nat>, i: nat, given: seq<int>)
    requires Ownership(n0, freemap) && |n1| == |n0| && Live(n0, i) && !Live(n1, i)
    requires forall j: nat :: j < |n0| && j != i ==> n1[j] == n0[j]
    requires forall b :: b in given ==> b in Owned(n0[i])
    ensures Ownership(n1, FreeAll(freemap, given))
    ensures LostBlocks(n1, FreeAll(freemap, given)) ==
            LostBlocks(n0, freemap) + (set b | b in Owned(n0[i]) && b !in given)
  {
    forall j: nat, x ensures Owns(n1, j, x) <==> Owns(n0, j, x) && j != i {
      assert j < |n0| && j != i ==> n1[j] == n0[j];
    }
    forall j: nat | Live(n1, j) ensures InodeOk(n1[j]) {
      assert j != i && Live(n0, j);
    }
    FreeKeepsFreemap(n0, n1, freemap, i, given);
  }

  lemma FreeKeepsFreemap(n0: seq<Dinode>, n1: seq<Dinode>, freemap: seq<nat>, i: nat, given: seq<int>)
    requires Ownership(n0, freemap) && Live(n0, i)
    requires forall j: nat, x :: Owns(n1, j, x) <==> Owns(n0, j, x) && j != i
    requires forall b :: b in given ==> b in Owned(n0[i])
    ensures HeldIsMarked(n1, FreeAll(freemap, given))
    ensures LostBlocks(n1, FreeAll(freemap, given)) ==
            LostBlocks(n0, freemap) + (set b | b in Owned(n0[i]) && b !in given)
  {
    var f := FreeAll(freemap, given);
    forall x ensures Held(n1, x) <==> Held(n0, x) && x !in Owned(n0[i]) {
      HeldWithout(n0, n1, i, x);
    }
    forall x: nat | x < |f| ensures f[x] == if FIRST_DATA + x in given then 0 else freemap[x] {
      FreeAllAt(freemap, given, x);
    }
    LostAfterFree(n0, n1, freemap, f, i, given);
  }

  lemma HeldWithout(n0: seq<Dinode>, n1: seq<Dinode>, i: nat, x: int)
    requires Exclusive(n0) && Live(n0, i)
    requires forall j: nat, y :: Owns(n1, j, y) <==> Owns(n0, j, y) && j != i
    ensures Held(n1, x) <==> Held(n0, x) && x !in Owned(n0[i])
  {
    assert x in Owned(n0[i]) <==> Owns(n0, i, x);
    if j: nat :| Owns(n0, j, x) { assert j != i ==> Owns(n1, j, x); }
    if j: nat :| Owns(n1, j, x) { assert Owns(n0, j, x); }
  }

  lemma LostAfterFree(n0: seq<Dinode>, n1: seq<Dinode>, freemap: seq<nat>, f: seq<nat>, i: nat, given: seq<int>)
    requires Ownership(n0, freemap) && Live(n0, i) && |f| == |freemap|
    requires forall x :: Held(n1, x) <==> Held(n0, x) && x !in Owned(n0[i])
    requires forall x: nat :: x < |f| ==> f[x] == if FIRST_DATA + x in given then 0 else freemap[x]
    requires forall b :: b in given ==> b in Owned(n0[i])
    ensures HeldIsMarked(n1, f)
    ensures LostBlocks(n1, f) == LostBlocks(n0, freemap) + (set b | b in Owned(n0[i]) && b !in given)
  {
    forall b ensures b in LostBlocks(n1, f) <==> b in LostBlocks(n0, freemap) || (b in Owned(n0[i]) && b !in given) {
      if b in Owned(n0[i]) {
        assert Owns(n0, i, b);
        OwnedInRange(n0, i, b);
        assert Held(n0, FIRST_DATA + (b - FIRST_DATA));
      }
      if 0 <= b - FIRST_DATA < |f| { assert f[b - FIRST_DATA] == if b in given then 0 else freemap[b - FIRST_DATA]; }
    }
  }

  // ---- the tree on disk ----

  ghost predicate DiskShape(k: Disk) {
    && |k.dinodes| == INODES
    && ValidData(k.data)
    && (forall i :: 0 <= i < |k.dinodes| ==> |k.dinodes[i].addrs| == DIRECT)
    && (forall d: nat :: IsDir(k.dinodes, d) ==> InodeOk(k.dinodes[d]))
  }

  ghost function TreeOf(k: Disk): Tree {
    map d: nat | d < |k.dinodes| && k.dinodes[d].kind == DirI :: DirEntries(k.data, k.dinodes[d])
  }

  /** A directory's records are the front of its only block. */
  lemma OneBlockDir(data: seq<Block>, m: Dinode)
    requires ValidData(data) && InodeOk(m) && m.kind == DirI
    ensures DirShape(m)
    ensures Gather(data, m.addrs[..m.blocks]) == data[m.addrs[0]]
    ensures DirEntries(data, m) == data[m.addrs[0]][..m.size / ENTRY_SIZE]
  {
    var a := m.addrs[..1];
    assert Gather(data, a[..0]) == [];
    assert Gather(data, a) == data[a[0]];
  }

  /** Directories whose block is untouched keep their records. */
  lemma DirEntriesFrame(d0: seq<Block>, d1: seq<Block>, m: Dinode)
    requires ValidData(d0) && ValidData(d1) && InodeOk(m) && m.kind == DirI
    requires d1[m.addrs[0]] == d0[m.addrs[0]]
    ensures DirEntries(d1, m) == DirEntries(d0, m)
  {
    OneBlockDir(d0, m);
    OneBlockDir(d1, m);
  }

  /** rfs_add_direntry appends, as long as the block has room. */
  lemma AppendRecord(data: seq<Block>, m: Dinode, e: Direntry)
    requires ValidData(data) && InodeOk(m) && m.kind == DirI && m.size < BLOCK_SIZE
    ensures var data1 := WriteSlot(data, m.addrs[0], m.size % BLOCK_SIZE / ENTRY_SIZE, e);
            var m1 := m.(size := m.size + ENTRY_SIZE);
            && ValidData(data1) && InodeOk(m1)
            && DirEntries(data1, m1) == DirEntries(data, m) + [e]
            && forall b :: 0 <= b < DISK_BLOCKS && b != m.addrs[0] ==> data1[b] == data[b]
  {
    var slot := m.size % BLOCK_SIZE / ENTRY_SIZE;
    var data1 := WriteSlot(data, m.addrs[0], slot, e);
    var m1 := m.(size := m.size + ENTRY_SIZE);
    assert slot == m.size / ENTRY_SIZE < PER_BLOCK && m1.size / ENTRY_SIZE == slot + 1;
    OneBlockDir(data, m);
    OneBlockDir(data1, m1);
  }

  /** What rfs_unlink leaves in a one-block directory. */
  lemma RemoveRecord(data: seq<Block>, m: Dinode, index: nat)
    requires ValidData(data) && InodeOk(m) && m.kind == DirI && index < m.size / ENTRY_SIZE
    ensures var data1 := RemoveDirentry(data, m, index);
            && ValidData(data1) && InodeOk(ShrinkDir(m)) && ShrinkDir(m).addrs == m.addrs && !DropsLastBlock(m)
            && DirEntries(data1, ShrinkDir(m)) == RemoveAt(DirEntries(data, m), index)
            && forall b :: 0 <= b < DISK_BLOCKS && b != m.addrs[0] ==> data1[b] == data[b]
  {
    OneBlockDir(data, m);
    var block := data[m.addrs[0]];
    var g := RemoveAt(block, index) + [block[PER_BLOCK - 1]];
    var a := m.addrs[..m.blocks];
    assert a[..0] == [] && g[0..] == g && g[..0] == [];
    assert Scatter(data, a, g) == data[a[0] := g];
    OneBlockDir(data[a[0] := g], ShrinkDir(m));
  }
}
