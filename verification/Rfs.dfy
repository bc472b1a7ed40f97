/**
 The RAM disk file system operations as kernel/rfs.c performs them: inode scans, the
 freemap, and directory blocks moved through the device buffer. Each is proved to have
 the effect that module FsState describes.
 */
module Rfs {
  import opened Options
  import opened RfsDir
  import opened FsState

  /** Inode `i` exists and its blocks have a bit in the freemap. */
  predicate Freeable(dinodes: seq<Dinode>, freemap: seq<nat>, i: nat) {
    && i < |dinodes| && dinodes[i].blocks <= |dinodes[i].addrs|
    && forall j :: 0 <= j < dinodes[i].blocks ==> FIRST_DATA <= dinodes[i].addrs[j] < FIRST_DATA + |freemap|
  }

  class FileSystem {
    /** The inode table on disk and the freemap in sb->s_fs_info. */
    var dinodes: seq<Dinode>
    var freemap: seq<nat>
    /** Cached inodes by address. */
    var vinodes: map<nat, Vinode>
    const dev: RamDisk

    ghost predicate Valid()
      reads this, dev
    {
      dev.Valid()
    }

    constructor (table: seq<Dinode>, blocks: RamDisk, bitmap: seq<nat>)
      requires blocks.Valid()
      ensures Valid() && dinodes == table && freemap == bitmap && dev == blocks && vinodes == map[]
    {
      dinodes, freemap, dev, vinodes := table, bitmap, blocks, map[];
    }

    ghost function OnDisk(): Disk
      reads this, dev
    {
      Disk(dinodes, dev.data, freemap)
    }

    /** The whole file system, seen together with the rest `c` of the VFS caches. */
    ghost function View(c: Cache): Fs
      reads this, dev
    {
      Fs(OnDisk(), c.(vinodes := vinodes))
    }

    /** rfs_alloc_block */
    method AllocBlock() returns (block: int)
      requires FirstFreeBlock(freemap) < |freemap|
      modifies this`freemap
      ensures block == FIRST_DATA + FirstFreeBlock(old(freemap))
      ensures freemap == SetFree(old(freemap), block, 1)
    {
      ghost var first := FirstFreeBlock(freemap);
      var b := 0;
      while freemap[b] != 0
        invariant 0 <= b <= first
        decreases first - b
      {
        b := b + 1;
      }
      freemap := freemap[b := 1];
      block := FIRST_DATA + b;
    }

    /** The loop of rfs_free_block calls in rfs_unlink. */
    method FreeBlocks(addrs: seq<int>)
      requires forall j :: 0 <= j < |addrs| ==> FIRST_DATA <= addrs[j] < FIRST_DATA + |freemap|
      modifies this`freemap
      ensures freemap == FreeAll(old(freemap), addrs)
    {
      var i := 0;
      while i < |addrs|
        invariant 0 <= i <= |addrs| && |freemap| == |old(freemap)|
        invariant freemap == FreeAll(old(freemap), addrs[..i])
      {
        freemap := freemap[addrs[i] - FIRST_DATA := 0];
        i := i + 1;
        assert addrs[..i][..i - 1] == addrs[..i - 1];
      }
      assert addrs[..i] == addrs;
    }

    /** The inode scan of rfs_create and rfs_mkdir. */
    method FindFreeInode() returns (inum: nat, m: Dinode)
      requires dinodes != []
      ensures inum == PickedInode(dinodes) && m == ScannedInode(OnDisk())
    {
      inum, m := 0, dinodes[0];
      var i := 0;
      while i < |dinodes|
        invariant 0 <= i <= FirstFreeInode(dinodes) && inum == 0
        invariant i > 0 ==> m == dinodes[i - 1]
      {
        m := dinodes[i];
        if m.kind == FreeI {
          inum := i;
          break;
        }
        i := i + 1;
      }
    }

    /** rfs_write_back_vinode */
    method WriteBackVinode(v: nat, ghost c: Cache)
      requires Valid() && v in vinodes && vinodes[v].inum < |dinodes|
      modifies this`dinodes
      ensures Valid() && View(c) == WriteBack(old(View(c)), v)
    {
      dinodes := dinodes[vinodes[v].inum := vinodes[v].meta];
    }

    /** rfs_add_direntry: read the block, place the record, write the block, then the inode. */
    method AddRecord(pv: nat, e: Direntry, ghost c: Cache)
      requires Valid() && pv in vinodes && vinodes[pv].inum < |dinodes|
      requires var m := vinodes[pv].meta;
               m.size / BLOCK_SIZE < |m.addrs| && 0 <= m.addrs[m.size / BLOCK_SIZE] < DISK_BLOCKS
      modifies this`dinodes, this`vinodes, dev
      ensures Valid() && View(c) == AddDirentry(old(View(c)), pv, e)
    {
      var m := vinodes[pv].meta;
      var block := m.addrs[m.size / BLOCK_SIZE];
      dev.ReadBlock(block);
      dev.iobuffer := dev.iobuffer[m.size % BLOCK_SIZE / ENTRY_SIZE := e];
      dev.WriteBlock(block);
      vinodes := vinodes[pv := vinodes[pv].(meta := m.(size := m.size + ENTRY_SIZE))];
      WriteBackVinode(pv, c);
    }

    /** rfs_lookup: the inode number behind a name. */
    method LookupName(pv: nat, name: string) returns (inum: Option<nat>)
      requires Valid() && pv in vinodes && DirShape(vinodes[pv].meta)
      requires ValidAddrs(vinodes[pv].meta.addrs[..vinodes[pv].meta.blocks])
      modifies dev`iobuffer
      ensures Valid()
      ensures var es := DirEntries(dev.data, vinodes[pv].meta);
              var k := FindEntry(es, name);
              inum == if k == |es| then None else Some(es[k].inum)
    {
      var m := vinodes[pv].meta;
      var total := m.size / ENTRY_SIZE;
      var addrs := m.addrs[..m.blocks];
      var index := dev.Find(addrs, total, name);
      if index == total {
        inum := None;
      } else {
        var block, slot := index / PER_BLOCK, index % PER_BLOCK;
        assert index == block * PER_BLOCK + slot && block < |addrs|;
        dev.ReadBlock(addrs[block]);
        GatherAt(dev.data, addrs, block, slot);
        inum := Some(dev.iobuffer[slot].inum);
      }
    }

    /** rfs_create (kind FileI) and rfs_mkdir (kind DirI): a fresh inode with one block, then a record for it. */
    method CreateInode(pv: nat, name: string, kind: Kind, ghost c: Cache) returns (inum: nat, made: Dinode)
      requires Valid() && pv in vinodes && vinodes[pv].inum < |dinodes|
      requires FirstFreeBlock(freemap) < |freemap| && |ScannedInode(OnDisk()).addrs| == DIRECT
      requires var m := vinodes[pv].meta;
               m.size / BLOCK_SIZE < |m.addrs| && 0 <= m.addrs[m.size / BLOCK_SIZE] < DISK_BLOCKS
      modifies this`dinodes, this`freemap, this`vinodes, dev
      ensures Valid() && inum == PickedInode(old(dinodes)) && made == DinodeAt(NewInode(old(OnDisk()), kind).0, inum)
      ensures View(c) == AddDirentry(old(View(c)).(disk := NewInode(old(OnDisk()), kind).0), pv, Direntry(inum, name))
    {
      var m: Dinode;
      inum, m := FindFreeInode();
      var block := AllocBlock();
      made := Dinode(0, kind, 1, 1, m.addrs[0 := block]);
      dinodes := dinodes[inum := made];
      AddRecord(pv, Direntry(inum, name), c);
    }
 
    /** The scan of rfs_unlink, and the inode number it reads from the buffer. */
    method FindRecord(pv: nat, name: string) returns (index: nat, inum: nat)
      requires Valid() && pv in vinodes && DirShape(vinodes[pv].meta) && ValidAddrs(Owned(vinodes[pv].meta))
      modifies dev`iobuffer
      ensures Valid()
      ensures var es := DirEntries(dev.data, vinodes[pv].meta);
              index == FindEntry(es, name) && (index < |es| ==> inum == es[index].inum)
    {
      var m := vinodes[pv].meta;
      index := dev.Find(m.addrs[..m.blocks], m.size / ENTRY_SIZE, name);
      inum := 0;
      if index < m.size / ENTRY_SIZE {
        GatherAt(dev.data, m.addrs[..m.blocks], index / PER_BLOCK, index % PER_BLOCK);
        dev.ReadBlock(m.addrs[index / PER_BLOCK]);
        inum := dev.iobuffer[index % PER_BLOCK].inum;
      }
    }

    /** The directory half of rfs_unlink. */
    method CloseGap(pv: nat, index: nat, ghost c: Cache)
      requires Valid() && pv in vinodes && vinodes[pv].inum < |dinodes|
      requires var m := vinodes[pv].meta;
               && DirShape(m) && ValidAddrs(Owned(m)) && index < m.size / ENTRY_SIZE
               && (forall j :: 0 <= j < m.blocks ==> FIRST_DATA <= m.addrs[j] < FIRST_DATA + |freemap|)
      modifies this`dinodes, this`freemap, this`vinodes, dev
      ensures Valid()
      ensures View(c) == CloseGapOnDisk(old(View(c)), pv, index)
    {
      hide Gather, Scatter, RemoveDirentry;
      var m := vinodes[pv].meta;
      Compact(m, index);
      if (m.size / ENTRY_SIZE - 1) % PER_BLOCK == 0 && m.blocks > 1 {
        freemap := freemap[m.addrs[m.blocks - 1] - FIRST_DATA := 0];
        m := m.(blocks := m.blocks - 1);
      }
      m := m.(size := m.size - ENTRY_SIZE);
      assert m == ShrinkDir(vinodes[pv].meta);
      vinodes := vinodes[pv := vinodes[pv].(meta := m)];
      WriteBackVinode(pv, c);
    }

    method Compact(m: Dinode, index: nat)
      requires Valid() && DirShape(m) && ValidAddrs(Owned(m)) && index < m.blocks * PER_BLOCK
      modifies dev
      ensures Valid() && dev.data == RemoveDirentry(old(dev.data), m, index)
    {
      ghost var d0 := dev.data;
      ghost var g := Gather(d0, m.addrs[..m.blocks]);
      dev.Compact(m.addrs[..m.blocks], index);
      ScatterIs(d0, dev.data, m.addrs[..m.blocks], RemoveAt(g, index) + [g[|g| - 1]]);
    }

    /** rfs_unlink: one name less for the inode cached as `uv`, and the gap in the directory closed. */
    method RemoveRecord(pv: nat, name: string, uv: nat, ghost c: Cache) returns (found: bool)
      requires Valid() && pv in vinodes && uv in vinodes && pv != uv && vinodes[pv].inum < |dinodes|
      requires var m := vinodes[pv].meta;
               && DirShape(m) && ValidAddrs(Owned(m))
               && (forall j :: 0 <= j < m.blocks ==> FIRST_DATA <= m.addrs[j] < FIRST_DATA + |freemap|)
      requires forall e :: e in DirEntries(dev.data, vinodes[pv].meta) ==> Freeable(dinodes, freemap, e.inum)
      modifies this`dinodes, this`freemap, this`vinodes, dev
      ensures Valid()
      ensures View(c) == UnlinkOnDisk(old(View(c)), pv, name, uv)
      ensures var es := DirEntries(old(dev.data), old(vinodes)[pv].meta);
              found == (FindEntry(es, name) < |es|)
    {
      ghost var es := DirEntries(dev.data, vinodes[pv].meta);
      var index, inum := FindRecord(pv, name);
      found := index < vinodes[pv].meta.size / ENTRY_SIZE;
      if found {
        assert es[index] in es;
        ReleaseInode(inum, uv, c);
        CloseGap(pv, index, c);
      }
    }

    /**
     The inode half of rfs_unlink: the cached link count drops, the disk inode follows, a dead inode gives its blocks
     back.
     */
    method ReleaseInode(inum: nat, uv: nat, ghost c: Cache)
      requires Valid() && uv in vinodes && Freeable(dinodes, freemap, inum)
      modifies this`dinodes, this`freemap, this`vinodes
      ensures Valid() && View(c) == ReleaseOnDisk(old(View(c)), inum, uv)
    {
      var di := dinodes[inum];
      var um := vinodes[uv].meta;
      vinodes := vinodes[uv := vinodes[uv].(meta := um.(nlinks := um.nlinks - 1))];
      di := di.(nlinks := um.nlinks - 1);
      if di.nlinks == 0 {
        FreeBlocks(di.addrs[..di.blocks]);
        di := di.(kind := FreeI);
      }
      dinodes := dinodes[inum := di];
    }
  }

  /** Data is determined by its records in the listed blocks and its other blocks. */
  lemma {:induction false} ScatterIs(d0: seq<Block>, d1: seq<Block>, addrs: seq<int>, g: seq<Direntry>)
    requires ValidData(d0) && ValidData(d1) && ValidAddrs(addrs)
    requires forall b :: 0 <= b < DISK_BLOCKS && b !in addrs ==> d1[b] == d0[b]
    requires Gather(d1, addrs) == g
    ensures Scatter(d0, addrs, g) == d1
    decreases |addrs|
  {
    if addrs != [] {
      var n := |addrs| - 1;
      var front := addrs[..n];
      var d2 := d1[addrs[n] := d0[addrs[n]]];
      assert addrs == front + [addrs[n]];
      GatherFrame(d1, d2, front);
      assert g[..n * PER_BLOCK] == Gather(d2, front) && g[n * PER_BLOCK..] == d1[addrs[n]];
      ScatterIs(d0, d2, front, g[..n * PER_BLOCK]);
    }
  }

  lemma {:induction false} GatherScatter(data: seq<Block>, addrs: seq<int>, g: seq<Direntry>)
    requires ValidData(data) && ValidAddrs(addrs) && |g| == |addrs| * PER_BLOCK
    ensures ValidData(Scatter(data, addrs, g)) && Gather(Scatter(data, addrs, g), addrs) == g
    ensures forall b :: 0 <= b < DISK_BLOCKS && b !in addrs ==> Scatter(data, addrs, g)[b] == data[b]
  {
    if addrs != [] {
      var n := |addrs| - 1;
      var front := addrs[..n];
      assert addrs == front + [addrs[n]];
      GatherScatter(data, front, g[..n * PER_BLOCK]);
      GatherFrame(Scatter(data, front, g[..n * PER_BLOCK]), Scatter(data, addrs, g), front);
    }
  }

  /**
   rfs_unlink on a directory of any number of blocks: the same records without record `index`, in order across block
   boundaries; other blocks are untouched. The directory may have blocks to spare.
   */
  lemma UnlinkKeepsOrder(data: seq<Block>, m: Dinode, index: nat)
    requires ValidData(data) && DirShape(m) && ValidAddrs(m.addrs[..m.blocks]) && m.size % ENTRY_SIZE == 0
    requires index < m.size / ENTRY_SIZE
    ensures var data1 := RemoveDirentry(data, m, index);
            var m1 := ShrinkDir(m);
            && ValidData(data1)
            && DirEntries(data1, m1) == RemoveAt(DirEntries(data, m), index)
            && forall b :: 0 <= b < DISK_BLOCKS && b !in m.addrs[..m.blocks] ==> data1[b] == data[b]
  {
    hide Gather, Scatter;
    var addrs := m.addrs[..m.blocks];
    var g := Gather(data, addrs);
    var h := RemoveAt(g, index) + [g[|g| - 1]];
    GatherScatter(data, addrs, h);
    SizeAfterUnlink(m);
    var data1 := RemoveDirentry(data, m, index);
    var m1 := ShrinkDir(m);
    GatherPrefix(data1, addrs, m1.blocks);
    assert m1.addrs[..m1.blocks] == addrs[..m1.blocks];
    assert h[..m1.size / ENTRY_SIZE] == RemoveAt(g[..m.size / ENTRY_SIZE], index);
  }

  /** The records that are left fit into the blocks that are left. */
  lemma SizeAfterUnlink(m: Dinode)
    requires m.size % ENTRY_SIZE == 0 && ENTRY_SIZE <= m.size && m.size / ENTRY_SIZE <= m.blocks * PER_BLOCK
    ensures var m1 := ShrinkDir(m);
            m1.size / ENTRY_SIZE == m.size / ENTRY_SIZE - 1 && m1.size / ENTRY_SIZE <= m1.blocks * PER_BLOCK
  {
  }

  /** In a directory without spare blocks, the last one goes exactly when it becomes empty and is not the only one. */
  lemma TightAfterUnlink(m: Dinode)
    requires m.size % ENTRY_SIZE == 0 && ENTRY_SIZE <= m.size && m.blocks == TightBlocks(m.size / ENTRY_SIZE)
    ensures var m1 := ShrinkDir(m);
            && m1.size / ENTRY_SIZE == m.size / ENTRY_SIZE - 1
            && m1.blocks == TightBlocks(m1.size / ENTRY_SIZE) && m1.size / ENTRY_SIZE <= m1.blocks * PER_BLOCK
            && (DropsLastBlock(m) <==> m.blocks > 1 && m.size / ENTRY_SIZE == (m.blocks - 1) * PER_BLOCK + 1)
  {
  }

  lemma {:induction false} GatherPrefix(data: seq<Block>, addrs: seq<int>, n: nat)
    requires ValidData(data) && ValidAddrs(addrs) && n <= |addrs|
    ensures Gather(data, addrs[..n]) == Gather(data, addrs)[..n * PER_BLOCK]
  {
    if n < |addrs| {
      var front := addrs[..|addrs| - 1];
      GatherPrefix(data, front, n);
      assert front[..n] == addrs[..n];
    } else {
      assert addrs[..n] == addrs;
    }
  }
}
