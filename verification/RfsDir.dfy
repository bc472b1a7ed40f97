/**
 Directory storage of the RAM disk file system (kernel/rfs.c).

 A directory is a file of 32-byte records, 128 to a block. Its blocks need not
 be adjacent on disk: `addrs` lists them in order. The code moves records
 through one shared `iobuffer`, a block at a time.
 */
module RfsDir {

  const BLOCK_SIZE := 4096
  const ENTRY_SIZE := 32
  /** RFS_BLKSIZE / sizeof(struct rfs_direntry) */
  const PER_BLOCK := 128
  /** RAMDISK_BLOCK_COUNT */
  const DISK_BLOCKS := 128

  datatype Direntry = Direntry(inum: nat, name: string)

  type Block = seq<Direntry>

  predicate ValidData(data: seq<Block>) {
    |data| == DISK_BLOCKS && forall b :: 0 <= b < |data| ==> |data[b]| == PER_BLOCK
  }

  predicate ValidAddrs(addrs: seq<int>) {
    && (forall j :: 0 <= j < |addrs| ==> 0 <= addrs[j] < DISK_BLOCKS)
    && (forall j, k :: 0 <= j < k < |addrs| ==> addrs[j] != addrs[k])
  }

  /** The records of the listed blocks, in directory order. */
  function Gather(data: seq<Block>, addrs: seq<int>): (g: seq<Direntry>)
    requires ValidData(data)
    requires forall j :: 0 <= j < |addrs| ==> 0 <= addrs[j] < DISK_BLOCKS
    ensures |g| == |addrs| * PER_BLOCK
  {
    if addrs == [] then []
    else Gather(data, addrs[..|addrs| - 1]) + data[addrs[|addrs| - 1]]
  }

  lemma {:induction false} GatherAt(data: seq<Block>, addrs: seq<int>, j: nat, m: nat)
    requires ValidData(data) && ValidAddrs(addrs) && j < |addrs| && m < PER_BLOCK
    ensures j * PER_BLOCK + m < |Gather(data, addrs)|
    ensures Gather(data, addrs)[j * PER_BLOCK + m] == data[addrs[j]][m]
  {
    if j < |addrs| - 1 {
      GatherAt(data, addrs[..|addrs| - 1], j, m);
    }
  }

  lemma {:induction false} GatherFrame(d0: seq<Block>, d1: seq<Block>, addrs: seq<int>)
    requires ValidData(d0) && ValidData(d1)
    requires forall j :: 0 <= j < |addrs| ==> 0 <= addrs[j] < DISK_BLOCKS && d0[addrs[j]] == d1[addrs[j]]
    ensures Gather(d0, addrs) == Gather(d1, addrs)
  {
    if addrs != [] {
      GatherFrame(d0, d1, addrs[..|addrs| - 1]);
    }
  }

  /** The blocks before the last one, then the last one. */
  lemma GatherSnoc(data: seq<Block>, addrs: seq<int>, i: nat)
    requires ValidData(data) && ValidAddrs(addrs) && i < |addrs|
    ensures Gather(data, addrs[..i + 1]) == Gather(data, addrs[..i]) + data[addrs[i]]
  {
    assert addrs[..i + 1][..i] == addrs[..i];
  }

  /** Index of the first record called `name`, or the length when there is none. */
  function FindEntry(es: seq<Direntry>, name: string): (k: nat)
    ensures k <= |es|
    ensures forall j :: 0 <= j < k ==> es[j].name != name
    ensures k < |es| ==> es[k].name == name
  {
    if es == [] then 0
    else if es[0].name == name then 0
    else
      var k := 1 + FindEntry(es[1..], name);
      assert forall j :: 1 <= j < k ==> es[j] == es[1..][j - 1];
      k
  }

  /** `s` without the element at `k`. */
  function RemoveAt<T>(s: seq<T>, k: nat): (r: seq<T>)
    requires k < |s|
    ensures |r| == |s| - 1
    ensures forall j :: 0 <= j < k ==> r[j] == s[j]
    ensures forall j :: k <= j < |r| ==> r[j] == s[j + 1]
  {
    s[..k] + s[k + 1..]
  }

  /** Blocks a directory of `count` records occupies when no block is spare. */
  function TightBlocks(count: nat): nat {
    if count == 0 then 1 else (count + PER_BLOCK - 1) / PER_BLOCK
  }

  /** The device: its blocks and the single buffer every transfer goes through. */
  class RamDisk {
    var data: seq<Block>
    var iobuffer: Block

    ghost predicate Valid()
      reads this
    {
      ValidData(data) && |iobuffer| == PER_BLOCK
    }

    constructor (blocks: seq<Block>)
      requires ValidData(blocks)
      ensures Valid() && data == blocks
    {
      data := blocks;
      iobuffer := blocks[0];
    }

    /** ramdisk_read: block -> iobuffer. */
    method ReadBlock(b: int)
      requires Valid() && 0 <= b < DISK_BLOCKS
      modifies this`iobuffer
      ensures Valid() && iobuffer == data[b]
    {
      iobuffer := data[b];
    }

    /** ramdisk_write: iobuffer -> block. */
    method WriteBlock(b: int)
      requires Valid() && 0 <= b < DISK_BLOCKS
      modifies this`data
      ensures Valid() && data == old(data)[b := iobuffer]
    {
      data := data[b := iobuffer];
    }

    /** The scan shared by rfs_lookup and rfs_unlink: re-reads at block boundaries only. */
    method Find(addrs: seq<int>, total: nat, name: string) returns (index: nat)
      requires Valid() && ValidAddrs(addrs) && total <= |addrs| * PER_BLOCK
      modifies this`iobuffer
      ensures Valid()
      ensures index == FindEntry(Gather(data, addrs)[..total], name)
    {
      ghost var es := Gather(data, addrs)[..total];
      index := 0;
      var block, offset := 0, 0;  // delete_index / 128 and delete_index % 128
      while index < total
        invariant Valid() && index == block * PER_BLOCK + offset <= total && 0 <= block && 0 <= offset < PER_BLOCK
        invariant offset != 0 ==> block < |addrs| && iobuffer == data[addrs[block]]
        invariant forall j :: 0 <= j < index ==> es[j].name != name
      {
        if offset == 0 {
          ReadBlock(addrs[block]);
        }
        GatherAt(data, addrs, block, offset);
        if iobuffer[offset].name == name {
          break;
        }
        index := index + 1;
        block, offset := if offset + 1 == PER_BLOCK then block + 1 else block, (offset + 1) % PER_BLOCK;
      }
      FindEntryIs(es, name, index);
    }

    /**
     Closes the gap left by record `index`: the block holding it shifts down, and every
     later block hands its first record to the block before it. Two block images are in
     flight, so the order of the buffer transfers matters.
     */
    method Compact(addrs: seq<int>, index: nat)
      requires Valid() && ValidAddrs(addrs) && index < |addrs| * PER_BLOCK
      modifies this
      ensures Valid()
      ensures forall b :: 0 <= b < DISK_BLOCKS && b !in addrs ==> data[b] == old(data)[b]
      ensures var g := old(Gather(data, addrs));
              Gather(data, addrs) == RemoveAt(g, index) + [g[|g| - 1]]
    {
      hide Gather, RemoveAt;
      ghost var d0 := data;
      var first := index / PER_BLOCK;
      var offset := index % PER_BLOCK;
      ReadBlock(addrs[first]);
      var previous := iobuffer[..offset] + iobuffer[offset + 1..] + [iobuffer[PER_BLOCK - 1]];
      CompactStart(d0, addrs, index, first, offset, previous);

      var i := first + 1;
      while i < |addrs|
        invariant Valid() && first < i <= |addrs|
        invariant Compacting(d0, data, addrs, index, i, previous)
      {
        ReadBlock(addrs[i]);
        var current := iobuffer;
        iobuffer := previous[PER_BLOCK - 1 := iobuffer[0]];
        CompactStep(d0, data, addrs, index, i, previous);
        WriteBlock(addrs[i - 1]);
        previous := current[1..] + [current[PER_BLOCK - 1]];
        i := i + 1;
      }
      iobuffer := previous;
      CompactEnd(d0, data, addrs, index, previous);
      WriteBlock(addrs[|addrs| - 1]);
    }
  }

  /** Between two iterations: blocks before `i - 1` are written back, `previous` is what block `i - 1` will hold. */
  ghost predicate Compacting(d0: seq<Block>, d1: seq<Block>, addrs: seq<int>, index: nat, i: nat, previous: Block) {
    && ValidData(d0) && ValidData(d1) && ValidAddrs(addrs) && 0 < i <= |addrs|
    && |previous| == PER_BLOCK && index < i * PER_BLOCK
    && (forall b :: 0 <= b < DISK_BLOCKS && b !in addrs[..i - 1] ==> d1[b] == d0[b])
    && Gather(d1, addrs[..i - 1]) + previous[..PER_BLOCK - 1] == RemoveAt(Gather(d0, addrs[..i]), index)
    && previous[PER_BLOCK - 1] == d0[addrs[i - 1]][PER_BLOCK - 1]
  }

  lemma CompactStart(d0: seq<Block>, addrs: seq<int>, index: nat, first: nat, offset: nat, previous: Block)
    requires ValidData(d0) && ValidAddrs(addrs) && first < |addrs|
    requires index == first * PER_BLOCK + offset && offset < PER_BLOCK
    requires var b := d0[addrs[first]]; previous == b[..offset] + b[offset + 1..] + [b[PER_BLOCK - 1]]
    ensures Compacting(d0, d0, addrs, index, first + 1, previous)
  {
    GatherSnoc(d0, addrs, first);
    var b := d0[addrs[first]];
    assert previous[..PER_BLOCK - 1] == b[..offset] + b[offset + 1..];
  }

  /** Handing the first record of block `i` down keeps the shifted prefix exact. */
  lemma CompactStep(d0: seq<Block>, d1: seq<Block>, addrs: seq<int>, index: nat, i: nat, previous: Block)
    requires Compacting(d0, d1, addrs, index, i, previous) && i < |addrs|
    ensures var b := d0[addrs[i]];
            && d1[addrs[i]] == b
            && Compacting(d0, d1[addrs[i - 1] := previous[PER_BLOCK - 1 := b[0]]], addrs, index, i + 1,
                          b[1..] + [b[PER_BLOCK - 1]])
  {
    var b := d0[addrs[i]];
    var full := previous[PER_BLOCK - 1 := b[0]];
    var d2 := d1[addrs[i - 1] := full];
    assert addrs[..i] == addrs[..i - 1] + [addrs[i - 1]];
    GatherSnoc(d2, addrs, i - 1);
    GatherFrame(d1, d2, addrs[..i - 1]);
    GatherSnoc(d0, addrs, i);
    RemoveAtAppend(Gather(d0, addrs[..i]), b, index);
    assert full == previous[..PER_BLOCK - 1] + [b[0]];
    assert b == [b[0]] + b[1..];
    assert (b[1..] + [b[PER_BLOCK - 1]])[..PER_BLOCK - 1] == b[1..];
  }

  lemma RemoveAtAppend<T>(a: seq<T>, b: seq<T>, k: nat)
    requires k < |a|
    ensures RemoveAt(a + b, k) == RemoveAt(a, k) + b
  {
    assert (a + b)[..k] == a[..k];
    assert (a + b)[k + 1..] == a[k + 1..] + b;
  }

  lemma CompactEnd(d0: seq<Block>, d1: seq<Block>, addrs: seq<int>, index: nat, previous: Block)
    requires 0 < |addrs| && Compacting(d0, d1, addrs, index, |addrs|, previous)
    ensures var g := Gather(d0, addrs);
            var d2 := d1[addrs[|addrs| - 1] := previous];
            && ValidData(d2)
            && (forall b :: 0 <= b < DISK_BLOCKS && b !in addrs ==> d2[b] == d0[b])
            && Gather(d2, addrs) == RemoveAt(g, index) + [g[|g| - 1]]
  {
    var n := |addrs|;
    var d2 := d1[addrs[n - 1] := previous];
    assert addrs[..n] == addrs;
    GatherFrame(d1, d2, addrs[..n - 1]);
    assert previous == previous[..PER_BLOCK - 1] + [previous[PER_BLOCK - 1]];
  }

  lemma FindEntryIs(es: seq<Direntry>, name: string, k: nat)
    requires k <= |es|
    requires forall j :: 0 <= j < k ==> es[j].name != name
    requires k < |es| ==> es[k].name == name
    ensures FindEntry(es, name) == k
  {
    var f := FindEntry(es, name);
    assert f >= k;
  }
}
