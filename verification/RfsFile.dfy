/**
 File contents on the RAM disk (rfs_read and rfs_write of kernel/rfs.c). A file is a list
 of 4096-byte blocks, transferred whole through one shared buffer.

 `Flat` is the concatenation of a file's blocks and `Splice` the byte-level meaning of a
 write; the methods work block by block as the code does.
 */
module RfsFile {
  import opened FsState
  import RfsDir
  import Rfs

  newtype byte = x: int | 0 <= x < 256

  type Page = seq<byte>

  const B := 4096

  predicate ValidPages(data: seq<Page>) {
    |data| == RfsDir.DISK_BLOCKS && forall b :: 0 <= b < |data| ==> |data[b]| == B
  }

  /** The bytes of the listed blocks, in file order. */
  function Flat(data: seq<Page>, addrs: seq<int>): (f: seq<byte>)
    requires ValidPages(data)
    requires forall j :: 0 <= j < |addrs| ==> 0 <= addrs[j] < RfsDir.DISK_BLOCKS
    ensures |f| == |addrs| * B
  {
    if addrs == [] then []
    else Flat(data, addrs[..|addrs| - 1]) + data[addrs[|addrs| - 1]]
  }

  /** `f` with `s` written over it from position `off` on, growing if necessary. */
  function Splice(f: seq<byte>, off: nat, s: seq<byte>): (r: seq<byte>)
    requires off <= |f|
    ensures |r| == if off + |s| <= |f| then |f| else off + |s|
  {
    f[..off] + s + if off + |s| <= |f| then f[off + |s|..] else []
  }

  // ---- blocks and bytes ----

  lemma {:induction false} FlatFrame(d0: seq<Page>, d1: seq<Page>, addrs: seq<int>)
    requires ValidPages(d0) && ValidPages(d1)
    requires forall j :: 0 <= j < |addrs| ==> 0 <= addrs[j] < RfsDir.DISK_BLOCKS && d0[addrs[j]] == d1[addrs[j]]
    ensures Flat(d0, addrs) == Flat(d1, addrs)
  {
    if addrs != [] {
      FlatFrame(d0, d1, addrs[..|addrs| - 1]);
    }
  }

  lemma {:induction false} FlatBlock(data: seq<Page>, addrs: seq<int>, j: nat)
    requires ValidPages(data) && RfsDir.ValidAddrs(addrs) && j < |addrs|
    ensures j * B + B <= |Flat(data, addrs)|
    ensures Flat(data, addrs)[j * B..j * B + B] == data[addrs[j]]
  {
    var n := |addrs| - 1;
    if j < n {
      FlatBlock(data, addrs[..n], j);
      assert Flat(data, addrs)[j * B..j * B + B] == Flat(data, addrs[..n])[j * B..j * B + B];
    }
  }

  /** Overwriting block `j`. */
  lemma {:induction false} FlatSet(data: seq<Page>, addrs: seq<int>, j: nat, page: Page)
    requires ValidPages(data) && RfsDir.ValidAddrs(addrs) && j < |addrs| && |page| == B
    ensures ValidPages(data[addrs[j] := page])
    ensures j * B <= |Flat(data, addrs)|
    ensures Flat(data[addrs[j] := page], addrs) == Splice(Flat(data, addrs), j * B, page)
  {
    var n := |addrs| - 1;
    var d1 := data[addrs[j] := page];
    if j < n {
      FlatSet(data, addrs[..n], j, page);
    } else {
      FlatFrame(data, d1, addrs[..n]);
    }
  }

  /** Appending a block. */
  lemma FlatAppend(data: seq<Page>, addrs: seq<int>, a: int, page: Page)
    requires ValidPages(data) && RfsDir.ValidAddrs(addrs) && 0 <= a < RfsDir.DISK_BLOCKS && a !in addrs && |page| == B
    ensures ValidPages(data[a := page])
    ensures Flat(data[a := page], addrs + [a]) == Splice(Flat(data, addrs), |addrs| * B, page)
  {
    assert (addrs + [a])[..|addrs|] == addrs;
    FlatFrame(data, data[a := page], addrs);
  }

  /** Writing `t` right behind an earlier write of `s` is one write of both. */
  lemma SpliceTwice(f: seq<byte>, off: nat, s: seq<byte>, t: seq<byte>)
    requires off <= |f|
    ensures Splice(Splice(f, off, s), off + |s|, t) == Splice(f, off, s + t)
  {
  }

  /** Rewriting the head of a region with what is there already changes nothing but the rest. */
  lemma SpliceWithin(f: seq<byte>, off: nat, head: seq<byte>, s: seq<byte>, rest: seq<byte>)
    requires off + |head| + |s| + |rest| <= |f|
    requires head == f[off..off + |head|]
    requires rest == f[off + |head| + |s|..off + |head| + |s| + |rest|]
    ensures Splice(f, off, head + s + rest) == Splice(f, off + |head|, s)
  {
    var a, b := off + |head|, off + |head| + |s|;
    assert f[..a] == f[..off] + head;
    assert f[b..] == rest + f[b + |rest|..];
    Fivefold(f[..off], head, s, rest, f[b + |rest|..]);
  }

  lemma Fivefold(a: seq<byte>, b: seq<byte>, c: seq<byte>, d: seq<byte>, e: seq<byte>)
    ensures a + (b + c + d) + e == (a + b) + c + (d + e)
  {
  }

  /** Blocks listed by the inode: in range, distinct, marked as used, and enough for the size. */
  predicate GoodInode(m: Dinode, freemap: seq<nat>) {
    && |freemap| == DATA_BLOCKS && |m.addrs| == DIRECT && m.blocks <= DIRECT && m.size <= m.blocks * B
    && RfsDir.ValidAddrs(m.addrs[..m.blocks])
    && forall j :: 0 <= j < m.blocks ==>
      FIRST_DATA <= m.addrs[j] < FIRST_DATA + DATA_BLOCKS && freemap[m.addrs[j] - FIRST_DATA] != 0
  }

  /** Entry `q` of an inode's block list names a block of the disk, whether or not it is one of the file's. */
  predicate HasPage(addrs: seq<int>, q: nat) {
    q < |addrs| && 0 <= addrs[q] < RfsDir.DISK_BLOCKS
  }

  ghost function Bytes(data: seq<Page>, m: Dinode): (f: seq<byte>)
    requires ValidPages(data) && m.blocks <= |m.addrs| && RfsDir.ValidAddrs(m.addrs[..m.blocks])
    ensures |f| == m.blocks * B
  {
    Flat(data, m.addrs[..m.blocks])
  }

  /** A file grown by one block that was free stays well formed. */
  lemma GrownInode(m: Dinode, freemap: seq<nat>, b: nat)
    requires GoodInode(m, freemap) && m.blocks < DIRECT && b < |freemap| && freemap[b] == 0
    ensures var m1 := m.(addrs := m.addrs[m.blocks := FIRST_DATA + b], blocks := m.blocks + 1);
            && GoodInode(m1, freemap[b := 1])
            && m1.addrs[..m1.blocks] == m.addrs[..m.blocks] + [FIRST_DATA + b]
            && FIRST_DATA + b !in m.addrs[..m.blocks]
  {
  }

  // ---- the disk as rfs_write changes it ----

  /** The blocks of the disk, read as bytes and as directory records, with the cached inodes and the freemap. */
  datatype Store = Store(pages: seq<Page>, data: seq<RfsDir.Block>, vinodes: map<nat, Vinode>, freemap: seq<nat>)

  /** How a page reads as directory records. */
  ghost predicate WholeRecords(records: Page -> RfsDir.Block) {
    forall p :: |records(p)| == RfsDir.PER_BLOCK
  }

  ghost predicate Sound(s: Store, v: nat) {
    ValidPages(s.pages) && RfsDir.ValidData(s.data) && v in s.vinodes && GoodInode(s.vinodes[v].meta, s.freemap)
  }

  /** The bytes of all blocks of the file cached as vinode `v`. */
  ghost function RawOf(s: Store, v: nat): seq<byte>
    requires Sound(s, v)
  {
    Bytes(s.pages, s.vinodes[v].meta)
  }

  /** Blocks other than those listed are as they were. */
  ghost predicate OnlyThese(s0: Store, s1: Store, addrs: seq<int>) {
    && |s1.pages| == |s0.pages| && |s1.data| == |s0.data|
    && (forall b :: 0 <= b < |s0.pages| && b !in addrs ==> s1.pages[b] == s0.pages[b])
    && (forall b :: 0 <= b < |s0.data| && b !in addrs ==> s1.data[b] == s0.data[b])
  }

  /** From `s0` to `s1` only vinode `v` changes, and it is on the way to the same `target` blocks. */
  ghost predicate Toward(s0: Store, s1: Store, v: nat, target: nat) {
    && v in s0.vinodes && v in s1.vinodes
    && s1.vinodes == s0.vinodes[v := s0.vinodes[v].(meta := s1.vinodes[v].meta)]
    && GrowTo(s0.vinodes[v].meta, s0.freemap, target) == GrowTo(s1.vinodes[v].meta, s1.freemap, target)
  }

  lemma TowardItself(s: Store, v: nat, target: nat)
    requires v in s.vinodes
    ensures Toward(s, s, v, target)
  {
    assert s.vinodes == s.vinodes[v := s.vinodes[v].(meta := s.vinodes[v].meta)];
  }

  lemma TowardTransitive(s0: Store, s1: Store, s2: Store, v: nat, target: nat)
    requires Toward(s0, s1, v, target) && Toward(s1, s2, v, target)
    ensures Toward(s0, s2, v, target)
  {
  }

  /** Page `a` and its records become what `page` holds. */
  ghost function PutPage(s: Store, a: int, page: Page, records: Page -> RfsDir.Block): Store {
    s.(pages := if 0 <= a < |s.pages| then s.pages[a := page] else s.pages,
       data := if 0 <= a < |s.data| then s.data[a := records(page)] else s.data)
  }

  /** Vinode `v` with contents `m`. */
  ghost function PutMeta(s: Store, v: nat, m: Dinode): Store {
    if v in s.vinodes then s.(vinodes := s.vinodes[v := s.vinodes[v].(meta := m)]) else s
  }

  /** The page goes to block `j` of the file, which is allocated when it is the next one. */
  ghost function Flushed(s: Store, v: nat, j: nat, page: Page, records: Page -> RfsDir.Block): Store
    requires v in s.vinodes && j < |s.vinodes[v].meta.addrs|
  {
    var m := s.vinodes[v].meta;
    if j == m.blocks then
      var a := FIRST_DATA + FirstFreeBlock(s.freemap);
      PutPage(PutMeta(s, v, m.(addrs := m.addrs[j := a], blocks := m.blocks + 1)), a, page,
              records).(freemap := SetFree(s.freemap, a, 1))
    else PutPage(s, m.addrs[j], page, records)
  }

  /** Block `j` of the file is one it has, or the next one with a free block for it. */
  ghost predicate CanFlush(s: Store, v: nat, j: nat) {
    && ValidPages(s.pages) && |s.freemap| == DATA_BLOCKS && v in s.vinodes
    && j < |s.vinodes[v].meta.addrs| && j <= s.vinodes[v].meta.blocks
    && (if j == s.vinodes[v].meta.blocks then FirstFreeBlock(s.freemap) < |s.freemap|
      else HasPage(s.vinodes[v].meta.addrs, j))
  }

  /** Block `j` is one the file has. */
  ghost predicate CanPatch(s: Store, v: nat, j: nat) {
    ValidPages(s.pages) && v in s.vinodes && j < s.vinodes[v].meta.blocks && HasPage(s.vinodes[v].meta.addrs, j)
  }

  ghost function Patched(s: Store, v: nat, j: nat, align: nat, w: seq<byte>, records: Page -> RfsDir.Block): Store
    requires CanPatch(s, v, j) && align + |w| <= B
  {
    Flushed(s, v, j, PatchedPage(s, v, j, align, w), records)
  }

  ghost function PatchedPage(s: Store, v: nat, j: nat, align: nat, w: seq<byte>): (page: Page)
    requires CanPatch(s, v, j) && align + |w| <= B
    ensures |page| == B
  {
    Patch(s.pages[s.vinodes[v].meta.addrs[j]], align, w)
  }

  /** `times` blocks of `w`, from byte `k` on, are written to the file from block `j` on. */
  ghost function Stored(s: Store, v: nat, w: seq<byte>, k: nat, j: nat, times: nat,
                        records: Page -> RfsDir.Block): Store
    requires k + times * B <= |w|
  {
    if times == 0 then s
    else
      var s1 := Stored(s, v, w, k, j, times - 1, records);
      if CanFlush(s1, v, j + (times - 1)) then
        Flushed(s1, v, j + (times - 1), w[k + (times - 1) * B..k + (times - 1) * B + B], records)
      else s1
  }

  ghost predicate CanStore(s: Store, v: nat, w: seq<byte>, k: nat, j: nat, times: nat, records: Page -> RfsDir.Block)
    requires k + times * B <= |w|
  {
    forall i: nat :: i < times ==> CanFlush(Stored(s, v, w, k, j, i, records), v, j + i)
  }

  /** What the buffer holds after `times` blocks of `w`. */
  ghost function LastBlock(buffer: Page, w: seq<byte>, k: nat, times: nat): Page
    requires k + times * B <= |w|
  {
    if times == 0 then buffer else w[k + (times - 1) * B..k + (times - 1) * B + B]
  }

  /** Complete blocks, and then the rest of `w` filled up from the buffer. */
  ghost function Rest(s: Store, buffer: Page, v: nat, w: seq<byte>, k: nat, j: nat, times: nat, remain: nat,
                      records: Page -> RfsDir.Block): Store
    requires k + times * B + remain == |w| && remain < B && |buffer| == B
  {
    var s1 := Stored(s, v, w, k, j, times, records);
    if remain > 0 && CanFlush(s1, v, j + times) then
      Flushed(s1, v, j + times, w[k + times * B..] + LastBlock(buffer, w, k, times)[remain..], records)
    else s1
  }

  /** The blocks of a write from byte `align` of block `q` on. */
  ghost function From(s: Store, buffer: Page, v: nat, w: seq<byte>, q: nat, align: nat, times: nat, remain: nat,
                      records: Page -> RfsDir.Block): Store
    requires align < B && remain < B && |w| + align == times * B + remain && |buffer| == B
  {
    if align == 0 then Rest(s, buffer, v, w, 0, q, times, remain, records)
    else if !CanPatch(s, v, q) then s
    else if times > 0 then
      var page := PatchedPage(s, v, q, align, w[..B - align]);
      Rest(Patched(s, v, q, align, w[..B - align], records), page, v, w, B - align, q + 1, times - 1, remain, records)
    else Patched(s, v, q, align, w, records)
  }

  /** The blocks of vinode `v` in `s0` are the first of those in `s1`, and no other block of the disk differs. */
  ghost predicate Extends(s0: Store, s1: Store, v: nat) {
    && v in s0.vinodes && v in s1.vinodes && Listed(s1, v)
    && Owned(s0.vinodes[v].meta) <= Owned(s1.vinodes[v].meta)
    && OnlyThese(s0, s1, Owned(s1.vinodes[v].meta))
  }

  /** The block list has room for the blocks counted. */
  ghost predicate Listed(s: Store, v: nat) {
    v in s.vinodes && s.vinodes[v].meta.blocks <= |s.vinodes[v].meta.addrs|
  }

  lemma SoundIsListed(s: Store, v: nat)
    requires Sound(s, v)
    ensures Listed(s, v) && |s.freemap| == DATA_BLOCKS
  {
  }

  lemma ExtendsItself(s: Store, v: nat)
    requires Listed(s, v)
    ensures Extends(s, s, v)
  {
  }

  lemma ExtendsTransitive(s0: Store, s1: Store, s2: Store, v: nat)
    requires Extends(s0, s1, v) && Extends(s1, s2, v)
    ensures Extends(s0, s2, v)
  {
    var a1, a2 := Owned(s1.vinodes[v].meta), Owned(s2.vinodes[v].meta);
    assert a2[..|a1|] == a1;
    OnlyTheseTransitive(s0, s1, s2, a1, a2);
  }

  lemma OnlyTheseTransitive(s0: Store, s1: Store, s2: Store, a1: seq<int>, a2: seq<int>)
    requires OnlyThese(s0, s1, a1) && OnlyThese(s1, s2, a2) && forall b :: b !in a2 ==> b !in a1
    ensures OnlyThese(s0, s2, a2)
  {
  }

  lemma PutPageOnly(s: Store, a: int, page: Page, records: Page -> RfsDir.Block, addrs: seq<int>)
    requires a in addrs
    ensures OnlyThese(s, PutPage(s, a, page, records), addrs)
  {
  }

  lemma FlushExtends(s: Store, v: nat, j: nat, page: Page, records: Page -> RfsDir.Block)
    requires CanFlush(s, v, j) && Listed(s, v)
    ensures Extends(s, Flushed(s, v, j, page, records), v)
  {
    var m := s.vinodes[v].meta;
    if j == m.blocks {
      var a := FIRST_DATA + FirstFreeBlock(s.freemap);
      var m1 := m.(addrs := m.addrs[j := a], blocks := m.blocks + 1);
      assert Owned(m1) == Owned(m) + [a];
      PutPageOnly(PutMeta(s, v, m1), a, page, records, Owned(m1));
    } else {
      assert Owned(m)[j] == m.addrs[j];
      PutPageOnly(s, m.addrs[j], page, records, Owned(m));
    }
  }

  lemma {:induction false} StoredExtends(s: Store, v: nat, w: seq<byte>, k: nat, j: nat, times: nat,
                                         records: Page -> RfsDir.Block)
    requires k + times * B <= |w| && Listed(s, v)
    ensures Extends(s, Stored(s, v, w, k, j, times, records), v)
  {
    hide CanFlush, Flushed, Extends;
    if times == 0 {
      ExtendsItself(s, v);
    } else {
      var s1 := Stored(s, v, w, k, j, times - 1, records);
      StoredExtends(s, v, w, k, j, times - 1, records);
      if CanFlush(s1, v, j + (times - 1)) {
        StillListed(s, s1, v);
        FlushExtends(s1, v, j + (times - 1), w[k + (times - 1) * B..k + (times - 1) * B + B], records);
        ExtendsTransitive(s, s1, Stored(s, v, w, k, j, times, records), v);
      }
    }
  }

  lemma StillListed(s0: Store, s1: Store, v: nat)
    requires Extends(s0, s1, v)
    ensures Listed(s1, v)
  {
  }

  lemma RestExtends(s: Store, buffer: Page, v: nat, w: seq<byte>, k: nat, j: nat, times: nat, remain: nat,
                    records: Page -> RfsDir.Block)
    requires k + times * B + remain == |w| && remain < B && |buffer| == B && Listed(s, v)
    ensures Extends(s, Rest(s, buffer, v, w, k, j, times, remain, records), v)
  {
    hide CanFlush, Flushed, Extends, Stored;
    var s1 := Stored(s, v, w, k, j, times, records);
    StoredExtends(s, v, w, k, j, times, records);
    if remain > 0 && CanFlush(s1, v, j + times) {
      StillListed(s, s1, v);
      FlushExtends(s1, v, j + times, w[k + times * B..] + LastBlock(buffer, w, k, times)[remain..], records);
      ExtendsTransitive(s, s1, Rest(s, buffer, v, w, k, j, times, remain, records), v);
    }
  }

  lemma PatchExtends(s: Store, v: nat, j: nat, align: nat, w: seq<byte>, records: Page -> RfsDir.Block)
    requires CanPatch(s, v, j) && Listed(s, v) && align + |w| <= B && |s.freemap| == DATA_BLOCKS
    ensures Extends(s, Patched(s, v, j, align, w, records), v)
  {
    FlushExtends(s, v, j, Patch(s.pages[s.vinodes[v].meta.addrs[j]], align, w), records);
  }

  /** A write touches no block but those the file has afterwards. */
  lemma FromExtends(s: Store, buffer: Page, v: nat, w: seq<byte>, q: nat, align: nat, times: nat, remain: nat,
                    records: Page -> RfsDir.Block)
    requires align < B && remain < B && |w| + align == times * B + remain && |buffer| == B
    requires Listed(s, v) && |s.freemap| == DATA_BLOCKS
    ensures Extends(s, From(s, buffer, v, w, q, align, times, remain, records), v)
  {
    hide CanPatch, Patched, Extends, Rest;
    if align == 0 {
      RestExtends(s, buffer, v, w, 0, q, times, remain, records);
    } else if !CanPatch(s, v, q) {
      ExtendsItself(s, v);
    } else if times > 0 {
      var s1 := Patched(s, v, q, align, w[..B - align], records);
      PatchExtends(s, v, q, align, w[..B - align], records);
      StillListed(s, s1, v);
      var page := PatchedPage(s, v, q, align, w[..B - align]);
      RestExtends(s1, page, v, w, B - align, q + 1, times - 1, remain, records);
      ExtendsTransitive(s, s1, From(s, buffer, v, w, q, align, times, remain, records), v);
    } else {
      PatchExtends(s, v, q, align, w, records);
    }
  }

  /** Writing over block `j` of the file. */
  lemma FlushOver(s: Store, v: nat, j: nat, page: Page, records: Page -> RfsDir.Block)
    requires Sound(s, v) && j < s.vinodes[v].meta.blocks && |page| == B && WholeRecords(records)
    ensures var s1 := Flushed(s, v, j, page, records);
            && Sound(s1, v) && RawOf(s1, v) == Splice(RawOf(s, v), j * B, page)
            && s1.vinodes == s.vinodes && s1.freemap == s.freemap
  {
    var m := s.vinodes[v].meta;
    FlatSet(s.pages, m.addrs[..m.blocks], j, page);
  }

  /** Writing behind the last block. */
  lemma FlushNext(s: Store, v: nat, page: Page, records: Page -> RfsDir.Block)
    requires Sound(s, v) && |page| == B && WholeRecords(records) && s.vinodes[v].meta.blocks < DIRECT
    requires FirstFreeBlock(s.freemap) < |s.freemap|
    ensures var m := s.vinodes[v].meta;
            var s1 := Flushed(s, v, m.blocks, page, records);
            && Sound(s1, v) && RawOf(s1, v) == Splice(RawOf(s, v), m.blocks * B, page)
            && s1.vinodes == s.vinodes[v := s.vinodes[v].(meta := s1.vinodes[v].meta)]
            && (s1.vinodes[v].meta, s1.freemap) == Grow(m, s.freemap, m.blocks + 1)
  {
    var m := s.vinodes[v].meta;
    var b := FirstFreeBlock(s.freemap);
    GrownInode(m, s.freemap, b);
    FlatAppend(s.pages, m.addrs[..m.blocks], FIRST_DATA + b, page);
    OneMore(m, s.freemap);
  }

  lemma OneMore(m: Dinode, freemap: seq<nat>)
    requires m.blocks < |m.addrs|
    ensures var b := FirstFreeBlock(freemap);
            Grow(m, freemap, m.blocks + 1) ==
              (m.(addrs := m.addrs[m.blocks := FIRST_DATA + b], blocks := m.blocks + 1),
               SetFree(freemap, FIRST_DATA + b, 1))
  {
  }

  /** One block of a write keeps the way to the target. */
  lemma FlushToward(s: Store, v: nat, j: nat, page: Page, records: Page -> RfsDir.Block, target: nat)
    requires Sound(s, v) && |page| == B && WholeRecords(records)
    requires j <= s.vinodes[v].meta.blocks && j < target <= DIRECT && CanGrow(s.vinodes[v].meta, s.freemap, target)
    ensures var s1 := Flushed(s, v, j, page, records);
            && Sound(s1, v) && RawOf(s1, v) == Splice(RawOf(s, v), j * B, page)
            && Toward(s, s1, v, target)
            && CanGrow(s1.vinodes[v].meta, s1.freemap, target) && j + 1 <= s1.vinodes[v].meta.blocks
  {
    var m := s.vinodes[v].meta;
    GrowOneMore(m, s.freemap, j + 1, target);
    if j == m.blocks {
      FlushNext(s, v, page, records);
    } else {
      FlushOver(s, v, j, page, records);
      TowardItself(s, v, target);
    }
  }

  /** Patching block `j` from byte `align` on. */
  ghost function Patch(page: Page, align: nat, s: seq<byte>): Page
    requires align + |s| <= |page|
  {
    page[..align] + s + page[align + |s|..]
  }

  lemma PatchToward(s: Store, v: nat, j: nat, align: nat, w: seq<byte>, records: Page -> RfsDir.Block, target: nat)
    requires Sound(s, v) && j < s.vinodes[v].meta.blocks && align + |w| <= B && WholeRecords(records)
    ensures var a := s.vinodes[v].meta.addrs[j];
            && 0 <= a < |s.pages| && |s.pages[a]| == B
            && var s1 := Flushed(s, v, j, Patch(s.pages[a], align, w), records);
            && Sound(s1, v) && RawOf(s1, v) == Splice(RawOf(s, v), j * B + align, w)
              && Toward(s, s1, v, target)
            && s1.vinodes == s.vinodes && s1.freemap == s.freemap
  {
    var m := s.vinodes[v].meta;
    var page := s.pages[m.addrs[j]];
    FlushOver(s, v, j, Patch(page, align, w), records);
    TowardItself(s, v, target);
    PatchSplices(s.pages, m.addrs[..m.blocks], j, align, w);
  }

  lemma PatchSplices(data: seq<Page>, addrs: seq<int>, j: nat, align: nat, w: seq<byte>)
    requires ValidPages(data) && RfsDir.ValidAddrs(addrs) && j < |addrs| && align + |w| <= B
    ensures Splice(Flat(data, addrs), j * B, Patch(data[addrs[j]], align, w))
      == Splice(Flat(data, addrs), j * B + align, w)
  {
    hide Flat, Splice;
    var f, page := Flat(data, addrs), data[addrs[j]];
    FlatBlock(data, addrs, j);
    assert page[..align] == f[j * B..j * B + align];
    assert page[align + |w|..] == f[j * B + align + |w|..j * B + B];
    SpliceWithin(f, j * B, page[..align], w, page[align + |w|..]);
  }

  /** Byte-level access to the files of a file system: the same disk, its blocks read as bytes. */
  class FileIo {
    const fs: Rfs.FileSystem
    /** How a block of bytes would read as directory records: what fs.dev holds for it. */
    const records: Page -> RfsDir.Block
    var pages: seq<Page>
    var iobuffer: Page

    constructor (disk: Rfs.FileSystem, reading: Page -> RfsDir.Block, blocks: seq<Page>)
      requires ValidPages(blocks) && WholeRecords(reading)
      ensures fs == disk && records == reading && pages == blocks && |iobuffer| == B
    {
      fs, records, pages, iobuffer := disk, reading, blocks, blocks[0];
    }

    ghost predicate Ready()
      reads this, fs, fs.dev
    {
      |iobuffer| == B && WholeRecords(records) && fs.Valid()
    }

    ghost predicate Valid(v: nat)
      reads this, fs, fs.dev
    {
      Ready() && Sound(Blocks(), v)
    }

    ghost function Blocks(): Store
      reads this, fs, fs.dev
    {
      Store(pages, fs.dev.data, fs.vinodes, fs.freemap)
    }

    ghost function Raw(v: nat): seq<byte>
      requires Valid(v)
      reads this, fs, fs.dev
    {
      RawOf(Blocks(), v)
    }

    /** Contents of the file cached as vinode `v`. */
    ghost function Contents(v: nat): seq<byte>
      requires Valid(v)
      reads this, fs, fs.dev
    {
      ContentsOf(Blocks(), v)
    }

    /** ramdisk_write of the buffer to block `a`. */
    method PutBlock(a: int)
      requires Ready() && ValidPages(pages) && 0 <= a < RfsDir.DISK_BLOCKS
      modifies this`pages, fs.dev`data
      ensures Ready() && Blocks() == PutPage(old(Blocks()), a, iobuffer, records)
    {
      pages := pages[a := iobuffer];
      fs.dev.data := fs.dev.data[a := records(iobuffer)];
    }

    /** Writes the buffer to block `j` of the file, allocating it when it is the next one. */
    method FlushBlock(v: nat, j: nat)
      requires Ready() && CanFlush(Blocks(), v, j)
      modifies this`pages, fs`vinodes, fs`freemap, fs.dev`data
      ensures Ready() && Blocks() == Flushed(old(Blocks()), v, j, iobuffer, records)
    {
      var m := fs.vinodes[v].meta;
      if j == m.blocks {
        var a := fs.AllocBlock();
        fs.vinodes := fs.vinodes[v := fs.vinodes[v].(meta := m.(addrs := m.addrs[j := a], blocks := m.blocks + 1))];
        PutBlock(a);
      } else {
        PutBlock(m.addrs[j]);
      }
    }

    /** The unaligned first block of a write: read, patch, write back. */
    method PatchBlock(v: nat, j: nat, align: nat, s: seq<byte>)
      requires Ready() && CanPatch(Blocks(), v, j) && align + |s| <= B
      modifies this`pages, this`iobuffer, fs.dev`data
      ensures Ready() && Blocks() == Patched(old(Blocks()), v, j, align, s, records)
      ensures iobuffer == PatchedPage(old(Blocks()), v, j, align, s)
    {
      var m := fs.vinodes[v].meta;
      iobuffer := pages[m.addrs[j]];
      iobuffer := iobuffer[..align] + s + iobuffer[align + |s|..];
      PutBlock(m.addrs[j]);
    }

    /** The loop over complete blocks, from byte `k` of `w` and block `j` of the file on. */
    method WriteBlocks(v: nat, w: seq<byte>, k: nat, j: nat, times: nat)
      requires Ready() && k + times * B <= |w| && CanStore(Blocks(), v, w, k, j, times, records)
      modifies this`pages, this`iobuffer, fs`vinodes, fs`freemap, fs.dev`data
      ensures Ready() && Blocks() == Stored(old(Blocks()), v, w, k, j, times, records)
      ensures iobuffer == LastBlock(old(iobuffer), w, k, times)
    {
      hide CanFlush, Flushed;
      var i := 0;
      while i < times
        invariant 0 <= i <= times && Ready()
        invariant Blocks() == Stored(old(Blocks()), v, w, k, j, i, records)
        invariant iobuffer == LastBlock(old(iobuffer), w, k, i)
      {
        iobuffer := w[k + i * B..k + i * B + B];
        FlushBlock(v, j + i);
        i := i + 1;
      }
    }

    /** Complete blocks, then what remains: a partial block is written over whatever the buffer holds. */
    method WriteRest(v: nat, w: seq<byte>, k: nat, j: nat, times: nat, remain: nat)
      requires Ready() && k + times * B + remain == |w| && remain < B
      requires CanStore(Blocks(), v, w, k, j, times, records)
      requires remain > 0 ==> CanFlush(Stored(Blocks(), v, w, k, j, times, records), v, j + times)
      modifies this`pages, this`iobuffer, fs`vinodes, fs`freemap, fs.dev`data
      ensures Ready() && Blocks() == Rest(old(Blocks()), old(iobuffer), v, w, k, j, times, remain, records)
    {
      WriteBlocks(v, w, k, j, times);
      if remain > 0 {
        iobuffer := w[k + times * B..] + iobuffer[remain..];
        FlushBlock(v, j + times);
      }
    }

    /** A write from byte `align` of block `q` on: an unaligned first block, complete blocks, the rest. */
    method WriteFrom(v: nat, w: seq<byte>, q: nat, align: nat, times: nat, remain: nat, ghost target: nat)
      requires Ready() && CanStart(Blocks(), v, q, align, target)
      requires align < B && remain < B && |w| + align == times * B + remain
      requires target == q + times + if remain > 0 then 1 else 0
      modifies this`pages, this`iobuffer, fs`vinodes, fs`freemap, fs.dev`data
      ensures Ready() && Blocks() == From(old(Blocks()), old(iobuffer), v, w, q, align, times, remain, records)
    {
      if align == 0 {
        RestCanFlush(Blocks(), v, w, q, times, remain, records, target);
        WriteRest(v, w, 0, q, times, remain);
      } else if times > 0 {
        WriteUnaligned(v, w, q, align, times, remain, target);
      } else {
        PatchIsReady(Blocks(), v, q, align, target);
        PatchBlock(v, q, align, w);
      }
    }

    /** The first block is read and patched up to its end, then the rest follows from a block boundary. */
    method WriteUnaligned(v: nat, w: seq<byte>, q: nat, align: nat, times: nat, remain: nat, ghost target: nat)
      requires Ready() && CanStart(Blocks(), v, q, align, target)
      requires 0 < align < B && remain < B && 0 < times && |w| + align == times * B + remain
      requires target == q + times + if remain > 0 then 1 else 0
      modifies this`pages, this`iobuffer, fs`vinodes, fs`freemap, fs.dev`data
      ensures Ready() && Blocks() == From(old(Blocks()), old(iobuffer), v, w, q, align, times, remain, records)
    {
      hide CanStart, CanFlush, CanPatch, Patched, Sound;
      PatchIsReady(Blocks(), v, q, align, target);
      UnalignedCanFlush(Blocks(), v, w, q, align, times, remain, records, target);
      PatchBlock(v, q, align, w[..B - align]);
      WriteRest(v, w, B - align, q + 1, times - 1, remain);
    }

    /** The size becomes the larger of the old one and the end of the write. */
    method SetSize(v: nat, before: nat, end: nat)
      requires Ready() && v in fs.vinodes
      modifies fs`vinodes
      ensures Ready() && Blocks() == Resized(old(Blocks()), v, before, end)
    {
      var m := fs.vinodes[v].meta;
      fs.vinodes := fs.vinodes[v := fs.vinodes[v].(meta := m.(size := if before < end then end else before))];
    }

    /**
     rfs_write. The file's bytes become the old ones with `w` spliced in at `offset`, followed by a piece of the buffer
     when the last block was not read first. The inode and the freemap change as WriteMeta says; no other inode changes,
     and no block but those of the file.
     */
    method Write(v: nat, w: seq<byte>, offset: nat) returns (n: nat, ghost left: Page)
      requires Valid(v) && offset <= fs.vinodes[v].meta.size
      requires CanGrow(fs.vinodes[v].meta, fs.freemap, BlocksFor(offset + |w|))
      modifies this`pages, this`iobuffer, fs`vinodes, fs`freemap, fs.dev`data
      ensures Ready() && n == |w| && |left| == B && (offset % B == 0 && |w| < B ==> left == old(iobuffer))
      ensures Completed(old(Blocks()), Blocks(), v, w, offset, left)
    {
      hide CanStart, CanGrow, Completed, Written, From, Extends, Overruns, Resized, Tail, GoodInode;
      ghost var s0, buffer := Blocks(), iobuffer;
      var size := fs.vinodes[v].meta.size;
      var q, align, times, remain := Layout(offset, |w|);
      StartsHere(s0, v, offset, |w|, q, align);
      WriteFrom(v, w, q, align, times, remain, BlocksFor(offset + |w|));
      left := Overrun(s0, buffer, v, w, offset, q, align, times, remain, records);
      SoundIsListed(s0, v);
      FromExtends(s0, buffer, v, w, q, align, times, remain, records);
      SizeUpdated(s0, Blocks(), v, w, offset, left);
      StillListed(s0, Blocks(), v);
      SetSize(v, size, offset + |w|);
      n := |w|;
    }

    /** rfs_read: gathers the bytes block by block, then hands out what precedes the first NUL. */
    method Read(v: nat, len: nat, offset: nat) returns (delivered: seq<byte>, n: nat)
      requires Valid(v) && offset <= fs.vinodes[v].meta.size
      requires offset == fs.vinodes[v].meta.size ==> HasPage(fs.vinodes[v].meta.addrs, offset / B)
      modifies this`iobuffer
      ensures Valid(v) && n == if fs.vinodes[v].meta.size < offset + len then fs.vinodes[v].meta.size - offset else len
      ensures delivered == BeforeNul(Contents(v)[offset..offset + n])
    {
      hide Flat;
      var size := fs.vinodes[v].meta.size;
      n := if size < offset + len then size - offset else len;
      var buffer := GatherBytes(v, n, offset);
      SubSlice(Raw(v), 0, size, offset, n);
      delivered := BeforeNul(buffer);
    }

    method GatherBytes(v: nat, n: nat, offset: nat) returns (buffer: seq<byte>)
      requires Valid(v) && offset + n <= fs.vinodes[v].meta.blocks * B
      requires offset == fs.vinodes[v].meta.blocks * B ==> HasPage(fs.vinodes[v].meta.addrs, offset / B)
      modifies this`iobuffer
      ensures Valid(v) && buffer == Raw(v)[offset..offset + n]
    {
      var block, align, times, remain := Layout(offset, n);
      var first := if times == 0 then n else B - align;
      buffer := ReadFirst(v, block, align, first);
      if times > 0 {
        assert offset + first == (block + 1) * B && offset + n == (block + times) * B + remain;
        buffer := ReadRest(v, block + 1, times - 1, remain, buffer, offset);
      }
    }

    /**
     The first block of a read, from byte `align` on; at the very end of the file it is a block the file does not
     have.
     */
    method ReadFirst(v: nat, block: nat, align: nat, first: nat) returns (buffer: seq<byte>)
      requires Valid(v) && align + first <= B && block * B + align + first <= fs.vinodes[v].meta.blocks * B
      requires block < fs.vinodes[v].meta.blocks || HasPage(fs.vinodes[v].meta.addrs, block)
      modifies this`iobuffer
      ensures Valid(v) && buffer == Raw(v)[block * B + align..block * B + align + first]
    {
      var m := fs.vinodes[v].meta;
      iobuffer := pages[m.addrs[block]];
      if block < m.blocks {
        FlatBlock(pages, m.addrs[..m.blocks], block);
        SubSlice(Raw(v), block * B, B, align, first);
      }
      buffer := iobuffer[align..align + first];
    }

    method ReadRest(v: nat, from: nat, times: nat, remain: nat, start: seq<byte>, ghost offset: nat)
      returns (buffer: seq<byte>)
      requires Valid(v) && remain < B && offset + |start| == from * B
      requires (from + times) * B + remain <= |Raw(v)|
      requires start == Raw(v)[offset..from * B]
      modifies this`iobuffer
      ensures Valid(v) && buffer == Raw(v)[offset..(from + times) * B + remain]
    {
      hide Flat;
      var addrs := fs.vinodes[v].meta.addrs[..fs.vinodes[v].meta.blocks];
      ghost var f := Raw(v);
      buffer := start;
      var block := from;
      while block < from + times
        invariant from <= block <= from + times && Valid(v)
        invariant buffer == f[offset..block * B]
      {
        iobuffer := pages[addrs[block]];
        FlatBlock(pages, addrs, block);
        JoinSlices(f, offset, block * B, B);
        buffer := buffer + iobuffer;
        block := block + 1;
      }
      if remain > 0 {
        iobuffer := pages[addrs[block]];
        FlatBlock(pages, addrs, block);
        SubSlice(f, block * B, B, 0, remain);
        JoinSlices(f, offset, block * B, remain);
        buffer := buffer + iobuffer[0..remain];
      }
    }
  }

  lemma SubSlice(f: seq<byte>, a: nat, n: nat, c: nat, k: nat)
    requires c + k <= n && a + n <= |f|
    ensures f[a..a + n][c..c + k] == f[a + c..a + c + k]
  {
    var x, y := f[a..a + n][c..c + k], f[a + c..a + c + k];
    assert |x| == |y|;
    assert forall i :: 0 <= i < k ==> x[i] == f[a + c + i] && y[i] == f[a + c + i];
  }

  lemma JoinSlices(f: seq<byte>, a: nat, b: nat, k: nat)
    requires a <= b && b + k <= |f|
    ensures f[a..b] + f[b..b + k] == f[a..b + k]
  {
  }

  /** A read delivers everything it gathered exactly when that holds no NUL. */
  lemma {:induction false} WholeWithoutNul(s: seq<byte>)
    ensures BeforeNul(s) == s <==> 0 !in s
  {
    if s != [] && s[0] != 0 {
      WholeWithoutNul(s[1..]);
      assert s == [s[0]] + s[1..];
    }
  }

  /** What strcpy copies. */
  function BeforeNul(s: seq<byte>): (r: seq<byte>)
    ensures r <= s && 0 !in r && (|r| < |s| ==> s[|r|] == 0)
  {
    if s == [] || s[0] == 0 then [] else [s[0]] + BeforeNul(s[1..])
  }

  /**
   The last block of a write is filled up from the buffer, not from the file, unless the write ends the block or
   never left an unaligned first one.
   */
  predicate Overruns(offset: nat, len: nat) {
    (offset + len) % B != 0 && (offset % B == 0 || offset % B + len >= B)
  }

  /** What the write puts behind `w` in the file's last written block: a piece of the old buffer `left`. */
  function Tail(offset: nat, len: nat, left: Page): (t: seq<byte>)
    requires |left| == B
    ensures |t| == if Overruns(offset, len) then B - (offset + len) % B else 0
  {
    if Overruns(offset, len) then left[(offset + len) % B..] else []
  }

  lemma WriteArithmetic(offset: nat, len: nat)
    ensures var q, align := offset / B, offset % B;
            var times, remain := (len + align) / B, (len + align) % B;
            && offset == q * B + align && len + align == times * B + remain
            && (offset + len) % B == remain
            && BlocksFor(offset + len) == q + times + (if remain > 0 then 1 else 0)
            && (Overruns(offset, len) <==> remain > 0 && (align == 0 || times > 0))
  {
  }

  /** How a transfer of `len` bytes at `offset` falls onto blocks. */
  method Layout(offset: nat, len: nat) returns (q: nat, align: nat, times: nat, remain: nat)
    ensures offset == q * B + align && align < B && len + align == times * B + remain && remain < B
    ensures BlocksFor(offset + len) == q + times + if remain > 0 then 1 else 0
    ensures Overruns(offset, len) <==> remain > 0 && (align == 0 || times > 0)
    ensures (offset + len) % B == remain
    ensures offset % B == 0 && len < B ==> align == 0 && times == 0
  {
    WriteArithmetic(offset, len);
    q, align := offset / B, offset % B;
    times, remain := (len + align) / B, (len + align) % B;
  }

  lemma TailIs(offset: nat, len: nat, left: Page, align: nat, times: nat, remain: nat)
    requires |left| == B && remain < B
    requires Overruns(offset, len) <==> remain > 0 && (align == 0 || times > 0)
    requires (offset + len) % B == remain
    ensures Tail(offset, len, left) == if remain > 0 && (align == 0 || times > 0) then left[remain..] else []
  {
  }

  lemma GrownAlready(m: Dinode, freemap: seq<nat>, target: nat)
    requires target <= m.blocks
    ensures GrowTo(m, freemap, target) == (m, freemap)
  {
  }

  /** `bytes` are written at `offset` of a file that had `f0`, and it has at least `blocks` blocks. */
  ghost predicate Written(s0: Store, s: Store, v: nat, f0: seq<byte>, offset: nat, bytes: seq<byte>, blocks: nat,
                          target: nat) {
    && Sound(s, v) && offset <= |f0| && RawOf(s, v) == Splice(f0, offset, bytes)
    && blocks <= s.vinodes[v].meta.blocks && Toward(s0, s, v, target)
  }

  /** In the middle of writing `w` at `offset`: `k` bytes are done and block `j` is next. */
  ghost predicate Writing(s0: Store, s: Store, v: nat, f0: seq<byte>, offset: nat, w: seq<byte>, k: nat, j: nat,
                          target: nat) {
    && k <= |w| && offset + k == j * B && target <= DIRECT
    && Written(s0, s, v, f0, offset, w[..k], j, target)
    && CanGrow(s.vinodes[v].meta, s.freemap, target)
  }

  /** A write can start in block `q`, and then there are blocks for all of it. */
  ghost predicate CanStart(s: Store, v: nat, q: nat, align: nat, target: nat) {
    && Sound(s, v) && target <= DIRECT && CanGrow(s.vinodes[v].meta, s.freemap, target)
    && if align == 0 then q <= s.vinodes[v].meta.blocks else q < s.vinodes[v].meta.blocks
  }

  lemma OneBlock(s0: Store, s: Store, v: nat, f0: seq<byte>, offset: nat, w: seq<byte>, k: nat, j: nat, page: Page,
                 records: Page -> RfsDir.Block, target: nat)
    requires Writing(s0, s, v, f0, offset, w, k, j, target) && |page| == B && j < target
    requires WholeRecords(records)
    ensures CanFlush(s, v, j)
    ensures var s1 := Flushed(s, v, j, page, records);
            && Written(s0, s1, v, f0, offset, w[..k] + page, j + 1, target)
            && CanGrow(s1.vinodes[v].meta, s1.freemap, target)
  {
    GrowOneMore(s.vinodes[v].meta, s.freemap, j + 1, target);
    FlushToward(s, v, j, page, records, target);
    TowardTransitive(s0, s, Flushed(s, v, j, page, records), v, target);
    SpliceTwice(f0, offset, w[..k], page);
  }

  lemma NextBlock(s0: Store, s: Store, s1: Store, v: nat, f0: seq<byte>, offset: nat, w: seq<byte>, k: nat, j: nat,
                  k1: nat, j1: nat,
                  records: Page -> RfsDir.Block, target: nat)
    requires Writing(s0, s, v, f0, offset, w, k, j, target) && j < target && WholeRecords(records)
    requires k + B <= |w|
    requires k1 == k + B && j1 == j + 1 && CanFlush(s, v, j) && s1 == Flushed(s, v, j, w[k..k + B], records)
    ensures Writing(s0, s1, v, f0, offset, w, k1, j1, target)
  {
    OneBlock(s0, s, v, f0, offset, w, k, j, w[k..k + B], records, target);
    assert w[..k] + w[k..k + B] == w[..k + B];
  }

  /** The blocks of the loop, one after the other. */
  lemma {:induction false} StoredIsWriting(s0: Store, s: Store, v: nat, f0: seq<byte>, offset: nat, w: seq<byte>,
                                           k: nat, j: nat,
                                           times: nat, records: Page -> RfsDir.Block, target: nat)
    requires Writing(s0, s, v, f0, offset, w, k, j, target) && WholeRecords(records)
    requires k + times * B <= |w| && j + times <= target
    ensures Writing(s0, Stored(s, v, w, k, j, times, records), v, f0, offset, w,
                    k + times * B, j + times, target)
  {
    hide Writing, CanFlush, Flushed;
    if times > 0 {
      StoredIsWriting(s0, s, v, f0, offset, w, k, j, times - 1, records, target);
      var s1 := Stored(s, v, w, k, j, times - 1, records);
      WritingCanFlush(s0, s1, v, f0, offset, w, k + (times - 1) * B, j + (times - 1), target);
      NextBlock(s0, s1, Stored(s, v, w, k, j, times, records), v, f0, offset, w, k + (times - 1) * B, j + (times - 1),
                k + times * B, j + times, records, target);
    }
  }

  lemma WritingCanFlush(s0: Store, s: Store, v: nat, f0: seq<byte>, offset: nat, w: seq<byte>, k: nat, j: nat,
                        target: nat)
    requires Writing(s0, s, v, f0, offset, w, k, j, target) && j < target
    ensures CanFlush(s, v, j)
  {
    GrowOneMore(s.vinodes[v].meta, s.freemap, j + 1, target);
  }

  /** Every block of a write that is under way finds its place. */
  lemma AllCanFlush(s0: Store, s: Store, v: nat, f0: seq<byte>, offset: nat, w: seq<byte>, k: nat, j: nat, times: nat,
                    remain: nat,
                    records: Page -> RfsDir.Block, target: nat)
    requires Writing(s0, s, v, f0, offset, w, k, j, target) && WholeRecords(records)
    requires k + times * B + remain == |w| && target == j + times + if remain > 0 then 1 else 0
    ensures CanStore(s, v, w, k, j, times, records)
    ensures remain > 0 ==> CanFlush(Stored(s, v, w, k, j, times, records), v, j + times)
  {
    hide Writing, CanFlush, Stored;
    forall i: nat | i <= times
      && (i < times || remain > 0) ensures CanFlush(Stored(s, v, w, k, j, i, records), v, j + i) {
      StoredIsWriting(s0, s, v, f0, offset, w, k, j, i, records, target);
      WritingCanFlush(s0, Stored(s, v, w, k, j, i, records), v, f0, offset, w, k + i * B, j + i, target);
    }
  }

  /** What the buffer adds behind `w`. */
  ghost function Filler(buffer: Page, w: seq<byte>, k: nat, times: nat, remain: nat): seq<byte>
    requires k + times * B <= |w| && remain < B && |buffer| == B
  {
    if remain > 0 then LastBlock(buffer, w, k, times)[remain..] else []
  }

  lemma RestIsWritten(s0: Store, s: Store, buffer: Page, v: nat, f0: seq<byte>, offset: nat, w: seq<byte>, k: nat,
                      j: nat,
                      times: nat, remain: nat, records: Page -> RfsDir.Block, target: nat)
    requires Writing(s0, s, v, f0, offset, w, k, j, target) && WholeRecords(records) && |buffer| == B
    requires k + times * B + remain == |w| && remain < B && target == j + times + if remain > 0 then 1 else 0
    ensures Written(s0, Rest(s, buffer, v, w, k, j, times, remain, records), v, f0, offset,
                    w + Filler(buffer, w, k, times, remain), target, target)
  {
    hide Writing, Written, CanFlush, Flushed;
    var s1, at := Stored(s, v, w, k, j, times, records), k + times * B;
    StoredIsWriting(s0, s, v, f0, offset, w, k, j, times, records, target);
    if remain > 0 {
      var fill := LastBlock(buffer, w, k, times)[remain..];
      OneBlock(s0, s1, v, f0, offset, w, at, j + times, w[at..] + fill, records, target);
      assert w[..at] + (w[at..] + fill) == w + fill;
    } else {
      AllWritten(s0, s1, v, f0, offset, w, target);
    }
  }

  lemma AllWritten(s0: Store, s: Store, v: nat, f0: seq<byte>, offset: nat, w: seq<byte>, target: nat)
    requires Writing(s0, s, v, f0, offset, w, |w|, target, target)
    ensures Written(s0, s, v, f0, offset, w + [], target, target)
  {
    assert w[..|w|] == w && w + [] == w;
  }

  /** Nothing is written yet, at a block boundary. */
  lemma FromBoundary(s: Store, v: nat, w: seq<byte>, q: nat, target: nat)
    requires CanStart(s, v, q, 0, target)
    ensures Writing(s, s, v, RawOf(s, v), q * B, w, 0, q, target)
  {
    TowardItself(s, v, target);
    assert w[..0] == [] && Splice(RawOf(s, v), q * B, []) == RawOf(s, v);
  }

  lemma StartIsSound(s: Store, v: nat, q: nat, align: nat, target: nat)
    requires CanStart(s, v, q, align, target)
    ensures Sound(s, v)
  {
  }

  lemma RestCanFlush(s: Store, v: nat, w: seq<byte>, q: nat, times: nat, remain: nat, records: Page -> RfsDir.Block,
                     target: nat)
    requires CanStart(s, v, q, 0, target) && WholeRecords(records)
    requires times * B + remain == |w| && target == q + times + if remain > 0 then 1 else 0
    ensures CanStore(s, v, w, 0, q, times, records)
    ensures remain > 0 ==> CanFlush(Stored(s, v, w, 0, q, times, records), v, q + times)
  {
    FromBoundary(s, v, w, q, target);
    AllCanFlush(s, s, v, RawOf(s, v), q * B, w, 0, q, times, remain, records, target);
  }

  lemma PatchIsReady(s: Store, v: nat, q: nat, align: nat, target: nat)
    requires CanStart(s, v, q, align, target) && 0 < align
    ensures CanPatch(s, v, q)
  {
  }

  /** The first block is patched up to its end, and the write goes on from a block boundary. */
  lemma AfterPatch(s: Store, v: nat, w: seq<byte>, q: nat, align: nat, times: nat, remain: nat,
                   records: Page -> RfsDir.Block, target: nat)
    requires CanStart(s, v, q, align, target) && WholeRecords(records)
    requires 0 < align < B && 0 < times && |w| + align == times * B + remain
    ensures CanPatch(s, v, q) && B - align <= |w|
    ensures Writing(s, Patched(s, v, q, align, w[..B - align], records), v, RawOf(s, v), q * B + align, w, B - align,
                    q + 1, target)
  {
    PatchToward(s, v, q, align, w[..B - align], records, target);
  }

  lemma UnalignedCanFlush(s: Store, v: nat, w: seq<byte>, q: nat, align: nat, times: nat, remain: nat,
                          records: Page -> RfsDir.Block, target: nat)
    requires CanStart(s, v, q, align, target) && WholeRecords(records)
    requires 0 < align < B && 0 < times && |w| + align == times * B + remain && remain < B
    requires target == q + times + if remain > 0 then 1 else 0
    ensures CanPatch(s, v, q) && B - align <= |w|
    ensures var s1 := Patched(s, v, q, align, w[..B - align], records);
            && CanStore(s1, v, w, B - align, q + 1, times - 1, records)
            && (remain > 0 ==> CanFlush(Stored(s1, v, w, B - align, q + 1, times - 1, records), v, q + 1 + (times - 1)))
  {
    hide CanStore, CanFlush, Writing, Stored, Patched;
    AfterPatch(s, v, w, q, align, times, remain, records, target);
    AllCanFlush(s, Patched(s, v, q, align, w[..B - align], records), v, RawOf(s, v), q * B + align, w, B - align, q + 1,
                times - 1, remain, records, target);
  }

  /** The whole write stays in its first block. */
  lemma WithinBlock(s: Store, v: nat, w: seq<byte>, q: nat, align: nat, records: Page -> RfsDir.Block, target: nat)
    requires CanStart(s, v, q, align, target) && WholeRecords(records) && 0 < align && align + |w| < B
    requires target <= q + 1
    ensures CanPatch(s, v, q)
    ensures Written(s, Patched(s, v, q, align, w, records), v, RawOf(s, v),
                    q * B + align, w + [], target, target)
  {
    PatchToward(s, v, q, align, w, records, target);
    assert w + [] == w;
  }

  lemma StartsHere(s: Store, v: nat, offset: nat, len: nat, q: nat, align: nat)
    requires Sound(s, v) && offset <= s.vinodes[v].meta.size && offset == q * B + align && align < B
    requires CanGrow(s.vinodes[v].meta, s.freemap, BlocksFor(offset + len))
    ensures CanStart(s, v, q, align, BlocksFor(offset + len))
  {
    CanGrowBound(s.vinodes[v].meta, s.freemap, BlocksFor(offset + len));
  }

  /** All blocks of the write, and the buffer `left` that filled up the last one. */
  lemma Overrun(s: Store, buffer: Page, v: nat, w: seq<byte>, offset: nat, q: nat, align: nat, times: nat, remain: nat,
                records: Page -> RfsDir.Block) returns (left: Page)
    requires CanStart(s, v, q, align, BlocksFor(offset + |w|)) && WholeRecords(records) && |buffer| == B
    requires offset == q * B + align && align < B && |w| + align == times * B + remain && remain < B
    requires BlocksFor(offset + |w|) == q + times + if remain > 0 then 1 else 0
    requires Overruns(offset, |w|) <==> remain > 0 && (align == 0 || times > 0)
    requires (offset + |w|) % B == remain
    ensures |left| == B && (align == 0 && times == 0 ==> left == buffer)
    ensures Written(s, From(s, buffer, v, w, q, align, times, remain, records), v, RawOf(s, v), offset,
                    w + Tail(offset, |w|, left), BlocksFor(offset + |w|), BlocksFor(offset + |w|))
  {
    hide Writing, Written, CanStart, Patched, Rest, Sound;
    StartIsSound(s, v, q, align, BlocksFor(offset + |w|));
    var target := BlocksFor(offset + |w|);
    if align == 0 {
      left := LastBlock(buffer, w, 0, times);
      FromBoundary(s, v, w, q, target);
      RestIsWritten(s, s, buffer, v, RawOf(s, v), offset, w, 0, q, times, remain, records, target);
    } else if times > 0 {
      left := OverrunUnaligned(s, buffer, v, w, q, align, times, remain, records, target);
    } else {
      left := buffer;
      WithinBlock(s, v, w, q, align, records, target);
    }
    TailIs(offset, |w|, left, align, times, remain);
  }

  lemma OverrunUnaligned(s: Store, buffer: Page, v: nat, w: seq<byte>, q: nat, align: nat, times: nat, remain: nat,
                         records: Page -> RfsDir.Block, target: nat) returns (left: Page)
    requires CanStart(s, v, q, align, target) && WholeRecords(records) && |buffer| == B
    requires 0 < align < B && 0 < times && |w| + align == times * B + remain && remain < B
    requires target == q + times + if remain > 0 then 1 else 0
    ensures |left| == B
    ensures Written(s, From(s, buffer, v, w, q, align, times, remain, records), v, RawOf(s, v), q * B + align,
                    w + (if remain > 0 then left[remain..] else []), target, target)
  {
    hide Writing, Written, CanStart, CanFlush, Flushed, Patch, Rest, Sound;
    StartIsSound(s, v, q, align, target);
    AfterPatch(s, v, w, q, align, times, remain, records, target);
    var page := PatchedPage(s, v, q, align, w[..B - align]);
    left := LastBlock(page, w, B - align, times - 1);
    RestIsWritten(s, Patched(s, v, q, align, w[..B - align], records), page, v, RawOf(s, v), q * B + align, w,
                  B - align, q + 1,
                  times - 1, remain, records, target);
  }

  lemma {:induction false} CanGrowBound(m: Dinode, freemap: seq<nat>, target: nat)
    requires CanGrow(m, freemap, target) && |m.addrs| == DIRECT
    ensures target <= DIRECT
  {
  }

  ghost function Resized(s: Store, v: nat, before: nat, end: nat): Store {
    if v in s.vinodes then PutMeta(s, v, s.vinodes[v].meta.(size := if before < end then end else before)) else s
  }

  ghost function ContentsOf(s: Store, v: nat): seq<byte>
    requires Sound(s, v)
  {
    RawOf(s, v)[..s.vinodes[v].meta.size]
  }

  /** What a write does to the disk and the inodes, apart from the bytes of the file. */
  ghost predicate Wrote(s0: Store, s1: Store, v: nat, offset: nat, len: nat) {
    && v in s0.vinodes && v in s1.vinodes
    && s1.vinodes == s0.vinodes[v := s0.vinodes[v].(meta := s1.vinodes[v].meta)]
    && (s1.vinodes[v].meta, s1.freemap) == WriteMeta(s0.vinodes[v].meta, s0.freemap, offset, len)
    && OnlyThese(s0, s1, Owned(s1.vinodes[v].meta))
  }

  /** The size update completes the write. */
  lemma SizeUpdated(s0: Store, s1: Store, v: nat, w: seq<byte>, offset: nat, left: Page)
    requires Sound(s0, v) && |left| == B && offset <= s0.vinodes[v].meta.size && Extends(s0, s1, v)
    requires Written(s0, s1, v, RawOf(s0, v), offset, w + Tail(offset, |w|, left), BlocksFor(offset + |w|),
                     BlocksFor(offset + |w|))
    ensures Completed(s0, Resized(s1, v, s0.vinodes[v].meta.size, offset + |w|), v, w, offset, left)
  {
    hide Written, RawOf, Splice, Toward, Extends, Wrote, Resized, Tail, SafeWrite, GoodInode, ContentsOf;
    WrittenMeans(s0, s1, v, RawOf(s0, v), offset, w + Tail(offset, |w|, left), BlocksFor(offset + |w|),
                 BlocksFor(offset + |w|));
    SizeBound(s0, s1, v, offset, |w|);
    ResizedSound(s1, v, s0.vinodes[v].meta.size, offset + |w|);
    ResizedWrote(s0, s1, v, offset, |w|);
    if SafeWrite(offset, |w|, s0.vinodes[v].meta.size) {
      SafeContents(s0, s1, v, w, offset, left);
    }
  }

  lemma WrittenMeans(s0: Store, s: Store, v: nat, f0: seq<byte>, offset: nat, bytes: seq<byte>, blocks: nat,
                     target: nat)
    requires Written(s0, s, v, f0, offset, bytes, blocks, target)
    ensures Sound(s, v) && offset <= |f0| && RawOf(s, v) == Splice(f0, offset, bytes)
    ensures blocks <= s.vinodes[v].meta.blocks && Toward(s0, s, v, target)
  {
  }

  lemma SizeBound(s0: Store, s1: Store, v: nat, offset: nat, len: nat)
    requires Sound(s0, v) && Sound(s1, v) && Extends(s0, s1, v) && BlocksFor(offset + len) <= s1.vinodes[v].meta.blocks
    ensures (if s0.vinodes[v].meta.size < offset + len then offset + len
      else s0.vinodes[v].meta.size) <= s1.vinodes[v].meta.blocks * B
  {
    MoreBlocks(s0, s1, v);
    SizeFits(s0.vinodes[v].meta, s1.vinodes[v].meta, offset, len);
  }

  /** What a whole write leaves. */
  ghost predicate Completed(s0: Store, s: Store, v: nat, w: seq<byte>, offset: nat, left: Page)
    requires Sound(s0, v) && |left| == B && offset <= s0.vinodes[v].meta.size
  {
    && Sound(s, v) && RawOf(s, v) == Splice(RawOf(s0, v), offset, w + Tail(offset, |w|, left))
      && Wrote(s0, s, v, offset, |w|)
    && (SafeWrite(offset, |w|, s0.vinodes[v].meta.size) ==> ContentsOf(s, v) == Splice(ContentsOf(s0, v), offset, w))
  }

  lemma CompletedWrote(s0: Store, s: Store, v: nat, w: seq<byte>, offset: nat, left: Page)
    requires Sound(s0, v) && |left| == B && offset <= s0.vinodes[v].meta.size && Completed(s0, s, v, w, offset, left)
    ensures Wrote(s0, s, v, offset, |w|) && ValidPages(s.pages) && RfsDir.ValidData(s.data)
  {
  }

  lemma MoreBlocks(s0: Store, s1: Store, v: nat)
    requires Sound(s0, v) && Sound(s1, v) && Extends(s0, s1, v)
    ensures s0.vinodes[v].meta.blocks <= s1.vinodes[v].meta.blocks
  {
  }

  lemma ResizedSound(s: Store, v: nat, before: nat, end: nat)
    requires Sound(s, v) && (if before < end then end else before) <= s.vinodes[v].meta.blocks * B
    ensures Sound(Resized(s, v, before, end), v) && RawOf(Resized(s, v, before, end), v) == RawOf(s, v)
  {
  }

  lemma ResizedWrote(s0: Store, s1: Store, v: nat, offset: nat, len: nat)
    requires Toward(s0, s1, v, BlocksFor(offset + len)) && BlocksFor(offset + len) <= s1.vinodes[v].meta.blocks
    requires Extends(s0, s1, v)
    ensures Wrote(s0, Resized(s1, v, s0.vinodes[v].meta.size, offset + len), v, offset, len)
  {
    var m0, m1 := s0.vinodes[v].meta, s1.vinodes[v].meta;
    GrownAlready(m1, s1.freemap, BlocksFor(offset + len));
    assert (m1, s1.freemap) == GrowTo(m0, s0.freemap, BlocksFor(offset + len));
  }

  lemma SafeContents(s0: Store, s1: Store, v: nat, w: seq<byte>, offset: nat, left: Page)
    requires Sound(s0, v) && Sound(s1, v) && |left| == B && offset <= s0.vinodes[v].meta.size
    requires RawOf(s1, v) == Splice(RawOf(s0, v), offset, w + Tail(offset, |w|, left))
    requires Sound(Resized(s1, v, s0.vinodes[v].meta.size, offset + |w|), v)
    requires RawOf(Resized(s1, v, s0.vinodes[v].meta.size, offset + |w|), v) == RawOf(s1, v)
    requires SafeWrite(offset, |w|, s0.vinodes[v].meta.size)
    ensures ContentsOf(Resized(s1, v, s0.vinodes[v].meta.size, offset + |w|), v) == Splice(ContentsOf(s0, v), offset, w)
  {
    SafeSplices(RawOf(s0, v), s0.vinodes[v].meta.size, offset, w, left);
  }

  lemma SizeFits(m0: Dinode, m1: Dinode, offset: nat, len: nat)
    requires m0.size <= m0.blocks * B && BlocksFor(offset + len) <= m1.blocks && m0.blocks <= m1.blocks
    ensures (if m0.size < offset + len then offset + len else m0.size) <= m1.blocks * B
  {
  }

  /** A file whose blocks are none of those written keeps its bytes. */
  lemma OthersKeepContents(s0: Store, s1: Store, u: nat, addrs: seq<int>)
    requires Sound(s0, u) && Sound(s1, u) && OnlyThese(s0, s1, addrs) && s1.vinodes[u] == s0.vinodes[u]
    requires forall b :: b in Owned(s0.vinodes[u].meta) ==> b !in addrs
    ensures ContentsOf(s1, u) == ContentsOf(s0, u)
  {
    var m := s0.vinodes[u].meta;
    forall j | 0 <= j < m.blocks ensures s0.pages[m.addrs[j]] == s1.pages[m.addrs[j]] {
      assert Owned(m)[j] == m.addrs[j];
    }
    FlatFrame(s0.pages, s1.pages, m.addrs[..m.blocks]);
  }

  /** Grow, named apart so that proofs compare its results without unfolding it. */
  ghost function GrowTo(m: Dinode, freemap: seq<nat>, target: nat): (Dinode, seq<nat>) {
    Grow(m, freemap, target)
  }

  lemma GrowOneMore(m: Dinode, freemap: seq<nat>, next: nat, target: nat)
    requires GoodInode(m, freemap) && CanGrow(m, freemap, target) && next <= target && next <= m.blocks + 1
    ensures var (m1, f1) := Grow(m, freemap, next);
            && CanGrow(m1, f1, target) && GrowTo(m1, f1, target) == GrowTo(m, freemap, target)
            && (next == m.blocks + 1 ==> FirstFreeBlock(freemap) < |freemap|)
            && next <= m1.blocks
  {
  }

  // ---- what a write means for the contents ----

  /** The write reaches the end of the file, or leaves nothing of its last block to the buffer. */
  predicate SafeWrite(offset: nat, len: nat, size: nat) {
    size <= offset + len || !Overruns(offset, len)
  }

  /**
   Contents after a write: `w` spliced in, and nothing else changed, if and only if the `lost` bytes that the buffer's
   `tail` replaced equal it. With SafeWrite there are none.
   */
  lemma SafeSplices(raw: seq<byte>, size: nat, offset: nat, w: seq<byte>, left: Page)
    requires offset <= size <= |raw| && |left| == B && |raw| % B == 0 && SafeWrite(offset, |w|, size)
    ensures var size1 := if size < offset + |w| then offset + |w| else size;
            var after := Splice(raw, offset, w + Tail(offset, |w|, left));
            size1 <= |after| && after[..size1] == Splice(raw[..size], offset, w)
  {
    WriteSplices(raw, size, offset, w, left);
  }

  lemma WriteSplices(raw: seq<byte>, size: nat, offset: nat, w: seq<byte>, left: Page)
    requires offset <= size <= |raw| && |left| == B && |raw| % B == 0
    ensures var end := offset + |w|;
            var size1 := if size < end then end else size;
            var after := Splice(raw, offset, w + Tail(offset, |w|, left));
            var lost := Lost(offset, |w|, size);
            && size1 <= |after|
            && (after[..size1] == Splice(raw[..size], offset, w) <==>
                forall i :: 0 <= i < lost ==> Tail(offset, |w|, left)[i] == raw[end + i])
            && (SafeWrite(offset, |w|, size) <==> lost == 0)
  {
    hide Splice, SafeWrite, Overruns, Tail, Lost;
    LostBytes(offset, |w|, size, |raw|, left);
    SplicedIff(raw, size, offset, w, Tail(offset, |w|, left), Lost(offset, |w|, size));
  }

  /** `lost` is how much of `tail` comes before the end of the file. */
  ghost predicate Overwrites(total: nat, size: nat, end: nat, tail: nat, lost: nat) {
    && size <= total && lost <= tail && (end < size ==> end + lost <= size && (lost < tail ==> end + lost == size))
    && (size <= end ==> lost == 0) && (tail > 0 && end < total ==> end + tail <= total)
  }

  lemma SplicedIff(raw: seq<byte>, size: nat, offset: nat, w: seq<byte>, tail: seq<byte>, lost: nat)
    requires offset <= size && Overwrites(|raw|, size, offset + |w|, |tail|, lost)
    ensures var end := offset + |w|;
            var size1 := if size < end then end else size;
            var after := Splice(raw, offset, w + tail);
            && size1 <= |after|
            && (after[..size1] == Splice(raw[..size], offset, w) <==>
                forall i :: 0 <= i < lost ==> tail[i] == raw[end + i])
  {
    hide Splice;
    var end := offset + |w|;
    var size1 := if size < end then end else size;
    var after, want := Splice(raw, offset, w + tail), Splice(raw[..size], offset, w);
    SplicedBytes(raw, size, offset, w, tail, lost);
    SameIff(after[..size1], want, tail, raw, end, lost);
  }

  lemma SplicedBytes(raw: seq<byte>, size: nat, offset: nat, w: seq<byte>, tail: seq<byte>, lost: nat)
    requires offset <= size && Overwrites(|raw|, size, offset + |w|, |tail|, lost)
    ensures var end := offset + |w|;
            var a, b := Splice(raw, offset, w + tail), Splice(raw[..size], offset, w);
            && |b| <= |a|
            && (forall i :: 0 <= i < |b| ==> a[..|b|][i] == if end <= i < end + lost then tail[i - end] else b[i])
            && (forall i :: 0 <= i < |b| && end <= i < end + lost ==> b[i] == raw[i])
  {
    hide Splice, Overwrites;
    SplicedSize(raw, size, offset, w, tail, lost);
    var end := offset + |w|;
    var a, b := Splice(raw, offset, w + tail), Splice(raw[..size], offset, w);
    forall i | 0 <= i < |b|
      ensures a[i] == if end <= i < end + lost then tail[i - end] else b[i]
      ensures end <= i < end + lost ==> b[i] == raw[i]
    {
      SplicedAt(raw, size, offset, w, tail, lost, i);
    }
  }

  lemma SplicedSize(raw: seq<byte>, size: nat, offset: nat, w: seq<byte>, tail: seq<byte>, lost: nat)
    requires offset <= size && Overwrites(|raw|, size, offset + |w|, |tail|, lost)
    ensures size <= |raw| && lost <= |tail|
    ensures |Splice(raw[..size], offset, w)| <= |Splice(raw, offset, w + tail)|
    ensures lost > 0 ==> offset + |w| + lost <= |raw|
  {
  }

  lemma SplicedAt(raw: seq<byte>, size: nat, offset: nat, w: seq<byte>, tail: seq<byte>, lost: nat, i: nat)
    requires offset <= size && Overwrites(|raw|, size, offset + |w|, |tail|, lost)
    requires i < if size < offset + |w| then offset + |w| else size
    ensures var end := offset + |w|;
            var after, want := Splice(raw, offset, w + tail), Splice(raw[..size], offset, w);
            && i < |after| && i < |want|
            && after[i] == (if end <= i < end + lost then tail[i - end] else want[i])
            && (end <= i < end + lost ==> want[i] == raw[i])
  {
    hide Splice;
    SpliceAt(raw, offset, w + tail, i);
    SpliceAt(raw[..size], offset, w, i);
  }

  lemma SpliceAt(f: seq<byte>, off: nat, s: seq<byte>, i: nat)
    requires off <= |f| && i < |Splice(f, off, s)|
    ensures Splice(f, off, s)[i] == if off <= i < off + |s| then s[i - off] else f[i]
  {
  }

  lemma LostBytes(offset: nat, len: nat, size: nat, total: nat, left: Page)
    requires offset <= size <= total && |left| == B && total % B == 0
    ensures var end := offset + len;
            var tail := Tail(offset, len, left);
            var lost := Lost(offset, len, size);
            && lost <= |tail| && (end < size ==> end + lost <= size && (lost < |tail| ==> end + lost == size))
              && (size <= end ==> lost == 0)
            && (SafeWrite(offset, len, size) <==> lost == 0) && (|tail| > 0 && end < total ==> end + |tail| <= total)
  {
  }

  lemma SameIff(a: seq<byte>, b: seq<byte>, tail: seq<byte>, raw: seq<byte>, end: nat, lost: nat)
    requires |a| == |b| && lost <= |tail| && (lost > 0 ==> end + lost <= |a| && end + lost <= |raw|)
    requires forall i :: 0 <= i < |a| ==> a[i] == if end <= i < end + lost then tail[i - end] else b[i]
    requires forall i :: 0 <= i < |a| && end <= i < end + lost ==> b[i] == raw[i]
    ensures a == b <==> forall i :: 0 <= i < lost ==> tail[i] == raw[end + i]
  {
    if forall i :: 0 <= i < lost ==> tail[i] == raw[end + i] {
      forall i | 0 <= i < |a| ensures a[i] == b[i] {
        if end <= i < end + lost { assert tail[i - end] == raw[end + (i - end)]; }
      }
    } else {
      var i :| 0 <= i < lost && tail[i] != raw[end + i];
      assert a[end + i] == tail[i] && b[end + i] == raw[end + i];
    }
  }

  /** Bytes of the file behind the write that the buffer replaces. */
  function Lost(offset: nat, len: nat, size: nat): nat {
    if SafeWrite(offset, len, size) then 0
    else if size - (offset + len) < B - (offset + len) % B then size - (offset + len)
    else B - (offset + len) % B
  }

  /** A write of one byte at the start of a two-byte file, with a cleared buffer: the second byte is lost. */
  lemma OverrunLosesBytes()
    ensures var raw := seq(B, i => if i == 0 then 97 else 98);
            var after := Splice(raw, 0, [99] + Tail(0, 1, seq(B, _ => 0)));
            !SafeWrite(0, 1, 2) && after[..2] == [99, 0] && Splice(raw[..2], 0, [99]) == [99, 98]
  {
  }
}
