/**
 The state of the RAM disk file system together with the VFS caches, as a value, and
 the effect of each operation on it (kernel/rfs.c, kernel/vfs.c).

 Kernel pointers are natural numbers, 0 standing for NULL. Every object the VFS keeps
 (dentry, vinode, open file) lives in a page of its own, so one operation receives the
 page allocator as a function `alloc` that maps the set of occupied pages to the page
 handed out next.

 Lookups outside a map's domain give a dummy object here; the invariant of module
 FsInvariant shows that the operations never reach one.
 */
module FsState {
  import opened Options
  import opened RfsDir

  const INODES := 320
  const DATA_BLOCKS := 100
  /** RFS_BLK_OFFSET_FREE: number of the first data block. */
  const FIRST_DATA := 12
  /** DIRECT_BLKNUM */
  const DIRECT := 10
  const NULL := 0

  datatype Kind = FileI | DirI | FreeI

  /** struct rfs_dinode; a vinode caches one of these. */
  datatype Dinode = Dinode(size: nat, kind: Kind, nlinks: int, blocks: nat, addrs: seq<int>)

  datatype Vinode = Vinode(inum: nat, ref: int, meta: Dinode)

  datatype Dentry = Dentry(name: string, dref: int, inode: nat, parent: nat)

  datatype File = File(dentry: nat, readable: bool, writable: bool)

  datatype Disk = Disk(dinodes: seq<Dinode>, data: seq<Block>, freemap: seq<nat>)

  /** Dentries, vinodes and open files by address, and the two hash tables as finite maps. */
  datatype Cache = Cache(
    root: nat,
    dentries: map<nat, Dentry>,
    vinodes: map<nat, Vinode>,
    dhash: map<(nat, string), nat>,
    vhash: map<nat, nat>,
    files: map<nat, File>)

  datatype Fs = Fs(disk: Disk, cache: Cache)

  type Alloc = set<nat> -> nat

  /** What the page allocator promises: a page that nothing occupies. */
  ghost predicate FreshPages(alloc: Alloc) {
    forall used: set<nat> :: alloc(used) !in used && alloc(used) != NULL
  }

  const NO_INODE := Dinode(0, FreeI, 0, 0, [])
  const NO_VINODE := Vinode(0, 0, NO_INODE)
  const NO_DENTRY := Dentry("", 0, NULL, NULL)
  const NO_FILE := File(NULL, false, false)

  function DinodeAt(k: Disk, i: nat): Dinode {
    if i < |k.dinodes| then k.dinodes[i] else NO_INODE
  }

  function VinodeAt(c: Cache, v: nat): Vinode {
    if v in c.vinodes then c.vinodes[v] else NO_VINODE
  }

  function DentryAt(c: Cache, d: nat): Dentry {
    if d in c.dentries then c.dentries[d] else NO_DENTRY
  }

  function FileAt(c: Cache, f: nat): File {
    if f in c.files then c.files[f] else NO_FILE
  }

  function InodeOf(c: Cache, d: nat): Vinode {
    VinodeAt(c, DentryAt(c, d).inode)
  }

  function Used(c: Cache): set<nat> {
    c.dentries.Keys + c.vinodes.Keys + c.files.Keys
  }

  // ---- disk level ----

  predicate DirShape(m: Dinode) {
    && m.blocks <= |m.addrs|
    && (forall j :: 0 <= j < m.blocks ==> 0 <= m.addrs[j] < DISK_BLOCKS)
    && m.size / ENTRY_SIZE <= m.blocks * PER_BLOCK
  }

  /** The live records of the directory that inode contents `m` describe. */
  function DirEntries(data: seq<Block>, m: Dinode): (es: seq<Direntry>) {
    if ValidData(data) && DirShape(m) then Gather(data, m.addrs[..m.blocks])[..m.size / ENTRY_SIZE] else []
  }

  function SetMeta(c: Cache, v: nat, m: Dinode): Cache {
    c.(vinodes := c.vinodes[v := VinodeAt(c, v).(meta := m)])
  }

  function SetDinode(k: Disk, i: nat, m: Dinode): Disk {
    if i < |k.dinodes| then k.(dinodes := k.dinodes[i := m]) else k
  }

  /** rfs_write_back_vinode */
  function WriteBack(fs: Fs, v: nat): Fs {
    var x := VinodeAt(fs.cache, v);
    fs.(disk := SetDinode(fs.disk, x.inum, x.meta))
  }

  /** First inode that is free, as the scan in rfs_create finds it. */
  function FirstFreeInode(dinodes: seq<Dinode>): (i: nat)
    ensures i <= |dinodes|
    ensures forall j :: 0 <= j < i ==> dinodes[j].kind != FreeI
    ensures i < |dinodes| ==> dinodes[i].kind == FreeI
  {
    if dinodes == [] || dinodes[0].kind == FreeI then 0
    else
      var i := 1 + FirstFreeInode(dinodes[1..]);
      assert forall j :: 1 <= j < i ==> dinodes[j] == dinodes[1..][j - 1];
      i
  }

  /** First zero of the block freemap, as rfs_alloc_block finds it. */
  function FirstFreeBlock(freemap: seq<nat>): (b: nat)
    ensures b <= |freemap|
    ensures forall j :: 0 <= j < b ==> freemap[j] != 0
    ensures b < |freemap| ==> freemap[b] == 0
  {
    if freemap == [] || freemap[0] == 0 then 0
    else
      var b := 1 + FirstFreeBlock(freemap[1..]);
      assert forall j :: 1 <= j < b ==> freemap[j] == freemap[1..][j - 1];
      b
  }

  function SetFree(freemap: seq<nat>, block: int, bit: nat): (r: seq<nat>)
    ensures |r| == |freemap|
  {
    var j := block - FIRST_DATA;
    if 0 <= j < |freemap| then freemap[j := bit] else freemap
  }

  /** rfs_free_block on each listed block. */
  function FreeAll(freemap: seq<nat>, addrs: seq<int>): (r: seq<nat>)
    ensures |r| == |freemap|
  {
    if addrs == [] then freemap
    else SetFree(FreeAll(freemap, addrs[..|addrs| - 1]), addrs[|addrs| - 1], 0)
  }

  function WriteSlot(data: seq<Block>, b: int, slot: nat, e: Direntry): seq<Block> {
    if 0 <= b < |data| && slot < |data[b]| then data[b := data[b][slot := e]] else data
  }

  /** rfs_add_direntry: the record goes right behind the last one, whatever block that is. */
  function AddDirentry(fs: Fs, pv: nat, e: Direntry): Fs {
    var m := VinodeAt(fs.cache, pv).meta;
    var n := m.size / BLOCK_SIZE;
    var block := if n < |m.addrs| then m.addrs[n] else -1;
    var data := WriteSlot(fs.disk.data, block, m.size % BLOCK_SIZE / ENTRY_SIZE, e);
    WriteBack(Fs(fs.disk.(data := data), SetMeta(fs.cache, pv, m.(size := m.size + ENTRY_SIZE))), pv)
  }

  /** The inode number rfs_create and rfs_mkdir go on with: 0 when the scan found no free one. */
  function PickedInode(dinodes: seq<Dinode>): nat {
    var i := FirstFreeInode(dinodes);
    if i < |dinodes| then i else 0
  }

  /** The inode their scan read last. */
  function ScannedInode(k: Disk): Dinode {
    var i := FirstFreeInode(k.dinodes);
    DinodeAt(k, if i < |k.dinodes| || i == 0 then i else i - 1)
  }

  /** A new inode with one data block: the part of rfs_create and rfs_mkdir before the directory changes. */
  function NewInode(k: Disk, kind: Kind): (Disk, nat) {
    var i := PickedInode(k.dinodes);
    var b := FirstFreeBlock(k.freemap);
    var a := ScannedInode(k).addrs;
    var m := Dinode(0, kind, 1, 1, if a == [] then [] else a[0 := FIRST_DATA + b]);
    (SetDinode(k, i, m).(freemap := SetFree(k.freemap, FIRST_DATA + b, 1)), i)
  }

  /** The block allocations of rfs_write: the file grows to `target` blocks, one first-fit block at a time. */
  function Grow(m: Dinode, freemap: seq<nat>, target: nat): (Dinode, seq<nat>)
    decreases target - m.blocks
  {
    if target <= m.blocks || |m.addrs| <= m.blocks then (m, freemap)
    else
      var b := FirstFreeBlock(freemap);
      Grow(m.(addrs := m.addrs[m.blocks := FIRST_DATA + b], blocks := m.blocks + 1),
           SetFree(freemap, FIRST_DATA + b, 1), target)
  }

  /** Whether a free block is there each time Grow takes one. */
  predicate CanGrow(m: Dinode, freemap: seq<nat>, target: nat)
    decreases target - m.blocks
  {
    target <= |m.addrs| &&
    (target <= m.blocks ||
     var b := FirstFreeBlock(freemap);
     b < |freemap| &&
     CanGrow(m.(addrs := m.addrs[m.blocks := FIRST_DATA + b], blocks := m.blocks + 1), freemap[b := 1], target))
  }

  /** Blocks needed for `size` bytes. */
  function BlocksFor(size: nat): nat {
    (size + BLOCK_SIZE - 1) / BLOCK_SIZE
  }

  /** What rfs_write of `len` bytes at `offset` does to the inode and the freemap. */
  function WriteMeta(m: Dinode, freemap: seq<nat>, offset: nat, len: nat): (Dinode, seq<nat>) {
    var (m1, f1) := Grow(m, freemap, BlocksFor(offset + len));
    (m1.(size := if m.size < offset + len then offset + len else m.size), f1)
  }

  /** rfs_write on file vinode `v`; afterwards its blocks hold whatever `contents` says. */
  function Write(fs: Fs, v: nat, offset: nat, len: nat, contents: int -> Block): Fs {
    var (m, f) := WriteMeta(VinodeAt(fs.cache, v).meta, fs.disk.freemap, offset, len);
    Fs(fs.disk.(freemap := f, data := Overwrite(fs.disk.data, Owned(m), contents)), SetMeta(fs.cache, v, m))
  }

  function Overwrite(data: seq<Block>, addrs: seq<int>, contents: int -> Block): (r: seq<Block>)
    ensures |r| == |data|
  {
    seq(|data|, b requires 0 <= b < |data| => if b in addrs then contents(b) else data[b])
  }

  /** Data with the listed blocks holding `g`, in order. */
  function Scatter(data: seq<Block>, addrs: seq<int>, g: seq<Direntry>): (r: seq<Block>)
    requires |g| == |addrs| * PER_BLOCK
    ensures |r| == |data|
  {
    if addrs == [] then data
    else
      var n := |addrs| - 1;
      var r := Scatter(data, addrs[..n], g[..n * PER_BLOCK]);
      if 0 <= addrs[n] < |r| then r[addrs[n] := g[n * PER_BLOCK..]] else r
  }

  /** The directory with inode contents `m` after its record `index` is removed; the last slot keeps a stale copy. */
  function RemoveDirentry(data: seq<Block>, m: Dinode, index: nat): seq<Block> {
    if ValidData(data) && DirShape(m) && index < m.blocks * PER_BLOCK then
      var g := Gather(data, m.addrs[..m.blocks]);
      Scatter(data, m.addrs[..m.blocks], RemoveAt(g, index) + [g[|g| - 1]])
    else data
  }

  /** Whether rfs_unlink gives the directory's last block back. */
  predicate DropsLastBlock(m: Dinode) {
    m.size / ENTRY_SIZE > 0 && (m.size / ENTRY_SIZE - 1) % PER_BLOCK == 0 && m.blocks > 1
  }

  function ShrinkDir(m: Dinode): Dinode {
    m.(blocks := if DropsLastBlock(m) then m.blocks - 1 else m.blocks,
       size := if m.size < ENTRY_SIZE then 0 else m.size - ENTRY_SIZE)
  }

  /**
   The inode half of rfs_unlink: the cached link count drops, the disk inode follows, a dead inode gives its blocks
   back.
   */
  function ReleaseOnDisk(fs: Fs, inum: nat, uv: nat): Fs {
    var um := VinodeAt(fs.cache, uv).meta;
    var left := um.nlinks - 1;
    var di := DinodeAt(fs.disk, inum);
    var k := SetDinode(fs.disk, inum, di.(nlinks := left, kind := if left == 0 then FreeI else di.kind));
    Fs(k.(freemap := if left == 0 then FreeAll(k.freemap, Owned(di)) else k.freemap),
       SetMeta(fs.cache, uv, um.(nlinks := left)))
  }

  /** The directory half: record `index` goes, and the last block with it when nothing is left there. */
  function CloseGapOnDisk(fs: Fs, pv: nat, index: nat): Fs {
    var m := VinodeAt(fs.cache, pv).meta;
    var f := if DropsLastBlock(m) && m.blocks <= |m.addrs| then SetFree(fs.disk.freemap, m.addrs[m.blocks - 1], 0)
      else fs.disk.freemap;
    WriteBack(Fs(fs.disk.(data := RemoveDirentry(fs.disk.data, m, index), freemap := f),
                 SetMeta(fs.cache, pv, ShrinkDir(m))), pv)
  }

  /** rfs_unlink: record `name` of directory vinode `pv`, naming the inode cached as `uv`. */
  function UnlinkOnDisk(fs: Fs, pv: nat, name: string, uv: nat): Fs {
    var es := DirEntries(fs.disk.data, VinodeAt(fs.cache, pv).meta);
    var index := FindEntry(es, name);
    if index == |es| then fs else CloseGapOnDisk(ReleaseOnDisk(fs, es[index].inum, uv), pv, index)
  }

  /** The data blocks an inode holds. */
  function Owned(m: Dinode): seq<int> {
    if m.blocks <= |m.addrs| then m.addrs[..m.blocks] else []
  }

  // ---- VFS level ----

  /** default_put: refuses a key that is present. */
  function HashPut<K, V>(h: map<K, V>, key: K, value: V): map<K, V> {
    if key in h then h else h[key := value]
  }

  function AddRef(c: Cache, v: nat, delta: int): Cache {
    c.(vinodes := c.vinodes[v := VinodeAt(c, v).(ref := VinodeAt(c, v).ref + delta)])
  }

  function AddDref(c: Cache, d: nat, delta: int): Cache {
    c.(dentries := c.dentries[d := DentryAt(c, d).(dref := DentryAt(c, d).dref + delta)])
  }

  /** alloc_vfs_dentry and hash_put_dentry for an inode already cached and counted as `v`. */
  function PutDentry(c: Cache, a: nat, name: string, v: nat, parent: nat): Cache {
    c.(dentries := c.dentries[a := Dentry(name, 0, v, parent)],
       dhash := HashPut(c.dhash, (parent, name), a))
  }

  function PutVinode(c: Cache, v: nat, x: Vinode): Cache {
    c.(vinodes := c.vinodes[v := x], vhash := HashPut(c.vhash, x.inum, v))
  }

  /** A lookup miss that the disk answers: bring inode `i` and a dentry for it into the caches. */
  function CacheChild(fs: Fs, alloc: Alloc, parent: nat, name: string, i: nat): (Fs, nat) {
    var c := fs.cache;
    var a := alloc(Used(c));
    if i in c.vhash then
      var v := c.vhash[i];
      (fs.(cache := PutDentry(AddRef(c, v, 1), a, name, v, parent)), a)
    else
      var v := alloc(Used(c) + {a});
      (fs.(cache := PutDentry(PutVinode(c, v, Vinode(i, 1, DinodeAt(fs.disk, i))), a, name, v, parent)), a)
  }

  datatype Lookup =
    | Found(dentry: nat, parent: nat)
    | Missing(parent: nat, name: string)
    | AboveRoot

  /** The token loop of lookup_final_dentry. */
  function Resolve(fs: Fs, alloc: Alloc, this_: nat, parent: nat, tokens: seq<string>): (Fs, Lookup)
    decreases |tokens|
  {
    if tokens == [] then (fs, Found(this_, parent))
    else if tokens[0] == "." then Resolve(fs, alloc, this_, parent, tokens[1..])
    else if tokens[0] == ".." then
      var up := DentryAt(fs.cache, this_).parent;
      if up == NULL then (fs, AboveRoot) else Resolve(fs, alloc, up, parent, tokens[1..])
    else if (this_, tokens[0]) in fs.cache.dhash then
      Resolve(fs, alloc, fs.cache.dhash[(this_, tokens[0])], this_, tokens[1..])
    else
      var es := DirEntries(fs.disk.data, InodeOf(fs.cache, this_).meta);
      var k := FindEntry(es, tokens[0]);
      if k == |es| then (fs, Missing(this_, tokens[0]))
      else
        var (fs1, a) := CacheChild(fs, alloc, this_, tokens[0], es[k].inum);
        Resolve(fs1, alloc, a, this_, tokens[1..])
  }

  /** A path: whether it starts at the root, and its tokens. */
  datatype Path = Path(absolute: bool, tokens: seq<string>)

  function LookupPath(fs: Fs, alloc: Alloc, start: nat, path: Path): (Fs, Lookup) {
    Resolve(fs, alloc, if path.absolute then fs.cache.root else start, start, path.tokens)
  }

  /** alloc_vfs_file */
  function OpenFile(fs: Fs, alloc: Alloc, d: nat, readable: bool, writable: bool): (Fs, nat) {
    var f := alloc(Used(fs.cache));
    var c := AddDref(fs.cache, d, 1);
    (fs.(cache := c.(files := c.files[f := File(d, readable, writable)])), f)
  }

  /** The create branch of vfs_open and the body of vfs_mkdir, under parent dentry `p`. */
  function CreateChild(fs: Fs, alloc: Alloc, p: nat, name: string, kind: Kind): (Fs, nat) {
    var a := alloc(Used(fs.cache));
    var v := alloc(Used(fs.cache) + {a});
    var pv := DentryAt(fs.cache, p).inode;
    var (k, i) := NewInode(fs.disk, kind);
    var fs1 := AddDirentry(fs.(disk := k), pv, Direntry(i, name));
    (fs1.(cache := PutDentry(PutVinode(fs1.cache, v, Vinode(i, 1, DinodeAt(k, i))), a, name, v, p)), a)
  }

  /** Whether `name`, the token that was missing, is also the path's last token. */
  predicate MayCreate(path: Path, name: string) {
    path.tokens != [] && path.tokens[|path.tokens| - 1] == name
  }

  function Open(fs: Fs, alloc: Alloc, start: nat, path: Path, create: bool, readable: bool, writable: bool): (Fs,
    Option<nat>) {
    var (fs1, r) := LookupPath(fs, alloc, start, path);
    OpenResolved(fs1, alloc, r, create && r.Missing? && MayCreate(path, r.name), readable, writable)
  }

  /** vfs_open after its lookup. */
  function OpenResolved(fs: Fs, alloc: Alloc, r: Lookup, create: bool, readable: bool, writable: bool): (Fs,
    Option<nat>) {
    if r.Found? && InodeOf(fs.cache, r.dentry).meta.kind == FileI then
      var (fs1, f) := OpenFile(fs, alloc, r.dentry, readable, writable);
      (fs1, Some(f))
    else if r.Missing? && create then
      var (fs1, a) := CreateChild(fs, alloc, r.parent, r.name, FileI);
      var (fs2, f) := OpenFile(fs1, alloc, a, readable, writable);
      (fs2, Some(f))
    else (fs, None)
  }

  function OpenDir(fs: Fs, alloc: Alloc, start: nat, path: Path): (Fs, Option<nat>) {
    var (fs1, r) := LookupPath(fs, alloc, start, path);
    OpenDirResolved(fs1, alloc, r)
  }

  /** vfs_opendir after its lookup. */
  function OpenDirResolved(fs: Fs, alloc: Alloc, r: Lookup): (Fs, Option<nat>) {
    if r.Found? && InodeOf(fs.cache, r.dentry).meta.kind == DirI then
      var (fs1, f) := OpenFile(fs, alloc, r.dentry, true, false);
      (fs1, Some(f))
    else (fs, None)
  }

  /** hash_erase_dentry and free_vfs_dentry, then one reference less on the inode. */
  function DropDentry(c: Cache, d: nat): Cache {
    var x := DentryAt(c, d);
    AddRef(c.(dentries := c.dentries - {d}, dhash := c.dhash - {(x.parent, x.name)}), x.inode, -1)
  }

  function DropVinode(c: Cache, v: nat): Cache {
    c.(vinodes := c.vinodes - {v}, vhash := c.vhash - {VinodeAt(c, v).inum})
  }

  /** File `f` stops counting on its dentry. */
  function ReleaseFile(fs: Fs, f: nat): Fs {
    var c := AddDref(fs.cache, FileAt(fs.cache, f).dentry, -1);
    fs.(cache := c.(files := c.files - {f}))
  }

  /** vfs_close when the dentry has just lost its last open file. */
  function ForgetDentry(fs: Fs, d: nat): Fs {
    var v := DentryAt(fs.cache, d).inode;
    var c := DropDentry(fs.cache, d);
    if VinodeAt(c, v).ref == 0 then
      var fs1 := WriteBack(fs.(cache := c), v);
      fs1.(cache := DropVinode(c, v))
    else fs.(cache := c)
  }

  function Close(fs: Fs, f: nat): Fs {
    var d := FileAt(fs.cache, f).dentry;
    if InodeOf(fs.cache, d).meta.kind != FileI then fs
    else
      var fs1 := ReleaseFile(fs, f);
      if DentryAt(fs1.cache, d).dref == 0 then ForgetDentry(fs1, d) else fs1
  }

  function CloseDir(fs: Fs, f: nat): Fs {
    if InodeOf(fs.cache, FileAt(fs.cache, f).dentry).meta.kind != DirI then fs else ReleaseFile(fs, f)
  }

  function MkDir(fs: Fs, alloc: Alloc, start: nat, path: Path): (Fs, bool) {
    var (fs1, r) := LookupPath(fs, alloc, start, path);
    MkDirResolved(fs1, alloc, r, r.Missing? && MayCreate(path, r.name))
  }

  /** vfs_mkdir after its lookup. */
  function MkDirResolved(fs: Fs, alloc: Alloc, r: Lookup, create: bool): (Fs, bool) {
    if r.Missing? && create then (CreateChild(fs, alloc, r.parent, r.name, DirI).0, true) else (fs, false)
  }

  /** rfs_unlink followed by the cache updates of vfs_unlink. */
  function RemoveName(fs: Fs, p: nat, d: nat): Fs {
    var x := DentryAt(fs.cache, d);
    var fs1 := UnlinkOnDisk(fs, DentryAt(fs.cache, p).inode, x.name, x.inode);
    var c := DropDentry(fs1.cache, d);
    fs1.(cache := if VinodeAt(c, x.inode).meta.nlinks == 0 then DropVinode(c, x.inode) else c)
  }

  function Unlink(fs: Fs, alloc: Alloc, start: nat, path: Path): (Fs, bool) {
    var (fs1, r) := LookupPath(fs, alloc, start, path);
    UnlinkResolved(fs1, r)
  }

  /** vfs_unlink after its lookup. */
  function UnlinkResolved(fs: Fs, r: Lookup): (Fs, bool) {
    if r.Found? && InodeOf(fs.cache, r.dentry).meta.kind == FileI && DentryAt(fs.cache, r.dentry).dref <= 0 then
      (RemoveName(fs, r.parent, r.dentry), true)
    else (fs, false)
  }

  /** rfs_link under directory dentry `p`, and the dentry of the new name. */
  function LinkName(fs: Fs, alloc: Alloc, p: nat, name: string, v: nat): Fs {
    var a := alloc(Used(fs.cache));
    var x := VinodeAt(fs.cache, v);
    var c := SetMeta(AddRef(fs.cache, v, 1), v, x.meta.(nlinks := x.meta.nlinks + 1));
    var fs1 := WriteBack(AddDirentry(fs.(cache := c), DentryAt(fs.cache, p).inode, Direntry(x.inum, name)), v);
    fs1.(cache := PutDentry(fs1.cache, a, name, v, p))
  }

  /** vfs_link: whatever directory `newPath` leads to, the record goes into `start`. */
  function Link(fs: Fs, alloc: Alloc, start: nat, oldPath: Path, newPath: Path): (Fs, bool) {
    var (fs1, r) := LookupPath(fs, alloc, start, oldPath);
    if !r.Found? || InodeOf(fs1.cache, r.dentry).meta.kind != FileI then (fs1, false)
    else LinkFound(fs1, alloc, start, r.dentry, newPath)
  }

  /** vfs_link once the old file is found as dentry `d`. */
  function LinkFound(fs: Fs, alloc: Alloc, start: nat, d: nat, newPath: Path): (Fs, bool) {
    var (fs1, q) := LookupPath(fs, alloc, start, newPath);
    LinkResolved(fs1, alloc, start, d, q, q.Missing? && MayCreate(newPath, q.name))
  }

  /** vfs_link after both lookups. */
  function LinkResolved(fs: Fs, alloc: Alloc, start: nat, d: nat, q: Lookup, create: bool): (Fs, bool) {
    if q.Missing? && create then (LinkName(fs, alloc, start, q.name, DentryAt(fs.cache, d).inode), true)
      else (fs, false)
  }
}
