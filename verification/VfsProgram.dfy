/**
 A program at work: what is written to a file, closed, opened by its path and read again is what was written. The third
 test of user/c_4_1.c does this.
 */
module VfsProgram {
  import opened Options
  import opened RfsDir
  import opened FsState
  import opened FsTree
  import opened FsCache
  import opened FsDisk
  import opened FsInvariant
  import opened FsSteps
  import opened FsWrite
  import opened FsLookup
  import opened FsPlaces
  import opened FsOps
  import opened FsFiles
  import opened FsHandles
  import opened Vfs
  import RfsFile

  /** Directories stay where they are while a file is written and closed. */
  lemma WriteKeepsDirs(fs: Fs, v: nat, offset: nat, len: nat, contents: int -> Block)
    requires v in fs.cache.vinodes && fs.cache.vinodes[v].meta.kind == FileI
    ensures SameDirs(fs, Write(fs, v, offset, len, contents))
    ensures Write(fs, v, offset, len, contents).cache.files == fs.cache.files
  {
    hide WriteMeta;
    WriteKeepsKind(fs.cache.vinodes[v].meta, fs.disk.freemap, offset, len);
  }

  lemma ReleaseKeepsDirs(fs: Fs, f: nat)
    requires FileAt(fs.cache, f).dentry in fs.cache.dentries
    ensures SameDirs(fs, ReleaseFile(fs, f))
  {
  }

  lemma ForgetKeepsDirs(fs: Fs, d: nat)
    requires Anchored(fs.cache, TreeOf(fs.disk)) && Droppable(fs.cache, d)
    ensures SameDirs(fs, ForgetDentry(fs, d))
  {
    hide TreeOf;
    var c1 := ForgetDentry(fs, d).cache;
    DropDentryIs(fs.cache, d);
    forall s | IsDirDentry(fs.cache, s)
      ensures IsDirDentry(c1, s) && InodeOf(c1, s).inum == InodeOf(fs.cache, s).inum
    {
      assert fs.cache.dentries[s].inode in fs.cache.vinodes;
    }
  }

  /** A path leads where it led, when neither the tree nor the place it starts from has changed. */
  lemma SameWalk(fs: Fs, fs1: Fs, start: nat, path: Path)
    requires Inv(fs) && SameDirs(fs, fs1) && TreeOf(fs1.disk) == TreeOf(fs.disk) && IsDirDentry(fs.cache, start)
    ensures PathWalk(fs1, start, path) == PathWalk(fs, start, path) && IsDirDentry(fs1.cache, start)
  {
    RootIsDirectory(fs);
    SameStart(fs, fs1, start, path);
  }

  /** The inode that an open file stands for. */
  ghost function NumberOf(fs: Fs, f: nat): nat {
    InodeOf(fs.cache, FileAt(fs.cache, f).dentry).inum
  }

  /** What the inode in force says of an open file is what its cached inode says. */
  lemma InForce(fs: Fs, f: nat)
    requires Inv(fs) && f in fs.cache.files
    ensures NumberOf(fs, f) < INODES && Now(fs)[NumberOf(fs, f)] == InodeOf(fs.cache, FileAt(fs.cache, f).dentry).meta
    ensures fs.cache.files[f].dentry in fs.cache.dentries
    ensures fs.cache.dentries[fs.cache.files[f].dentry].inode in fs.cache.vinodes
  {
    FileIsCached(fs, f);
    CachedInForce(fs, fs.cache.dentries[fs.cache.files[f].dentry].inode);
  }

  lemma CachedInForce(fs: Fs, v: nat)
    requires DiskShape(fs.disk) && Hashed(fs.cache) && Coherent(fs.cache, fs.disk.dinodes) && v in fs.cache.vinodes
    ensures fs.cache.vinodes[v].inum < INODES && Now(fs)[fs.cache.vinodes[v].inum] == fs.cache.vinodes[v].meta
  {
  }

  /** After write and close, before the open: the file is as it was written, and the path still leads to it. */
  ghost predicate Closed(fs: Fs, fs1: Fs, fs2: Fs, start: nat, path: Path) {
    && Inv(fs1) && Inv(fs2) && SameFiles(fs1, fs2) && TreeOf(fs2.disk) == TreeOf(fs.disk)
    && PathWalk(fs2, start, path) == PathWalk(fs, start, path) && IsDirDentry(fs2.cache, start)
  }

  lemma WriteAndClose(fs: Fs, fs1: Fs, f: nat, offset: nat, len: nat, contents: int -> Block, start: nat, path: Path)
    requires Inv(fs) && f in fs.cache.files && IsDirDentry(fs.cache, start) && WholeBlocks(contents)
    requires CanWrite(fs, DentryAt(fs.cache, fs.cache.files[f].dentry).inode, offset, len)
    requires fs1 == Write(fs, DentryAt(fs.cache, fs.cache.files[f].dentry).inode, offset, len, contents)
    ensures f in fs1.cache.files && Closed(fs, fs1, Close(fs1, f), start, path)
  {
    hide Inv, Write, Close, SameFiles, SameDirs, TreeOf, WholeBlocks, Lost, Steady;
    var v := DentryAt(fs.cache, fs.cache.files[f].dentry).inode;
    var fs2 := Close(fs1, f);
    WriteKeepsInv(fs, v, offset, len, contents);
    WriteKeepsDirs(fs, v, offset, len, contents);
    CloseKeepsInv(fs1, f);
    CloseDrops(fs1, f);
    SoundCloseKeepsDirs(fs1, f);
    SameDirsTransitive(fs, fs1, fs2);
    SameWalk(fs, fs2, start, path);
  }

  lemma SoundCloseKeepsDirs(fs: Fs, f: nat)
    requires Inv(fs) && f in fs.cache.files
    ensures SameDirs(fs, Close(fs, f))
  {
    hide SameDirs, ReleaseFile, ForgetDentry;
    var d := fs.cache.files[f].dentry;
    ReleaseKeepsDirs(fs, f);
    ReleaseFileKeepsInv(fs, f);
    if InodeOf(fs.cache, d).meta.kind != FileI {
      DirsStay(fs);
    } else if DentryAt(ReleaseFile(fs, f).cache, d).dref == 0 {
      ReleasedIsDroppable(fs, f);
      ForgetKeepsDirs(ReleaseFile(fs, f), d);
      SameDirsTransitive(fs, ReleaseFile(fs, f), Close(fs, f));
    }
  }

  lemma DirsStay(fs: Fs)
    ensures SameDirs(fs, fs)
  {
  }

  /** The handle of the second open stands for the file that was written, with the inode it then had. */
  lemma OpenAgain(fs: Fs, fs1: Fs, fs2: Fs, alloc: Alloc, start: nat, path: Path, i: nat)
    requires Closed(fs, fs1, fs2, start, path) && FreshPages(alloc)
    requires PathWalk(fs, start, path).Hit? && PathWalk(fs, start, path).place.AtFile?
    requires i == PathWalk(fs, start, path).place.file && i < INODES && Now(fs1)[i].kind == FileI
    ensures var (fs3, h) := Open(fs2, alloc, start, path, false, true, true);
            && Inv(fs3) && h.Some? && h.value in fs3.cache.files && MayRead(fs3, h.value)
            && NumberOf(fs3, h.value) == i && SameBody(Now(fs1)[i], Now(fs3)[i])
  {
    hide Inv, SameFiles, Open, FilesKept, Steady, TreeOf;
    OpenKeepsInv(fs2, alloc, start, path, false, true, true);
    OpenReturnsIff(fs2, alloc, start, path, false, true, true);
    OpenGains(fs2, alloc, start, path, false, true, true);
    OpenKeepsFiles(fs2, alloc, start, path, false, true, true);
    var (fs3, h) := Open(fs2, alloc, start, path, false, true, true);
    HandleReads(fs2, fs3, h.value, PathWalk(fs2, start, path).place, FinalName("", path.tokens));
    BodyStays(fs1, fs2, fs3, i);
  }

  lemma HandleReads(fs2: Fs, fs3: Fs, h: nat, place: Place, name: string)
    requires Inv(fs3) && Gains(fs2.cache, fs3.cache, h, true, true, place, name) && place.AtFile?
    ensures h in fs3.cache.files && MayRead(fs3, h) && NumberOf(fs3, h) == place.file
  {
    FileOrDirectory(fs3, fs3.cache.files[h].dentry);
  }

  lemma BodyStays(fs1: Fs, fs2: Fs, fs3: Fs, i: nat)
    requires SameFiles(fs1, fs2) && FilesKept(fs2, fs3, {}) && i < INODES && Now(fs1)[i].kind == FileI
    ensures SameBody(Now(fs1)[i], Now(fs3)[i])
  {
    assert Kept(fs2, fs3, i);
  }

  /** Inodes of one size and with the same blocks have the same contents. */
  lemma SameBytes(t: RfsFile.Store, t': RfsFile.Store, v: nat, v': nat)
    requires RfsFile.Sound(t, v) && RfsFile.Sound(t', v') && t'.pages == t.pages
    requires SameBody(t.vinodes[v].meta, t'.vinodes[v'].meta)
    ensures RfsFile.ContentsOf(t', v') == RfsFile.ContentsOf(t, v)
  {
  }

  /** Whatever a write does behind its data, the data are there. */
  lemma DataAreThere(t0: RfsFile.Store, t: RfsFile.Store, v: nat, w: seq<RfsFile.byte>, offset: nat, left: RfsFile.Page)
    requires RfsFile.Sound(t0, v) && |left| == RfsFile.B && offset <= t0.vinodes[v].meta.size
    requires RfsFile.Completed(t0, t, v, w, offset, left)
    ensures RfsFile.Sound(t, v) && offset + |w| <= t.vinodes[v].meta.size
    ensures RfsFile.ContentsOf(t, v)[offset..offset + |w|] == w
  {
    hide RfsFile.Tail, RfsFile.SafeWrite, RfsFile.Splice;
    var size := t0.vinodes[v].meta.size;
    assert t.vinodes[v].meta.size == if size < offset + |w| then offset + |w| else size;
    RawSlice(t, v, offset, |w|);
    SplicedSlice(RfsFile.RawOf(t0, v), offset, w, RfsFile.Tail(offset, |w|, left));
  }

  lemma RawSlice(t: RfsFile.Store, v: nat, offset: nat, len: nat)
    requires RfsFile.Sound(t, v) && offset + len <= t.vinodes[v].meta.size
    ensures offset + len <= |RfsFile.RawOf(t, v)|
    ensures RfsFile.ContentsOf(t, v)[offset..offset + len] == RfsFile.RawOf(t, v)[offset..offset + len]
  {
  }

  lemma SplicedSlice(raw: seq<RfsFile.byte>, offset: nat, w: seq<RfsFile.byte>, tail: seq<RfsFile.byte>)
    requires offset <= |raw|
    ensures RfsFile.Splice(raw, offset, w + tail)[offset..offset + |w|] == w
  {
  }

  /** The write leaves the handle on its file. */
  lemma SameNumber(fs: Fs, v: nat, offset: nat, len: nat, contents: int -> Block, f: nat)
    requires v in fs.cache.vinodes
    ensures var fs1 := Write(fs, v, offset, len, contents);
            && NumberOf(fs1, f) == NumberOf(fs, f)
            && DentryAt(fs1.cache, FileAt(fs1.cache, f).dentry) == DentryAt(fs.cache, FileAt(fs.cache, f).dentry)
            && VinodeAt(fs1.cache, v).meta.kind == fs.cache.vinodes[v].meta.kind
  {
    hide WriteMeta;
    WriteKeepsKind(fs.cache.vinodes[v].meta, fs.disk.freemap, offset, len);
  }

  /**
   From the state right after the write to the one the read finds: the handle stands for the bytes that were
   written.
   */
  lemma Reloaded(fs: Fs, fs1: Fs, fs3: Fs, alloc: Alloc, f: nat, h: nat, start: nat, path: Path, t0: RfsFile.Store,
                 t1: RfsFile.Store, t3: RfsFile.Store, w: seq<RfsFile.byte>, offset: nat, contents: int -> Block,
                 left: RfsFile.Page)
    requires Inv(fs) && f in fs.cache.files && IsDirDentry(fs.cache, start) && FreshPages(alloc) && MayWrite(fs, f)
    requires CanWrite(fs, DentryAt(fs.cache, fs.cache.files[f].dentry).inode, offset, |w|)
    requires PathWalk(fs, start, path).Hit? && PathWalk(fs, start, path).place.AtFile?
    requires PathWalk(fs, start, path).place.file == NumberOf(fs, f)
    requires WriteDone(fs, fs1, t0, t1, f, w, offset, contents, left)
    requires SameDisk(fs1, t1) && SameDisk(fs3, t3) && t3.pages == t1.pages
    requires f in fs1.cache.files && (fs3, Some(h)) == Open(Close(fs1, f), alloc, start, path, false, true, true)
    ensures Inv(fs3) && h in fs3.cache.files && MayRead(fs3, h)
    ensures var v := DentryAt(fs3.cache, FileAt(fs3.cache, h).dentry).inode;
            && RfsFile.Sound(t3, v) && offset + |w| <= t3.vinodes[v].meta.size
            && RfsFile.ContentsOf(t3, v)[offset..offset + |w|] == w
  {
    hide Inv, Write, CanWrite, Close, Open, Closed, WholeBlocks, SameContents, MayRead;
    hide RfsFile.Completed, RfsFile.ContentsOf;
    var v := DentryAt(fs.cache, FileAt(fs.cache, f).dentry).inode;
    FileIsCached(fs, f);
    WriteAndClose(fs, fs1, f, offset, |w|, contents, start, path);
    ClosedIsSound(fs, fs1, Close(fs1, f), start, path);
    SameNumber(fs, v, offset, |w|, contents, f);
    InForce(fs1, f);
    OpenAgain(fs, fs1, Close(fs1, f), alloc, start, path, NumberOf(fs, f));
    InForce(fs3, h);
    DataAreThere(t0, t1, v, w, offset, left);
    HandleIsSound(fs3, t3, h);
    SameBytes(t1, t3, v, DentryAt(fs3.cache, FileAt(fs3.cache, h).dentry).inode);
  }

  lemma ClosedIsSound(fs: Fs, fs1: Fs, fs2: Fs, start: nat, path: Path)
    requires Closed(fs, fs1, fs2, start, path)
    ensures Inv(fs1) && Inv(fs2) && IsDirDentry(fs2.cache, start)
    ensures PathWalk(fs2, start, path) == PathWalk(fs, start, path)
  {
  }

  lemma HandleIsSound(fs: Fs, t: RfsFile.Store, h: nat)
    requires Inv(fs) && h in fs.cache.files && SameDisk(fs, t)
    ensures RfsFile.Sound(t, DentryAt(fs.cache, FileAt(fs.cache, h).dentry).inode)
  {
    hide Inv, RfsFile.Sound, RfsFile.GoodInode;
    var v := DentryAt(fs.cache, FileAt(fs.cache, h).dentry).inode;
    FileIsCached(fs, h);
    FilesAreGood(fs, v);
    DiskIsValid(fs);
    SoundHas(fs, t, v);
  }

  /**
   vfs_write, vfs_close, vfs_open and vfs_read in turn, on a file that `path` leads to: the read gives back what was
   written, up to the first NUL in it.
   */
  method WriteThenRead(vfs: VirtualFs, io: RfsFile.FileIo, f: nat, w: seq<RfsFile.byte>, offset: nat, start: nat,
                       path: Path)
    returns (n: int, bytes: seq<RfsFile.byte>)
    requires vfs.Valid() && Inv(vfs.State()) && io.fs == vfs.fs && io.Ready() && RfsFile.ValidPages(io.pages)
    requires f in vfs.files && MayWrite(vfs.State(), f) && w != []
    requires CanWrite(vfs.State(), DentryAt(vfs.State().cache, vfs.files[f].dentry).inode, offset, |w|)
    requires LookupReady(vfs.State(), vfs.alloc, start, path)
    requires var r := PathWalk(vfs.State(), start, path);
             r.Hit? && r.place.AtFile? && r.place.file == NumberOf(vfs.State(), f)
    modifies vfs, io, vfs.fs, vfs.fs.dev
    ensures vfs.Valid() && Inv(vfs.State())
    ensures n == |w| && bytes == RfsFile.BeforeNul(w) && (0 !in w ==> bytes == w)
  {
    hide Inv, Write, CanWrite, Close, Open, WriteDone, WholeBlocks, SameContents, RfsFile.Completed, RfsFile.Sound;
    ghost var s0, t0 := vfs.State(), io.Blocks();
    ghost var contents, left;
    n, contents, left := vfs.WriteOpened(io, f, w, offset);
    ghost var s1, t1 := vfs.State(), io.Blocks();
    StillOpen(s0, s1, t0, t1, f, w, offset, contents, left, start, path);
    vfs.CloseFile(f);
    var h := vfs.OpenPath(start, path, false, true, true);
    Granted(s0, s1, vfs.alloc, f, start, path);
    Reloaded(s0, s1, vfs.State(), vfs.alloc, f, h.value, start, path, t0, t1, io.Blocks(), w, offset, contents, left);
    n, bytes := vfs.ReadOpened(io, h.value, |w|, offset);
    WholeText(w);
  }

  lemma StillOpen(fs: Fs, fs1: Fs, t0: RfsFile.Store, t1: RfsFile.Store, f: nat, w: seq<RfsFile.byte>, offset: nat,
                  contents: int -> Block, left: RfsFile.Page, start: nat, path: Path)
    requires Inv(fs) && f in fs.cache.files && IsDirDentry(fs.cache, start)
    requires CanWrite(fs, DentryAt(fs.cache, fs.cache.files[f].dentry).inode, offset, |w|)
    requires WriteDone(fs, fs1, t0, t1, f, w, offset, contents, left)
    ensures f in fs1.cache.files && Inv(fs1) && Closed(fs, fs1, Close(fs1, f), start, path)
    ensures Inv(Close(fs1, f)) && RfsFile.ValidPages(t1.pages)
    ensures PathWalk(Close(fs1, f), start, path) == PathWalk(fs, start, path)
    ensures IsDirDentry(Close(fs1, f).cache, start)
  {
    hide Inv, Write, CanWrite, Close, Closed, WholeBlocks, SameContents, RfsFile.Completed;
    var v := DentryAt(fs.cache, FileAt(fs.cache, f).dentry).inode;
    WriteAndClose(fs, fs1, f, offset, |w|, contents, start, path);
    ClosedIsSound(fs, fs1, Close(fs1, f), start, path);
    DataAreThere(t0, t1, v, w, offset, left);
  }

  lemma Granted(fs: Fs, fs1: Fs, alloc: Alloc, f: nat, start: nat, path: Path)
    requires Closed(fs, fs1, Close(fs1, f), start, path) && FreshPages(alloc)
    requires PathWalk(fs, start, path).Hit? && PathWalk(fs, start, path).place.AtFile?
    ensures Open(Close(fs1, f), alloc, start, path, false, true, true).1.Some?
  {
    hide Inv, Close, Open;
    OpenReturnsIff(Close(fs1, f), alloc, start, path, false, true, true);
  }

  lemma {:induction false} WholeText(w: seq<RfsFile.byte>)
    ensures 0 !in w ==> RfsFile.BeforeNul(w) == w
  {
  }
}
