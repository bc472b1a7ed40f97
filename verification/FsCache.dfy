/**
 Soundness of the dentry and vinode caches: what the hash tables, pointers and the two
 levels of reference count must satisfy, and the cache updates that keep it.
 */
module FsCache {
  import opened RfsDir
  import opened FsState
  import opened FsTree

  /** Each hash table holds exactly the cached objects, under their own keys. */
  ghost predicate Hashed(c: Cache) {
    && (forall d :: d in c.dentries ==> DKey(c, d) in c.dhash && c.dhash[DKey(c, d)] == d)
    && (forall key :: key in c.dhash ==> c.dhash[key] in c.dentries && DKey(c, c.dhash[key]) == key)
    && (forall v :: v in c.vinodes ==> c.vinodes[v].inum in c.vhash && c.vhash[c.vinodes[v].inum] == v)
    && (forall i :: i in c.vhash ==> c.vhash[i] in c.vinodes && c.vinodes[c.vhash[i]].inum == i)
  }

  ghost function DKey(c: Cache, d: nat): (nat, string) {
    (DentryAt(c, d).parent, DentryAt(c, d).name)
  }

  ghost predicate IsDirDentry(c: Cache, d: nat) {
    d in c.dentries && InodeOf(c, d).meta.kind == DirI
  }

  /** A cached name other than the root's is a record of the directory its parent dentry denotes. */
  ghost predicate Named(c: Cache, t: Tree, d: nat) {
    && IsDirDentry(c, DentryAt(c, d).parent)
    && HasEntry(t, InodeOf(c, DentryAt(c, d).parent).inum, DentryAt(c, d).name, InodeOf(c, d).inum)
  }

  ghost predicate Anchored(c: Cache, t: Tree) {
    && c.root in c.dentries
    && NULL !in c.dentries
    && DentryAt(c, c.root).parent == NULL
    && InodeOf(c, c.root).inum == 0
    && (forall d :: d in c.dentries ==> c.dentries[d].inode in c.vinodes)
    && (forall d :: d in c.dentries && d != c.root ==> Named(c, t, d))
  }

  /** The dentries that point at vinode `v`. */
  ghost function Holders(c: Cache, v: nat): set<nat> {
    set d | d in c.dentries && c.dentries[d].inode == v
  }

  /** The open files that point at dentry `d`. */
  ghost function OpenOn(c: Cache, d: nat): set<nat> {
    set f | f in c.files && c.files[f].dentry == d
  }

  ghost predicate RefsCounted(c: Cache) {
    forall v :: v in c.vinodes ==> c.vinodes[v].ref == |Holders(c, v)|
  }

  ghost predicate DrefsCounted(c: Cache) {
    && (forall d :: d in c.dentries ==> c.dentries[d].dref == |OpenOn(c, d)|)
    && (forall f :: f in c.files ==> c.files[f].dentry in c.dentries)
  }

  /** A directory has at most one dentry. */
  ghost predicate OneDentryPerDir(c: Cache) {
    forall d, e :: IsDirDentry(c, d) && IsDirDentry(c, e) && c.dentries[d].inode == c.dentries[e].inode ==> d == e
  }

  /** What a cached inode shares with its disk copy: everything for a directory, kind and link count for a file. */
  ghost predicate Coherent(c: Cache, n: seq<Dinode>) {
    forall v :: v in c.vinodes ==>
      var x := c.vinodes[v];
      && Live(n, x.inum)
      && x.meta.kind == n[x.inum].kind
      && x.meta.nlinks == n[x.inum].nlinks
      && (x.meta.kind == DirI ==> x.meta == n[x.inum])
  }

  ghost predicate CacheInv(c: Cache, t: Tree, n: seq<Dinode>) {
    && Hashed(c)
    && Anchored(c, t)
    && RefsCounted(c)
    && DrefsCounted(c)
    && OneDentryPerDir(c)
    && Coherent(c, n)
  }

  // ---- facts ----

  /** Two directory dentries for one inode number are the same dentry. */
  lemma SameDirectory(c: Cache, d: nat, e: nat)
    requires Hashed(c) && OneDentryPerDir(c)
    requires IsDirDentry(c, d) && IsDirDentry(c, e)
    requires c.dentries[d].inode in c.vinodes && c.dentries[e].inode in c.vinodes
    requires InodeOf(c, d).inum == InodeOf(c, e).inum
    ensures d == e
  {
  }

  /** Two dentries for one directory record are the same dentry. */
  lemma SameName(c: Cache, t: Tree, d: nat, e: nat)
    requires Hashed(c) && OneDentryPerDir(c) && Anchored(c, t)
    requires d in c.dentries && e in c.dentries && d != c.root && e != c.root
    requires InodeOf(c, DentryAt(c, d).parent).inum == InodeOf(c, DentryAt(c, e).parent).inum
    requires DentryAt(c, d).name == DentryAt(c, e).name
    ensures d == e
  {
    assert Named(c, t, d) && Named(c, t, e);
    SameDirectory(c, DentryAt(c, d).parent, DentryAt(c, e).parent);
  }

  // ---- a new dentry ----

  /** A new dentry on a vinode that is already cached. */
  ghost function AddOld(c: Cache, a: nat, name: string, v: nat, p: nat): Cache {
    PutDentry(AddRef(c, v, 1), a, name, v, p)
  }

  /** A new dentry together with a new vinode. */
  ghost function AddNew(c: Cache, a: nat, name: string, v: nat, x: Vinode, p: nat): Cache {
    PutDentry(PutVinode(c, v, x), a, name, v, p)
  }

  lemma AddOldHolders(c: Cache, a: nat, name: string, v: nat, p: nat, w: nat)
    requires a !in c.dentries
    ensures Holders(AddOld(c, a, name, v, p), w) == Holders(c, w) + if w == v then {a} else {}
  {
  }

  lemma AddNewHolders(c: Cache, a: nat, name: string, v: nat, x: Vinode, p: nat, w: nat)
    requires a !in c.dentries
    ensures Holders(AddNew(c, a, name, v, x, p), w) == Holders(c, w) + if w == v then {a} else {}
  {
  }

  lemma NoHolders(c: Cache, t: Tree, v: nat)
    requires Anchored(c, t) && v !in c.vinodes
    ensures Holders(c, v) == {}
  {
  }

  lemma NoOpenFiles(c: Cache, d: nat)
    requires DrefsCounted(c) && d !in c.dentries
    ensures OpenOn(c, d) == {}
  {
  }

  /** The conditions of a lookup miss: `name` of directory dentry `p` is not cached and names inode `i`. */
  ghost predicate Uncached(c: Cache, t: Tree, a: nat, p: nat, name: string, i: nat) {
    && a !in c.dentries && a != NULL
    && IsDirDentry(c, p)
    && (p, name) !in c.dhash
    && HasEntry(t, InodeOf(c, p).inum, name, i)
  }

  lemma AddOldKeepsCounts(c: Cache, t: Tree, a: nat, name: string, v: nat, p: nat)
    requires RefsCounted(c) && DrefsCounted(c) && a !in c.dentries && v in c.vinodes
    ensures var c1 := AddOld(c, a, name, v, p); RefsCounted(c1) && DrefsCounted(c1)
  {
    var c1 := AddOld(c, a, name, v, p);
    forall w | w in c1.vinodes ensures c1.vinodes[w].ref == |Holders(c1, w)| {
      AddOldHolders(c, a, name, v, p, w);
    }
    NoOpenFiles(c, a);
    forall d | d in c1.dentries ensures c1.dentries[d].dref == |OpenOn(c1, d)| {
      assert OpenOn(c1, d) == OpenOn(c, d);
    }
  }

  lemma AddNewKeepsCounts(c: Cache, t: Tree, a: nat, name: string, v: nat, x: Vinode, p: nat)
    requires RefsCounted(c) && DrefsCounted(c) && Anchored(c, t)
    requires a !in c.dentries && v !in c.vinodes && x.ref == 1
    ensures var c1 := AddNew(c, a, name, v, x, p); RefsCounted(c1) && DrefsCounted(c1)
  {
    var c1 := AddNew(c, a, name, v, x, p);
    forall w | w in c1.vinodes ensures c1.vinodes[w].ref == |Holders(c1, w)| {
      AddNewHolders(c, a, name, v, x, p, w);
      if w == v { NoHolders(c, t, v); }
    }
    NoOpenFiles(c, a);
    forall d | d in c1.dentries ensures c1.dentries[d].dref == |OpenOn(c1, d)| {
      assert OpenOn(c1, d) == OpenOn(c, d);
    }
  }

  /** Old dentries see the same inodes through a cache that only gained objects. */
  ghost predicate Grown(c: Cache, c1: Cache) {
    && c1.root == c.root
    && (forall d :: d in c.dentries ==> d in c1.dentries && c1.dentries[d] == c.dentries[d])
    && (forall v :: v in c.vinodes ==>
          v in c1.vinodes && c1.vinodes[v].inum == c.vinodes[v].inum && c1.vinodes[v].meta == c.vinodes[v].meta)
  }

  lemma GrownKeepsNamed(c: Cache, c1: Cache, t: Tree, d: nat)
    requires Grown(c, c1) && Anchored(c, t) && d in c.dentries && d != c.root
    ensures Named(c1, t, d)
  {
    assert Named(c, t, d);
  }

  /** A directory that already has a dentry is never missed. */
  lemma MissedDirHasNoDentry(c: Cache, t: Tree, n: seq<Dinode>, a: nat, name: string, p: nat, i: nat, o: nat)
    requires CacheInv(c, t, n) && TreeInv(t, n) && Uncached(c, t, a, p, name, i) && IsDirDentry(c, o)
    ensures InodeOf(c, o).inum != i
  {
    var q := InodeOf(c, p).inum;
    assert Direntry(i, name) in t[q];
    if InodeOf(c, o).inum == i {
      assert Named(c, t, o);
      var up := DentryAt(c, o).parent;
      OneNamePerDirectory(t, n, i, InodeOf(c, up).inum, DentryAt(c, o).name, q, name);
      SameDirectory(c, up, p);
    }
  }

  /** The cache `c1` is `c` with dentry `a` for inode `i`, cached as `v`. */
  ghost predicate Extends(c: Cache, c1: Cache, a: nat, name: string, v: nat, p: nat, i: nat) {
    && Grown(c, c1)
    && c1.dentries == c.dentries[a := Dentry(name, 0, v, p)]
    && v in c1.vinodes && c1.vinodes[v].inum == i
    && c1.dhash == c.dhash[(p, name) := a]
    && c1.vinodes.Keys == c.vinodes.Keys + {v}
    && c1.vhash == c.vhash[i := v]
  }

  lemma ExtendKeepsAnchored(c: Cache, t: Tree, a: nat, name: string, v: nat, p: nat, i: nat, c1: Cache)
    requires Anchored(c, t) && Uncached(c, t, a, p, name, i) && Extends(c, c1, a, name, v, p, i)
    ensures Anchored(c1, t)
  {
    forall d | d in c1.dentries && d != c1.root ensures Named(c1, t, d) {
      if d != a { GrownKeepsNamed(c, c1, t, d); }
    }
  }

  lemma ExtendKeepsHashed(c: Cache, t: Tree, a: nat, name: string, v: nat, p: nat, i: nat, c1: Cache)
    requires Hashed(c) && Uncached(c, t, a, p, name, i) && Extends(c, c1, a, name, v, p, i)
    requires if v in c.vinodes then c.vinodes[v].inum == i else i !in c.vhash
    ensures Hashed(c1)
  {
    forall key | key in c1.dhash ensures c1.dhash[key] in c1.dentries && DKey(c1, c1.dhash[key]) == key {
      if key != (p, name) { assert key in c.dhash; }
    }
    forall w | w in c1.vinodes ensures c1.vinodes[w].inum in c1.vhash && c1.vhash[c1.vinodes[w].inum] == w {
      if w != v { assert w in c.vinodes; }
    }
  }

  lemma OnlyNewDentry(c: Cache, t: Tree, n: seq<Dinode>, a: nat, name: string, v: nat, p: nat, i: nat, c1: Cache,
                      d: nat)
    requires CacheInv(c, t, n) && TreeInv(t, n) && Uncached(c, t, a, p, name, i) && Extends(c, c1, a, name, v, p, i)
    ensures IsDirDentry(c1, d) && c1.dentries[d].inode == v ==> d == a
  {
    if IsDirDentry(c1, d) && d != a {
      MissedDirHasNoDentry(c, t, n, a, name, p, i, d);
    }
  }

  lemma ExtendKeepsOneDentry(c: Cache, t: Tree, a: nat, name: string, v: nat, p: nat, i: nat, c1: Cache)
    requires OneDentryPerDir(c) && Anchored(c, t) && Extends(c, c1, a, name, v, p, i)
    requires forall d :: IsDirDentry(c1, d) && c1.dentries[d].inode == v ==> d == a
    ensures OneDentryPerDir(c1)
  {
    forall d, e | IsDirDentry(c1, d) && IsDirDentry(c1, e)
      && c1.dentries[d].inode == c1.dentries[e].inode ensures d == e {
      if d != a && e != a {
        assert IsDirDentry(c, d) && IsDirDentry(c, e);
      }
    }
  }

  lemma ExtendKeepsStructure(c: Cache, t: Tree, n: seq<Dinode>, a: nat, name: string, v: nat, p: nat, i: nat, c1: Cache)
    requires CacheInv(c, t, n) && TreeInv(t, n) && Uncached(c, t, a, p, name, i) && Extends(c, c1, a, name, v, p, i)
    requires if v in c.vinodes then c.vinodes[v].inum == i else i !in c.vhash
    ensures Anchored(c1, t) && Hashed(c1) && OneDentryPerDir(c1)
  {
    ExtendKeepsAnchored(c, t, a, name, v, p, i, c1);
    ExtendKeepsHashed(c, t, a, name, v, p, i, c1);
    forall d ensures IsDirDentry(c1, d) && c1.dentries[d].inode == v ==> d == a {
      OnlyNewDentry(c, t, n, a, name, v, p, i, c1, d);
    }
    ExtendKeepsOneDentry(c, t, a, name, v, p, i, c1);
  }

  lemma AddOldExtends(c: Cache, a: nat, name: string, v: nat, p: nat)
    requires Hashed(c) && v in c.vinodes && a !in c.dentries && (p, name) !in c.dhash
    ensures Extends(c, AddOld(c, a, name, v, p), a, name, v, p, c.vinodes[v].inum)
  {
    var c1 := AddOld(c, a, name, v, p);
    assert c1.vinodes.Keys == c.vinodes.Keys + {v};
    assert c1.vhash == c.vhash[c.vinodes[v].inum := v];
  }

  lemma AddNewExtends(c: Cache, a: nat, name: string, v: nat, x: Vinode, p: nat)
    requires v !in c.vinodes && a !in c.dentries && (p, name) !in c.dhash && x.inum !in c.vhash
    ensures Extends(c, AddNew(c, a, name, v, x, p), a, name, v, p, x.inum)
  {
    var c1 := AddNew(c, a, name, v, x, p);
    assert c1.vinodes.Keys == c.vinodes.Keys + {v};
  }

  lemma GrownKeepsCoherent(c: Cache, c1: Cache, n: seq<Dinode>, v: nat)
    requires Coherent(c, n) && Grown(c, c1) && v in c1.vinodes && c1.vinodes.Keys == c.vinodes.Keys + {v}
    requires v !in c.vinodes ==> Live(n, c1.vinodes[v].inum) && c1.vinodes[v].meta == n[c1.vinodes[v].inum]
    ensures Coherent(c1, n)
  {
    forall w | w in c1.vinodes ensures w in c.vinodes || w == v {}
  }

  lemma AddOldKeepsCache(c: Cache, t: Tree, n: seq<Dinode>, a: nat, name: string, v: nat, p: nat)
    requires CacheInv(c, t, n) && TreeInv(t, n) && v in c.vinodes && Uncached(c, t, a, p, name, c.vinodes[v].inum)
    ensures CacheInv(AddOld(c, a, name, v, p), t, n)
  {
    AddOldKeepsCounts(c, t, a, name, v, p);
    AddOldExtends(c, a, name, v, p);
    ExtendKeepsStructure(c, t, n, a, name, v, p, c.vinodes[v].inum, AddOld(c, a, name, v, p));
    GrownKeepsCoherent(c, AddOld(c, a, name, v, p), n, v);
  }

  lemma AddNewKeepsCache(c: Cache, t: Tree, n: seq<Dinode>, a: nat, name: string, v: nat, x: Vinode, p: nat)
    requires CacheInv(c, t, n) && TreeInv(t, n) && v !in c.vinodes && Uncached(c, t, a, p, name, x.inum)
    requires x.inum !in c.vhash && x.ref == 1 && Live(n, x.inum) && x.meta == n[x.inum]
    ensures CacheInv(AddNew(c, a, name, v, x, p), t, n)
  {
    AddNewKeepsCounts(c, t, a, name, v, x, p);
    AddNewExtends(c, a, name, v, x, p);
    ExtendKeepsStructure(c, t, n, a, name, v, p, x.inum, AddNew(c, a, name, v, x, p));
    GrownKeepsCoherent(c, AddNew(c, a, name, v, x, p), n, v);
  }

  // ---- open files ----

  /**
   `c1` differs from `c` in reference counts, open files and the parts of an inode that the tree does not
   constrain.
   */
  ghost predicate SameShape(c: Cache, c1: Cache) {
    && c1.root == c.root && c1.dhash == c.dhash && c1.vhash == c.vhash
    && c1.dentries.Keys == c.dentries.Keys && c1.vinodes.Keys == c.vinodes.Keys
    && (forall d :: d in c.dentries ==>
          && c1.dentries[d].name == c.dentries[d].name
          && c1.dentries[d].inode == c.dentries[d].inode
          && c1.dentries[d].parent == c.dentries[d].parent)
    && (forall v :: v in c.vinodes ==>
          && c1.vinodes[v].inum == c.vinodes[v].inum
          && c1.vinodes[v].meta.kind == c.vinodes[v].meta.kind)
  }

  lemma SameShapeKeepsStructure(c: Cache, c1: Cache, t: Tree)
    requires SameShape(c, c1) && Hashed(c) && Anchored(c, t) && OneDentryPerDir(c)
    ensures Hashed(c1) && Anchored(c1, t) && OneDentryPerDir(c1)
  {
    SameShapeKeepsHashed(c, c1);
    forall d | d in c1.dentries && d != c1.root ensures Named(c1, t, d) {
      assert Named(c, t, d);
    }
    forall d | IsDirDentry(c1, d) ensures IsDirDentry(c, d) {}
  }

  lemma SameShapeKeepsHashed(c: Cache, c1: Cache)
    requires SameShape(c, c1) && Hashed(c)
    ensures Hashed(c1)
  {
    assert forall d :: d in c.dentries ==> DKey(c1, d) == DKey(c, d);
  }

  lemma SameHolders(c: Cache, c1: Cache, v: nat)
    requires SameShape(c, c1)
    ensures Holders(c1, v) == Holders(c, v)
  {
  }

  ghost function WithFile(c: Cache, f: nat, x: File): Cache {
    var c1 := AddDref(c, x.dentry, 1);
    c1.(files := c1.files[f := x])
  }

  ghost function WithoutFile(c: Cache, f: nat): Cache {
    var c1 := AddDref(c, FileAt(c, f).dentry, -1);
    c1.(files := c1.files - {f})
  }

  lemma OpenKeepsDrefs(c: Cache, f: nat, x: File)
    requires DrefsCounted(c) && x.dentry in c.dentries && f !in c.files
    ensures DrefsCounted(WithFile(c, f, x))
  {
    var c1 := WithFile(c, f, x);
    forall d | d in c1.dentries ensures c1.dentries[d].dref == |OpenOn(c1, d)| {
      OpenOnMore(c, f, x, d);
    }
  }

  lemma OpenOnMore(c: Cache, f: nat, x: File, d: nat)
    requires f !in c.files
    ensures OpenOn(WithFile(c, f, x), d) == OpenOn(c, d) + (if d == x.dentry then {f} else {}) && f !in OpenOn(c, d)
  {
  }

  lemma OpenOnLess(c: Cache, f: nat, d: nat)
    requires f in c.files
    ensures OpenOn(WithoutFile(c, f), d) == OpenOn(c, d) - if d == c.files[f].dentry then {f} else {}
  {
  }

  lemma ReleaseKeepsDrefs(c: Cache, f: nat)
    requires DrefsCounted(c) && f in c.files
    ensures DrefsCounted(WithoutFile(c, f))
  {
    var c1 := WithoutFile(c, f);
    var x := c.files[f];
    assert f in OpenOn(c, x.dentry);
    forall d | d in c1.dentries ensures c1.dentries[d].dref == |OpenOn(c1, d)| {
      OpenOnLess(c, f, d);
    }
  }

  lemma FilesKeepCache(c: Cache, c1: Cache, t: Tree, n: seq<Dinode>)
    requires CacheInv(c, t, n) && SameShape(c, c1) && c1.vinodes == c.vinodes && DrefsCounted(c1)
    ensures CacheInv(c1, t, n)
  {
    SameShapeKeepsStructure(c, c1, t);
    forall v | v in c1.vinodes ensures c1.vinodes[v].ref == |Holders(c1, v)| {
      SameHolders(c, c1, v);
    }
  }

  lemma FilesKeepShape(c: Cache, f: nat, x: File)
    requires x.dentry in c.dentries
    ensures SameShape(c, WithFile(c, f, x))
    ensures f in c.files && c.files[f] == x ==> SameShape(c, WithoutFile(c, f))
  {
    assert c.dentries.Keys + {x.dentry} == c.dentries.Keys;
  }

  lemma OpenKeepsCache(c: Cache, t: Tree, n: seq<Dinode>, f: nat, x: File)
    requires CacheInv(c, t, n) && x.dentry in c.dentries && f !in c.files
    ensures CacheInv(WithFile(c, f, x), t, n)
  {
    OpenKeepsDrefs(c, f, x);
    FilesKeepShape(c, f, x);
    FilesKeepCache(c, WithFile(c, f, x), t, n);
  }

  lemma ReleaseKeepsCache(c: Cache, t: Tree, n: seq<Dinode>, f: nat)
    requires CacheInv(c, t, n) && f in c.files
    ensures CacheInv(WithoutFile(c, f), t, n)
  {
    ReleaseKeepsDrefs(c, f);
    FilesKeepShape(c, f, c.files[f]);
    FilesKeepCache(c, WithoutFile(c, f), t, n);
  }

  // ---- inode contents ----

  lemma MetaKeepsCounts(c: Cache, c1: Cache)
    requires RefsCounted(c) && DrefsCounted(c)
    requires SameShape(c, c1) && c1.dentries == c.dentries && c1.files == c.files
    requires forall v :: v in c.vinodes ==> c1.vinodes[v].ref == c.vinodes[v].ref
    ensures RefsCounted(c1) && DrefsCounted(c1)
  {
    forall v | v in c1.vinodes ensures c1.vinodes[v].ref == |Holders(c1, v)| {
      SameHolders(c, c1, v);
    }
    forall d | d in c1.dentries ensures OpenOn(c1, d) == OpenOn(c, d) {}
  }

  lemma MoreEntriesKeepAnchored(c: Cache, t: Tree, t1: Tree)
    requires Anchored(c, t)
    requires forall d: nat, name, i: nat :: HasEntry(t, d, name, i) ==> HasEntry(t1, d, name, i)
    ensures Anchored(c, t1)
  {
    forall d | d in c.dentries && d != c.root ensures Named(c, t1, d) {
      assert Named(c, t, d);
    }
  }

  lemma MetaKeepsCache(c: Cache, t: Tree, n: seq<Dinode>, c1: Cache, t1: Tree, n1: seq<Dinode>)
    requires CacheInv(c, t, n) && SameShape(c, c1) && c1.dentries == c.dentries && c1.files == c.files
    requires forall v :: v in c.vinodes ==> c1.vinodes[v].ref == c.vinodes[v].ref
    requires forall d: nat, name, i: nat :: HasEntry(t, d, name, i) ==> HasEntry(t1, d, name, i)
    requires Coherent(c1, n1)
    ensures CacheInv(c1, t1, n1)
  {
    MetaKeepsCounts(c, c1);
    SameShapeKeepsStructure(c, c1, t);
    MoreEntriesKeepAnchored(c1, t, t1);
  }

  // ---- dropping a dentry ----

  /**
   `c1` is `c` without dentry `d`, whose inode has one reference less. The inode itself may go too (`gone`), once no
   reference is left; vfs_unlink keeps it when names remain on disk.
   */
  ghost predicate Dropped(c: Cache, d: nat, gone: bool, c1: Cache) {
    var v := DentryAt(c, d).inode;
    var r := VinodeAt(c, v).ref - 1;
    && c1.root == c.root && c1.files == c.files
    && c1.dentries == c.dentries - {d}
    && c1.dhash == c.dhash - {DKey(c, d)}
    && (gone ==> r == 0)
    && c1.vinodes == (if gone then c.vinodes - {v} else c.vinodes[v := VinodeAt(c, v).(ref := r)])
    && c1.vhash == (if gone then c.vhash - {VinodeAt(c, v).inum} else c.vhash)
  }

  /** A file dentry no open file points at: what vfs_close and vfs_unlink drop. */
  ghost predicate Droppable(c: Cache, d: nat) {
    d in c.dentries && d != c.root && !IsDirDentry(c, d) && c.dentries[d].dref == 0
  }

  lemma DropHolders(c: Cache, d: nat, gone: bool, c1: Cache, w: nat)
    requires Dropped(c, d, gone, c1) && d in c.dentries
    ensures Holders(c1, w) == Holders(c, w) - if w == c.dentries[d].inode then {d} else {}
  {
  }

  lemma DropKeepsRefs(c: Cache, d: nat, gone: bool, c1: Cache)
    requires RefsCounted(c) && d in c.dentries && c.dentries[d].inode in c.vinodes && Dropped(c, d, gone, c1)
    ensures RefsCounted(c1)
  {
    var v := c.dentries[d].inode;
    assert d in Holders(c, v);
    forall w | w in c1.vinodes ensures c1.vinodes[w].ref == |Holders(c1, w)| {
      DropHolders(c, d, gone, c1, w);
    }
  }

  lemma DropKeepsDrefs(c: Cache, d: nat, gone: bool, c1: Cache)
    requires DrefsCounted(c) && Droppable(c, d) && Dropped(c, d, gone, c1)
    ensures DrefsCounted(c1)
  {
    assert OpenOn(c, d) == {};
    forall f | f in c1.files ensures c1.files[f].dentry in c1.dentries {
      assert f !in OpenOn(c, d);
    }
    forall e | e in c1.dentries ensures OpenOn(c1, e) == OpenOn(c, e) {}
  }

  lemma DropKeepsHashed(c: Cache, d: nat, gone: bool, c1: Cache)
    requires Hashed(c) && d in c.dentries && c.dentries[d].inode in c.vinodes && Dropped(c, d, gone, c1)
    ensures Hashed(c1)
  {
    assert forall e :: e in c1.dentries ==> DKey(c1, e) == DKey(c, e);
    forall e | e in c1.dentries ensures DKey(c1, e) in c1.dhash && c1.dhash[DKey(c1, e)] == e {
      assert c.dhash[DKey(c, e)] == e && c.dhash[DKey(c, d)] == d;
    }
  }

  /** The inode a dentry sees survives as long as another dentry holds it. */
  lemma DropKeepsInode(c: Cache, t: Tree, d: nat, gone: bool, c1: Cache, e: nat)
    requires RefsCounted(c) && Anchored(c, t) && d in c.dentries && Dropped(c, d, gone, c1) && e in c.dentries && e != d
    ensures c.dentries[e].inode in c1.vinodes
    ensures InodeOf(c1, e).inum == InodeOf(c, e).inum && InodeOf(c1, e).meta == InodeOf(c, e).meta
  {
    var v := c.dentries[d].inode;
    if c.dentries[e].inode == v {
      assert {d, e} <= Holders(c, v);
      TwoElements(Holders(c, v), d, e);
    }
  }

  lemma TwoElements<T>(s: set<T>, x: T, y: T)
    requires x in s && y in s && x != y
    ensures |s| >= 2
  {
    assert |s - {x} - {y}| == |s| - 2;
  }

  lemma DropKeepsNamed(c: Cache, t: Tree, d: nat, gone: bool, c1: Cache, e: nat)
    requires RefsCounted(c) && Anchored(c, t) && Droppable(c, d) && Dropped(c, d, gone, c1)
    requires e in c1.dentries && e != c1.root
    ensures Named(c1, t, e)
  {
    assert Named(c, t, e);
    DropKeepsInode(c, t, d, gone, c1, e);
    DropKeepsInode(c, t, d, gone, c1, c.dentries[e].parent);
  }

  lemma DropKeepsAnchored(c: Cache, t: Tree, d: nat, gone: bool, c1: Cache)
    requires RefsCounted(c) && Anchored(c, t) && Droppable(c, d) && Dropped(c, d, gone, c1)
    ensures Anchored(c1, t)
  {
    forall e | e in c1.dentries ensures c1.dentries[e].inode in c1.vinodes {
      DropKeepsInode(c, t, d, gone, c1, e);
    }
    DropKeepsInode(c, t, d, gone, c1, c.root);
    forall e | e in c1.dentries && e != c1.root ensures Named(c1, t, e) {
      DropKeepsNamed(c, t, d, gone, c1, e);
    }
  }

  lemma DropKeepsOneDentry(c: Cache, t: Tree, d: nat, gone: bool, c1: Cache)
    requires RefsCounted(c) && Anchored(c, t) && OneDentryPerDir(c) && Droppable(c, d) && Dropped(c, d, gone, c1)
    ensures OneDentryPerDir(c1)
  {
    forall e | IsDirDentry(c1, e) ensures IsDirDentry(c, e) {
      DropKeepsInode(c, t, d, gone, c1, e);
    }
  }

  lemma DropKeepsCoherent(c: Cache, n: seq<Dinode>, d: nat, gone: bool, c1: Cache)
    requires Coherent(c, n) && DentryAt(c, d).inode in c.vinodes && Dropped(c, d, gone, c1)
    ensures Coherent(c1, n)
  {
    forall v | v in c1.vinodes
      ensures v in c.vinodes && c1.vinodes[v].inum == c.vinodes[v].inum && c1.vinodes[v].meta == c.vinodes[v].meta
    {}
  }

  lemma DropKeepsCache(c: Cache, t: Tree, n: seq<Dinode>, d: nat, gone: bool, c1: Cache)
    requires CacheInv(c, t, n) && Droppable(c, d) && Dropped(c, d, gone, c1)
    ensures CacheInv(c1, t, n)
  {
    DropKeepsRefs(c, d, gone, c1);
    DropKeepsDrefs(c, d, gone, c1);
    DropKeepsHashed(c, d, gone, c1);
    DropKeepsAnchored(c, t, d, gone, c1);
    DropKeepsOneDentry(c, t, d, gone, c1);
    DropKeepsCoherent(c, n, d, gone, c1);
  }

  /**
   When one name is left on disk, the dentry of that name is the only holder of the inode: dropping both leaves no
   reference behind.
   */
  lemma LastNameLastHolder(c: Cache, t: Tree, n: seq<Dinode>, d: nat)
    requires CacheInv(c, t, n) && TreeInv(t, n) && d in c.dentries && d != c.root
    requires InodeOf(c, d).meta.nlinks == 1
    ensures Holders(c, c.dentries[d].inode) == {d} && InodeOf(c, d).ref == 1
  {
    var v := c.dentries[d].inode;
    forall e | e in Holders(c, v) ensures e == d {
      SameLink(c, t, n, d, e);
    }
    OnlyHolder(c, t, d);
  }

  lemma OnlyHolder(c: Cache, t: Tree, d: nat)
    requires RefsCounted(c) && Anchored(c, t) && d in c.dentries
    requires forall e :: e in Holders(c, c.dentries[d].inode) ==> e == d
    ensures Holders(c, c.dentries[d].inode) == {d} && InodeOf(c, d).ref == 1
  {
    assert d in Holders(c, c.dentries[d].inode);
  }

  lemma SameLink(c: Cache, t: Tree, n: seq<Dinode>, d: nat, e: nat)
    requires CacheInv(c, t, n) && TreeInv(t, n) && d in c.dentries && d != c.root && e in c.dentries
    requires c.dentries[e].inode == c.dentries[d].inode && InodeOf(c, d).meta.nlinks == 1
    ensures e == d
  {
    var i := InodeOf(c, d).inum;
    assert Named(c, t, d);
    var (q, name) := (InodeOf(c, DentryAt(c, d).parent).inum, DentryAt(c, d).name);
    assert Direntry(i, name) in t[q];
    assert Live(n, i) && 0 < i;
    assert e != c.root;
    assert Named(c, t, e);
    InLinks(t, q, name, i);
    InLinks(t, InodeOf(c, DentryAt(c, e).parent).inum, DentryAt(c, e).name, i);
    SingletonSet(Links(t, i), (q, name), (InodeOf(c, DentryAt(c, e).parent).inum, DentryAt(c, e).name));
    SameName(c, t, d, e);
  }
}
