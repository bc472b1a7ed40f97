/**
 The two hash tables of kernel/vfs.c: their hash functions and key comparisons, and the
 operations by which the virtual file system reaches them. Each table stands for a map;
 the caches of FsState are such maps.
 */
module VfsHash {
  import opened Options
  import opened HashTable
  import FsState

  const TWO64 := 0x1_0000_0000_0000_0000

  /** The address of the parent, and the name. */
  type DentryKey = (nat, string)

  /** The superblock, and the inode number. */
  type VinodeKey = (nat, nat)

  /** dentry_hash_equal */
  predicate DentryEqual(a: DentryKey, b: DentryKey) {
    a.1 == b.1 && a.0 == b.0
  }

  /** vinode_hash_equal */
  predicate VinodeEqual(a: VinodeKey, b: VinodeKey) {
    a.1 == b.1 && a.0 == b.0
  }

  /** One turn of the hash: `hash * 33 + c` in 64 bits. */
  function Mixed(hash: nat, c: nat): nat {
    (hash * 33 + c) % TWO64
  }

  function NameHash(hash: nat, name: string): nat
    decreases |name|
  {
    if name == "" then hash else NameHash(Mixed(hash, name[0] as int % 256), name[1..])
  }

  /** dentry_hash_func */
  function DentryHash(key: DentryKey): nat {
    Mixed(NameHash(5381, key.1), key.0) % SIZE
  }

  /** vinode_hash_func */
  function VinodeHash(key: VinodeKey): nat {
    key.1 % SIZE
  }

  /** dentry_hash_func's loop over the name. */
  method DentryHashFunc(key: DentryKey) returns (h: nat)
    ensures h == DentryHash(key) && h < SIZE
  {
    h := 5381;
    var i := 0;
    assert key.1[0..] == key.1;
    while i < |key.1|
      invariant i <= |key.1| && NameHash(h, key.1[i..]) == NameHash(5381, key.1)
    {
      assert key.1[i..][1..] == key.1[i + 1..];
      h := Mixed(h, key.1[i] as int % 256);
      i := i + 1;
    }
    h := Mixed(h, key.0) % SIZE;
  }

  /** Equal dentry keys hash alike, into the table. */
  lemma DentryKeysAreCongruent()
    ensures Congruent(DentryEqual, DentryHash)
  {
  }

  lemma VinodeKeysAreCongruent()
    ensures Congruent(VinodeEqual, VinodeHash)
  {
  }

  /** Table `t` stands for map `m`. */
  ghost predicate Holds<K(!new), V>(t: Table<K, V>, m: map<K, V>)
    reads t
  {
    && t.Valid()
    && (forall a, b :: t.equal(a, b) <==> a == b)
    && (forall k :: t.Lookup(k) == if k in m then Some(m[k]) else None)
  }

  /** The tables vfs_init sets up. */
  method EmptyTables() returns (dentries: Table<DentryKey, nat>, vinodes: Table<VinodeKey, nat>)
    ensures fresh(dentries) && fresh(vinodes) && Holds(dentries, map[]) && Holds(vinodes, map[])
  {
    DentryKeysAreCongruent();
    VinodeKeysAreCongruent();
    dentries := new Table(DentryEqual, DentryHash);
    vinodes := new Table(VinodeEqual, VinodeHash);
  }

  /** hash_get_dentry */
  method HashGetDentry(t: Table<DentryKey, nat>, parent: nat, name: string, ghost m: map<DentryKey, nat>)
    returns (r: Option<nat>)
    requires Holds(t, m)
    ensures r == if (parent, name) in m then Some(m[(parent, name)]) else None
  {
    r := t.Get((parent, name));
  }

  /** hash_put_dentry, with `node` the page of the new node: a name that is present stays as it is. */
  method HashPutDentry(t: Table<DentryKey, nat>, parent: nat, name: string, d: nat, node: nat, ghost m: map<DentryKey,
                       nat>)
    returns (ok: bool)
    requires Holds(t, m) && SIZE < node && node !in t.entries
    modifies t
    ensures Holds(t, FsState.HashPut(m, (parent, name), d)) && ok == ((parent, name) !in m)
  {
    ok := t.Put((parent, name), d, node);
  }

  /** hash_erase_dentry */
  method HashEraseDentry(t: Table<DentryKey, nat>, parent: nat, name: string, ghost m: map<DentryKey, nat>)
    returns (ok: bool)
    requires Holds(t, m)
    modifies t
    ensures Holds(t, m - {(parent, name)}) && ok == ((parent, name) in m)
  {
    ok := t.Erase((parent, name));
  }

  /** hash_get_vinode: a negative number is not looked up. */
  method HashGetVinode(t: Table<VinodeKey, nat>, sb: nat, inum: int, ghost m: map<VinodeKey, nat>)
    returns (r: Option<nat>)
    requires Holds(t, m)
    ensures r == if inum >= 0 && (sb, inum) in m then Some(m[(sb, inum)]) else None
  {
    if inum < 0 {
      return None;
    }
    r := t.Get((sb, inum));
  }

  /** hash_put_vinode */
  method HashPutVinode(t: Table<VinodeKey, nat>, sb: nat, inum: int, v: nat, node: nat, ghost m: map<VinodeKey, nat>)
    returns (ok: bool)
    requires Holds(t, m) && SIZE < node && node !in t.entries
    modifies t
    ensures ok == (inum >= 0 && (sb, inum) !in m)
    ensures Holds(t, if inum >= 0 then FsState.HashPut(m, (sb, inum), v) else m)
  {
    if inum < 0 {
      return false;
    }
    ok := t.Put((sb, inum), v, node);
  }

  /** hash_erase_vinode */
  method HashEraseVinode(t: Table<VinodeKey, nat>, sb: nat, inum: int, ghost m: map<VinodeKey, nat>) returns (ok: bool)
    requires Holds(t, m)
    modifies t
    ensures ok == (inum >= 0 && (sb, inum) in m)
    ensures Holds(t, if inum >= 0 then m - {(sb, inum)} else m)
  {
    if inum < 0 {
      return false;
    }
    ok := t.Erase((sb, inum));
  }
}
