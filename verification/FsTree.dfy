/**
 The directory tree on disk, as a map from directory inode to its records, and the
 link counts that must agree with it.
 */
module FsTree {
  import opened RfsDir
  import opened FsState

  type Tree = map<nat, seq<Direntry>>

  /** Directory `d` has a record `name` for inode `i`. */
  ghost predicate HasEntry(t: Tree, d: nat, name: string, i: nat) {
    d in t && Direntry(i, name) in t[d]
  }

  ghost predicate UniqueNames(es: seq<Direntry>) {
    forall j, k :: 0 <= j < |es| && 0 <= k < |es| && es[j].name == es[k].name ==> j == k
  }

  /** Every record that names inode `i`, as (directory, name). */
  ghost function Links(t: Tree, i: nat): set<(nat, string)> {
    set d, e | d in t && e in t[d] && e.inum == i :: (d, e.name)
  }

  ghost predicate Live(dinodes: seq<Dinode>, i: nat) {
    i < |dinodes| && dinodes[i].kind != FreeI
  }

  ghost predicate IsDir(dinodes: seq<Dinode>, d: nat) {
    d < |dinodes| && dinodes[d].kind == DirI
  }

  /** The records name live inodes other than the root, and no name twice in one directory. */
  ghost predicate TreeShape(t: Tree, dinodes: seq<Dinode>) {
    && |dinodes| == INODES
    && 0 in t
    && (forall d: nat :: d in t <==> IsDir(dinodes, d))
    && (forall d :: d in t ==> UniqueNames(t[d]))
    && (forall d, e :: d in t && e in t[d] ==> 0 < e.inum && Live(dinodes, e.inum))
  }

  /** nlinks is the number of names, and a directory has exactly one. */
  ghost predicate LinkCounts(t: Tree, dinodes: seq<Dinode>) {
    forall i :: 0 < i && Live(dinodes, i) ==>
      && dinodes[i].nlinks == |Links(t, i)| > 0
      && (dinodes[i].kind == DirI ==> dinodes[i].nlinks == 1)
  }

  ghost predicate TreeInv(t: Tree, dinodes: seq<Dinode>) {
    TreeShape(t, dinodes) && LinkCounts(t, dinodes)
  }

  lemma InLinks(t: Tree, d: nat, name: string, i: nat)
    ensures (d, name) in Links(t, i) <==> HasEntry(t, d, name, i)
  {
    if (d, name) in Links(t, i) {
      var e :| e in t[d] && e.inum == i && e.name == name;
      assert e == Direntry(i, name);
    }
  }

  lemma SingletonSet<T>(s: set<T>, x: T, y: T)
    requires |s| == 1 && x in s && y in s
    ensures x == y
  {
    var rest := s - {x};
    assert |rest| == 0;
    assert y !in rest;
  }

  /** A directory is reached by one record only. */
  lemma OneNamePerDirectory(t: Tree, dinodes: seq<Dinode>, i: nat, d1: nat, n1: string, d2: nat, n2: string)
    requires TreeInv(t, dinodes) && i < |dinodes| && dinodes[i].kind == DirI
    requires HasEntry(t, d1, n1, i) && HasEntry(t, d2, n2, i)
    ensures d1 == d2 && n1 == n2
  {
    InLinks(t, d1, n1, i);
    InLinks(t, d2, n2, i);
    assert Direntry(i, n1) in t[d1];
    assert Live(dinodes, i);
    SingletonSet(Links(t, i), (d1, n1), (d2, n2));
  }

  /** With unique names the scan finds the record that is there, and only that one. */
  lemma FindUnique(es: seq<Direntry>, name: string, i: nat)
    requires UniqueNames(es)
    ensures Direntry(i, name) in es <==> var k := FindEntry(es, name); k < |es| && es[k].inum == i
  {
    var k := FindEntry(es, name);
    assert k < |es| ==> es[k] == Direntry(es[k].inum, name);
    if Direntry(i, name) in es {
      var j :| 0 <= j < |es| && es[j] == Direntry(i, name);
      assert es[j].name == name;
      assert k <= j;
    }
  }

  lemma LinksAppend(t: Tree, p: nat, e: Direntry, i: nat)
    requires p in t
    ensures Links(t[p := t[p] + [e]], i) == Links(t, i) + if e.inum == i then {(p, e.name)} else {}
  {
    var u := t[p := t[p] + [e]];
    forall x | x in Links(u, i)
      ensures x in Links(t, i) + if e.inum == i then {(p, e.name)} else {}
    {
      InLinks(u, x.0, x.1, i);
      InLinks(t, x.0, x.1, i);
    }
    forall x | x in Links(t, i) + if e.inum == i then {(p, e.name)} else {}
      ensures x in Links(u, i)
    {
      InLinks(u, x.0, x.1, i);
      InLinks(t, x.0, x.1, i);
      if x == (p, e.name) && e.inum == i {
        assert e == Direntry(i, e.name) && e in u[p];
      }
    }
  }

  lemma LinksNewDirectory(t: Tree, d: nat, i: nat)
    requires d !in t
    ensures Links(t[d := []], i) == Links(t, i)
  {
    var u: Tree := t[d := []];
    forall x: (nat, string) ensures x in Links(u, i) <==> x in Links(t, i) {
      InLinks(u, x.0, x.1, i);
      InLinks(t, x.0, x.1, i);
    }
  }

  lemma InRemoveAt<T>(s: seq<T>, k: nat, x: T)
    requires k < |s|
    ensures x in RemoveAt(s, k) <==> exists j :: 0 <= j < |s| && j != k && s[j] == x
  {
    var r := RemoveAt(s, k);
    if x in r {
      var j :| 0 <= j < |r| && r[j] == x;
      assert s[if j < k then j else j + 1] == x;
    }
    if j :| 0 <= j < |s| && j != k && s[j] == x {
      assert r[if j < k then j else j - 1] == x;
    }
  }

  lemma LinksRemove(t: Tree, p: nat, k: nat, i: nat)
    requires p in t && k < |t[p]| && UniqueNames(t[p])
    ensures var e := t[p][k];
            Links(t[p := RemoveAt(t[p], k)], i) == Links(t, i) - if e.inum == i then {(p, e.name)} else {}
  {
    var e := t[p][k];
    var u := t[p := RemoveAt(t[p], k)];
    forall x: (nat, string)
      ensures x in Links(u, i) <==> x in Links(t, i) - if e.inum == i then {(p, e.name)} else {}
    {
      InLinks(u, x.0, x.1, i);
      InLinks(t, x.0, x.1, i);
      InRemoveAt(t[p], k, Direntry(i, x.1));
    }
  }

  /** Adding the record `e` to directory `p`, when its name is new there and its inode live. */
  lemma AppendKeepsShape(t: Tree, n: seq<Dinode>, p: nat, e: Direntry)
    requires TreeShape(t, n) && p in t && 0 < e.inum && Live(n, e.inum)
    requires forall j :: 0 <= j < |t[p]| ==> t[p][j].name != e.name
    ensures TreeShape(t[p := t[p] + [e]], n)
  {
    var t1: Tree := t[p := t[p] + [e]];
    forall d, x: Direntry | d in t1 && x in t1[d] ensures 0 < x.inum && Live(n, x.inum) {
      assert x in t[d] || x == e;
    }
  }

  /** A fresh inode becomes live; a directory starts empty. */
  lemma FreshInodeKeepsShape(t: Tree, n0: seq<Dinode>, i: nat, n1: seq<Dinode>)
    requires TreeShape(t, n0) && |n1| == |n0| && i < |n0| && n0[i].kind == FreeI && n1[i].kind != FreeI
    requires forall j :: 0 <= j < |n0| && j != i ==> n1[j].kind == n0[j].kind
    ensures TreeShape(if n1[i].kind == DirI then t[i := []] else t, n1)
  {
    assert !IsDir(n0, i);
    assert forall j: nat :: Live(n0, j) ==> Live(n1, j);
    assert forall d: nat :: d != i ==> (IsDir(n0, d) <==> IsDir(n1, d));
  }

  /** Creating a name for a fresh inode: the tree stays sound. */
  lemma CreateKeepsTree(t: Tree, n0: seq<Dinode>, p: nat, e: Direntry, t1: Tree, n1: seq<Dinode>)
    requires TreeInv(t, n0) && p in t && |n1| == |n0|
    requires forall j :: 0 <= j < |t[p]| ==> t[p][j].name != e.name
    requires 0 < e.inum < |n0| && n0[e.inum].kind == FreeI
    requires n1[e.inum].kind != FreeI && n1[e.inum].nlinks == 1
    requires forall i :: 0 <= i < |n0| && i != e.inum ==> n1[i].kind == n0[i].kind && n1[i].nlinks == n0[i].nlinks
    requires t1 == (if n1[e.inum].kind == DirI then t[e.inum := []] else t)[p := t[p] + [e]]
    ensures TreeInv(t1, n1)
  {
    var t0: Tree := if n1[e.inum].kind == DirI then t[e.inum := []] else t;
    assert !IsDir(n0, e.inum);
    FreshInodeKeepsShape(t, n0, e.inum, n1);
    AppendKeepsShape(t0, n1, p, e);
    forall i | 0 < i && Live(n1, i)
      ensures n1[i].nlinks == |Links(t1, i)| > 0 && (n1[i].kind == DirI ==> n1[i].nlinks == 1)
    {
      LinksAppend(t0, p, e, i);
      if n1[e.inum].kind == DirI { LinksNewDirectory(t, e.inum, i); }
      if i == e.inum { NoLinksToFree(t, n0, i); } else { assert Live(n0, i); }
    }
  }

  lemma NoLinksToFree(t: Tree, dinodes: seq<Dinode>, i: nat)
    requires TreeShape(t, dinodes) && !Live(dinodes, i)
    ensures Links(t, i) == {}
  {
    forall x | x in Links(t, i) ensures false {
      InLinks(t, x.0, x.1, i);
    }
  }

  /** One more name for file `e.inum`. */
  lemma LinkKeepsTree(t: Tree, n0: seq<Dinode>, p: nat, e: Direntry, n1: seq<Dinode>)
    requires TreeInv(t, n0) && p in t && |n1| == |n0|
    requires forall j :: 0 <= j < |t[p]| ==> t[p][j].name != e.name
    requires 0 < e.inum < |n0| && n0[e.inum].kind == FileI
    requires n1[e.inum].kind == FileI && n1[e.inum].nlinks == n0[e.inum].nlinks + 1
    requires forall i :: 0 <= i < |n0| && i != e.inum ==> n1[i].kind == n0[i].kind && n1[i].nlinks == n0[i].nlinks
    ensures TreeInv(t[p := t[p] + [e]], n1)
  {
    SameKinds(t, n0, n1);
    AppendKeepsShape(t, n1, p, e);
    LinkCountsAfter(t, n0, p, e, n1);
  }

  lemma SameKinds(t: Tree, n0: seq<Dinode>, n1: seq<Dinode>)
    requires TreeShape(t, n0) && |n1| == |n0| && forall i :: 0 <= i < |n0| ==> n1[i].kind == n0[i].kind
    ensures TreeShape(t, n1)
  {
    assert forall d: nat :: IsDir(n0, d) <==> IsDir(n1, d);
    assert forall i: nat :: Live(n0, i) <==> Live(n1, i);
  }

  lemma LinkCountsAfter(t: Tree, n0: seq<Dinode>, p: nat, e: Direntry, n1: seq<Dinode>)
    requires LinkCounts(t, n0) && p in t && |n1| == |n0|
    requires forall j :: 0 <= j < |t[p]| ==> t[p][j].name != e.name
    requires 0 < e.inum < |n0| && n0[e.inum].kind == FileI
    requires n1[e.inum].kind == FileI && n1[e.inum].nlinks == n0[e.inum].nlinks + 1
    requires forall i :: 0 <= i < |n0| && i != e.inum ==> n1[i].kind == n0[i].kind && n1[i].nlinks == n0[i].nlinks
    ensures LinkCounts(t[p := t[p] + [e]], n1)
  {
    var t1: Tree := t[p := t[p] + [e]];
    forall i | 0 < i && Live(n1, i)
      ensures n1[i].nlinks == |Links(t1, i)| > 0 && (n1[i].kind == DirI ==> n1[i].nlinks == 1)
    {
      assert Live(n0, i);
      LinksAppend(t, p, e, i);
      InLinks(t, p, e.name, i);
    }
  }

  /** Dropping a record keeps the shape as long as the records left name live inodes. */
  lemma RemoveKeepsShape(t: Tree, n0: seq<Dinode>, p: nat, k: nat, n1: seq<Dinode>)
    requires TreeShape(t, n0) && p in t && k < |t[p]| && |n1| == |n0|
    requires forall d: nat :: IsDir(n0, d) <==> IsDir(n1, d)
    requires var i := t[p][k].inum;
             && (forall j: nat :: j != i && Live(n0, j) ==> Live(n1, j))
             && (Live(n1, i) || Links(t[p := RemoveAt(t[p], k)], i) == {})
    ensures TreeShape(t[p := RemoveAt(t[p], k)], n1)
  {
    var i := t[p][k].inum;
    var t1: Tree := t[p := RemoveAt(t[p], k)];
    forall d, x: Direntry | d in t1 && x in t1[d] ensures 0 < x.inum && Live(n1, x.inum) {
      InRemoveAt(t[p], k, x);
      assert x in t[d];
      InLinks(t1, d, x.name, i);
    }
  }

  /** One name less for file `i`; the inode is free exactly when none is left. */
  lemma UnlinkKeepsTree(t: Tree, n0: seq<Dinode>, p: nat, k: nat, n1: seq<Dinode>)
    requires TreeInv(t, n0) && p in t && k < |t[p]| && |n1| == |n0|
    requires n0[t[p][k].inum].kind == FileI
    requires var i := t[p][k].inum;
             && n1[i].nlinks == n0[i].nlinks - 1
             && n1[i].kind == (if n1[i].nlinks == 0 then FreeI else FileI)
             && forall j :: 0 <= j < |n0| && j != i ==> n1[j].kind == n0[j].kind && n1[j].nlinks == n0[j].nlinks
    ensures TreeInv(t[p := RemoveAt(t[p], k)], n1)
  {
    var e := t[p][k];
    assert e in t[p];
    var t1: Tree := t[p := RemoveAt(t[p], k)];
    InLinks(t, p, e.name, e.inum);
    LinksRemove(t, p, k, e.inum);
    assert Live(n0, e.inum);
    assert |Links(t1, e.inum)| == n1[e.inum].nlinks;
    RemoveKeepsShape(t, n0, p, k, n1);
    forall i | 0 < i && Live(n1, i)
      ensures n1[i].nlinks == |Links(t1, i)| > 0 && (n1[i].kind == DirI ==> n1[i].nlinks == 1)
    {
      LinksRemove(t, p, k, i);
      assert Live(n0, i);
    }
  }
}
