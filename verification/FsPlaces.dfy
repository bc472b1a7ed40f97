/**
 Where a new name lands. The code compares the token that was missing with the last token
 of the path, not its position, so a path can report success without naming what was made.
 */
module FsPlaces {
  import opened RfsDir
  import opened FsState
  import opened FsTree
  import opened FsLookup

  /** One token of a walk: on to a place, or the end. */
  datatype Step = To(place: Place) | End(result: WalkResult)

  ghost function Next(t: Tree, here: Place, token: string): Step {
    if token == "." then To(here)
    else if token == ".." then
      if here.AtFile? then To(InDir(here.dir))
      else if here.dir == 0 then End(Above)
      else To(InDir(ParentOnDisk(t, here.dir)))
    else if here.AtFile? || here.dir !in t then End(NotADirectory)
    else
      var es := t[here.dir];
      var k := FindEntry(es, token);
      if k == |es| then End(Miss(here.dir, token)) else To(PlaceFor(t, here.dir, es[k].inum))
  }

  lemma WalkByNext(t: Tree, here: Place, tokens: seq<string>)
    requires tokens != []
    ensures var s := Next(t, here, tokens[0]);
            Walk(t, here, tokens) == if s.To? then Walk(t, s.place, tokens[1..]) else s.result
  {
  }

  /** How many tokens a walk takes before the one it misses, or all of them. */
  ghost function MissIndex(t: Tree, here: Place, tokens: seq<string>): (k: nat)
    ensures k <= |tokens|
    ensures Walk(t, here, tokens).Miss? ==> k < |tokens| && tokens[k] == Walk(t, here, tokens).name
    decreases |tokens|
  {
    if tokens == [] then 0
    else
      WalkByNext(t, here, tokens);
      var s := Next(t, here, tokens[0]);
      if s.To? then 1 + MissIndex(t, s.place, tokens[1..]) else if s.result.Miss? then 0 else |tokens|
  }

  /**
   From a name just made in directory `dir`, the tokens lead back to it: there are none, or they stay, or they go up
   and come by the name again.
   */
  ghost predicate ComesBack(t: Tree, dir: nat, name: string, tokens: seq<string>)
    decreases |tokens|
  {
    || tokens == []
    || (tokens[0] == "." && ComesBack(t, dir, name, tokens[1..]))
    || (tokens[0] == ".." && Walk(t, InDir(dir), tokens[1..]) == Miss(dir, name)
        && ComesBack(t, dir, name, tokens[1..][MissIndex(t, InDir(dir), tokens[1..]) + 1..]))
  }

  /** Tree `t1` is `t` with a record `name` for inode `i` in `dir`: a file, or a new empty directory. */
  ghost predicate Added(t: Tree, t1: Tree, dir: nat, name: string, i: nat, isDir: bool) {
    && dir in t && FindEntry(t[dir], name) == |t[dir]| && i !in t && i != 0 && name != "." && name != ".."
    && t1 == (if isDir then t[i := []] else t)[dir := t[dir] + [Direntry(i, name)]]
  }

  ghost function NewPlace(dir: nat, i: nat, isDir: bool): Place {
    if isDir then InDir(i) else AtFile(dir, i)
  }

  /** Both trees are sound, and the records of the first name no directory but its own. */
  ghost predicate SoundTrees(t: Tree, t1: Tree, n: seq<Dinode>, n1: seq<Dinode>) {
    TreeInv(t, n) && TreeInv(t1, n1)
  }

  lemma ParentExists(t: Tree, n: seq<Dinode>, d: nat) returns (p: nat, name: string)
    requires TreeInv(t, n) && d in t && d != 0
    ensures HasEntry(t, p, name, d) && ParentOnDisk(t, d) == p && p in t
  {
    assert IsDir(n, d) && Live(n, d);
    assert Links(t, d) != {};
    var x :| x in Links(t, d);
    p, name := x.0, x.1;
    InLinks(t, p, name, d);
    UniqueParent(t, n, p, name, d);
  }

  /** The new record does not change where `..` leads. */
  lemma SameParent(t: Tree, t1: Tree, n: seq<Dinode>, n1: seq<Dinode>, dir: nat, name: string, i: nat, isDir: bool,
                   d: nat)
    requires SoundTrees(t, t1, n, n1) && Added(t, t1, dir, name, i, isDir) && d in t && d != 0
    ensures ParentOnDisk(t1, d) == ParentOnDisk(t, d) && ParentOnDisk(t, d) in t
  {
    var p, nm := ParentExists(t, n, d);
    assert HasEntry(t1, p, nm, d);
    UniqueParent(t1, n1, p, nm, d);
  }

  lemma {:induction false} FindInAppended(es: seq<Direntry>, e: Direntry, name: string)
    ensures FindEntry(es + [e], name) ==
            if FindEntry(es, name) < |es| then FindEntry(es, name) else if e.name == name then |es| else |es| + 1
  {
    var k := FindEntry(es, name);
    var k1 := FindEntry(es + [e], name);
    assert forall j :: 0 <= j < |es| ==> (es + [e])[j] == es[j];
    assert (es + [e])[|es|] == e;
  }

  /** One step by name, in both trees. */
  lemma SameStep(t: Tree, t1: Tree, dir: nat, name: string, i: nat, isDir: bool, d: nat, token: string)
    requires Added(t, t1, dir, name, i, isDir) && d in t && !(d == dir && token == name)
    ensures d in t1
    ensures FindEntry(t1[d], token) == |t1[d]| <==> FindEntry(t[d], token) == |t[d]|
    ensures FindEntry(t[d], token) < |t[d]| ==>
              && FindEntry(t1[d], token) == FindEntry(t[d], token)
              && t1[d][FindEntry(t[d], token)] == t[d][FindEntry(t[d], token)]
  {
    if d == dir { FindInAppended(t[dir], Direntry(i, name), token); }
  }

  /** A place in the tree: the directory is there, and a file is none. */
  ghost predicate Placed(t: Tree, here: Place) {
    here.dir in t
  }

  /** The inode a record names is the same kind of thing in both trees, unless it is the new one. */
  lemma SamePlaceFor(t: Tree, t1: Tree, n: seq<Dinode>, dir: nat, name: string, i: nat, isDir: bool, d: nat, k: nat)
    requires TreeInv(t, n) && Added(t, t1, dir, name, i, isDir) && d in t && k < |t[d]| && (isDir ==> !Live(n, i))
    ensures PlaceFor(t1, d, t[d][k].inum) == PlaceFor(t, d, t[d][k].inum) && Placed(t, PlaceFor(t, d, t[d][k].inum))
  {
    assert t[d][k] in t[d];
    assert Live(n, t[d][k].inum);
  }

  /** What the lemmas on two trees assume. */
  ghost predicate Setting(t: Tree, t1: Tree, n: seq<Dinode>, n1: seq<Dinode>, dir: nat, name: string, i: nat,
                          isDir: bool) {
    SoundTrees(t, t1, n, n1) && Added(t, t1, dir, name, i, isDir) && (isDir ==> !Live(n, i))
  }

  lemma NextPlaced(t: Tree, n: seq<Dinode>, here: Place, token: string)
    requires TreeInv(t, n) && Placed(t, here)
    ensures Next(t, here, token).To? ==> Placed(t, Next(t, here, token).place)
  {
    if token == ".." && here.InDir? && here.dir != 0 { var p, nm := ParentExists(t, n, here.dir); }
  }

  /** One token, in both trees. */
  lemma SameNext(t: Tree, t1: Tree, n: seq<Dinode>, n1: seq<Dinode>, dir: nat, name: string, i: nat, isDir: bool,
                 here: Place, token: string)
    requires Setting(t, t1, n, n1, dir, name, i, isDir) && Placed(t, here)
    requires !(here == InDir(dir) && token == name)
    ensures Next(t1, here, token) == Next(t, here, token)
  {
    if token == ".." {
      if here.InDir? && here.dir != 0 { SameParent(t, t1, n, n1, dir, name, i, isDir, here.dir); }
    } else if token != "." && here.InDir? {
      SameStep(t, t1, dir, name, i, isDir, here.dir, token);
      var k := FindEntry(t[here.dir], token);
      if k < |t[here.dir]| { SamePlaceFor(t, t1, n, dir, name, i, isDir, here.dir, k); }
    }
  }

  /** The token that was missing. */
  lemma NewNext(t: Tree, t1: Tree, dir: nat, name: string, i: nat, isDir: bool)
    requires Added(t, t1, dir, name, i, isDir)
    ensures Next(t, InDir(dir), name) == End(Miss(dir, name))
    ensures Next(t1, InDir(dir), name) == To(NewPlace(dir, i, isDir))
  {
    FindInAppended(t[dir], Direntry(i, name), name);
    assert t1[dir][|t[dir]|] == Direntry(i, name);
  }

  /** The two trees give the same steps, but for the new name, and lead from places to places. */
  ghost predicate Alike(t: Tree, t1: Tree, dir: nat, name: string, leaf: Place) {
    && (forall here, token :: Placed(t, here) && !(here == InDir(dir) && token == name) ==>
          Next(t1, here, token) == Next(t, here, token))
    && (forall here, token :: Placed(t, here) && Next(t, here, token).To? ==> Placed(t, Next(t, here, token).place))
    && Next(t, InDir(dir), name) == End(Miss(dir, name))
    && Next(t1, InDir(dir), name) == To(leaf)
  }

  lemma TreesAlike(t: Tree, t1: Tree, n: seq<Dinode>, n1: seq<Dinode>, dir: nat, name: string, i: nat, isDir: bool)
    requires Setting(t, t1, n, n1, dir, name, i, isDir)
    ensures Alike(t, t1, dir, name, NewPlace(dir, i, isDir))
  {
    forall here, token | Placed(t, here) && !(here == InDir(dir) && token == name)
      ensures Next(t1, here, token) == Next(t, here, token)
    {
      SameNext(t, t1, n, n1, dir, name, i, isDir, here, token);
    }
    forall here, token | Placed(t, here) && Next(t, here, token).To? ensures Placed(t, Next(t, here, token).place) {
      NextPlaced(t, n, here, token);
    }
    NewNext(t, t1, dir, name, i, isDir);
  }

  /** A walk that does not come by the new name is the same in both trees. */
  lemma {:induction false} WalkUnaffected(t: Tree, t1: Tree, dir: nat, name: string, leaf: Place, here: Place,
                                          tokens: seq<string>)
    requires Alike(t, t1, dir, name, leaf) && Placed(t, here) && Walk(t, here, tokens) != Miss(dir, name)
    ensures Walk(t1, here, tokens) == Walk(t, here, tokens)
    decreases |tokens|
  {
    if tokens != [] {
      WalkByNext(t, here, tokens);
      WalkByNext(t1, here, tokens);
      var s := Next(t, here, tokens[0]);
      if s.To? { WalkUnaffected(t, t1, dir, name, leaf, s.place, tokens[1..]); }
    }
  }

  /** A walk that missed the new name now goes through it. */
  lemma {:induction false} WalkThrough(t: Tree, t1: Tree, dir: nat, name: string, leaf: Place, here: Place,
                                       tokens: seq<string>)
    requires Alike(t, t1, dir, name, leaf) && Placed(t, here) && Walk(t, here, tokens) == Miss(dir, name)
    ensures Walk(t1, here, tokens) == Walk(t1, leaf, tokens[MissIndex(t, here, tokens) + 1..])
    decreases |tokens|
  {
    WalkByNext(t, here, tokens);
    WalkByNext(t1, here, tokens);
    var s := Next(t, here, tokens[0]);
    if s.To? {
      var rest := tokens[1..];
      WalkThrough(t, t1, dir, name, leaf, s.place, rest);
      assert rest[MissIndex(t, s.place, rest) + 1..] == tokens[MissIndex(t, here, tokens) + 1..];
    } else {
      MissHere(t, here, tokens[0], dir, name);
    }
  }

  lemma MissHere(t: Tree, here: Place, token: string, dir: nat, name: string)
    requires Next(t, here, token) == End(Miss(dir, name))
    ensures here == InDir(dir) && token == name
  {
  }

  /** A walk in the old tree that ends by a name `dir` does not have ends elsewhere. */
  lemma {:induction false} EndsElsewhere(t: Tree, t1: Tree, dir: nat, name: string, i: nat, isDir: bool, here: Place,
                                         tokens: seq<string>)
    requires Added(t, t1, dir, name, i, isDir) && Alike(t, t1, dir, name, NewPlace(dir, i, isDir)) && Placed(t, here)
    requires tokens != [] && tokens[|tokens| - 1] == name
    ensures Walk(t, here, tokens) != Hit(NewPlace(dir, i, isDir))
    decreases |tokens|
  {
    WalkByNext(t, here, tokens);
    var s := Next(t, here, tokens[0]);
    if s.To? {
      if |tokens| > 1 {
        EndsElsewhere(t, t1, dir, name, i, isDir, s.place, tokens[1..]);
      } else {
        LastStep(t, dir, name, i, isDir, here);
      }
    } else {
      EndIsNoHit(t, here, tokens[0]);
    }
  }

  lemma LastStep(t: Tree, dir: nat, name: string, i: nat, isDir: bool, here: Place)
    requires i !in t && dir in t && FindEntry(t[dir], name) == |t[dir]| && name != "." && name != ".."
    ensures Next(t, here, name) != To(NewPlace(dir, i, isDir))
  {
  }

  lemma EndIsNoHit(t: Tree, here: Place, token: string)
    ensures Next(t, here, token).End? ==> !Next(t, here, token).result.Hit?
  {
  }

  /** What the new name looks like from inside: a directory is empty, and `..` leads to where the record is. */
  ghost predicate NewLeaf(t1: Tree, dir: nat, leaf: Place) {
    && Next(t1, leaf, "..") == To(InDir(dir))
    && forall token :: token != "." && token != ".." ==> Next(t1, leaf, token).End?
  }

  lemma NewIsLeaf(t: Tree, t1: Tree, n: seq<Dinode>, n1: seq<Dinode>, dir: nat, name: string, i: nat, isDir: bool)
    requires Setting(t, t1, n, n1, dir, name, i, isDir)
    ensures NewLeaf(t1, dir, NewPlace(dir, i, isDir))
  {
    if isDir {
      assert t1[dir][|t[dir]|] == Direntry(i, name);
      assert HasEntry(t1, dir, name, i);
      UniqueParent(t1, n1, dir, name, i);
      assert t1[i] == [];
    }
  }

  /** From the new name, the rest of the path ends there exactly if it comes back. */
  lemma {:induction false} EndsAtNewIff(t: Tree, t1: Tree, dir: nat, name: string, i: nat, isDir: bool,
                                        tokens: seq<string>)
    requires Added(t, t1, dir, name, i, isDir) && Alike(t, t1, dir, name, NewPlace(dir, i, isDir))
    requires NewLeaf(t1, dir, NewPlace(dir, i, isDir))
    requires tokens == [] || tokens[|tokens| - 1] == name
    ensures Walk(t1, NewPlace(dir, i, isDir), tokens) == Hit(NewPlace(dir, i, isDir)) <==>
      ComesBack(t, dir, name, tokens)
    decreases |tokens|
  {
    var leaf := NewPlace(dir, i, isDir);
    if tokens != [] {
      WalkByNext(t1, leaf, tokens);
      var rest := tokens[1..];
      if tokens[0] == "." {
        EndsAtNewIff(t, t1, dir, name, i, isDir, rest);
      } else if tokens[0] == ".." {
        if Walk(t, InDir(dir), rest) == Miss(dir, name) {
          WalkThrough(t, t1, dir, name, leaf, InDir(dir), rest);
          EndsAtNewIff(t, t1, dir, name, i, isDir, rest[MissIndex(t, InDir(dir), rest) + 1..]);
        } else {
          WalkUnaffected(t, t1, dir, name, leaf, InDir(dir), rest);
          EndsElsewhere(t, t1, dir, name, i, isDir, InDir(dir), rest);
        }
      } else {
        EndIsNoHit(t1, leaf, tokens[0]);
      }
    }
  }

  /** The path leads to the new name if and only if the tokens behind the missing one come back to it. */
  ghost predicate ArrivesIff(t: Tree, t1: Tree, dir: nat, name: string, i: nat, isDir: bool, here: Place,
                             tokens: seq<string>) {
    && Walk(t, here, tokens) == Miss(dir, name)
    && (Walk(t1, here, tokens) == Hit(NewPlace(dir, i, isDir)) <==>
        ComesBack(t, dir, name, tokens[MissIndex(t, here, tokens) + 1..]))
  }

  /** So it is after a record is added for the token that was missing, if that is also the last one. */
  lemma LandsIff(t: Tree, t1: Tree, n: seq<Dinode>, n1: seq<Dinode>, dir: nat, name: string, i: nat, isDir: bool,
                 here: Place, tokens: seq<string>)
    requires Setting(t, t1, n, n1, dir, name, i, isDir) && Placed(t, here)
    requires Walk(t, here, tokens) == Miss(dir, name) && tokens[|tokens| - 1] == name
    ensures ArrivesIff(t, t1, dir, name, i, isDir, here, tokens)
  {
    TreesAlike(t, t1, n, n1, dir, name, i, isDir);
    NewIsLeaf(t, t1, n, n1, dir, name, i, isDir);
    AlikeLandsIff(t, t1, dir, name, i, isDir, here, tokens);
  }

  lemma AlikeLandsIff(t: Tree, t1: Tree, dir: nat, name: string, i: nat, isDir: bool, here: Place, tokens: seq<string>)
    requires Added(t, t1, dir, name, i, isDir) && Alike(t, t1, dir, name, NewPlace(dir, i, isDir))
    requires NewLeaf(t1, dir, NewPlace(dir, i, isDir)) && Placed(t, here)
    requires Walk(t, here, tokens) == Miss(dir, name) && tokens[|tokens| - 1] == name
    ensures ArrivesIff(t, t1, dir, name, i, isDir, here, tokens)
  {
    WalkThrough(t, t1, dir, name, NewPlace(dir, i, isDir), here, tokens);
    EndsAtNewIff(t, t1, dir, name, i, isDir, tokens[MissIndex(t, here, tokens) + 1..]);
  }

  /** Without `..` a path comes back only if the missing token was its last. */
  lemma {:induction false} ComesBackIffLast(t: Tree, dir: nat, name: string, tokens: seq<string>)
    requires ".." !in tokens && (tokens == [] || tokens[|tokens| - 1] == name) && name != "."
    ensures ComesBack(t, dir, name, tokens) <==> tokens == []
    decreases |tokens|
  {
    if tokens != [] && tokens[0] == "." {
      ComesBackIffLast(t, dir, name, tokens[1..]);
    }
  }
}
