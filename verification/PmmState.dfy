/**
 The physical page allocator of kernel/pmm.c as a state machine: a LIFO list of free pages
 and a table of reference counts, one entry per page that has been handed out, kept in
 increasing address order so that it can be bisected.

 ref_insert places a key that is above every other key at the front of the table. The
 machine never does that, because the highest page is the first one handed out and keeps a
 holder; both halves are proved here.
 */
module PmmState {
  const PGSIZE := 4096

  datatype RefUnit = RefUnit(pa: int, count: int)

  /** Free memory is `[start, end)`; `table` is ref_list up to ref_total; `free` is the list from its head. */
  datatype State = State(start: int, end: int, table: seq<RefUnit>, free: seq<int>)

  /** Strictly increasing page addresses. */
  ghost predicate Sorted(s: seq<RefUnit>) {
    forall i, j :: 0 <= i < j < |s| ==> s[i].pa < s[j].pa
  }

  ghost predicate HasKey(s: seq<RefUnit>, pa: int) {
    exists i :: 0 <= i < |s| && s[i].pa == pa
  }

  /** The table is a map from page to count: what it says is exactly how often each page is in `refs`. */
  ghost predicate Records(s: seq<RefUnit>, refs: multiset<int>) {
    && (forall i :: 0 <= i < |s| ==> refs[s[i].pa] == s[i].count > 0)
    && (forall p :: p in refs ==> HasKey(s, p))
  }

  /** Position of the first entry not below `pa`. */
  ghost function LowerBound(s: seq<RefUnit>, pa: int): (i: nat)
    ensures i <= |s|
    ensures forall j :: 0 <= j < i ==> s[j].pa < pa
    ensures i < |s| ==> pa <= s[i].pa
  {
    if s == [] || pa <= s[0].pa then 0
    else
      var i := 1 + LowerBound(s[1..], pa);
      assert forall j :: 1 <= j < i ==> s[j] == s[1..][j - 1];
      i
  }

  /** ref_insert: the position stays 0 when the bisection sees no entry at or above `pa`. */
  ghost function Inserted(s: seq<RefUnit>, pa: int): seq<RefUnit> {
    var i := LowerBound(s, pa);
    if i == |s| then [RefUnit(pa, 1)] + s
    else if s[i].pa == pa then s[i := RefUnit(pa, s[i].count + 1)]
    else s[..i] + [RefUnit(pa, 1)] + s[i..]
  }

  /** ref_erase's effect on the table. */
  ghost function Erased(s: seq<RefUnit>, pa: int): seq<RefUnit> {
    var i := LowerBound(s, pa);
    if i == |s| || s[i].pa != pa then s
    else if s[i].count == 1 then s[..i] + s[i + 1..]
    else s[i := RefUnit(pa, s[i].count - 1)]
  }

  /** ref_erase's result: no reference is left. */
  ghost predicate LastRef(s: seq<RefUnit>, pa: int) {
    !HasKey(Erased(s, pa), pa)
  }

  /** From any sorted table, insertion keeps it sorted exactly when it is empty or `pa` is at most its last key. */
  lemma InsertKeepsSortedIff(s: seq<RefUnit>, pa: int)
    requires Sorted(s)
    ensures Sorted(Inserted(s, pa)) <==> s == [] || pa <= s[|s| - 1].pa
  {
    var i := LowerBound(s, pa);
    if s == [] {
    } else if i == |s| {
      FrontIsUnsorted(s, pa);
    } else {
      InsideIsSorted(s, pa);
      assert s[i].pa <= s[|s| - 1].pa;
    }
  }

  /** A further reference to a page that has one. */
  lemma SharedStaysSorted(s: seq<RefUnit>, pa: int)
    requires Sorted(s)
    ensures HasKey(s, pa) ==> Sorted(Inserted(s, pa))
  {
    if HasKey(s, pa) {
      var i :| 0 <= i < |s| && s[i].pa == pa;
      assert s[i].pa <= s[|s| - 1].pa;
      InsertKeepsSortedIff(s, pa);
    }
  }

  lemma FrontIsUnsorted(s: seq<RefUnit>, pa: int)
    requires s != [] && LowerBound(s, pa) == |s|
    ensures !Sorted(Inserted(s, pa)) && s[|s| - 1].pa < pa
  {
    var r := [RefUnit(pa, 1)] + s;
    assert r[0].pa == pa && r[1].pa == s[0].pa;
  }

  lemma InsideIsSorted(s: seq<RefUnit>, pa: int)
    requires Sorted(s) && LowerBound(s, pa) < |s|
    ensures Sorted(Inserted(s, pa))
  {
    var i := LowerBound(s, pa);
    if s[i].pa != pa {
      assert forall k :: i < k < |s| ==> s[i].pa < s[k].pa;
      SortedWith(s, i, RefUnit(pa, 1));
    }
  }

  /** An entry between two neighbours. */
  lemma SortedWith(s: seq<RefUnit>, i: nat, u: RefUnit)
    requires Sorted(s) && i < |s|
    requires forall j :: 0 <= j < i ==> s[j].pa < u.pa
    requires forall j :: i <= j < |s| ==> u.pa < s[j].pa
    ensures Sorted(s[..i] + [u] + s[i..])
  {
    var r := s[..i] + [u] + s[i..];
    assert forall j :: 0 <= j < i ==> r[j] == s[j];
    assert forall j :: i < j < |r| ==> r[j] == s[j - 1];
  }

  lemma KeysDiffer(s: seq<RefUnit>, refs: multiset<int>, i: nat)
    requires Sorted(s) && Records(s, refs) && i < |s|
    ensures forall j :: 0 <= j < |s| && j != i ==> s[j].pa != s[i].pa
  {
    forall j | 0 <= j < |s| && j != i
      ensures s[j].pa != s[i].pa
    {
      if j < i {
        assert s[j].pa < s[i].pa;
      } else {
        assert s[i].pa < s[j].pa;
      }
    }
  }

  lemma UpdateRecords(s: seq<RefUnit>, refs: multiset<int>, i: nat, n: nat)
    requires Sorted(s) && Records(s, refs) && i < |s| && n > 0
    ensures Records(s[i := RefUnit(s[i].pa, n)], refs[s[i].pa := n])
    ensures Sorted(s[i := RefUnit(s[i].pa, n)])
  {
    KeysDiffer(s, refs, i);
    var r := s[i := RefUnit(s[i].pa, n)];
    assert forall j :: 0 <= j < |s| ==> r[j].pa == s[j].pa;
    forall p | p in refs[s[i].pa := n]
      ensures HasKey(r, p)
    {
      assert HasKey(s, p);
    }
  }

  lemma AddRecords(s: seq<RefUnit>, refs: multiset<int>, i: nat, pa: int)
    requires Records(s, refs) && i <= |s|
    requires pa !in refs
    ensures Records(s[..i] + [RefUnit(pa, 1)] + s[i..], refs[pa := 1])
  {
    var r := s[..i] + [RefUnit(pa, 1)] + s[i..];
    assert r[i].pa == pa;
    forall j | 0 <= j < |r|
      ensures refs[pa := 1][r[j].pa] == r[j].count
    {
      if j != i {
        var k := if j < i then j else j - 1;
        assert r[j] == s[k] && refs[s[k].pa] == s[k].count;
      }
    }
    forall p | p in refs[pa := 1]
      ensures HasKey(r, p)
    {
      if p != pa {
        var j :| 0 <= j < |s| && s[j].pa == p;
        assert r[if j < i then j else j + 1].pa == p;
      }
    }
  }

  lemma Without(s: seq<RefUnit>, i: nat)
    requires i < |s|
    ensures var r := s[..i] + s[i + 1..];
      |r| == |s| - 1 && forall j :: 0 <= j < |r| ==> r[j] == if j < i then s[j] else s[j + 1]
  {
  }

  lemma RemoveSorted(s: seq<RefUnit>, i: nat)
    requires Sorted(s) && i < |s|
    ensures Sorted(s[..i] + s[i + 1..]) && !HasKey(s[..i] + s[i + 1..], s[i].pa)
  {
    Without(s, i);
  }

  lemma RemoveRecords(s: seq<RefUnit>, refs: multiset<int>, i: nat)
    requires Sorted(s) && Records(s, refs) && i < |s|
    ensures Records(s[..i] + s[i + 1..], refs[s[i].pa := 0])
  {
    KeysDiffer(s, refs, i);
    Without(s, i);
    var r := s[..i] + s[i + 1..];
    forall p | p in refs[s[i].pa := 0]
      ensures HasKey(r, p)
    {
      assert HasKey(s, p);
      var j :| 0 <= j < |s| && s[j].pa == p;
      assert r[if j < i then j else j - 1].pa == p;
    }
  }

  lemma AbsentAtBound(s: seq<RefUnit>, pa: int, refs: multiset<int>)
    requires Sorted(s) && Records(s, refs)
    ensures HasKey(s, pa) <==> LowerBound(s, pa) < |s| && s[LowerBound(s, pa)].pa == pa
    ensures pa in refs <==> HasKey(s, pa)
  {
    if k :| 0 <= k < |s| && s[k].pa == pa {
      assert refs[s[k].pa] == s[k].count;
      assert LowerBound(s, pa) <= k;
    }
  }

  lemma OneMore(refs: multiset<int>, pa: int)
    ensures refs[pa := refs[pa] + 1] == refs + multiset{pa}
  {
  }

  lemma OneLess(refs: multiset<int>, pa: int)
    ensures refs[pa] > 0 ==> refs[pa := refs[pa] - 1] == refs - multiset{pa}
    ensures refs[pa] == 0 ==> refs - multiset{pa} == refs
  {
  }

  lemma InsertRecords(s: seq<RefUnit>, pa: int, refs: multiset<int>)
    requires Sorted(s) && Records(s, refs)
    ensures Records(Inserted(s, pa), refs + multiset{pa})
  {
    var i := LowerBound(s, pa);
    AbsentAtBound(s, pa, refs);
    OneMore(refs, pa);
    if i < |s| && s[i].pa == pa {
      UpdateRecords(s, refs, i, s[i].count + 1);
    } else {
      AddRecords(s, refs, if i == |s| then 0 else i, pa);
      assert s[..0] + [RefUnit(pa, 1)] + s[0..] == [RefUnit(pa, 1)] + s;
    }
  }

  lemma EraseLast(s: seq<RefUnit>, refs: multiset<int>, i: nat)
    requires Sorted(s) && Records(s, refs) && i < |s| && s[i].count == 1
    ensures var r := s[..i] + s[i + 1..];
      Sorted(r) && Records(r, refs - multiset{s[i].pa}) && !HasKey(r, s[i].pa)
  {
    RemoveRecords(s, refs, i);
    RemoveSorted(s, i);
    OneLess(refs, s[i].pa);
  }

  lemma EraseSome(s: seq<RefUnit>, refs: multiset<int>, i: nat)
    requires Sorted(s) && Records(s, refs) && i < |s| && s[i].count > 1
    ensures var r := s[i := RefUnit(s[i].pa, s[i].count - 1)];
      Sorted(r) && Records(r, refs - multiset{s[i].pa}) && HasKey(r, s[i].pa)
  {
    UpdateRecords(s, refs, i, s[i].count - 1);
    OneLess(refs, s[i].pa);
    assert s[i := RefUnit(s[i].pa, s[i].count - 1)][i].pa == s[i].pa;
  }

  lemma EraseRecords(s: seq<RefUnit>, pa: int, refs: multiset<int>)
    requires Sorted(s) && Records(s, refs)
    ensures Sorted(Erased(s, pa))
    ensures Records(Erased(s, pa), refs - multiset{pa})
    ensures LastRef(s, pa) <==> refs[pa] <= 1
  {
    AbsentAtBound(s, pa, refs);
    if HasKey(s, pa) {
      EraseFound(s, pa, refs, LowerBound(s, pa));
    } else {
      OneLess(refs, pa);
    }
  }

  lemma EraseFound(s: seq<RefUnit>, pa: int, refs: multiset<int>, i: nat)
    requires Sorted(s) && Records(s, refs) && i == LowerBound(s, pa) < |s| && s[i].pa == pa
    ensures Sorted(Erased(s, pa))
    ensures Records(Erased(s, pa), refs - multiset{pa})
    ensures LastRef(s, pa) <==> refs[pa] <= 1
  {
    hide Sorted, Records, HasKey, LowerBound;
    CountAt(s, refs, i);
    if s[i].count == 1 {
      EraseLast(s, refs, i);
      assert Erased(s, pa) == s[..i] + s[i + 1..];
    } else {
      EraseSome(s, refs, i);
      assert Erased(s, pa) == s[i := RefUnit(pa, s[i].count - 1)];
    }
  }

  lemma CountAt(s: seq<RefUnit>, refs: multiset<int>, i: nat)
    requires Records(s, refs) && i < |s|
    ensures refs[s[i].pa] == s[i].count > 0
  {
  }

  /** The pages with a reference. */
  ghost function Distinct(refs: multiset<int>): set<int> {
    set p | p in refs
  }

  lemma AddKey(refs: multiset<int>, p: int)
    requires p in refs
    ensures |Distinct(refs)| == |Distinct(refs[p := 0])| + 1
  {
    var fewer := Distinct(refs[p := 0]);
    assert p !in fewer;
    assert Distinct(refs) == fewer + {p};
  }

  /** One entry per page with a reference: ref_list is long enough while at most that many pages are held. */
  lemma {:induction false} TableSize(s: seq<RefUnit>, refs: multiset<int>)
    requires Sorted(s) && Records(s, refs)
    ensures |s| == |Distinct(refs)|
    decreases |s|
  {
    if s == [] {
      NoKeys(refs);
      assert Distinct(refs) == {};
    } else {
      var last := s[|s| - 1].pa;
      RemoveRecords(s, refs, |s| - 1);
      RemoveSorted(s, |s| - 1);
      var rest := refs[last := 0];
      assert s[..|s| - 1] + s[|s| - 1 + 1..] == s[..|s| - 1];
      TableSize(s[..|s| - 1], rest);
      AddKey(refs, last);
    }
  }

  /** The pages the allocator manages; create_freepage_list stops before the last one of an aligned range. */
  ghost predicate Managed(start: int, end: int, p: int) {
    p % PGSIZE == 0 && start <= p && p + PGSIZE < end
  }

  /** create_freepage_list from page `p` on, pushing onto `list`. */
  ghost function Pushed(p: int, end: int, list: seq<int>): seq<int>
    decreases end - p
  {
    if p + PGSIZE < end then Pushed(p + PGSIZE, end, [p] + list) else list
  }

  ghost function Boot(start: int, end: int): State {
    State(start, end, [], Pushed(start, end, []))
  }

  /** alloc_page's result: the head of the list, or 0. */
  ghost function NextPage(s: State): int {
    if s.free == [] then 0 else s.free[0]
  }

  /** alloc_page. When no page is left, 0 is returned and is counted all the same. */
  ghost function Alloc(s: State): State {
    s.(table := Inserted(s.table, NextPage(s)), free := if s.free == [] then [] else s.free[1..])
  }

  /** free_page, on an address that it does not reject. */
  ghost function Release(s: State, pa: int): State {
    s.(table := Erased(s.table, pa), free := if LastRef(s.table, pa) then [pa] + s.free else s.free)
  }

  /** What cow_vm_map does to the counts. */
  ghost function Share(s: State, pa: int): State {
    s.(table := Inserted(s.table, pa))
  }

  /** The highest managed page, 0 when there is none. */
  ghost predicate IsTop(start: int, end: int, top: int) {
    && (top == 0 || Managed(start, end, top))
    && (forall p :: Managed(start, end, p) ==> p <= top)
  }

  ghost predicate NoDuplicates(l: seq<int>) {
    forall i, j :: 0 <= i < j < |l| ==> l[i] != l[j]
  }

  /** Each managed page is on the free list, exactly once, or has a holder, and not both. */
  ghost predicate Partition(s: State, refs: multiset<int>) {
    && NoDuplicates(s.free)
    && (forall p :: p in s.free ==> Managed(s.start, s.end, p) && p !in refs)
    && (forall p :: Managed(s.start, s.end, p) ==> p in s.free || p in refs)
    && (forall p :: p in refs ==> p == 0 || Managed(s.start, s.end, p))
  }

  /** The highest page is the first to go, and never loses its last holder. */
  ghost predicate Sentinel(s: State, top: int, refs: multiset<int>) {
    if refs == multiset{} then NextPage(s) == top else top in refs
  }

  ghost predicate Inv(s: State, top: int, refs: multiset<int>) {
    && 0 < s.start
    && Sorted(s.table) && Records(s.table, refs)
    && IsTop(s.start, s.end, top) && Partition(s, refs) && Sentinel(s, top, refs)
  }

  lemma LastKey(s: seq<RefUnit>, top: int, refs: multiset<int>)
    requires Sorted(s) && Records(s, refs)
    requires top in refs && forall p :: p in refs ==> p <= top
    ensures s != [] && s[|s| - 1].pa == top
  {
    assert HasKey(s, top);
    assert s[|s| - 1].pa in refs;
  }

  lemma RefsBelowTop(s: State, top: int, refs: multiset<int>)
    requires IsTop(s.start, s.end, top) && Partition(s, refs) && 0 < s.start
    ensures forall p :: p in refs ==> p <= top
  {
  }

  lemma NoKeys(refs: multiset<int>)
    requires Records([], refs)
    ensures refs == multiset{}
  {
    forall p
      ensures refs[p] == 0
    {
      assert p in refs ==> HasKey([], p);
    }
  }

  lemma EmptyTable(s: seq<RefUnit>, refs: multiset<int>)
    requires Records(s, refs)
    ensures s == [] <==> refs == multiset{}
  {
    if s != [] {
      assert refs[s[0].pa] == s[0].count;
    } else {
      NoKeys(refs);
    }
  }

  /** In the machine no insertion is above the last key. */
  lemma InsertInOrder(s: State, top: int, refs: multiset<int>, pa: int)
    requires Inv(s, top, refs)
    requires pa in refs || pa == NextPage(s)
    ensures Sorted(Inserted(s.table, pa))
    ensures Records(Inserted(s.table, pa), refs + multiset{pa})
  {
    InsertKeepsSortedIff(s.table, pa);
    InsertRecords(s.table, pa, refs);
    EmptyTable(s.table, refs);
    if refs != multiset{} {
      RefsBelowTop(s, top, refs);
      LastKey(s.table, top, refs);
      assert pa <= top;
    }
  }

  lemma PopKeepsPartition(s: State, refs: multiset<int>, table: seq<RefUnit>)
    requires Partition(s, refs) && 0 < s.start
    ensures Partition(s.(table := table, free := if s.free == [] then [] else s.free[1..]),
                      refs + multiset{NextPage(s)})
  {
    if s.free != [] {
      assert s.free == [s.free[0]] + s.free[1..];
      assert s.free[0] in s.free;
      assert forall p :: p in s.free[1..] ==> p in s.free && p != s.free[0];
    }
  }

  /** alloc_page: the page it returns had no holder. */
  lemma AllocKeepsInv(s: State, top: int, refs: multiset<int>)
    requires Inv(s, top, refs)
    ensures Inv(Alloc(s), top, refs + multiset{NextPage(s)})
    ensures NextPage(s) != 0 ==> Managed(s.start, s.end, NextPage(s)) && NextPage(s) !in refs
    ensures NextPage(s) == 0 ==> forall p :: Managed(s.start, s.end, p) ==> p in refs
  {
    InsertInOrder(s, top, refs, NextPage(s));
    PopKeepsPartition(s, refs, Alloc(s).table);
    assert Sentinel(Alloc(s), top, refs + multiset{NextPage(s)});
  }

  lemma ShareKeepsInv(s: State, top: int, refs: multiset<int>, pa: int)
    requires Inv(s, top, refs) && pa in refs
    ensures Inv(Share(s, pa), top, refs + multiset{pa})
  {
    InsertInOrder(s, top, refs, pa);
  }

  /** free_page by a holder: the page goes back to the list exactly when that was its last reference. */
  lemma PushKeepsPartition(s: State, refs: multiset<int>, pa: int, table: seq<RefUnit>)
    requires Partition(s, refs) && pa in refs && pa != 0
    ensures Partition(s.(table := table, free := if refs[pa] <= 1 then [pa] + s.free else s.free),
                      refs - multiset{pa})
    ensures pa !in s.free
  {
  }

  lemma ReleaseKeepsInv(s: State, top: int, refs: multiset<int>, pa: int)
    requires Inv(s, top, refs)
    requires pa in refs && pa != 0 && (pa != top || refs[pa] > 1)
    ensures Inv(Release(s, pa), top, refs - multiset{pa})
    ensures pa in Release(s, pa).free <==> refs[pa] == 1
  {
    hide Sorted, Records, Erased, LastRef, LowerBound, Partition;
    EraseRecords(s.table, pa, refs);
    PushKeepsPartition(s, refs, pa, Erased(s.table, pa));
    assert top in refs - multiset{pa};
  }

  /** The page freed last is the next to go, and the list behind it is as it was. */
  lemma ReleasedIsNext(s: State, top: int, refs: multiset<int>, pa: int)
    requires Inv(s, top, refs) && refs[pa] == 1
    ensures NextPage(Release(s, pa)) == pa && Alloc(Release(s, pa)).free == s.free
  {
    EraseRecords(s.table, pa, refs);
  }

  lemma {:induction false} PushedPages(start: int, p: int, end: int, list: seq<int>, top: int)
    requires start % PGSIZE == 0 && p % PGSIZE == 0 && 0 < start <= p
    requires NoDuplicates(list)
    requires forall q :: q in list <==> Managed(start, end, q) && q < p
    requires top == (if list == [] then 0 else list[0])
    requires forall q :: Managed(start, end, q) && q < p ==> q <= top
    ensures var all := Pushed(p, end, list);
      && NoDuplicates(all)
      && (forall q :: q in all <==> Managed(start, end, q))
      && IsTop(start, end, if all == [] then 0 else all[0])
    decreases end - p
  {
    if p + PGSIZE < end {
      NextMultiple(p);
      assert p !in list;
      assert forall i :: 0 <= i < |list| ==> list[i] in list;
      PushedPages(start, p + PGSIZE, end, [p] + list, p);
    } else if list != [] {
      assert list[0] in list;
    }
  }

  lemma NextMultiple(p: int)
    requires p % PGSIZE == 0
    ensures (p + PGSIZE) % PGSIZE == 0
    ensures forall q :: q % PGSIZE == 0 && q < p + PGSIZE ==> q <= p
  {
  }

  /** After pmm_init every managed page is free and the highest is at the head. */
  lemma BootInv(start: int, end: int)
    requires start % PGSIZE == 0 && 0 < start
    ensures Inv(Boot(start, end), NextPage(Boot(start, end)), multiset{})
  {
    PushedPages(start, start, end, [], 0);
  }

  /** The calls: alloc_page, cow_vm_map's ref_insert and free_page. */
  datatype Op = AllocOp | ShareOp(pa: int) | ReleaseOp(pa: int)

  /** The allocator together with the references its callers hold. */
  datatype World = World(mem: State, refs: multiset<int>)

  ghost function Apply(w: World, op: Op): World {
    match op
    case AllocOp => World(Alloc(w.mem), w.refs + multiset{NextPage(w.mem)})
    case ShareOp(pa) => World(Share(w.mem, pa), w.refs + multiset{pa})
    case ReleaseOp(pa) => World(Release(w.mem, pa), w.refs - multiset{pa})
  }

  /** Only holders share and release, and the highest page keeps one holder. */
  ghost predicate Enabled(w: World, top: int, op: Op) {
    match op
    case AllocOp => true
    case ShareOp(pa) => pa in w.refs
    case ReleaseOp(pa) => pa in w.refs && pa != 0 && (pa != top || w.refs[pa] > 1)
  }

  ghost function Run(w: World, ops: seq<Op>): World
    decreases |ops|
  {
    if ops == [] then w else Run(Apply(w, ops[0]), ops[1..])
  }

  ghost predicate AllEnabled(w: World, top: int, ops: seq<Op>)
    decreases |ops|
  {
    ops == [] || (Enabled(w, top, ops[0]) && AllEnabled(Apply(w, ops[0]), top, ops[1..]))
  }

  lemma {:induction false} RunKeepsInv(w: World, top: int, ops: seq<Op>)
    requires Inv(w.mem, top, w.refs) && AllEnabled(w, top, ops)
    ensures Inv(Run(w, ops).mem, top, Run(w, ops).refs)
    decreases |ops|
  {
    if ops != [] {
      match ops[0] {
        case AllocOp => AllocKeepsInv(w.mem, top, w.refs);
        case ShareOp(pa) => ShareKeepsInv(w.mem, top, w.refs, pa);
        case ReleaseOp(pa) => ReleaseKeepsInv(w.mem, top, w.refs, pa);
      }
      RunKeepsInv(Apply(w, ops[0]), top, ops[1..]);
    }
  }

  /** In every run from pmm_init the table is sorted and counts the references, and each page is free once or held. */
  lemma EveryRunIsSound(start: int, end: int, ops: seq<Op>)
    requires start % PGSIZE == 0 && 0 < start
    requires AllEnabled(World(Boot(start, end), multiset{}), NextPage(Boot(start, end)), ops)
    ensures var w := Run(World(Boot(start, end), multiset{}), ops);
      && Sorted(w.mem.table) && Records(w.mem.table, w.refs) && |w.mem.table| == |Distinct(w.refs)|
      && Partition(w.mem, w.refs)
  {
    BootInv(start, end);
    var top := NextPage(Boot(start, end));
    var w := Run(World(Boot(start, end), multiset{}), ops);
    RunKeepsInv(World(Boot(start, end), multiset{}), top, ops);
    TableSize(w.mem.table, w.refs);
  }

  ghost function Times(op: Op, n: nat): seq<Op> {
    seq(n, _ => op)
  }

  lemma FirstOf(w: World, top: int, op: Op, n: nat)
    requires n > 0
    ensures Run(w, Times(op, n)) == Run(Apply(w, op), Times(op, n - 1))
    ensures AllEnabled(w, top, Times(op, n)) <==> Enabled(w, top, op) && AllEnabled(Apply(w, op), top, Times(op, n - 1))
  {
    assert Times(op, n)[1..] == Times(op, n - 1);
  }

  lemma NoneOf(w: World, top: int, op: Op)
    ensures Run(w, Times(op, 0)) == w && AllEnabled(w, top, Times(op, 0))
  {
    assert Times(op, 0) == [];
  }

  lemma ReleaseStep(w: World, top: int, pa: int)
    requires Inv(w.mem, top, w.refs) && pa != 0 && pa != top && w.refs[pa] > 0
    ensures var w' := Apply(w, ReleaseOp(pa));
      && Enabled(w, top, ReleaseOp(pa)) && Inv(w'.mem, top, w'.refs) && w'.refs[pa] == w.refs[pa] - 1
      && (pa in w'.mem.free <==> w.refs[pa] == 1)
  {
    ReleaseKeepsInv(w.mem, top, w.refs, pa);
  }

  /** A page with n references: n - 1 releases leave it held, the n-th puts it on the list. */
  lemma {:induction false} ReleasedOnLast(w: World, top: int, pa: int, n: nat)
    requires Inv(w.mem, top, w.refs) && pa != 0 && pa != top && n <= w.refs[pa]
    requires pa in w.mem.free <==> w.refs[pa] == 0
    ensures AllEnabled(w, top, Times(ReleaseOp(pa), n))
    ensures pa in Run(w, Times(ReleaseOp(pa), n)).mem.free <==> n == w.refs[pa]
    decreases n
  {
    hide Inv, Apply, Enabled, Run, AllEnabled, Times;
    NoneOf(w, top, ReleaseOp(pa));
    if n > 0 {
      var op := ReleaseOp(pa);
      ReleaseStep(w, top, pa);
      FirstOf(w, top, op, n);
      ReleasedOnLast(Apply(w, op), top, pa, n - 1);
    }
  }

  /** n further sharers: n more references, and nothing taken from the list. */
  lemma {:induction false} SharedTimes(w: World, top: int, pa: int, n: nat)
    requires Inv(w.mem, top, w.refs) && pa in w.refs
    ensures var w' := Run(w, Times(ShareOp(pa), n));
      Inv(w'.mem, top, w'.refs) && w'.refs[pa] == w.refs[pa] + n && w'.mem.free == w.mem.free
    decreases n
  {
    if n > 0 {
      var op := ShareOp(pa);
      ShareKeepsInv(w.mem, top, w.refs, pa);
      FirstOf(w, top, op, n);
      SharedTimes(Apply(w, op), top, pa, n - 1);
    }
  }

  /** A page shared k extra times goes back to the list exactly on the last release. */
  lemma SharedPageReturns(w: World, top: int, pa: int, k: nat, n: nat)
    requires Inv(w.mem, top, w.refs) && pa in w.refs && pa != 0 && pa != top
    requires n <= w.refs[pa] + k
    ensures var shared := Run(w, Times(ShareOp(pa), k));
      pa in Run(shared, Times(ReleaseOp(pa), n)).mem.free <==> n == w.refs[pa] + k
  {
    SharedTimes(w, top, pa, k);
    assert pa !in w.mem.free;
    ReleasedOnLast(Run(w, Times(ShareOp(pa), k)), top, pa, n);
  }

  /** If the highest page does lose its last holder while others hold pages, the next alloc_page breaks the order. */
  lemma LostSentinelBreaksOrder(s: State, top: int, refs: multiset<int>)
    requires Inv(s, top, refs) && top != 0 && refs[top] == 1
    requires refs != multiset{top}
    ensures NextPage(Release(s, top)) == top
    ensures !Sorted(Alloc(Release(s, top)).table)
  {
    EraseRecords(s.table, top, refs);
    var t := Release(s, top).table;
    var rest := refs - multiset{top};
    assert refs == rest + multiset{top};
    EmptyTable(t, rest);
    InsertKeepsSortedIff(t, top);
    RefsBelowTop(s, top, refs);
    var last := t[|t| - 1];
    assert rest[last.pa] == last.count;
    assert last.pa in refs && last.pa != top;
  }
}
