/**
 The code of kernel/pmm.c: bisection over ref_list, memmove of its tail, and the free list
 linked through the pages. Each method refines a step of the machine in PmmState.
 */
module Pmm {
  import opened PmmState

  /** Length of ref_list. */
  const CAPACITY := 0x4000

  /** From `a`, the links lead through `pages` and end. */
  ghost predicate Chain(next: map<int, int>, a: int, pages: seq<int>)
    decreases |pages|
  {
    if pages == [] then a == 0
    else a == pages[0] && a != 0 && a in next && Chain(next, next[a], pages[1..])
  }

  /** From place `j` of the list on, the links lead to its first `p`, at place `k`, and everything behind follows. */
  lemma {:induction false} LeadsTo(next: map<int, int>, a: int, list: seq<int>, k: nat, p: int, q: int, l: seq<int>)
    requires Chain(next, a, list) && k < |list| && list[k] == p && p !in list[..k]
    requires Chain(next[p := q], a, l)
    ensures k <= |l| && Chain(next[p := q], p, l[k..])
    decreases k
  {
    if k == 0 {
      assert l[0..] == l;
    } else {
      assert a != p by { assert list[..k][0] == a; }
      assert list[1..][..k - 1] == list[..k][1..];
      LeadsTo(next, next[a], list[1..], k - 1, p, q, l[1..]);
      assert l[1..][k - 1..] == l[k..];
    }
  }

  /** Freeing a page that is on the list closes the list to a ring: from the page on, the links never end. */
  lemma {:induction false} FreedTwiceNeverEnds(next: map<int, int>, head: int, list: seq<int>, k: nat, p: int,
                                               l: seq<int>)
    requires Chain(next, head, list) && k < |list| && list[k] == p && p !in list[..k] && p != 0
    ensures !Chain(next[p := head], p, l)
    decreases |l|
  {
    if Chain(next[p := head], p, l) {
      LeadsTo(next, head, list, k, p, head, l[1..]);
      FreedTwiceNeverEnds(next, head, list, k, p, l[1..][k..]);
    }
  }

  lemma {:induction false} ChainFrame(next: map<int, int>, a: int, pages: seq<int>, p: int, q: int)
    requires Chain(next, a, pages) && p !in pages
    ensures Chain(next[p := q], a, pages)
    decreases |pages|
  {
    if pages != [] {
      ChainFrame(next, next[a], pages[1..], p, q);
    }
  }

  class Allocator {
    const start: int
    const end: int
    const refList: array<RefUnit>
    var refTotal: nat
    /** g_free_mem_list.next */
    var head: int
    /** The word each free page holds. */
    var next: map<int, int>
    ghost var free: seq<int>

    /** pmm_init, once it has worked out the range of free memory. */
    constructor (from: int, to: int)
      requires from % PGSIZE == 0 && 0 < from
      ensures Valid() && fresh(refList) && Current() == Boot(from, to)
    {
      start, end := from, to;
      refList := new RefUnit[CAPACITY];
      refTotal, head, next, free := 0, 0, map[], [];
      new;
      CreateFreepageList();
    }

    /** The table fits its array, and the links lead through the free pages. */
    ghost predicate Formed()
      reads this, refList
    {
      refList.Length == CAPACITY && refTotal <= CAPACITY && Chain(next, head, free)
    }

    /** And the table is in order, as the bisections need it. */
    ghost predicate Valid()
      reads this, refList
    {
      Formed() && Sorted(refList[..refTotal])
    }

    ghost function Current(): State
      requires Formed()
      reads this, refList
    {
      State(start, end, refList[..refTotal], free)
    }

    /** The bisection shared by ref_find and ref_erase. */
    method Bisect(pa: int) returns (found: bool, at: nat)
      requires Valid()
      ensures found ==> at < refTotal && refList[at].pa == pa && at == LowerBound(refList[..refTotal], pa)
      ensures !found ==> !HasKey(refList[..refTotal], pa)
    {
      var left, right := 0, refTotal - 1;
      ghost var table := refList[..refTotal];
      while left <= right
        invariant 0 <= left <= right + 1 <= refTotal
        invariant forall j :: 0 <= j < left ==> table[j].pa < pa
        invariant forall j :: right < j < refTotal ==> pa < table[j].pa
        decreases right - left
      {
        var mid := (left + right) / 2;
        if refList[mid].pa == pa {
          BoundAt(table, pa, mid);
          return true, mid;
        } else if refList[mid].pa < pa {
          left := mid + 1;
        } else {
          right := mid - 1;
        }
      }
      return false, 0;
    }

    /** memmove(&ref_list[i + 1], &ref_list[i], …), then one entry is stored at `i`. */
    method OpenGap(i: nat, u: RefUnit)
      requires refList.Length == CAPACITY && i <= refTotal < CAPACITY
      modifies this`refTotal, refList
      ensures refTotal == old(refTotal) + 1
      ensures refList[..refTotal] == old(refList[..refTotal])[..i] + [u] + old(refList[..refTotal])[i..]
    {
      ghost var table := refList[..refTotal];
      var k := refTotal;
      while k > i
        invariant i <= k <= refTotal == old(refTotal)
        invariant forall j :: 0 <= j < k ==> refList[j] == table[j]
        invariant forall j :: k <= j < refTotal ==> refList[j + 1] == table[j]
      {
        refList[k] := refList[k - 1];
        k := k - 1;
      }
      refTotal := refTotal + 1;
      refList[i] := u;
    }

    /** memmove(&ref_list[i], &ref_list[i + 1], …). */
    method CloseGap(i: nat)
      requires refList.Length == CAPACITY && i < refTotal <= CAPACITY
      modifies this`refTotal, refList
      ensures refTotal == old(refTotal) - 1
      ensures refList[..refTotal] == old(refList[..refTotal])[..i] + old(refList[..refTotal])[i + 1..]
    {
      ghost var table := refList[..refTotal];
      var k := i;
      while k + 1 < refTotal
        invariant i <= k < refTotal == old(refTotal)
        invariant forall j :: 0 <= j < i ==> refList[j] == table[j]
        invariant forall j :: i <= j < k ==> refList[j] == table[j + 1]
        invariant forall j :: k <= j < refTotal ==> refList[j] == table[j]
      {
        refList[k] := refList[k + 1];
        k := k + 1;
      }
      refTotal := refTotal - 1;
    }

    /** The second bisection, for the first entry not below `pa`. */
    method InsertionPoint(pa: int) returns (idx: nat)
      requires Valid()
      ensures var i := LowerBound(refList[..refTotal], pa); idx == if i == refTotal then 0 else i
    {
      idx := 0;
      ghost var table := refList[..refTotal];
      var left, right := 0, refTotal - 1;
      while left <= right
        invariant 0 <= left <= right + 1 <= refTotal
        invariant forall j :: 0 <= j < left ==> table[j].pa < pa
        invariant forall j :: right < j < refTotal ==> pa <= table[j].pa
        invariant idx == (if right + 1 < refTotal then right + 1 else 0)
        decreases right - left
      {
        var mid := (left + right) / 2;
        if refList[mid].pa < pa {
          left := mid + 1;
        } else {
          idx := mid;
          right := mid - 1;
        }
      }
      LowerBoundIs(table, pa, left);
    }

    /** ref_insert, with ref_find's increment. */
    method RefInsert(pa: int)
      requires Valid()
      requires HasKey(refList[..refTotal], pa) || refTotal < CAPACITY
      modifies this`refTotal, refList
      ensures refTotal <= CAPACITY
      ensures refList[..refTotal] == Inserted(old(refList[..refTotal]), pa)
    {
      ghost var table := refList[..refTotal];
      var found, at := Bisect(pa);
      if found {
        refList[at] := RefUnit(pa, refList[at].count + 1);
        assert refList[..refTotal] == table[at := RefUnit(pa, table[at].count + 1)];
        return;
      }
      var idx := InsertionPoint(pa);
      assert |table| == LowerBound(table, pa) || table[LowerBound(table, pa)].pa != pa;
      OpenGap(idx, RefUnit(pa, 1));
      assert table[..0] + [RefUnit(pa, 1)] + table[0..] == [RefUnit(pa, 1)] + table;
    }

    /** ref_erase: true when no reference is left. */
    method RefErase(pa: int) returns (last: bool)
      requires Valid()
      modifies this`refTotal, refList
      ensures refTotal <= CAPACITY
      ensures refList[..refTotal] == Erased(old(refList[..refTotal]), pa)
      ensures last == LastRef(old(refList[..refTotal]), pa)
    {
      ghost var table := refList[..refTotal];
      var found, at := Bisect(pa);
      if found {
        if refList[at].count == 1 {
          CloseGap(at);
          RemovedKey(table, at);
          return true;
        }
        refList[at] := RefUnit(pa, refList[at].count - 1);
        assert refList[..refTotal] == table[at := RefUnit(pa, table[at].count - 1)];
        assert refList[..refTotal][at].pa == pa;
        return false;
      }
      AbsentErase(table, pa);
      return true;
    }

    /** free_page; the addresses on which it panics are excluded. */
    method FreePage(pa: int)
      requires Valid() && pa % PGSIZE == 0 && start <= pa < end && 0 < start
      requires pa !in free
      modifies this, refList
      ensures Valid() && Current() == Release(old(Current()), pa)
    {
      ghost var table := refList[..refTotal];
      var last := RefErase(pa);
      EraseKeepsSorted(table, pa);
      if last {
        ChainFrame(next, head, free, pa, head);
        next := next[pa := head];
        head := pa;
        free := [pa] + free;
      }
    }

    /** alloc_page. A page above every key goes to the front of the table, which is then out of order. */
    method AllocPage() returns (pa: int)
      requires Valid() && (refTotal < CAPACITY || HasKey(refList[..refTotal], NextPage(Current())))
      modifies this, refList
      ensures Formed() && pa == NextPage(old(Current())) && Current() == Alloc(old(Current()))
      ensures Valid() <==> old(refTotal) == 0 || pa <= old(refList[..refTotal])[old(refTotal) - 1].pa
    {
      ghost var table := refList[..refTotal];
      pa := head;
      if pa != 0 {
        head := next[pa];
        free := free[1..];
      }
      InsertKeepsSortedIff(table, pa);
      RefInsert(pa);
    }

    /** create_freepage_list, from an empty table. */
    method CreateFreepageList()
      requires refList.Length == CAPACITY && refTotal == 0
      requires start % PGSIZE == 0 && 0 < start
      modifies this, refList
      ensures Valid() && Current() == Boot(start, end)
    {
      head, next, free := 0, map[], [];
      var p: int := start;
      while p + PGSIZE < end
        invariant Valid() && refTotal == 0 && p % PGSIZE == 0 && start <= p
        invariant forall q :: q in free ==> q < p
        invariant Pushed(p, end, free) == Pushed(start, end, [])
        decreases end - p
      {
        AbsentErase([], p);
        FreePage(p);
        p := p + PGSIZE;
      }
    }
  }

  /** What AllocPage asks of its caller holds in every reachable state with fewer pages held than the table has room. */
  lemma ReadyToAlloc(s: State, top: int, refs: multiset<int>)
    requires Inv(s, top, refs)
    ensures s.table == [] || NextPage(s) <= s.table[|s.table| - 1].pa
    ensures |s.table| == |Distinct(refs)|
  {
    InsertInOrder(s, top, refs, NextPage(s));
    InsertKeepsSortedIff(s.table, NextPage(s));
    TableSize(s.table, refs);
  }

  lemma LowerBoundIs(s: seq<RefUnit>, pa: int, i: nat)
    requires i <= |s|
    requires forall j :: 0 <= j < i ==> s[j].pa < pa
    requires i < |s| ==> pa <= s[i].pa
    ensures LowerBound(s, pa) == i
  {
    var k := LowerBound(s, pa);
    assert k < |s| ==> pa <= s[k].pa;
  }

  lemma BoundAt(s: seq<RefUnit>, pa: int, i: nat)
    requires Sorted(s) && i < |s| && s[i].pa == pa
    ensures LowerBound(s, pa) == i
  {
    LowerBoundIs(s, pa, i);
  }

  lemma RemovedKey(s: seq<RefUnit>, i: nat)
    requires Sorted(s) && i < |s|
    ensures !HasKey(s[..i] + s[i + 1..], s[i].pa)
  {
    var r := s[..i] + s[i + 1..];
    assert forall j :: 0 <= j < |r| ==> r[j] == s[if j < i then j else j + 1];
  }

  lemma AbsentErase(s: seq<RefUnit>, pa: int)
    requires !HasKey(s, pa)
    ensures Erased(s, pa) == s
  {
    var i := LowerBound(s, pa);
    assert i < |s| ==> s[i].pa != pa;
  }

  lemma EraseKeepsSorted(s: seq<RefUnit>, pa: int)
    requires Sorted(s)
    ensures Sorted(Erased(s, pa))
  {
    var r := Erased(s, pa);
    var i := LowerBound(s, pa);
    if |r| < |s| {
      assert forall j :: 0 <= j < |r| ==> r[j] == s[if j < i then j else j + 1];
    }
  }
}
