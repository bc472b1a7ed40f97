/**
 The Sv39 page tables of kernel/vmm.c. Tables are three levels of 512 entries; memory holds
 the tables of every address space, and the allocator hands out the pages they are made of.
 Tables are named by page number; page 0 is NULL.
 */
module Vmm {
  import opened Options
  import Pmm
  import PmmState

  /** A page table entry: PTE2PA keeps the upper part, the low ten bits are flags. */
  datatype Pte = Pte(ppn: nat, flags: bv10)

  const V: bv10 := 1
  const R: bv10 := 2
  const W: bv10 := 4
  const X: bv10 := 8
  const U: bv10 := 16
  const A: bv10 := 64
  const D: bv10 := 128
  const RSW: bv10 := 256

  const PGSIZE := 4096
  const ENTRIES := 512
  const MAXVA := 0x4000000000

  type Memory = map<nat, seq<Pte>>

  /** A pte_t pointer: an entry of a table. */
  datatype Slot = Slot(table: nat, index: nat)

  /** Where a table sits: under which page directory, and behind which entries. */
  datatype Place = Place(root: nat, path: seq<nat>)

  const EMPTY := Pte(0, 0)

  predicate IsValid(e: Pte) {
    e.flags & V != 0
  }

  /** Bytes spanned by one entry of a table at this level. */
  function Span(level: nat): (n: nat)
    ensures n > 0
  {
    if level == 0 then PGSIZE else if level == 1 then 0x200000 else 0x40000000
  }

  /** The macro PX. */
  function Px(level: nat, va: nat): (i: nat)
    ensures i < ENTRIES
  {
    va / Span(level) % ENTRIES
  }

  function ZeroPage(): seq<Pte> {
    seq(ENTRIES, _ => EMPTY)
  }

  /** Every table is in one place only, and a valid entry above the last level leads to the table of that place. */
  ghost predicate WellFormed(mem: Memory, owner: map<nat, Place>) {
    forall p :: p in owner ==> TableOk(mem, owner, p)
  }

  ghost predicate TableOk(mem: Memory, owner: map<nat, Place>, p: nat)
    requires p in owner
  {
    && p != 0 && p in mem && |mem[p]| == ENTRIES
    && (|owner[p].path| < 2 ==>
          forall i :: 0 <= i < ENTRIES && IsValid(mem[p][i]) ==> LeadsTo(owner, mem[p][i].ppn, owner[p], i))
  }

  ghost predicate LeadsTo(owner: map<nat, Place>, child: nat, place: Place, i: nat) {
    child in owner && owner[child] == Place(place.root, place.path + [i])
  }

  /** `dir` is a page directory. */
  ghost predicate Directory(owner: map<nat, Place>, dir: nat) {
    dir in owner && owner[dir] == Place(dir, [])
  }

  /** page_walk without allocation, from a table at `level`. */
  ghost function WalkFrom(mem: Memory, table: nat, va: nat, level: nat): Option<Slot>
    decreases level
  {
    if table !in mem || |mem[table]| != ENTRIES then None
    else if level == 0 then Some(Slot(table, Px(0, va)))
    else if IsValid(mem[table][Px(level, va)]) then WalkFrom(mem, mem[table][Px(level, va)].ppn, va, level - 1)
    else None
  }

  ghost function Walk(mem: Memory, dir: nat, va: nat): Option<Slot> {
    WalkFrom(mem, dir, va, 2)
  }

  ghost function At(mem: Memory, slot: Slot): Pte {
    if slot.table in mem && slot.index < |mem[slot.table]| then mem[slot.table][slot.index] else EMPTY
  }

  /** The last-level entry for an address; an address with no last-level table has an empty one. */
  ghost function Leaf(mem: Memory, dir: nat, va: nat): Pte {
    LeafFrom(mem, dir, va, 2)
  }

  /** What lookup_pa reads out of an entry. */
  function Target(e: Pte): nat {
    if !IsValid(e) || (e.flags & R == 0 && e.flags & W == 0) then 0 else e.ppn * PGSIZE
  }

  ghost function Translate(mem: Memory, dir: nat, va: nat): nat {
    if va >= MAXVA then 0 else Target(Leaf(mem, dir, va))
  }

  /** The entries taken below a table at `level`. */
  ghost function PathFrom(level: nat, va: nat): seq<nat>
    decreases level
  {
    if level == 0 then [] else [Px(level, va)] + PathFrom(level - 1, va)
  }

  ghost predicate AtLevel(owner: map<nat, Place>, table: nat, level: nat) {
    table in owner && |owner[table].path| + level == 2
  }

  /** The walk ends in the table of the address's place. */
  lemma {:induction false} WalkPlace(mem: Memory, owner: map<nat, Place>, table: nat, va: nat, level: nat)
    requires WellFormed(mem, owner) && AtLevel(owner, table, level)
    ensures WalkFrom(mem, table, va, level).Some? ==>
      var slot := WalkFrom(mem, table, va, level).value;
      && slot.table in owner && slot.index == Px(0, va)
      && owner[slot.table] == Place(owner[table].root, owner[table].path + PathFrom(level, va))
    decreases level
  {
    assert TableOk(mem, owner, table);
    if level > 0 {
      var e := mem[table][Px(level, va)];
      if IsValid(e) {
        assert LeadsTo(owner, e.ppn, owner[table], Px(level, va));
        WalkPlace(mem, owner, e.ppn, va, level - 1);
        assert owner[table].path + PathFrom(level, va) == owner[e.ppn].path + PathFrom(level - 1, va);
      }
    }
  }

  /** Hang a fresh page of empty entries behind an empty entry of a table that is not at the last level. */
  ghost function Hang(mem: Memory, table: nat, i: nat, page: nat): Memory
    requires table in mem && i < |mem[table]|
  {
    mem[page := ZeroPage()][table := mem[table][i := Pte(page, V)]]
  }

  ghost predicate CanHang(mem: Memory, owner: map<nat, Place>, table: nat, i: nat, page: nat) {
    && table in owner && |owner[table].path| < 2 && table in mem && |mem[table]| == ENTRIES
    && i < ENTRIES && !IsValid(mem[table][i])
    && page != 0 && page !in owner
  }

  ghost function HangOwner(owner: map<nat, Place>, table: nat, i: nat, page: nat): map<nat, Place>
    requires table in owner
  {
    owner[page := Place(owner[table].root, owner[table].path + [i])]
  }

  lemma HangKeepsForm(mem: Memory, owner: map<nat, Place>, table: nat, i: nat, page: nat)
    requires WellFormed(mem, owner) && CanHang(mem, owner, table, i, page)
    ensures WellFormed(Hang(mem, table, i, page), HangOwner(owner, table, i, page))
  {
    var mem', owner' := Hang(mem, table, i, page), HangOwner(owner, table, i, page);
    forall p | p in owner'
      ensures TableOk(mem', owner', p)
    {
      if p != page {
        assert TableOk(mem, owner, p);
        if |owner[p].path| < 2 {
          forall k | 0 <= k < ENTRIES && IsValid(mem'[p][k])
            ensures LeadsTo(owner', mem'[p][k].ppn, owner'[p], k)
          {
            if p != table || k != i {
              assert mem'[p][k] == mem[p][k];
              assert LeadsTo(owner, mem[p][k].ppn, owner[p], k);
            }
          }
        }
      }
    }
  }

  ghost function LeafFrom(mem: Memory, table: nat, va: nat, level: nat): Pte {
    var slot := WalkFrom(mem, table, va, level);
    if slot.Some? then At(mem, slot.value) else EMPTY
  }

  /** Allocation inside page_walk alters no entry of any address space. */
  lemma {:induction false} HangKeepsLeaves(mem: Memory, owner: map<nat, Place>, table: nat, i: nat, page: nat,
                                           from: nat, va: nat, level: nat)
    requires WellFormed(mem, owner) && CanHang(mem, owner, table, i, page)
    requires AtLevel(owner, from, level)
    ensures LeafFrom(Hang(mem, table, i, page), from, va, level) == LeafFrom(mem, from, va, level)
    decreases level
  {
    var mem' := Hang(mem, table, i, page);
    assert TableOk(mem, owner, from);
    assert from != page;
    if level > 0 {
      var k := Px(level, va);
      var e := mem[from][k];
      if from == table && k == i {
        EmptyTable(mem', page, va, level - 1);
      } else {
        assert mem'[from][k] == e;
        if IsValid(e) {
          assert LeadsTo(owner, e.ppn, owner[from], k);
          HangKeepsLeaves(mem, owner, table, i, page, e.ppn, va, level - 1);
        }
      }
    }
  }

  lemma EmptyTable(mem: Memory, table: nat, va: nat, level: nat)
    requires table in mem && mem[table] == ZeroPage()
    ensures LeafFrom(mem, table, va, level) == EMPTY
  {
    assert mem[table][Px(level, va)] == EMPTY;
  }

  /** Write one entry. */
  ghost function Store(mem: Memory, slot: Slot, e: Pte): Memory
    requires slot.table in mem && slot.index < |mem[slot.table]|
  {
    mem[slot.table := mem[slot.table][slot.index := e]]
  }

  /** A last-level store changes the entry of exactly the addresses whose walk ends there. */
  lemma {:induction false} StoreKeepsWalks(mem: Memory, owner: map<nat, Place>, slot: Slot, e: Pte, from: nat, va: nat,
                                           level: nat)
    requires WellFormed(mem, owner) && AtLevel(owner, slot.table, 0) && slot.index < ENTRIES
    requires slot.table in mem && |mem[slot.table]| == ENTRIES
    requires AtLevel(owner, from, level)
    ensures WalkFrom(Store(mem, slot, e), from, va, level) == WalkFrom(mem, from, va, level)
    decreases level
  {
    assert TableOk(mem, owner, from);
    if level > 0 {
      var k := Px(level, va);
      if IsValid(mem[from][k]) {
        assert LeadsTo(owner, mem[from][k].ppn, owner[from], k);
        StoreKeepsWalks(mem, owner, slot, e, mem[from][k].ppn, va, level - 1);
      }
    }
  }

  lemma StoreKeepsForm(mem: Memory, owner: map<nat, Place>, slot: Slot, e: Pte)
    requires WellFormed(mem, owner) && AtLevel(owner, slot.table, 0) && slot.index < ENTRIES
    requires slot.table in mem && |mem[slot.table]| == ENTRIES
    ensures WellFormed(Store(mem, slot, e), owner)
  {
    forall p | p in owner
      ensures TableOk(Store(mem, slot, e), owner, p)
    {
      assert TableOk(mem, owner, p);
    }
  }

  /** Storing through the walk of one address changes that page in that address space, and nothing else. */
  lemma StoreAtWalk(mem: Memory, owner: map<nat, Place>, dir: nat, va: nat, e: Pte, dir': nat, va': nat)
    requires WellFormed(mem, owner) && Directory(owner, dir) && Directory(owner, dir')
    requires va < MAXVA && va' < MAXVA
    requires Walk(mem, dir, va).Some?
    ensures var slot := Walk(mem, dir, va).value;
      && slot.table in mem && |mem[slot.table]| == ENTRIES && slot.index < ENTRIES
      && WellFormed(Store(mem, slot, e), owner)
      && Walk(Store(mem, slot, e), dir', va') == Walk(mem, dir', va')
      && Leaf(Store(mem, slot, e), dir', va') ==
         if dir' == dir && va' / PGSIZE == va / PGSIZE then e else Leaf(mem, dir', va')
  {
    var slot := Walk(mem, dir, va).value;
    WalkPlace(mem, owner, dir, va, 2);
    assert TableOk(mem, owner, slot.table);
    StoreKeepsForm(mem, owner, slot, e);
    StoreKeepsWalks(mem, owner, slot, e, dir', va', 2);
    SlotsDiffer(mem, owner, dir, va, dir', va');
    WalkPlace(mem, owner, dir', va', 2);
  }

  lemma SlotsDiffer(mem: Memory, owner: map<nat, Place>, dir: nat, va: nat, dir': nat, va': nat)
    requires WellFormed(mem, owner) && Directory(owner, dir) && Directory(owner, dir')
    requires va < MAXVA && va' < MAXVA
    requires Walk(mem, dir, va).Some?
    ensures Walk(mem, dir', va') == Walk(mem, dir, va) <==> dir' == dir && va' / PGSIZE == va / PGSIZE
  {
    WalkPlace(mem, owner, dir, va, 2);
    WalkPlace(mem, owner, dir', va', 2);
    SamePage(va, va');
    assert PathFrom(2, va) == [Px(2, va), Px(1, va)];
    assert PathFrom(2, va') == [Px(2, va'), Px(1, va')];
    if Walk(mem, dir', va') == Walk(mem, dir, va) {
      assert [] + PathFrom(2, va) == PathFrom(2, va) && [] + PathFrom(2, va') == PathFrom(2, va');
      assert [Px(2, va), Px(1, va)][1] == [Px(2, va'), Px(1, va')][1];
    }
    if va' / PGSIZE == va / PGSIZE {
      SameIndices(mem, dir, va, va', 2);
    }
  }

  lemma {:induction false} SameIndices(mem: Memory, table: nat, va: nat, va': nat, level: nat)
    requires forall k: nat :: k <= level ==> Px(k, va) == Px(k, va')
    ensures WalkFrom(mem, table, va, level) == WalkFrom(mem, table, va', level)
    decreases level
  {
    if level > 0 && table in mem && |mem[table]| == ENTRIES {
      SameIndices(mem, mem[table][Px(level, va)].ppn, va, va', level - 1);
    }
  }

  /** Two addresses below MAXVA have the same three indices exactly when they are on the same page. */
  lemma SamePage(a: nat, b: nat)
    requires a < MAXVA && b < MAXVA
    ensures Px(2, a) == Px(2, b) && Px(1, a) == Px(1, b) && Px(0, a) == Px(0, b) <==> a / PGSIZE == b / PGSIZE
  {
    Indices(a);
    Indices(b);
  }

  lemma Indices(va: nat)
    requires va < MAXVA
    ensures va / PGSIZE == Px(2, va) * 0x40000 + Px(1, va) * 0x200 + Px(0, va)
  {
  }

  /** Walking from `from` at `level` comes to table `t` at level `k`. */
  ghost predicate Reaches(mem: Memory, from: nat, va: nat, level: nat, t: nat, k: nat)
    requires k <= level
    decreases level
  {
    if level == k then from == t
    else
      && from in mem && |mem[from]| == ENTRIES && IsValid(mem[from][Px(level, va)])
      && Reaches(mem, mem[from][Px(level, va)].ppn, va, level - 1, t, k)
  }

  lemma {:induction false} ReachesWalk(mem: Memory, from: nat, va: nat, level: nat, t: nat, k: nat)
    requires k <= level && Reaches(mem, from, va, level, t, k)
    ensures WalkFrom(mem, from, va, level) == WalkFrom(mem, t, va, k)
    decreases level
  {
    if level > k {
      ReachesWalk(mem, mem[from][Px(level, va)].ppn, va, level - 1, t, k);
    }
  }

  lemma {:induction false} ReachesOn(mem: Memory, from: nat, va: nat, level: nat, t: nat, k: nat)
    requires 0 < k <= level && Reaches(mem, from, va, level, t, k)
    requires t in mem && |mem[t]| == ENTRIES && IsValid(mem[t][Px(k, va)])
    ensures Reaches(mem, from, va, level, mem[t][Px(k, va)].ppn, k - 1)
    decreases level
  {
    if level > k {
      ReachesOn(mem, mem[from][Px(level, va)].ppn, va, level - 1, t, k);
    }
  }

  lemma {:induction false} HangReaches(mem: Memory, owner: map<nat, Place>, table: nat, i: nat, page: nat,
                                       from: nat, va: nat, level: nat, k: nat)
    requires WellFormed(mem, owner) && CanHang(mem, owner, table, i, page)
    requires AtLevel(owner, from, level) && AtLevel(owner, table, k)
    requires k <= level && Reaches(mem, from, va, level, table, k)
    ensures Reaches(Hang(mem, table, i, page), from, va, level, table, k)
    decreases level
  {
    if level > k {
      assert TableOk(mem, owner, from);
      var e := mem[from][Px(level, va)];
      assert LeadsTo(owner, e.ppn, owner[from], Px(level, va));
      HangReaches(mem, owner, table, i, page, e.ppn, va, level - 1, k);
    }
  }

  /** How many tables a walk with allocation has to add. */
  ghost function Missing(mem: Memory, table: nat, va: nat, level: nat): (n: nat)
    ensures n <= level
    decreases level
  {
    if level == 0 then 0
    else if table in mem && |mem[table]| == ENTRIES && IsValid(mem[table][Px(level, va)])
      then Missing(mem, mem[table][Px(level, va)].ppn, va, level - 1)
    else level
  }

  lemma {:induction false} MissingNothing(mem: Memory, table: nat, va: nat, level: nat)
    requires WalkFrom(mem, table, va, level).Some?
    ensures Missing(mem, table, va, level) == 0
    decreases level
  {
    if level > 0 {
      MissingNothing(mem, mem[table][Px(level, va)].ppn, va, level - 1);
    }
  }

  lemma {:induction false} MissingSame(mem: Memory, table: nat, va: nat, va': nat, level: nat)
    requires forall k: nat :: 1 <= k <= level ==> Px(k, va) == Px(k, va')
    ensures Missing(mem, table, va, level) == Missing(mem, table, va', level)
    decreases level
  {
    if level > 0 && table in mem && |mem[table]| == ENTRIES {
      MissingSame(mem, mem[table][Px(level, va)].ppn, va, va', level - 1);
    }
  }

  lemma MissingAfterHang(mem: Memory, table: nat, i: nat, page: nat, va: nat, level: nat)
    requires table in mem && |mem[table]| == ENTRIES && i < ENTRIES && page != table
    ensures Missing(Hang(mem, table, i, page), page, va, level) == level
  {
    assert ZeroPage()[Px(level, va)] == EMPTY;
  }

  /** Bound on the tables added over `n` pages from `low`: two, and one for each boundary crossed. */
  ghost function Bound(low: nat, n: nat): int {
    if n == 0 then 0
    else 2 + ((low + n - 1) / 0x200 - low / 0x200) + ((low + n - 1) / 0x40000 - low / 0x40000)
  }

  lemma NextMissing(mem: Memory, dir: nat, v: nat)
    requires Walk(mem, dir, v * PGSIZE).Some?
    ensures Missing(mem, dir, (v + 1) * PGSIZE, 2)
         <= ((v + 1) / 0x200 - v / 0x200) + ((v + 1) / 0x40000 - v / 0x40000)
  {
    var a, b := v * PGSIZE, (v + 1) * PGSIZE;
    NextIndices(v);
    MissingNothing(mem, dir, a, 2);
    if Px(2, a) == Px(2, b) && Px(1, a) == Px(1, b) {
      MissingSame(mem, dir, a, b, 2);
    }
  }

  lemma NextIndices(v: nat)
    ensures Px(2, (v + 1) * PGSIZE) != Px(2, v * PGSIZE) ==>
      (v + 1) / 0x40000 > v / 0x40000 && (v + 1) / 0x200 > v / 0x200
    ensures Px(1, (v + 1) * PGSIZE) != Px(1, v * PGSIZE) ==> (v + 1) / 0x200 > v / 0x200
    ensures (v + 1) / 0x40000 >= v / 0x40000 && (v + 1) / 0x200 >= v / 0x200
  {
    PageIndices(v);
    PageIndices(v + 1);
  }

  lemma PageIndices(v: nat)
    ensures Px(2, v * PGSIZE) == v / 0x40000 % ENTRIES && Px(1, v * PGSIZE) == v / 0x200 % ENTRIES
  {
  }

  lemma BoundStep(mem: Memory, dir: nat, low: nat, n: nat, all: nat)
    requires n < all
    requires n > 0 ==> Walk(mem, dir, (low + n - 1) * PGSIZE).Some?
    ensures Bound(low, n) + Missing(mem, dir, (low + n) * PGSIZE, 2) <= Bound(low, n + 1) <= Bound(low, all)
  {
    if n > 0 {
      NextMissing(mem, dir, low + n - 1);
    }
    BoundGrows(low, n + 1, all);
  }

  lemma BoundStarts(low: nat)
    ensures Bound(low, 0) == 0
  {
  }

  lemma BoundGrows(low: nat, n: nat, all: nat)
    requires 0 < n <= all
    ensures Bound(low, n) <= Bound(low, all)
  {
    assert (low + n - 1) / 0x200 <= (low + all - 1) / 0x200;
    assert (low + n - 1) / 0x40000 <= (low + all - 1) / 0x40000;
  }

  /** No address space that existed has any entry changed. */
  ghost predicate SameLeaves(mem: Memory, mem': Memory, owner: map<nat, Place>) {
    forall dir, va :: Directory(owner, dir) ==> Leaf(mem', dir, va) == Leaf(mem, dir, va)
  }

  /** Every table stays where it was. */
  ghost predicate Extends(owner: map<nat, Place>, owner': map<nat, Place>) {
    forall p :: p in owner ==> p in owner' && owner'[p] == owner[p]
  }

  /** Pages `[first, first + n)` of `dir` go to the pages from `ppn` on; all else is as it was. */
  ghost predicate Mapped(mem: Memory, mem': Memory, owner: map<nat, Place>,
                         dir: nat, first: nat, n: nat, ppn: nat, flags: bv10) {
    forall dir': nat, va: nat :: Directory(owner, dir') && va < MAXVA ==>
      Leaf(mem', dir', va) == MappedLeaf(Leaf(mem, dir', va), dir' == dir, va / PGSIZE, first, n, ppn, flags)
  }

  lemma MappedNone(mem: Memory, owner: map<nat, Place>, dir: nat, first: nat, ppn: nat, flags: bv10)
    ensures Mapped(mem, mem, owner, dir, first, 0, ppn, flags)
  {
  }

  ghost function MappedLeaf(e: Pte, here: bool, page: nat, first: nat, n: nat, ppn: nat, flags: bv10): Pte {
    if here && first <= page < first + n then Pte(ppn + (page - first), flags) else e
  }

  /** How many pages map_pages maps. An empty range maps the page of an unaligned address. */
  ghost function Pages(va: nat, size: nat): nat
    requires 0 < va + size
  {
    (va + size - 1) / PGSIZE + 1 - va / PGSIZE
  }

  class Mmu {
    var mem: Memory
    /** The allocator's free list, as page numbers. */
    var free: seq<nat>
    ghost var owner: map<nat, Place>

    ghost predicate Valid()
      reads this
    {
      WellFormed(mem, owner) && PoolOk(free, owner)
    }

    /** alloc_page, as far as the tables are concerned. */
    method AllocPage() returns (p: nat)
      requires Valid()
      modifies this`free
      ensures Valid()
      ensures if old(free) == [] then p == 0 && free == [] else p == old(free)[0] && free == old(free)[1..]
      ensures p != 0 ==> p !in owner && p !in free
      ensures p == 0 ==> old(free) == []
    {
      if free == [] { return 0; }
      p := free[0];
      free := free[1..];
    }

    /** One level of page_walk: the entry is empty, so a new table is made behind it. */
    method AddTable(table: nat, i: nat) returns (p: nat)
      requires Valid() && table in owner && |owner[table].path| < 2 && i < ENTRIES
      requires table in mem && |mem[table]| == ENTRIES && !IsValid(mem[table][i])
      modifies this
      ensures Valid()
      ensures p == 0 ==> mem == old(mem) && owner == old(owner) && old(free) == free == []
      ensures p != 0 ==>
        && CanHang(old(mem), old(owner), table, i, p)
        && mem == Hang(old(mem), table, i, p) && owner == HangOwner(old(owner), table, i, p)
        && |free| == |old(free)| - 1
    {
      p := AllocPage();
      if p != 0 {
        HangKeepsForm(mem, owner, table, i, p);
        mem := mem[p := ZeroPage()][table := mem[table][i := Pte(p, V)]];
        owner := owner[p := Place(owner[table].root, owner[table].path + [i])];
      }
    }

    /** page_walk. */
    method PageWalk(dir: nat, va: nat, alloc: bool) returns (slot: Option<Slot>)
      requires Valid() && Directory(owner, dir) && va < MAXVA
      modifies this
      ensures Valid() && Extends(old(owner), owner)
      ensures SameLeaves(old(mem), mem, old(owner))
      ensures slot == Walk(mem, dir, va)
      ensures !alloc ==> mem == old(mem) && free == old(free) && owner == old(owner)
      ensures alloc ==> (slot.Some? <==> Missing(old(mem), dir, va, 2) <= |old(free)|)
      ensures alloc && slot.Some? ==> |free| == |old(free)| - Missing(old(mem), dir, va, 2)
    {
      var pt := dir;
      var level: nat := 2;
      while level > 0
        invariant Valid() && Extends(old(owner), owner) && SameLeaves(old(mem), mem, old(owner))
        invariant level <= 2 && AtLevel(owner, pt, level) && Reaches(mem, dir, va, 2, pt, level)
        invariant !alloc ==> mem == old(mem) && free == old(free) && owner == old(owner)
        invariant |old(free)| - |free| == Missing(old(mem), dir, va, 2) - Missing(mem, pt, va, level)
      {
        assert TableOk(mem, owner, pt);
        var pte := mem[pt][Px(level, va)];
        if IsValid(pte) {
          assert LeadsTo(owner, pte.ppn, owner[pt], Px(level, va));
          ReachesOn(mem, dir, va, 2, pt, level);
          pt := pte.ppn;
        } else if alloc {
          ghost var mem0, owner0 := mem, owner;
          var p := AddTable(pt, Px(level, va));
          if p == 0 {
            ReachesWalk(mem, dir, va, 2, pt, level);
            return None;
          }
          MissingAfterHang(mem0, pt, Px(level, va), p, va, level - 1);
          Hung(old(mem), old(owner), mem0, owner0, pt, Px(level, va), p);
          HangReaches(mem0, owner0, pt, Px(level, va), p, dir, va, 2, level);
          ReachesOn(mem, dir, va, 2, pt, level);
          pt := p;
        } else {
          ReachesWalk(mem, dir, va, 2, pt, level);
          return None;
        }
        level := level - 1;
      }
      ReachesWalk(mem, dir, va, 2, pt, 0);
      assert TableOk(mem, owner, pt);
      return Some(Slot(pt, Px(0, va)));
    }

    /** lookup_pa. */
    method LookupPa(dir: nat, va: nat) returns (pa: nat)
      requires Valid() && Directory(owner, dir)
      modifies this
      ensures pa == Translate(mem, dir, va)
      ensures mem == old(mem) && free == old(free) && owner == old(owner)
    {
      if va >= MAXVA { return 0; }
      var slot := PageWalk(dir, va, false);
      if slot == None { return 0; }
      WalkPlace(mem, owner, dir, va, 2);
      assert TableOk(mem, owner, slot.value.table);
      var pte := mem[slot.value.table][slot.value.index];
      if pte.flags & V == 0 || (pte.flags & R == 0 && pte.flags & W == 0) { return 0; }
      return pte.ppn * PGSIZE;
    }

    /**
     user_vm_unmap of an address with a last-level table; without one the original panics. The page goes back to the
     allocator, whose list is the pool of pages here.
     */
    method Unmap(pmm: Pmm.Allocator, dir: nat, va: nat)
      requires Valid() && Directory(owner, dir) && va < MAXVA
      requires Walk(mem, dir, va).Some?
      requires pmm.Valid() && 0 < pmm.start && free == PageNumbers(pmm.Current().free)
      requires var page := Leaf(mem, dir, va).ppn;
               page != 0 && page !in owner && page !in free && pmm.start <= page * PGSIZE < pmm.end
      modifies this, pmm, pmm.refList
      ensures Valid() && owner == old(owner) && pmm.Valid()
      ensures pmm.Current() == PmmState.Release(old(pmm.Current()), old(Leaf(mem, dir, va)).ppn * PGSIZE)
      ensures free == PageNumbers(pmm.Current().free)
      ensures Unmapped(old(mem), mem, owner, dir, va)
    {
      var slot := PageWalk(dir, va, false);
      StoreAtWalk(mem, owner, dir, va, EMPTY, dir, va);
      var pte := mem[slot.value.table][slot.value.index];
      NotOnList(pmm.free, pte.ppn);
      ghost var list := pmm.free;
      pmm.FreePage(pte.ppn * PGSIZE);
      if pmm.head == pte.ppn * PGSIZE {
        Returned(list, pte.ppn);
        free := [pte.ppn] + free;
      }
      UnmapLeaves(mem, owner, dir, va);
      mem := mem[slot.value.table := mem[slot.value.table][slot.value.index := Cleared(pte)]];
    }

    /** The two calls of kern_vm_map in kern_vm_init; where one fails the original panics. */
    method MapKernel(dir: nat, etext: nat) returns (ok: bool)
      requires Valid() && Directory(owner, dir) && Blank(mem, dir)
      requires etext % PGSIZE == 0 && KERN_BASE <= etext <= PHYS_TOP
      modifies this
      ensures Valid() && Extends(old(owner), owner)
      ensures ok ==> KernelMap(mem, dir) && KernelRights(mem, dir, etext)
      ensures 67 <= |old(free)| ==> ok
    {
      ghost var mem0, owner0 := mem, owner;
      ghost var n;
      KernelBound(etext);
      ok, n := MapPages(dir, KERN_BASE, etext - KERN_BASE, KERN_BASE, ProtToType(5, false));
      if !ok { return; }
      ghost var mem1, owner1 := mem, owner;
      SecondRangeEmpty(mem0, mem1, owner0, dir, etext);
      ok, n := MapPages(dir, etext, PHYS_TOP - etext, etext, ProtToType(3, false));
      if ok {
        KernelIdentity(mem0, mem1, mem, owner0, owner1, dir, etext);
        KernelIsProtected(mem0, mem1, mem, owner0, owner1, dir, etext);
      }
    }

    /** kern_vm_init, when alloc_page has a page for the directory. `etext` is page-aligned by kernel/kernel.lds. */
    method KernVmInit(etext: nat) returns (dir: nat, ok: bool)
      requires Valid() && free != []
      requires etext % PGSIZE == 0 && KERN_BASE <= etext <= PHYS_TOP
      modifies this
      ensures Valid() && Extends(old(owner), owner) && Directory(owner, dir)
      ensures ok ==> KernelMap(mem, dir) && KernelRights(mem, dir, etext)
      ensures 68 <= |old(free)| ==> ok
    {
      dir := AllocPage();
      NewDirectory(mem, owner, dir);
      mem := mem[dir := ZeroPage()];
      owner := owner[dir := Place(dir, [])];
      ok := MapKernel(dir, etext);
    }

    /**
     cow_vm_map: the new entry replaces whatever was there, and the page has one more reference. The original needs the
     walk to succeed.
     */
    method CowMap(pmm: Pmm.Allocator, dir: nat, va: nat, pa: nat)
      requires Valid() && Directory(owner, dir) && va < MAXVA
      requires Missing(mem, dir, va, 2) <= |free|
      requires pmm.Valid() && (pmm.refTotal < Pmm.CAPACITY || PmmState.HasKey(pmm.Current().table, pa))
      modifies this, pmm`refTotal, pmm.refList
      ensures Valid() && Extends(old(owner), owner)
      ensures pmm.Formed() && pmm.Current() == PmmState.Share(old(pmm.Current()), pa)
      ensures PmmState.HasKey(old(pmm.Current()).table, pa) ==> pmm.Valid()
      ensures Mapped(old(mem), mem, old(owner), dir, va / PGSIZE, 1, pa / PGSIZE, ProtToType(1, true) | RSW | V)
      ensures CopyOnWrite(Leaf(mem, dir, va), pa / PGSIZE)
    {
      ghost var mem0, owner0 := mem, owner;
      var slot := PageWalk(dir, va, true);
      StoreAtWalk(mem, owner, dir, va, EMPTY, dir, va);
      ghost var e := Pte(pa / PGSIZE, ProtToType(1, true) | RSW | V);
      OnePage(mem0, mem, owner0, owner, dir, va, e);
      ghost var stored := Store(mem, slot.value, e);
      mem := mem[slot.value.table := mem[slot.value.table][slot.value.index :=
                   Pte(pa / PGSIZE, ProtToType(1, true) | RSW | V)]];
      assert mem == stored;
      CowEntry(mem0, mem, owner0, dir, va, pa / PGSIZE);
      PmmState.SharedStaysSorted(pmm.Current().table, pa);
      pmm.RefInsert(pa);
    }

    /** The body of map_pages's loop. */
    method MapPage(dir: nat, first: nat, pa: nat, perm: bv10,
                   ghost before: Memory, ghost known: map<nat, Place>, ghost low: nat, ghost n: nat, ghost ppn: nat)
      returns (ok: bool)
      requires Valid() && Extends(known, owner) && Directory(known, dir)
      requires Mapped(before, mem, known, dir, low, n, ppn, perm | V)
      requires first == (low + n) * PGSIZE < MAXVA && pa / PGSIZE == ppn + n
      requires !IsValid(Leaf(before, dir, first))
      modifies this
      ensures Valid() && Extends(known, owner)
      ensures Mapped(before, mem, known, dir, low, if ok then n + 1 else n, ppn, perm | V)
      ensures ok <==> Missing(old(mem), dir, first, 2) <= |old(free)|
      ensures ok ==> |free| == |old(free)| - Missing(old(mem), dir, first, 2) && Walk(mem, dir, first).Some?
    {
      ghost var mem0, owner0 := mem, owner;
      var slot := PageWalk(dir, first, true);
      SameAsKnown(mem0, mem, owner0, known);
      if slot == None {
        KeepMapped(before, mem0, mem, known, dir, low, n, ppn, perm | V);
        return false;
      }
      StillEmpty(before, mem0, mem, known, owner, dir, low, n, ppn, perm | V);
      var pte := mem[slot.value.table][slot.value.index];
      assert !IsValid(pte);
      MapStep(before, mem0, mem, known, owner, dir, low, n, ppn, perm | V);
      ghost var stored := Store(mem, slot.value, Pte(ppn + n, perm | V));
      mem := mem[slot.value.table := mem[slot.value.table][slot.value.index := Pte(pa / PGSIZE, perm | V)]];
      assert mem == stored;
      return true;
    }

    /** map_pages over a range with no valid entry, where the original does not panic; `n` pages get mapped. */
    method MapPages(dir: nat, va: nat, size: nat, pa: nat, perm: bv10) returns (ok: bool, ghost n: nat)
      requires Valid() && Directory(owner, dir)
      requires 0 < va + size <= MAXVA && va < MAXVA
      requires forall page :: va / PGSIZE <= page <= (va + size - 1) / PGSIZE ==>
        !IsValid(Leaf(mem, dir, page * PGSIZE))
      modifies this
      ensures Valid() && Extends(old(owner), owner)
      ensures Mapped(old(mem), mem, old(owner), dir, va / PGSIZE, n, pa / PGSIZE, perm | V)
      ensures n <= Pages(va, size) && (ok <==> n == Pages(va, size))
      ensures Bound(va / PGSIZE, Pages(va, size)) <= |old(free)| ==> ok
      ensures ok ==> |old(free)| - |free| <= Bound(va / PGSIZE, Pages(va, size))
    {
      hide Mapped, Walk, Missing, Bound;
      ghost var low, ppn, all := va / PGSIZE, pa / PGSIZE, Pages(va, size);
      n := 0;
      MappedNone(mem, owner, dir, low, ppn, perm | V);
      BoundStarts(low);
      var first, last, from := va / PGSIZE * PGSIZE, (va + size - 1) / PGSIZE * PGSIZE, pa;
      while first <= last
        invariant Valid() && Extends(old(owner), owner)
        invariant n <= Pages(va, size) && first == (low + n) * PGSIZE && from == pa + n * PGSIZE
        invariant Mapped(old(mem), mem, old(owner), dir, low, n, ppn, perm | V)
        invariant n > 0 ==> Walk(mem, dir, first - PGSIZE).Some?
        invariant |old(free)| - |free| <= Bound(low, n)
        decreases last + PGSIZE - first
      {
        BoundStep(mem, dir, low, n, all);
        var mapped := MapPage(dir, first, from, perm, old(mem), old(owner), low, n, ppn);
        if !mapped { return false, n; }
        n := n + 1;
        first, from := first + PGSIZE, from + PGSIZE;
      }
      return true, n;
    }
  }

  const KERN_BASE := 0x80000000
  const PHYS_TOP := 0x88000000

  ghost predicate Blank(mem: Memory, dir: nat) {
    forall va :: Leaf(mem, dir, va) == EMPTY
  }

  /** An address space with nothing mapped but `dir`'s fresh directory. */
  lemma NewDirectory(mem: Memory, owner: map<nat, Place>, dir: nat)
    requires WellFormed(mem, owner) && dir != 0 && dir !in owner
    ensures WellFormed(mem[dir := ZeroPage()], owner[dir := Place(dir, [])])
    ensures SameLeaves(mem, mem[dir := ZeroPage()], owner)
    ensures Blank(mem[dir := ZeroPage()], dir)
  {
    var mem', owner' := mem[dir := ZeroPage()], owner[dir := Place(dir, [])];
    forall p | p in owner'
      ensures TableOk(mem', owner', p)
    {
      if p != dir {
        assert TableOk(mem, owner, p);
        forall i | 0 <= i < ENTRIES && |owner[p].path| < 2 && IsValid(mem[p][i])
          ensures LeadsTo(owner', mem[p][i].ppn, owner[p], i)
        {
          assert LeadsTo(owner, mem[p][i].ppn, owner[p], i);
        }
      }
    }
    forall d, va | Directory(owner, d)
      ensures Leaf(mem', d, va) == Leaf(mem, d, va)
    {
      OutsideKept(mem, owner, dir, d, va, 2);
    }
    forall va
      ensures Leaf(mem', dir, va) == EMPTY
    {
      EmptyTable(mem', dir, va, 2);
    }
  }

  lemma {:induction false} OutsideKept(mem: Memory, owner: map<nat, Place>, dir: nat, from: nat, va: nat, level: nat)
    requires WellFormed(mem, owner) && dir !in owner && AtLevel(owner, from, level)
    ensures LeafFrom(mem[dir := ZeroPage()], from, va, level) == LeafFrom(mem, from, va, level)
    decreases level
  {
    assert TableOk(mem, owner, from);
    if level > 0 && IsValid(mem[from][Px(level, va)]) {
      assert LeadsTo(owner, mem[from][Px(level, va)].ppn, owner[from], Px(level, va));
      OutsideKept(mem, owner, dir, mem[from][Px(level, va)].ppn, va, level - 1);
    }
  }

  /** The kernel's two mappings, one after the other, make the identity on [KERN_BASE, PHYS_TOP). */
  lemma KernelIdentity(mem0: Memory, mem1: Memory, mem2: Memory, owner0: map<nat, Place>, owner1: map<nat, Place>,
                       dir: nat, etext: nat)
    requires Directory(owner0, dir) && Extends(owner0, owner1)
    requires etext % PGSIZE == 0 && KERN_BASE <= etext <= PHYS_TOP
    requires Blank(mem0, dir)
    requires Mapped(mem0, mem1, owner0, dir, KERN_BASE / PGSIZE, etext / PGSIZE - KERN_BASE / PGSIZE,
                    KERN_BASE / PGSIZE, ProtToType(5, false) | V)
    requires Mapped(mem1, mem2, owner1, dir, etext / PGSIZE, PHYS_TOP / PGSIZE - etext / PGSIZE,
                    etext / PGSIZE, ProtToType(3, false) | V)
    ensures KernelMap(mem2, dir)
  {
    forall va: nat
      ensures Translate(mem2, dir, va) == if KERN_BASE <= va < PHYS_TOP then va / PGSIZE * PGSIZE else 0
    {
      MappedTranslates(mem0, mem1, owner0, dir, KERN_BASE / PGSIZE, etext / PGSIZE - KERN_BASE / PGSIZE,
                       KERN_BASE / PGSIZE, ProtToType(5, false), dir, va);
      MappedTranslates(mem1, mem2, owner1, dir, etext / PGSIZE, PHYS_TOP / PGSIZE - etext / PGSIZE,
                       etext / PGSIZE, ProtToType(3, false), dir, va);
      assert Translate(mem0, dir, va) == 0;
    }
  }

  /** The kernel's address space: the identity on its memory, and nothing else. */
  ghost predicate KernelMap(mem: Memory, dir: nat) {
    forall va: nat :: Translate(mem, dir, va) == if KERN_BASE <= va < PHYS_TOP then va / PGSIZE * PGSIZE else 0
  }

  /** For the kernel only: readable, and either executable (`text`) or writable. */
  ghost predicate KernelEntry(e: Pte, text: bool) {
    && e.flags & R != 0 && e.flags & U == 0
    && (e.flags & X != 0 <==> text) && (e.flags & W != 0 <==> !text)
  }

  /** Text can be executed and not written; the rest of memory can be written and not executed. */
  ghost predicate KernelRights(mem: Memory, dir: nat, etext: nat) {
    forall va: nat :: KERN_BASE <= va < PHYS_TOP ==> KernelEntry(Leaf(mem, dir, va), va < etext)
  }

  lemma KernelFlags()
    ensures KernelEntry(Pte(0, ProtToType(5, false) | V), true) && KernelEntry(Pte(0, ProtToType(3, false) | V), false)
  {
  }

  /** The two mappings of the kernel give those rights. */
  lemma KernelIsProtected(mem0: Memory, mem1: Memory, mem2: Memory, owner0: map<nat, Place>, owner1: map<nat, Place>,
                          dir: nat, etext: nat)
    requires Directory(owner0, dir) && Extends(owner0, owner1)
    requires etext % PGSIZE == 0 && KERN_BASE <= etext <= PHYS_TOP
    requires Mapped(mem0, mem1, owner0, dir, KERN_BASE / PGSIZE, etext / PGSIZE - KERN_BASE / PGSIZE,
                    KERN_BASE / PGSIZE, ProtToType(5, false) | V)
    requires Mapped(mem1, mem2, owner1, dir, etext / PGSIZE, PHYS_TOP / PGSIZE - etext / PGSIZE,
                    etext / PGSIZE, ProtToType(3, false) | V)
    ensures KernelRights(mem2, dir, etext)
  {
    hide ProtToType;
    KernelFlags();
    forall va: nat | KERN_BASE <= va < PHYS_TOP
      ensures KernelEntry(Leaf(mem2, dir, va), va < etext)
    {
      assert va < etext <==> va / PGSIZE < etext / PGSIZE;
      assert Leaf(mem1, dir, va).flags == ProtToType(5, false) | V || !(va < etext);
      assert Leaf(mem2, dir, va).flags == if va < etext then ProtToType(5, false) | V else ProtToType(3, false) | V;
    }
  }

  /** Tables for the kernel's memory: at most 67, wherever the text ends. */
  lemma KernelBound(etext: nat)
    requires etext % PGSIZE == 0 && KERN_BASE <= etext <= PHYS_TOP
    ensures Bound(KERN_BASE / PGSIZE, Pages(KERN_BASE, etext - KERN_BASE))
          + Bound(etext / PGSIZE, Pages(etext, PHYS_TOP - etext)) <= 67
    ensures Bound(etext / PGSIZE, Pages(etext, PHYS_TOP - etext)) >= 0
    ensures Pages(KERN_BASE, etext - KERN_BASE) == etext / PGSIZE - KERN_BASE / PGSIZE
    ensures Pages(etext, PHYS_TOP - etext) == PHYS_TOP / PGSIZE - etext / PGSIZE
  {
    var e := etext / PGSIZE;
    assert etext == e * PGSIZE;
    assert Pages(KERN_BASE, etext - KERN_BASE) == e - KERN_BASE / PGSIZE;
  }

  lemma SecondRangeEmpty(mem0: Memory, mem1: Memory, owner0: map<nat, Place>, dir: nat, etext: nat)
    requires Directory(owner0, dir) && etext % PGSIZE == 0 && KERN_BASE <= etext <= PHYS_TOP
    requires Blank(mem0, dir)
    requires Mapped(mem0, mem1, owner0, dir, KERN_BASE / PGSIZE, etext / PGSIZE - KERN_BASE / PGSIZE,
                    KERN_BASE / PGSIZE, ProtToType(5, false) | V)
    ensures forall page :: etext / PGSIZE <= page < PHYS_TOP / PGSIZE ==> !IsValid(Leaf(mem1, dir, page * PGSIZE))
  {
    forall page | etext / PGSIZE <= page < PHYS_TOP / PGSIZE
      ensures !IsValid(Leaf(mem1, dir, page * PGSIZE))
    {
      var va := page * PGSIZE;
      assert va / PGSIZE == page && va < MAXVA;
      assert Leaf(mem1, dir, va) == MappedLeaf(Leaf(mem0, dir, va), true, page, KERN_BASE / PGSIZE,
                                               etext / PGSIZE - KERN_BASE / PGSIZE, KERN_BASE / PGSIZE, ProtToType(5,
                                                 false) | V);
    }
  }

  /** Pages the allocator has free are fit for tables, because tables are held. */
  lemma PoolIsFresh(s: PmmState.State, refs: multiset<int>, owner: map<nat, Place>)
    requires PmmState.Partition(s, refs) && 0 < s.start
    requires forall p :: p in owner ==> p * PGSIZE in refs
    ensures PoolOk(PageNumbers(s.free), owner)
  {
    forall i | 0 <= i < |s.free|
      ensures PageNumbers(s.free)[i] * PGSIZE == s.free[i] && s.free[i] > 0 && s.free[i] !in refs
    {
      assert s.free[i] in s.free;
    }
  }

  ghost function PageNumbers(l: seq<int>): seq<int> {
    seq(|l|, i requires 0 <= i < |l| => l[i] / PGSIZE)
  }

  lemma NotOnList(l: seq<int>, page: nat)
    requires page !in PageNumbers(l)
    ensures page * PGSIZE !in l
  {
    forall i | 0 <= i < |l| ensures l[i] != page * PGSIZE {
      assert PageNumbers(l)[i] != page;
    }
  }

  lemma Returned(l: seq<int>, page: nat)
    ensures PageNumbers([page * PGSIZE] + l) == [page] + PageNumbers(l)
  {
  }

  /** `*pte &= ~PTE_V` */
  function Cleared(e: Pte): (r: Pte)
    ensures r.ppn == e.ppn && !IsValid(r) && r.flags | V == e.flags | V
  {
    Pte(e.ppn, e.flags & 0x3FE)
  }

  /** Exactly one page lost its entry's valid bit. */
  ghost predicate Unmapped(mem: Memory, mem': Memory, owner: map<nat, Place>, dir: nat, va: nat) {
    forall dir': nat, va': nat :: Directory(owner, dir') && va' < MAXVA ==>
      Leaf(mem', dir', va') ==
      if dir' == dir && va' / PGSIZE == va / PGSIZE then Cleared(Leaf(mem, dir', va')) else Leaf(mem, dir', va')
  }

  lemma UnmapLeaves(mem: Memory, owner: map<nat, Place>, dir: nat, va: nat)
    requires WellFormed(mem, owner) && Directory(owner, dir) && va < MAXVA && Walk(mem, dir, va).Some?
    ensures var slot := Walk(mem, dir, va).value;
      && slot.table in mem && slot.index < |mem[slot.table]|
      && WellFormed(Store(mem, slot, Cleared(Leaf(mem, dir, va))), owner)
      && Unmapped(mem, Store(mem, slot, Cleared(Leaf(mem, dir, va))), owner, dir, va)
  {
    var e := Cleared(Leaf(mem, dir, va));
    StoreAtWalk(mem, owner, dir, va, e, dir, va);
    forall dir': nat, va': nat | Directory(owner, dir') && va' < MAXVA
      ensures Leaf(Store(mem, Walk(mem, dir, va).value, e), dir', va') ==
        if dir' == dir && va' / PGSIZE == va / PGSIZE then Cleared(Leaf(mem, dir', va')) else Leaf(mem, dir', va')
    {
      StoreAtWalk(mem, owner, dir, va, e, dir', va');
      if dir' == dir && va' / PGSIZE == va / PGSIZE {
        SlotsDiffer(mem, owner, dir, va, dir', va');
      }
    }
  }

  lemma OnePage(before: Memory, mem: Memory, known: map<nat, Place>, owner: map<nat, Place>, dir: nat, va: nat, e: Pte)
    requires SameLeaves(before, mem, known) && Extends(known, owner) && Directory(known, dir)
    requires WellFormed(mem, owner) && va < MAXVA && Walk(mem, dir, va).Some?
    ensures var slot := Walk(mem, dir, va).value;
      && slot.table in mem && slot.index < |mem[slot.table]|
      && WellFormed(Store(mem, slot, e), owner)
      && Mapped(before, Store(mem, slot, e), known, dir, va / PGSIZE, 1, e.ppn, e.flags)
  {
    StoreAtWalk(mem, owner, dir, va, e, dir, va);
    forall dir': nat, va': nat | Directory(known, dir') && va' < MAXVA
      ensures Leaf(Store(mem, Walk(mem, dir, va).value, e), dir', va')
           == MappedLeaf(Leaf(before, dir', va'), dir' == dir, va' / PGSIZE, va / PGSIZE, 1, e.ppn, e.flags)
    {
      StoreAtWalk(mem, owner, dir, va, e, dir', va');
    }
  }

  /**
   After a mapping, lookup_pa returns the pages mapped if they are readable or writable, and 0 if they are neither; it
   returns what it did for every other page.
   */
  lemma MappedTranslates(mem: Memory, mem': Memory, owner: map<nat, Place>, dir: nat, first: nat, n: nat, ppn: nat,
                         perm: bv10, dir': nat, va: nat)
    requires Mapped(mem, mem', owner, dir, first, n, ppn, perm | V) && Directory(owner, dir')
    ensures Translate(mem', dir', va) ==
      if va < MAXVA && dir' == dir && first <= va / PGSIZE < first + n then
        if perm & (R | W) != 0 then (ppn + va / PGSIZE - first) * PGSIZE else 0
      else Translate(mem, dir', va)
  {
    FlagsShow(perm);
    if va < MAXVA {
      assert Leaf(mem', dir', va) == MappedLeaf(Leaf(mem, dir', va), dir' == dir, va / PGSIZE, first, n, ppn, perm | V);
    }
  }

  lemma FlagsShow(perm: bv10)
    ensures (perm | V) & V != 0
    ensures perm & (R | W) != 0 <==> (perm | V) & R != 0 || (perm | V) & W != 0
  {
  }

  /**
   A page mapped to other than page 0 is found there if and only if it is readable or writable: not if only
   executable.
   */
  lemma FoundIffAccessible(mem: Memory, mem': Memory, owner: map<nat, Place>, dir: nat, first: nat, n: nat, ppn: nat,
                           prot: bv3, user: bool, va: nat)
    requires Mapped(mem, mem', owner, dir, first, n, ppn, ProtToType(prot, user) | V) && Directory(owner, dir)
    requires va < MAXVA && first <= va / PGSIZE < first + n && 0 < ppn
    ensures Translate(mem', dir, va) == (ppn + va / PGSIZE - first) * PGSIZE <==> prot != 4
    ensures prot == 4 ==> Translate(mem', dir, va) == 0
  {
    MappedTranslates(mem, mem', owner, dir, first, n, ppn, ProtToType(prot, user), dir, va);
  }

  /** After unmapping, lookup_pa finds nothing on that page, and what it found everywhere else. */
  lemma UnmappedTranslates(mem: Memory, mem': Memory, owner: map<nat, Place>, dir: nat, va: nat, dir': nat, va': nat)
    requires Unmapped(mem, mem', owner, dir, va) && Directory(owner, dir')
    ensures Translate(mem', dir', va') ==
      if dir' == dir && va' / PGSIZE == va / PGSIZE then 0 else Translate(mem, dir', va')
  {
    if va' < MAXVA && dir' == dir && va' / PGSIZE == va / PGSIZE {
      ClearedIsInvalid(Leaf(mem, dir', va').flags);
    }
  }

  lemma ClearedIsInvalid(flags: bv10)
    ensures flags & 0x3FE & V == 0
  {
  }

  /** An entry for page `ppn` that a user may read and not write, marked for copying. */
  ghost predicate CopyOnWrite(e: Pte, ppn: nat) {
    && e.ppn == ppn && IsValid(e) && e.flags & RSW != 0
    && e.flags & R != 0 && e.flags & W == 0 && e.flags & X == 0 && e.flags & U != 0
  }

  lemma CowFlags()
    ensures CopyOnWrite(Pte(0, ProtToType(1, true) | RSW | V), 0)
  {
  }

  lemma CowEntry(mem: Memory, mem': Memory, owner: map<nat, Place>, dir: nat, va: nat, ppn: nat)
    requires Mapped(mem, mem', owner, dir, va / PGSIZE, 1, ppn, ProtToType(1, true) | RSW | V)
    requires Directory(owner, dir) && va < MAXVA
    ensures CopyOnWrite(Leaf(mem', dir, va), ppn)
  {
    hide ProtToType;
    CowFlags();
    assert Leaf(mem', dir, va) == Pte(ppn, ProtToType(1, true) | RSW | V);
  }

  /** prot_to_type; PROT_READ, PROT_WRITE and PROT_EXEC are 1, 2 and 4. */
  function ProtToType(prot: bv3, user: bool): (perm: bv10)
    // Every combination but execute-only is one that lookup_pa accepts.
    ensures perm & (R | W) == 0 <==> prot == 4
    ensures perm & R != 0 <==> prot & 1 != 0 || prot == 0
    ensures (perm & W != 0 <==> prot & 2 != 0) && (perm & D != 0 <==> prot & 2 != 0)
    ensures (perm & X != 0 <==> prot & 4 != 0) && (perm & A != 0 <==> prot & 5 != 0)
    ensures (perm & U != 0 <==> user) && perm & !(R | W | X | U | A | D) == 0
  {
    var r: bv10 := if prot & 1 != 0 then R | A else 0;
    var w: bv10 := if prot & 2 != 0 then W | D else 0;
    var x: bv10 := if prot & 4 != 0 then X | A else 0;
    var perm := r | w | x;
    (if perm == 0 then R else perm) | (if user then U else 0)
  }

  lemma SameAsKnown(mem0: Memory, mem: Memory, owner: map<nat, Place>, known: map<nat, Place>)
    requires SameLeaves(mem0, mem, owner) && Extends(known, owner)
    ensures SameLeaves(mem0, mem, known)
  {
  }

  lemma KeepMapped(before: Memory, mem0: Memory, mem: Memory, known: map<nat, Place>,
                   dir: nat, low: nat, n: nat, ppn: nat, flags: bv10)
    requires Mapped(before, mem0, known, dir, low, n, ppn, flags) && SameLeaves(mem0, mem, known)
    ensures Mapped(before, mem, known, dir, low, n, ppn, flags)
  {
  }

  lemma StillEmpty(before: Memory, mem0: Memory, mem: Memory, known: map<nat, Place>, owner: map<nat, Place>,
                   dir: nat, low: nat, n: nat, ppn: nat, flags: bv10)
    requires Mapped(before, mem0, known, dir, low, n, ppn, flags)
    requires Extends(known, owner) && Directory(known, dir) && WellFormed(mem, owner)
    requires SameLeaves(mem0, mem, known) && (low + n) * PGSIZE < MAXVA
    requires Walk(mem, dir, (low + n) * PGSIZE).Some?
    ensures var slot := Walk(mem, dir, (low + n) * PGSIZE).value;
      && slot.table in mem && slot.index < |mem[slot.table]|
      && mem[slot.table][slot.index] == Leaf(before, dir, (low + n) * PGSIZE)
  {
    var va := (low + n) * PGSIZE;
    WalkPlace(mem, owner, dir, va, 2);
    assert TableOk(mem, owner, Walk(mem, dir, va).value.table);
    assert va / PGSIZE == low + n;
    assert Leaf(mem, dir, va) == Leaf(mem0, dir, va);
  }

  lemma MapStep(before: Memory, mem0: Memory, mem: Memory, known: map<nat, Place>, owner: map<nat, Place>,
                dir: nat, low: nat, n: nat, ppn: nat, flags: bv10)
    requires Mapped(before, mem0, known, dir, low, n, ppn, flags)
    requires Extends(known, owner) && Directory(known, dir) && WellFormed(mem, owner)
    requires SameLeaves(mem0, mem, known) && (low + n) * PGSIZE < MAXVA
    requires Walk(mem, dir, (low + n) * PGSIZE).Some?
    ensures var slot := Walk(mem, dir, (low + n) * PGSIZE).value;
      && slot.table in mem && slot.index < |mem[slot.table]|
      && WellFormed(Store(mem, slot, Pte(ppn + n, flags)), owner)
      && Mapped(before, Store(mem, slot, Pte(ppn + n, flags)), known, dir, low, n + 1, ppn, flags)
  {
    var va, e := (low + n) * PGSIZE, Pte(ppn + n, flags);
    var slot := Walk(mem, dir, va).value;
    StoreAtWalk(mem, owner, dir, va, e, dir, va);
    assert va / PGSIZE == low + n;
    forall dir': nat, va': nat | Directory(known, dir') && va' < MAXVA
      ensures Leaf(Store(mem, slot, e), dir', va')
           == MappedLeaf(Leaf(before, dir', va'), dir' == dir, va' / PGSIZE, low, n + 1, ppn, flags)
    {
      StoreAtWalk(mem, owner, dir, va, e, dir', va');
    }
  }

  ghost predicate PoolOk(free: seq<int>, owner: map<nat, Place>) {
    && (forall i, j :: 0 <= i < j < |free| ==> free[i] != free[j])
    && (forall i :: 0 <= i < |free| ==> free[i] != 0 && free[i] !in owner)
  }

  lemma Hung(before: Memory, known: map<nat, Place>, mem: Memory, owner: map<nat, Place>, table: nat, i: nat, page: nat)
    requires WellFormed(mem, owner) && CanHang(mem, owner, table, i, page)
    requires SameLeaves(before, mem, known) && Extends(known, owner)
    ensures SameLeaves(before, Hang(mem, table, i, page), known)
    ensures Extends(known, HangOwner(owner, table, i, page))
  {
    forall dir, va | Directory(known, dir)
      ensures Leaf(Hang(mem, table, i, page), dir, va) == Leaf(before, dir, va)
    {
      HangKeepsLeaves(mem, owner, table, i, page, dir, va, 2);
    }
  }
}
