/**
 The code of kernel/process.c that manages the user heap: block headers in memory, a singly
 linked free list of blocks, first fit with splitting, and growth by whole pages.
 */
module UserHeap {
  import opened HeapState

  /** block_head */
  datatype Head = Head(next: int, capacity: int)

  /** Headers by address; memory that has just been mapped is zero and holds none. */
  datatype Raw = Raw(bottom: int, top: int, heads: map<int, Head>, first: int)

  /** The element at a position, or NULL past the end. */
  ghost function At(list: seq<int>, i: nat): int {
    if i < |list| then list[i] else 0
  }

  /** The element before a position, or NULL. */
  ghost function Before(list: seq<int>, k: nat): int {
    if 0 < k <= |list| then list[k - 1] else 0
  }

  /** From `a`, the links lead through the list and end. */
  ghost predicate Chain(heads: map<int, Head>, a: int, list: seq<int>) {
    a == At(list, 0) && forall i: nat :: i < |list| ==> Link(heads, list, i)
  }

  /** Position `i` of the list has a header that points to the next one. */
  ghost predicate Link(heads: map<int, Head>, list: seq<int>, i: nat) {
    i < |list| && list[i] > 0 && list[i] in heads && heads[list[i]].next == At(list, i + 1)
  }

  /** There is a header at each block, with the block's capacity, and nowhere else. */
  ghost predicate Headers(heads: map<int, Head>, blocks: map<int, int>) {
    heads.Keys == blocks.Keys && forall x :: x in blocks ==> heads[x].capacity == blocks[x]
  }

  ghost predicate Represents(r: Raw, h: Heap) {
    r.bottom == h.bottom && r.top == h.top && Headers(r.heads, h.blocks) && Chain(r.heads, r.first, h.free)
  }

  /** What vm_free does to memory. */
  ghost function FreeRaw(r: Raw, x: int): Raw
    requires x in r.heads
  {
    r.(heads := r.heads[x := r.heads[x].(next := r.first)], first := x)
  }

  /** Block `x` is linked around. */
  ghost function UnlinkRaw(r: Raw, x: int, pre: int): Raw
    requires x in r.heads
  {
    if pre == 0 || pre !in r.heads then r.(first := r.heads[x].next)
    else r.(heads := r.heads[pre := r.heads[pre].(next := r.heads[x].next)])
  }

  /** A header at `y` takes the place of `x` in the list, behind `pre`; `x` gets capacity `need`. */
  ghost function Substitute(heads: map<int, Head>, x: int, need: int, y: int, left: int, pre: int): map<int, Head>
    requires x in heads
  {
    var cut := heads[x := heads[x].(capacity := need)][y := Head(heads[x].next, left)];
    if pre != 0 && pre in cut then cut[pre := cut[pre].(next := y)] else cut
  }

  lemma ChainHas(heads: map<int, Head>, a: int, list: seq<int>, k: nat)
    requires Chain(heads, a, list) && NoDuplicates(list) && k < |list|
    ensures list[k] in heads && list[k] > 0 && heads[list[k]].next == At(list, k + 1)
    ensures Before(list, k) == 0 <==> k == 0
    ensures k > 0 ==> Before(list, k) in heads && Before(list, k) != list[k]
  {
    assert Link(heads, list, k);
    if k > 0 {
      assert Link(heads, list, k - 1);
    }
  }

  lemma Unlink(heads: map<int, Head>, a: int, list: seq<int>, k: nat, pre: int)
    requires Chain(heads, a, list) && NoDuplicates(list) && k < |list| && pre == Before(list, k)
    ensures list[k] in heads
    ensures var r := UnlinkRaw(Raw(0, 0, heads, a), list[k], pre); Chain(r.heads, r.first, RemoveAt(list, k))
  {
    ChainHas(heads, a, list, k);
    var rest := RemoveAt(list, k);
    var r := UnlinkRaw(Raw(0, 0, heads, a), list[k], pre);
    assert forall i :: 0 <= i < |rest| ==> rest[i] == list[if i < k then i else i + 1];
    forall i: nat | i < |rest|
      ensures Link(r.heads, rest, i)
    {
      assert Link(heads, list, if i < k then i else i + 1);
    }
    assert |list| > 1 ==> Link(heads, list, 1);
  }

  lemma Relink(heads: map<int, Head>, a: int, list: seq<int>, k: nat, need: int, y: int, left: int, pre: int)
    requires Chain(heads, a, list) && NoDuplicates(list) && k < |list| && pre == Before(list, k)
    requires y !in heads && y > 0
    ensures list[k] in heads
    ensures Chain(Substitute(heads, list[k], need, y, left, pre), if pre == 0 then y else a, list[k := y])
  {
    ChainHas(heads, a, list, k);
    var l, heads' := list[k := y], Substitute(heads, list[k], need, y, left, pre);
    forall i: nat | i < |l|
      ensures Link(heads', l, i)
    {
      assert Link(heads, list, i);
    }
  }

  lemma Prepend(heads: map<int, Head>, a: int, list: seq<int>, x: int)
    requires Chain(heads, a, list) && x !in list && x > 0 && x in heads
    ensures Chain(heads[x := heads[x].(next := a)], x, [x] + list)
  {
    var l, heads' := [x] + list, heads[x := heads[x].(next := a)];
    forall i: nat | i < |l|
      ensures Link(heads', l, i)
    {
      if i > 0 {
        assert Link(heads, list, i - 1);
        assert l[i] == list[i - 1] && list[i - 1] in list;
      }
    }
  }

  lemma FreeRepresents(r: Raw, h: Heap, va: int)
    requires Inv(h) && Represents(r, h) && Live(h, va - HEAD)
    ensures va - HEAD in r.heads && Represents(FreeRaw(r, va - HEAD), Free(h, va))
  {
    assert BlockOk(h.bottom, h.top, h.blocks, va - HEAD);
    Prepend(r.heads, r.first, h.free, va - HEAD);
  }

  lemma WholeRepresents(r: Raw, h: Heap, k: nat)
    requires Inv(h) && Represents(r, h) && k < |h.free|
    ensures h.free[k] in r.heads
    ensures Represents(UnlinkRaw(r, h.free[k], Before(h.free, k)), h.(free := RemoveAt(h.free, k)))
  {
    ChainHas(r.heads, r.first, h.free, k);
    Unlink(r.heads, r.first, h.free, k, Before(h.free, k));
  }

  /** The memory after block `x` is cut, or extended, to end at `y`, where a block of `left` bytes starts. */
  ghost function CutRaw(r: Raw, x: int, y: int, left: int, pre: int): Raw
    requires x in r.heads
  {
    Raw(r.bottom, r.top, Substitute(r.heads, x, y - x, y, left, pre), if pre == 0 then y else r.first)
  }

  lemma CutRepresents(r: Raw, h: Heap, k: nat, y: int, left: int)
    requires Inv(h) && Represents(r, h) && k < |h.free| && y !in h.blocks && y > 0
    ensures h.free[k] in r.heads
    ensures Represents(CutRaw(r, h.free[k], y, left, Before(h.free, k)),
                       h.(blocks := h.blocks[h.free[k] := y - h.free[k]][y := left], free := h.free[k := y]))
  {
    ChainHas(r.heads, r.first, h.free, k);
    Relink(r.heads, r.first, h.free, k, y - h.free[k], y, left, Before(h.free, k));
  }

  /** alloc_from_new_block's loop: pages added for a shortfall. */
  ghost function Pages(s: int): int
    decreases if s < 0 then 0 else s
  {
    if s <= 2 * PGSIZE then 1 else 1 + Pages(s - PGSIZE)
  }

  /** What is left of the shortfall after the loop. */
  ghost function Rest(s: int): int
    decreases if s < 0 then 0 else s
  {
    if s <= PGSIZE then s else if s <= 2 * PGSIZE then s - PGSIZE else Rest(s - PGSIZE)
  }

  /** One page covers a shortfall of at most a page; beyond that, the loop adds one page too few. */
  lemma {:induction false} PageShort(s: int)
    requires s > 0
    ensures 0 < Rest(s) <= PGSIZE && Pages(s) >= 1
    ensures s <= PGSIZE ==> Pages(s) == 1 && Rest(s) == s
    ensures s > PGSIZE ==> Pages(s) * PGSIZE + Rest(s) == s
    decreases s
  {
    if s > 2 * PGSIZE {
      PageShort(s - PGSIZE);
    }
  }

  /** Mapping fresh pages zeroes them. */
  function Zeroed(heads: map<int, Head>, from: int, to: int): map<int, Head> {
    map x | x in heads && !(from <= x < to) :: heads[x]
  }

  /** alloc_from_new_block on the highest free block `x`, which `pre` precedes in the list. */
  ghost function GrowRaw(r: Raw, x: int, pre: int, need: int): Raw
    requires x in r.heads
  {
    var s := need - r.heads[x].capacity;
    var top := r.top + Pages(s) * PGSIZE;
    var y, left := top - PGSIZE + RoundUp8(Rest(s)), PGSIZE - RoundUp8(Rest(s));
    Append(r.(top := top, heads := Zeroed(r.heads[x := Head(0, need)], r.top, top)), y, Head(r.heads[x].next, left),
           pre)
  }

  /** A header is written at `y` and linked in behind `pre`. */
  ghost function Append(r: Raw, y: int, head: Head, pre: int): Raw {
    var heads := r.heads[y := head];
    r.(heads := if pre != 0 && pre in heads then heads[pre := heads[pre].(next := y)] else heads,
       first := if pre == 0 then y else r.first)
  }

  lemma NothingAbove(h: Heap, heads: map<int, Head>, top: int)
    requires Inv(h) && Headers(heads, h.blocks)
    ensures Zeroed(heads, h.top, top) == heads
  {
    forall x | x in heads
      ensures x < h.top
    {
      assert BlockOk(h.bottom, h.top, h.blocks, x);
    }
  }

  /** Block `x` extended by one page; what is left of the page is a block behind it. */
  ghost function GrowByPage(r: Raw, x: int, pre: int, need: int): Raw
    requires x in r.heads
  {
    var cut := CutRaw(r, x, x + need, r.top + PGSIZE - (x + need), pre);
    cut.(top := r.top + PGSIZE, heads := cut.heads[x := Head(0, need)])
  }

  /** With a shortfall under a page, growth is one page, and extends the block to where it should end. */
  lemma GrowRawIs(r: Raw, x: int, pre: int, need: int)
    requires x in r.heads && 0 < need - r.heads[x].capacity < PGSIZE && x + r.heads[x].capacity == r.top && x < r.top
    requires need % ALIGN == r.heads[x].capacity % ALIGN == 0
    requires Zeroed(r.heads, r.top, r.top + PGSIZE) == r.heads && pre != x && x + need !in r.heads
    ensures GrowRaw(r, x, pre, need) == GrowByPage(r, x, pre, need)
  {
    var s := need - r.heads[x].capacity;
    Difference(need, r.heads[x].capacity);
    PageShort(s);
    assert Zeroed(r.heads[x := Head(0, need)], r.top, r.top + PGSIZE) == r.heads[x := Head(0, need)];
  }

  lemma GrowAt(r: Raw, h: Heap, k: nat, need: int)
    requires Inv(h) && Represents(r, h) && k < |h.free| && need % ALIGN == 0
    requires h.free[k] + Size(h, h.free[k]) == h.top && h.top < h.free[k] + need
    requires h.free[k] + need + HEAD <= h.top + PGSIZE
    ensures h.free[k] in r.heads
    ensures var x := h.free[k];
      Represents(GrowRaw(r, x, Before(h.free, k), need),
                 Heap(h.bottom, h.top + PGSIZE, h.blocks[x := need][x + need := h.top + PGSIZE - (x + need)],
                      h.free[k := x + need]))
  {
    hide CutRaw, GrowRaw, GrowByPage;
    var x := h.free[k];
    assert x in h.free;
    ChainHas(r.heads, r.first, h.free, k);
    var y, pre, left := x + need, Before(h.free, k), r.top + PGSIZE - (x + need);
    assert BlockOk(h.bottom, h.top, h.blocks, x);
    BelowTop(h.bottom, h.top, h.blocks, y);
    NothingAbove(h, r.heads, r.top + PGSIZE);
    GrowRawIs(r, x, pre, need);
    CutRepresents(r, h, k, y, left);
    Replaced(h.free, k, y);
    GrowAssembled(r, h, k, need);
  }

  lemma GrowAssembled(r: Raw, h: Heap, k: nat, need: int)
    requires k < |h.free| && h.free[k] in r.heads && h.free[k] in h.blocks && need != 0
    requires h.free[k] !in h.free[k := h.free[k] + need]
    requires var x, y := h.free[k], h.free[k] + need;
      var left := r.top + PGSIZE - y;
      Represents(CutRaw(r, x, y, left, Before(h.free, k)),
                 h.(blocks := h.blocks[x := y - x][y := left], free := h.free[k := y]))
    ensures var x, y := h.free[k], h.free[k] + need;
      Represents(GrowByPage(r, x, Before(h.free, k), need),
                 Heap(h.bottom, r.top + PGSIZE, h.blocks[x := need][y := r.top + PGSIZE - y], h.free[k := y]))
  {
    var x, y := h.free[k], h.free[k] + need;
    var left := r.top + PGSIZE - y;
    Retop(CutRaw(r, x, y, left, Before(h.free, k)),
          h.(blocks := h.blocks[x := y - x][y := left], free := h.free[k := y]),
          x, Head(0, need), r.top + PGSIZE);
  }

  /** When the heap can grow, the grown memory represents the grown heap. */
  lemma {:induction false} GrowRepresents(r: Raw, h: Heap, need: int)
    requires Inv(h) && Represents(r, h) && CanGrow(h, need) && Full(h, need)
    ensures Highest(h) in r.heads
    ensures Represents(GrowRaw(r, Highest(h), Before(h.free, MaxFree(h.free)), need), Grow(h, need))
  {
    GrowAt(r, h, MaxFree(h.free), need);
  }

  lemma Retop(r: Raw, h: Heap, x: int, head: Head, top: int)
    requires Represents(r, h) && x in h.blocks && head.capacity == h.blocks[x] && x !in h.free
    ensures Represents(r.(top := top, heads := r.heads[x := head]), h.(top := top))
  {
    OffList(r.heads, r.first, h.free, x, head);
  }

  /** The header of a block that is not in the list does not matter to it. */
  lemma OffList(heads: map<int, Head>, a: int, list: seq<int>, x: int, head: Head)
    requires Chain(heads, a, list) && x !in list
    ensures Chain(heads[x := head], a, list)
  {
    var heads' := heads[x := head];
    forall i: nat | i < |list|
      ensures Link(heads', list, i)
    {
      assert Link(heads, list, i);
      assert list[i] in list;
    }
  }

  /** Some tiling with some free list is what the memory holds. */
  ghost predicate WellFormed(r: Raw) {
    exists h :: Inv(h) && Represents(r, h)
  }

  lemma GrownAddress(s: int, top: int)
    requires s > 0 && s % ALIGN == 0
    ensures var y := top + Pages(s) * PGSIZE - PGSIZE + RoundUp8(Rest(s));
      && top < y && (s <= PGSIZE ==> y == top + s && Pages(s) == 1)
      && (s > PGSIZE ==> y == top + s - PGSIZE)
  {
    hide Pages, Rest, RoundUp8;
    PageShort(s);
    if s > PGSIZE {
      PagesAligned(s, Pages(s), Rest(s));
    }
  }

  lemma PagesAligned(s: int, pages: int, rest: int)
    requires s % ALIGN == 0 && pages * PGSIZE + rest == s
    ensures rest % ALIGN == 0
  {
    assert s == ALIGN * (s / ALIGN);
    assert rest == ALIGN * (s / ALIGN - 512 * pages);
  }

  /** If the grown memory is well formed, the block that was extended ended at the top, and a page was enough. */
  lemma GrowNeeds(r: Raw, h: Heap, x: int, pre: int, need: int, h': Heap)
    requires Inv(h) && Represents(r, h) && x in h.blocks && h.blocks[x] < need && pre != x
    requires x in r.heads && Inv(h') && Headers(GrowRaw(r, x, pre, need).heads, h'.blocks)
    requires h'.top == GrowRaw(r, x, pre, need).top
    ensures x + h.blocks[x] == h.top && need % ALIGN == 0 && x + need + HEAD <= h.top + PGSIZE
  {
    hide GrowRaw, Pages, Rest, RoundUp8, Tiled, ListOk;
    var s := need - h.blocks[x];
    GrowKeys(r, h, x, pre, need);
    assert h'.blocks[x] == need;
    Sizes(h, x);
    Sizes(h', x);
    Difference(need, h.blocks[x]);
    GrownAddress(s, h.top);
    OneTiling(h, h', x, need, GrowRaw(r, x, pre, need).top - PGSIZE + RoundUp8(Rest(s)));
  }

  lemma Sizes(h: Heap, x: int)
    requires Inv(h) && x in h.blocks
    ensures h.blocks[x] % ALIGN == 0
  {
    assert BlockOk(h.bottom, h.top, h.blocks, x);
  }

  /** Two tilings, the second with `x` longer and a block at `y`: `x` was the last of the first. */
  lemma OneTiling(h: Heap, h': Heap, x: int, need: int, y: int)
    requires Inv(h) && Inv(h') && x in h.blocks && h.blocks[x] < need && h.top < y
    requires x in h'.blocks && h'.blocks[x] == need && y in h'.blocks && h.blocks.Keys <= h'.blocks.Keys
    requires need - h.blocks[x] <= PGSIZE ==> y == h.top + need - h.blocks[x] && h'.top == h.top + PGSIZE
    requires need - h.blocks[x] > PGSIZE ==> y == h.top + need - h.blocks[x] - PGSIZE
    ensures x + h.blocks[x] == h.top && x + need + HEAD <= h.top + PGSIZE
  {
    assert BlockOk(h.bottom, h.top, h.blocks, x);
    assert BlockOk(h'.bottom, h'.top, h'.blocks, y);
    assert x + need <= y;
    var end := x + h.blocks[x];
    assert end in h.blocks ==> end in h'.blocks;
  }

  /** What headers there are after growth. */
  lemma GrowKeys(r: Raw, h: Heap, x: int, pre: int, need: int)
    requires Inv(h) && Represents(r, h) && x in h.blocks && h.blocks[x] < need && pre != x
    ensures x in r.heads && r.heads[x].capacity == h.blocks[x]
    ensures var g := GrowRaw(r, x, pre, need);
      && x in g.heads && g.heads[x].capacity == need
      && g.top == r.top + Pages(need - h.blocks[x]) * PGSIZE
      && g.top - PGSIZE + RoundUp8(Rest(need - h.blocks[x])) in g.heads
      && h.blocks.Keys <= g.heads.Keys
  {
    AllBelow(h);
    GrowHeads(r, x, pre, need);
  }

  lemma AllBelow(h: Heap)
    requires Inv(h)
    ensures forall z :: z in h.blocks ==> z < h.top
  {
    forall z | z in h.blocks
      ensures z < h.top
    {
      assert BlockOk(h.bottom, h.top, h.blocks, z);
    }
  }

  lemma GrowHeads(r: Raw, x: int, pre: int, need: int)
    requires x in r.heads && r.heads[x].capacity < need && pre != x && forall z :: z in r.heads ==> z < r.top
    ensures var g := GrowRaw(r, x, pre, need);
      && x in g.heads && g.heads[x].capacity == need
      && g.top == r.top + Pages(need - r.heads[x].capacity) * PGSIZE
      && g.top - PGSIZE + RoundUp8(Rest(need - r.heads[x].capacity)) in g.heads
      && r.heads.Keys <= g.heads.Keys
  {
    PageShort(need - r.heads[x].capacity);
  }

  /** Growth keeps the heap well formed exactly when it can grow. */
  lemma GrowKeepsFormIff(r: Raw, h: Heap, need: int)
    requires Inv(h) && Represents(r, h) && h.free != [] && Full(h, need)
    ensures Highest(h) in r.heads
    ensures WellFormed(GrowRaw(r, Highest(h), Before(h.free, MaxFree(h.free)), need)) <==> CanGrow(h, need)
  {
    ChainHas(r.heads, r.first, h.free, MaxFree(h.free));
    var g := GrowRaw(r, Highest(h), Before(h.free, MaxFree(h.free)), need);
    if CanGrow(h, need) {
      GrowRepresents(r, h, need);
      GrowKeepsInv(h, need);
    }
    forall h' | Inv(h') && Represents(g, h')
      ensures CanGrow(h, need)
    {
      GrowNeeds(r, h, Highest(h), Before(h.free, MaxFree(h.free)), need, h');
    }
  }

  /** alloc_from_free_block on memory that represents `h`, whatever the size. */
  ghost function AllocRaw(r: Raw, h: Heap, need: int): Raw
    requires forall z :: z in h.free ==> z in r.heads
    requires h.free != []
  {
    if Full(h, need) then
      assert Highest(h) in h.free;
      GrowRaw(r, Highest(h), Before(h.free, MaxFree(h.free)), need)
    else
      var k := FirstFit(h, need, 0);
      assert h.free[k] in h.free;
      TakeRaw(r, h.free[k], Before(h.free, k), need)
  }

  /** Block `x`, behind `pre` in the list, is taken whole or cut. */
  ghost function TakeRaw(r: Raw, x: int, pre: int, need: int): Raw
    requires x in r.heads
  {
    if r.heads[x].capacity == need then UnlinkRaw(r, x, pre)
    else CutRaw(r, x, x + RoundUp8(need), r.heads[x].capacity - RoundUp8(need), pre)
  }

  /** A block that is cut too tight leaves a header without room. */
  lemma CutNeeds(r: Raw, x: int, y: int, left: int, pre: int, h: Heap)
    requires x in r.heads && x != y && Inv(h) && Represents(CutRaw(r, x, y, left, pre), h)
    ensures HEAD <= left
  {
    var g := CutRaw(r, x, y, left, pre);
    assert y in g.heads && g.heads[y].capacity == left;
    assert BlockOk(h.bottom, h.top, h.blocks, y);
  }

  lemma TakeKeepsFormIff(r: Raw, h: Heap, k: nat, need: int)
    requires Inv(h) && Represents(r, h) && k < |h.free| && HEAD <= need <= Size(h, h.free[k])
    ensures h.free[k] in r.heads
    ensures var g := TakeRaw(r, h.free[k], Before(h.free, k), need);
            && (WellFormed(g) <==> Fits(Size(h, h.free[k]), need))
            && (Fits(Size(h, h.free[k]), need) ==> Inv(Take(h, k, need)) && Represents(g, Take(h, k, need)))
  {
    var x := h.free[k];
    ChainHas(r.heads, r.first, h.free, k);
    var g := TakeRaw(r, x, Before(h.free, k), need);
    if Fits(Size(h, x), need) {
      TakeRepresents(r, h, k, need);
    } else {
      forall h' | Inv(h') && Represents(g, h') ensures false {
        CutNeeds(r, x, x + RoundUp8(need), r.heads[x].capacity - RoundUp8(need), Before(h.free, k), h');
      }
    }
  }

  lemma TakeRepresents(r: Raw, h: Heap, k: nat, need: int)
    requires Inv(h) && Represents(r, h) && k < |h.free| && HEAD <= need && Fits(Size(h, h.free[k]), need)
    ensures h.free[k] in r.heads && Inv(Take(h, k, need))
    ensures Represents(TakeRaw(r, h.free[k], Before(h.free, k), need), Take(h, k, need))
  {
    var x := h.free[k];
    ChainHas(r.heads, r.first, h.free, k);
    TakeKeepsInv(h, k, need);
    if Size(h, x) == need {
      WholeRepresents(r, h, k);
    } else {
      var y := x + RoundUp8(need);
      InsideNoBlock(h.bottom, h.top, h.blocks, x, y);
      CutRepresents(r, h, k, y, r.heads[x].capacity - RoundUp8(need));
    }
  }

  lemma ListHasHeaders(r: Raw, h: Heap)
    requires Inv(h) && Represents(r, h)
    ensures forall z :: z in h.free ==> z in r.heads
  {
  }

  /** For every request: the memory afterwards is well formed exactly when the block picked can be cut or extended. */
  lemma AllocKeepsFormIff(r: Raw, h: Heap, need: int)
    requires Inv(h) && Represents(r, h) && h.free != [] && HEAD <= need
    ensures forall z :: z in h.free ==> z in r.heads
    ensures WellFormed(AllocRaw(r, h, need)) <==> AllocOk(h, need)
    ensures AllocOk(h, need) ==> Inv(Alloc(h, need)) && Represents(AllocRaw(r, h, need), Alloc(h, need))
  {
    ListHasHeaders(r, h);
    if Full(h, need) {
      GrowKeepsFormIff(r, h, need);
      if CanGrow(h, need) {
        GrowRepresents(r, h, need);
        GrowKeepsInv(h, need);
      }
    } else {
      TakeKeepsFormIff(r, h, FirstFit(h, need, 0), need);
    }
  }

  /** try_alloc_free_block on memory. */
  ghost function ReadyRaw(r: Raw): Raw {
    if r.first != 0 then r
    else Raw(r.bottom, r.top + PGSIZE, Zeroed(r.heads, r.top, r.top + PGSIZE)[r.top := Head(0, PGSIZE)], r.top)
  }

  lemma ReadyRepresents(r: Raw, h: Heap)
    requires Inv(h) && Represents(r, h)
    ensures Inv(Ready(h)) && Ready(h).free != [] && Represents(ReadyRaw(r), Ready(h))
  {
    ReadyKeepsInv(h);
    NullFirst(r.heads, r.first, h.free);
    if r.first == 0 {
      NothingAbove(h, r.heads, r.top + PGSIZE);
      assert Link(ReadyRaw(r).heads, Ready(h).free, 0);
    }
  }

  /** vm_malloc on memory that represents `h`. */
  ghost function MallocRaw(r: Raw, h: Heap, n: nat): Raw
    requires Inv(h) && Represents(r, h)
  {
    ReadyRepresents(r, h);
    ListHasHeaders(ReadyRaw(r), Ready(h));
    AllocRaw(ReadyRaw(r), Ready(h), n + HEAD)
  }

  /** vm_malloc, for every request and every sound heap. */
  lemma MallocKeepsFormIff(r: Raw, h: Heap, n: nat)
    requires Inv(h) && Represents(r, h)
    ensures WellFormed(MallocRaw(r, h, n)) <==> MallocOk(h, n)
    ensures MallocOk(h, n) ==> Inv(Malloc(h, n)) && Represents(MallocRaw(r, h, n), Malloc(h, n))
  {
    ReadyRepresents(r, h);
    AllocKeepsFormIff(ReadyRaw(r), Ready(h), n + HEAD);
  }

  /** The first request for two pages leaves memory that no tiling fits. */
  lemma TwoPagesBreakTheHeap(bottom: int)
    requires 0 < bottom && bottom % ALIGN == 0
    ensures var h, r := Boot(bottom).heap, Raw(bottom, bottom, map[], 0);
            Inv(h) && Represents(r, h) && !WellFormed(MallocRaw(r, h, 2 * PGSIZE))
  {
    TwoPagesFail(bottom);
    MallocKeepsFormIff(Raw(bottom, bottom, map[], 0), Boot(bottom).heap, 2 * PGSIZE);
  }

  lemma ZeroedTwice(heads: map<int, Head>, from: int, mid: int, to: int)
    requires from <= mid <= to
    ensures Zeroed(Zeroed(heads, from, mid), mid, to) == Zeroed(heads, from, to)
  {
  }

  lemma MaxIs(free: seq<int>, m: nat)
    requires NoDuplicates(free) && m < |free| && forall j :: 0 <= j < |free| ==> free[j] <= free[m]
    ensures MaxFree(free) == m
  {
    var k := MaxFree(free);
    assert free[k] == free[m];
  }

  lemma FirstFitIs(h: Heap, need: int, k: nat, j: nat)
    requires k <= j <= |h.free|
    requires forall i :: k <= i < j ==> Size(h, h.free[i]) < need
    requires j < |h.free| ==> Size(h, h.free[j]) >= need
    ensures FirstFit(h, need, k) == j
  {
    var i := FirstFit(h, need, k);
    assert i < |h.free| ==> Size(h, h.free[i]) >= need;
  }

  class UserHeap {
    const bottom: int
    var top: int
    var heads: map<int, Head>
    var first: int
    ghost var heap: Heap

    /** The heap part of alloc_process. */
    constructor (start: int)
      requires 0 < start && start % ALIGN == 0
      ensures Valid() && heap == Boot(start).heap
    {
      bottom, top, heads, first := start, start, map[], 0;
      heap := Heap(start, start, map[], []);
    }

    ghost function Memory(): Raw
      reads this
    {
      Raw(bottom, top, heads, first)
    }

    ghost predicate Valid()
      reads this
    {
      Inv(heap) && Represents(Memory(), heap)
    }

    /** try_alloc_free_block, when a page can be had. */
    method TryAllocFreeBlock()
      requires Valid()
      modifies this
      ensures Valid() && heap == Ready(old(heap)) && heap.free != [] && Memory() == ReadyRaw(old(Memory()))
    {
      ReadyRepresents(Memory(), heap);
      NullFirst(heads, first, heap.free);
      if first == 0 {
        var va := top;
        top := top + PGSIZE;
        heads := Zeroed(heads, va, top)[va := Head(0, PGSIZE)];
        first := va;
        heap := Ready(heap);
      }
    }

    /** vm_free, of a live block. */
    method VmFree(va: int)
      requires Valid() && Live(heap, va - HEAD)
      modifies this
      ensures Valid() && heap == Free(old(heap), va)
    {
      FreeKeepsInv(heap, va);
      FreeRepresents(Memory(), heap, va);
      var x := va - HEAD;
      heads := heads[x := heads[x].(next := first)];
      first := x;
      heap := Free(heap, va);
    }

    /** alloc_from_free_block once a block with room is found: an exact fit is linked around, a larger one is cut. */
    method TakeBlock(cur: int, pre: int, n: int, ghost k: nat)
      requires Valid() && k < |heap.free| && cur == heap.free[k] && pre == Before(heap.free, k)
      requires HEAD <= n <= Size(heap, cur)
      modifies this
      ensures Memory() == TakeRaw(old(Memory()), cur, pre, n)
      ensures Fits(Size(old(heap), cur), n) ==> Valid() && heap == Take(old(heap), k, n)
    {
      TakeKeepsFormIff(Memory(), heap, k, n);
      ChainHas(heads, first, heap.free, k);
      if heads[cur].capacity == n {
        LinkAround(cur, pre);
      } else {
        CutBlock(cur, pre, n);
      }
      heap := Take(heap, k, n);
    }

    method LinkAround(cur: int, pre: int)
      requires cur in heads && (pre != 0 ==> pre in heads)
      modifies this`heads, this`first
      ensures Memory() == UnlinkRaw(old(Memory()), cur, pre)
    {
      if pre == 0 {
        first := heads[cur].next;
      } else {
        heads := heads[pre := heads[pre].(next := heads[cur].next)];
      }
    }

    /** A header goes where the rest of the block starts. */
    method CutBlock(cur: int, pre: int, n: int)
      requires cur in heads && (pre != 0 ==> pre in heads)
      modifies this`heads, this`first
      ensures Memory() == CutRaw(old(Memory()), cur, cur + RoundUp8(n), old(heads)[cur].capacity - RoundUp8(n), pre)
    {
      var need := n;
      if n % 8 != 0 { need := n + 8 - n % 8; }
      var head := heads[cur];
      var va := cur + need;
      heads := heads[cur := head.(capacity := need)][va := Head(head.next, head.capacity - need)];
      if pre == 0 {
        first := va;
      } else {
        heads := heads[pre := heads[pre].(next := va)];
      }
    }

    /** The loop of alloc_from_free_block: the first block with room, and the one before it in the list. */
    method FindFirstFit(need: int) returns (cur: int, pre: int, ghost k: nat)
      requires Valid()
      ensures k == FirstFit(heap, need, 0) && pre == Before(heap.free, k) && cur == At(heap.free, k)
      ensures cur == 0 <==> Full(heap, need)
    {
      cur, pre, k := first, 0, 0;
      while cur != 0
        invariant k <= |heap.free| && cur == At(heap.free, k) && pre == Before(heap.free, k)
        invariant forall i :: 0 <= i < k ==> Size(heap, heap.free[i]) < need
        decreases |heap.free| - k
      {
        Found(heads, first, heap, k, cur);
        if heads[cur].capacity >= need {
          break;
        }
        pre := cur;
        cur := heads[cur].next;
        k := k + 1;
      }
      NullIsEnd(heads, first, heap.free, k);
      FirstFitIs(heap, need, 0, k);
    }

    /** alloc_from_free_block: first fit. */
    method AllocFromFreeBlock(n: nat) returns (va: int)
      requires Valid() && heap.free != []
      modifies this
      ensures (forall z :: z in old(heap).free ==> z in old(heads))
        && Memory() == AllocRaw(old(Memory()), old(heap), n + HEAD)
      ensures va == Pick(old(heap), n + HEAD) + HEAD
      ensures AllocOk(old(heap), n + HEAD) ==> Valid() && heap == Alloc(old(heap), n + HEAD)
    {
      var need := n + HEAD;
      ListHasHeaders(Memory(), heap);
      ghost var k;
      var cur, pre;
      cur, pre, k := FindFirstFit(need);
      if cur == 0 {
        va := AllocFromNewBlock(n);
      } else {
        va := cur + HEAD;
        TakeBlock(cur, pre, need, k);
      }
    }

    /** alloc_from_new_block */
    method AllocFromNewBlock(n: nat) returns (va: int)
      requires Valid() && heap.free != [] && Full(heap, n + HEAD)
      modifies this
      ensures Highest(old(heap)) in old(heads) && va == Highest(old(heap)) + HEAD
      ensures Memory()
        == GrowRaw(old(Memory()), Highest(old(heap)), Before(old(heap).free, MaxFree(old(heap).free)), n + HEAD)
      ensures CanGrow(old(heap), n + HEAD) ==> Valid() && heap == Grow(old(heap), n + HEAD)
    {
      var need := n + HEAD;
      var maxVa, maxPre := FindHighest();
      GrowReady(Memory(), heap, need);
      GrowMemory(maxVa, maxPre, need);
      heap := Grow(heap, need);
      va := maxVa + HEAD;
    }

    /** The first loop of alloc_from_new_block: the highest free block, and the one before it in the list. */
    method FindHighest() returns (maxVa: int, maxPre: int)
      requires Valid() && heap.free != []
      ensures maxVa == Highest(heap) && maxPre == Before(heap.free, MaxFree(heap.free))
    {
      ghost var list := heap.free;
      ghost var k: nat, m: nat := 0, 0;
      var cur, pre := first, 0;
      maxVa, maxPre := 0, 0;
      while cur != 0
        invariant k <= |list| && cur == At(list, k) && pre == Before(list, k)
        invariant if k == 0 then maxVa == 0 else m < k && maxVa == list[m] && maxPre == Before(list, m)
        invariant forall j :: 0 <= j < k ==> list[j] <= maxVa
        decreases |list| - k
      {
        ChainHas(heads, first, list, k);
        if cur > maxVa {
          maxPre := pre;
          maxVa := cur;
          m := k;
        }
        pre := cur;
        cur := heads[cur].next;
        k := k + 1;
      }
      NullIsEnd(heads, first, list, k);
      MaxIs(list, m);
    }

    /** The rest of alloc_from_new_block, on memory alone: whatever the state, it does what GrowRaw says. */
    method GrowMemory(maxVa: int, maxPre: int, n: int)
      requires maxVa in heads && heads[maxVa].capacity < n && (maxPre != 0 ==> maxPre in heads && maxPre < top)
        && maxPre != maxVa
      modifies this`top, this`heads, this`first
      ensures Memory() == GrowRaw(old(Memory()), maxVa, maxPre, n)
    {
      var head := heads[maxVa];
      heads := heads[maxVa := Head(0, n)];
      var need := n - head.capacity;
      ghost var s, heads0, top0 := need, heads, top;
      var lastVa, more := 0, true;
      while more
        invariant top0 <= top && heads == Zeroed(heads0, top0, top) && first == old(first)
        invariant more ==> need > 0 && top + Pages(need) * PGSIZE == top0 + Pages(s) * PGSIZE && Rest(need) == Rest(s)
        invariant !more ==> lastVa == top - PGSIZE && top == top0 + Pages(s) * PGSIZE && need == Rest(s)
        decreases more, need
      {
        lastVa := top;
        top := top + PGSIZE;
        ZeroedTwice(heads0, top0, lastVa, top);
        heads := Zeroed(heads, lastVa, top);
        if need > PGSIZE {
          need := need - PGSIZE;
        }
        more := need > PGSIZE;
      }
      if need % 8 != 0 { need := need + 8 - need % 8; }
      var y := lastVa + need;
      heads := heads[y := Head(head.next, PGSIZE - need)];
      if maxPre != 0 {
        heads := heads[maxPre := heads[maxPre].(next := y)];
      } else {
        first := y;
      }
    }

    /** vm_malloc: the heap is as Malloc says, and in form, exactly when the block picked can be cut or extended. */
    method VmMalloc(n: nat) returns (va: int)
      requires Valid()
      modifies this
      ensures Memory() == MallocRaw(old(Memory()), old(heap), n) && va == Chosen(old(heap), n) + HEAD
      ensures MallocOk(old(heap), n) ==> Valid() && heap == Malloc(old(heap), n)
      ensures WellFormed(Memory()) <==> MallocOk(old(heap), n)
    {
      MallocKeepsFormIff(Memory(), heap, n);
      TryAllocFreeBlock();
      va := AllocFromFreeBlock(n);
    }
  }

  lemma {:induction false} GrowReady(r: Raw, h: Heap, need: int)
    requires Inv(h) && Represents(r, h) && h.free != [] && Full(h, need)
    ensures CanGrow(h, need) ==> Inv(Grow(h, need))
    ensures var x, pre := Highest(h), Before(h.free, MaxFree(h.free));
      && x in r.heads && r.heads[x].capacity < need && pre != x && (pre != 0 ==> pre in r.heads && pre < r.top)
      && (CanGrow(h, need) ==> Represents(GrowRaw(r, x, pre, need), Grow(h, need)))
  {
    if CanGrow(h, need) {
      GrowKeepsInv(h, need);
      GrowRepresents(r, h, need);
    }
    var m := MaxFree(h.free);
    ChainHas(r.heads, r.first, h.free, m);
    if m > 0 {
      assert BlockOk(h.bottom, h.top, h.blocks, h.free[m - 1]);
    }
  }

  lemma NullFirst(heads: map<int, Head>, a: int, list: seq<int>)
    requires Chain(heads, a, list)
    ensures a == 0 <==> list == []
  {
    assert list != [] ==> Link(heads, list, 0);
  }

  lemma NullIsEnd(heads: map<int, Head>, a: int, list: seq<int>, k: nat)
    requires Chain(heads, a, list) && k <= |list|
    ensures At(list, k) == 0 <==> k == |list|
  {
    assert k < |list| ==> Link(heads, list, k);
  }

  lemma Found(heads: map<int, Head>, a: int, h: Heap, k: nat, cur: int)
    requires Inv(h) && Headers(heads, h.blocks) && Chain(heads, a, h.free) && k <= |h.free| && cur == At(h.free, k)
    requires cur != 0
    ensures k < |h.free| && cur in heads && heads[cur].capacity == Size(h, cur) && heads[cur].next == At(h.free, k + 1)
  {
    ChainHas(heads, a, h.free, k);
  }
}
