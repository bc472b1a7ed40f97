/**
 The user heap of kernel/process.c as blocks that tile it. A block is a 16-byte header and
 a payload; `blocks` gives the capacity of the block at each address, header included, and
 `free` is the free list from its head.
 */
module HeapState {
  const PGSIZE := 4096
  /** sizeof(block_head) */
  const HEAD := 16
  /** Blocks start and end on multiples of this. */
  const ALIGN := 8

  datatype Heap = Heap(bottom: int, top: int, blocks: map<int, int>, free: seq<int>)

  ghost predicate NoDuplicates(l: seq<int>) {
    forall i, j :: 0 <= i < j < |l| ==> l[i] != l[j]
  }

  /** Each block lies in the heap and ends where another one starts, or at the top. */
  ghost predicate Chained(bottom: int, top: int, blocks: map<int, int>) {
    && (bottom == top || bottom in blocks)
    && forall x {:trigger BlockOk(bottom, top, blocks, x)} :: x in blocks ==> BlockOk(bottom, top, blocks, x)
  }

  ghost predicate BlockOk(bottom: int, top: int, blocks: map<int, int>, x: int) {
    && x in blocks && bottom <= x && HEAD <= blocks[x] && x + blocks[x] <= top
    && (x + blocks[x] == top || x + blocks[x] in blocks)
  }

  ghost predicate Apart(blocks: map<int, int>) {
    forall x, y :: x in blocks && y in blocks && x < y ==> x + blocks[x] <= y
  }

  ghost predicate Aligned(top: int, blocks: map<int, int>) {
    top % ALIGN == 0 && forall x :: x in blocks ==> x % ALIGN == 0 && blocks[x] % ALIGN == 0
  }

  /** The blocks tile the heap on 8-byte bounds, and none is too small for its header. */
  ghost predicate Tiled(bottom: int, top: int, blocks: map<int, int>) {
    0 < bottom <= top && Chained(bottom, top, blocks) && Apart(blocks) && Aligned(top, blocks)
  }

  /** The free list is a set of blocks. */
  ghost predicate ListOk(h: Heap) {
    NoDuplicates(h.free) && forall z :: z in h.free ==> z in h.blocks
  }

  ghost predicate Inv(h: Heap) {
    Tiled(h.bottom, h.top, h.blocks) && ListOk(h)
  }

  /** Every byte of the heap is in some block. */
  lemma {:induction false} Covered(bottom: int, top: int, blocks: map<int, int>, x: int, p: int) returns (y: int)
    requires Tiled(bottom, top, blocks) && x in blocks && x <= p < top
    ensures y in blocks && y <= p < y + blocks[y]
    decreases p - x
  {
    assert BlockOk(bottom, top, blocks, x);
    if p < x + blocks[x] {
      y := x;
    } else {
      y := Covered(bottom, top, blocks, x + blocks[x], p);
    }
  }

  /** Handed out and not yet freed. */
  ghost predicate Live(h: Heap, x: int) {
    x in h.blocks && x !in h.free
  }

  /** try_alloc_free_block: with no free block, a new page is one. */
  ghost function Ready(h: Heap): Heap {
    if h.free == [] then Heap(h.bottom, h.top + PGSIZE, h.blocks[h.top := PGSIZE], [h.top]) else h
  }

  ghost function Size(h: Heap, x: int): int {
    if x in h.blocks then h.blocks[x] else 0
  }

  /** Position in the free list of the first block, from `k` on, with room. */
  ghost function FirstFit(h: Heap, need: int, k: nat): (j: nat)
    requires k <= |h.free|
    ensures k <= j <= |h.free|
    ensures j < |h.free| ==> Size(h, h.free[j]) >= need
    ensures forall i :: k <= i < j ==> Size(h, h.free[i]) < need
    decreases |h.free| - k
  {
    if k == |h.free| || Size(h, h.free[k]) >= need then k else FirstFit(h, need, k + 1)
  }

  ghost function RemoveAt(l: seq<int>, k: nat): seq<int> {
    if k < |l| then l[..k] + l[k + 1..] else l
  }

  /** ALIGN: up to a multiple of 8. */
  function RoundUp8(n: int): (r: int)
    ensures r % ALIGN == 0 && n <= r < n + ALIGN && (n % ALIGN == 0 <==> r == n)
  {
    if n % 8 == 0 then n else n + 8 - n % 8
  }

  /** A request of `need` bytes fills a block of this capacity, or leaves room for a header. */
  ghost predicate Fits(capacity: int, need: int) {
    capacity == need || RoundUp8(need) + HEAD <= capacity
  }

  /** The block at position `k` is cut at `y`: its front part is taken, and the rest stays in the list. */
  ghost function Cut(h: Heap, k: nat, y: int): Heap
    requires k < |h.free|
  {
    var x := h.free[k];
    h.(blocks := h.blocks[x := y - x][y := x + Size(h, x) - y], free := h.free[k := y])
  }

  /** alloc_from_free_block, on the block at position `k`: all of it, or its front part. */
  ghost function Take(h: Heap, k: nat, need: int): Heap {
    if k >= |h.free| then h
    else if Size(h, h.free[k]) == need then h.(free := RemoveAt(h.free, k))
    else Cut(h, k, h.free[k] + RoundUp8(need))
  }

  /** Position of the highest free block. */
  ghost function MaxFree(free: seq<int>): (m: nat)
    ensures free != [] ==> m < |free| && forall i :: 0 <= i < |free| ==> free[i] <= free[m]
  {
    if |free| <= 1 then 0
    else
      var m := MaxFree(free[..|free| - 1]);
      if free[m] < free[|free| - 1] then |free| - 1 else m
  }

  ghost function Highest(h: Heap): int {
    if h.free == [] then 0 else h.free[MaxFree(h.free)]
  }

  /** The highest free block ends at heap_top, and a new page holds what it lacks and a header behind that. */
  ghost predicate CanGrow(h: Heap, need: int) {
    var x := Highest(h);
    h.free != [] && x + Size(h, x) == h.top && need % ALIGN == 0 && x + need + HEAD <= h.top + PGSIZE
  }

  /** alloc_from_new_block, when it can grow: the highest free block is extended into a new page. */
  ghost function Grow(h: Heap, need: int): Heap {
    if h.free == [] then h
    else
      var x := Highest(h);
      var y, top := x + need, h.top + PGSIZE;
      Heap(h.bottom, top, h.blocks[x := need][y := top - y], h.free[MaxFree(h.free) := y])
  }

  /** No free block has room. */
  ghost predicate Full(h: Heap, need: int) {
    FirstFit(h, need, 0) == |h.free|
  }

  /** The free block alloc_from_free_block picks, or the one alloc_from_new_block extends. */
  ghost function Pick(h: Heap, need: int): int {
    if Full(h, need) then Highest(h) else h.free[FirstFit(h, need, 0)]
  }

  ghost function Alloc(h: Heap, need: int): Heap {
    if Full(h, need) then Grow(h, need) else Take(h, FirstFit(h, need, 0), need)
  }

  /** The block vm_malloc picks can be cut, or extended where none has room. */
  ghost predicate MallocOk(h: Heap, n: int) {
    AllocOk(Ready(h), n + HEAD)
  }

  ghost predicate AllocOk(h: Heap, need: int) {
    if Full(h, need) then CanGrow(h, need) else Fits(Size(h, Pick(h, need)), need)
  }

  /** The block vm_malloc picks; its result is that plus the header. */
  ghost function Chosen(h: Heap, n: int): int {
    Pick(Ready(h), n + HEAD)
  }

  /** vm_malloc */
  ghost function Malloc(h: Heap, n: int): Heap {
    Alloc(Ready(h), n + HEAD)
  }

  /** vm_free */
  ghost function Free(h: Heap, va: int): Heap {
    h.(free := [va - HEAD] + h.free)
  }

  /** An allocation hands out block `x` and leaves the live blocks alone. */
  ghost predicate HandsOut(h: Heap, h': Heap, x: int, need: int) {
    && !Live(h, x) && Live(h', x) && Size(h', x) >= need
    && (forall y :: Live(h', y) && y != x ==> Live(h, y))
    && (forall y :: Live(h, y) ==> Live(h', y) && Size(h', y) == Size(h, y))
  }

  lemma Removed(l: seq<int>, k: nat)
    requires NoDuplicates(l) && k < |l|
    ensures NoDuplicates(RemoveAt(l, k))
    ensures forall z :: z in RemoveAt(l, k) <==> z in l && z != l[k]
  {
    var r := RemoveAt(l, k);
    assert forall j :: 0 <= j < |r| ==> r[j] == l[if j < k then j else j + 1];
    forall z | z in l && z != l[k]
      ensures z in r
    {
      var j :| 0 <= j < |l| && l[j] == z;
      assert r[if j < k then j else j - 1] == z;
    }
  }

  lemma Replaced(l: seq<int>, k: nat, y: int)
    requires NoDuplicates(l) && k < |l| && y !in l
    ensures NoDuplicates(l[k := y])
    ensures forall z :: z in l[k := y] <==> (z in l && z != l[k]) || z == y
  {
    var r := l[k := y];
    assert forall j :: 0 <= j < |l| ==> l[j] in l;
    assert r[k] == y;
    forall z | z in l && z != l[k]
      ensures z in r
    {
      var j :| 0 <= j < |l| && l[j] == z;
      assert r[j] == z;
    }
  }

  lemma BelowTop(bottom: int, top: int, blocks: map<int, int>, y: int)
    requires Chained(bottom, top, blocks) && top <= y
    ensures y !in blocks
  {
    assert y in blocks ==> BlockOk(bottom, top, blocks, y);
  }

  /** One more block, from the old top to the new. */
  lemma ExtendTiles(bottom: int, top: int, blocks: map<int, int>, size: int)
    requires Tiled(bottom, top, blocks) && HEAD <= size && size % ALIGN == 0
    ensures Tiled(bottom, top + size, blocks[top := size])
  {
    var b := blocks[top := size];
    BelowTop(bottom, top, blocks, top);
    forall x | x in b
      ensures BlockOk(bottom, top + size, b, x)
    {
      assert x != top ==> BlockOk(bottom, top, blocks, x);
    }
    assert Apart(b) by {
      assert forall x :: x in blocks ==> BlockOk(bottom, top, blocks, x);
    }
    Sum(top, size);
  }

  /** A new page on top is a block, and no other block changes. */
  lemma ReadyKeepsInv(h: Heap)
    requires Inv(h)
    ensures Inv(Ready(h)) && Ready(h).free != []
    ensures SameLive(h, Ready(h))
  {
    BelowTop(h.bottom, h.top, h.blocks, h.top);
    ExtendTiles(h.bottom, h.top, h.blocks, PGSIZE);
  }

  /** The same blocks are live, at the same size. */
  ghost predicate SameLive(h: Heap, r: Heap) {
    && (forall y :: Live(r, y) <==> Live(h, y))
    && (forall y :: Live(h, y) ==> Size(r, y) == Size(h, y))
  }

  lemma InsideNoBlock(bottom: int, top: int, blocks: map<int, int>, x: int, y: int)
    requires Tiled(bottom, top, blocks) && x in blocks && x < y < x + blocks[x]
    ensures y !in blocks
  {
  }

  /** Cutting a block in two keeps the tiling. */
  lemma CutTiles(bottom: int, top: int, blocks: map<int, int>, x: int, y: int)
    requires Tiled(bottom, top, blocks) && x in blocks && x + HEAD <= y && y + HEAD <= x + blocks[x] && y % ALIGN == 0
    ensures Tiled(bottom, top, blocks[x := y - x][y := x + blocks[x] - y])
  {
    var b := blocks[x := y - x][y := x + blocks[x] - y];
    InsideNoBlock(bottom, top, blocks, x, y);
    assert BlockOk(bottom, top, blocks, x);
    forall z | z in b
      ensures BlockOk(bottom, top, b, z)
    {
      assert z != y ==> BlockOk(bottom, top, blocks, z);
    }
    CutApart(blocks, x, y);
    CutAligned(top, blocks, x, y);
  }

  lemma CutApart(blocks: map<int, int>, x: int, y: int)
    requires Apart(blocks) && x in blocks && x < y < x + blocks[x]
    ensures Apart(blocks[x := y - x][y := x + blocks[x] - y])
  {
  }

  lemma CutAligned(top: int, blocks: map<int, int>, x: int, y: int)
    requires Aligned(top, blocks) && x in blocks && y % ALIGN == 0
    ensures Aligned(top, blocks[x := y - x][y := x + blocks[x] - y])
  {
    Sum(x, blocks[x]);
    Difference(y, x);
    Difference(x + blocks[x], y);
  }

  lemma Difference(x: int, n: int)
    requires x % ALIGN == n % ALIGN == 0
    ensures (x - n) % ALIGN == 0
  {
  }

  lemma CutKeepsInv(h: Heap, k: nat, y: int)
    requires Inv(h) && k < |h.free| && h.free[k] + HEAD <= y && y + HEAD <= h.free[k] + Size(h, h.free[k])
    requires y % ALIGN == 0
    ensures Inv(Cut(h, k, y)) && HandsOut(h, Cut(h, k, y), h.free[k], y - h.free[k])
  {
    var x := h.free[k];
    assert x in h.free;
    InsideNoBlock(h.bottom, h.top, h.blocks, x, y);
    CutTiles(h.bottom, h.top, h.blocks, x, y);
    Replaced(h.free, k, y);
  }

  lemma WholeKeepsInv(h: Heap, k: nat)
    requires Inv(h) && k < |h.free|
    ensures var h' := h.(free := RemoveAt(h.free, k));
      Inv(h') && HandsOut(h, h', h.free[k], Size(h, h.free[k]))
  {
    assert h.free[k] in h.free;
    Removed(h.free, k);
  }

  lemma Sum(x: int, n: int)
    requires x % ALIGN == n % ALIGN == 0
    ensures (x + n) % ALIGN == 0
  {
  }

  lemma TakeKeepsInv(h: Heap, k: nat, need: int)
    requires Inv(h) && k < |h.free| && HEAD <= need && Fits(Size(h, h.free[k]), need)
    ensures Inv(Take(h, k, need)) && HandsOut(h, Take(h, k, need), h.free[k], need)
  {
    var x := h.free[k];
    assert x in h.free;
    if Size(h, x) == need {
      WholeKeepsInv(h, k);
    } else {
      Sum(x, RoundUp8(need));
      CutKeepsInv(h, k, x + RoundUp8(need));
    }
  }

  /** The last block gets a new end, which is the new top. */
  lemma MoveTop(bottom: int, top: int, blocks: map<int, int>, x: int, y: int)
    requires Tiled(bottom, top, blocks) && x in blocks && x + blocks[x] == top && top < y && y % ALIGN == 0
    ensures Tiled(bottom, y, blocks[x := y - x])
  {
    var b := blocks[x := y - x];
    assert BlockOk(bottom, top, blocks, x);
    forall z | z in b
      ensures BlockOk(bottom, y, b, z)
    {
      assert BlockOk(bottom, top, blocks, z);
      assert z < x ==> z + blocks[z] <= x;
    }
    assert Apart(b) by {
      assert forall z :: z in blocks ==> BlockOk(bottom, top, blocks, z);
    }
    Difference(y, x);
  }

  /** Extending the last block into a new page keeps the tiling. */
  lemma GrowTiles(bottom: int, top: int, blocks: map<int, int>, x: int, y: int)
    requires Tiled(bottom, top, blocks) && x in blocks && x + blocks[x] == top && y % ALIGN == 0
    requires top < y && y + HEAD <= top + PGSIZE
    ensures Tiled(bottom, top + PGSIZE, blocks[x := y - x][y := top + PGSIZE - y])
  {
    MoveTop(bottom, top, blocks, x, y);
    Sum(top, PGSIZE);
    Difference(top + PGSIZE, y);
    ExtendTiles(bottom, y, blocks[x := y - x], top + PGSIZE - y);
  }

  lemma HighestAligned(h: Heap, x: int)
    requires Inv(h) && x in h.free
    ensures x in h.blocks && x % ALIGN == 0
  {
    assert BlockOk(h.bottom, h.top, h.blocks, x);
  }

  lemma GrowKeepsInv(h: Heap, need: int)
    requires Inv(h) && CanGrow(h, need) && Full(h, need)
    ensures Inv(Grow(h, need)) && HandsOut(h, Grow(h, need), Highest(h), need)
  {
    hide Chained;
    var x := Highest(h);
    assert x in h.free;
    HighestAligned(h, x);
    Sum(x, need);
    BelowTop(h.bottom, h.top, h.blocks, x + need);
    GrowTiles(h.bottom, h.top, h.blocks, x, x + need);
    Replaced(h.free, MaxFree(h.free), x + need);
  }

  lemma AllocKeepsInv(h: Heap, need: int)
    requires Inv(h) && h.free != [] && HEAD <= need && AllocOk(h, need)
    ensures Inv(Alloc(h, need)) && HandsOut(h, Alloc(h, need), Pick(h, need), need)
  {
    if Full(h, need) {
      GrowKeepsInv(h, need);
    } else {
      TakeKeepsInv(h, FirstFit(h, need, 0), need);
    }
  }

  /** vm_malloc keeps the form, and hands out a block that was not live, with room, touching no live block. */
  lemma MallocKeepsInv(h: Heap, n: nat)
    requires Inv(h) && MallocOk(h, n)
    ensures Inv(Malloc(h, n)) && HandsOut(h, Malloc(h, n), Chosen(h, n), n + HEAD)
  {
    ReadyKeepsInv(h);
    AllocKeepsInv(Ready(h), n + HEAD);
  }

  /** vm_free of a live block: it and no other stops being live, and no block changes. */
  lemma FreeKeepsInv(h: Heap, va: int)
    requires Inv(h) && Live(h, va - HEAD)
    ensures Inv(Free(h, va))
    ensures forall y :: Live(Free(h, va), y) <==> Live(h, y) && y != va - HEAD
  {
    assert forall j :: 0 <= j < |h.free| ==> h.free[j] in h.free;
  }

  /** The block freed last is the first one tried: asking for its size again undoes the free. */
  lemma MallocUndoesFree(h: Heap, va: int)
    requires Inv(h) && Live(h, va - HEAD)
    ensures var n, h1 := Size(h, va - HEAD) - HEAD, Free(h, va);
      n >= 0 && MallocOk(h1, n) && Chosen(h1, n) == va - HEAD && Malloc(h1, n) == h
  {
    var x := va - HEAD;
    var h1 := Free(h, va);
    assert BlockOk(h.bottom, h.top, h.blocks, x);
    assert Size(h1, h1.free[0]) == Size(h, x);
    assert FirstFit(h1, Size(h, x), 0) == 0;
    assert RemoveAt(h1.free, 0) == h.free;
  }

  datatype Op = MallocOp(n: nat) | FreeOp(va: int)

  /** The heap, and the request each held block was handed out for. */
  datatype World = World(heap: Heap, held: map<int, nat>)

  ghost predicate Enabled(w: World, op: Op) {
    match op
    case MallocOp(n) => MallocOk(w.heap, n)
    case FreeOp(va) => va - HEAD in w.held
  }

  ghost function Freed(w: World, va: int): World {
    World(Free(w.heap, va), w.held - {va - HEAD})
  }

  ghost function Apply(w: World, op: Op): World {
    match op
    case MallocOp(n) => World(Malloc(w.heap, n), w.held[Chosen(w.heap, n) := n])
    case FreeOp(va) => Freed(w, va)
  }

  /** The held blocks are the live ones, each with room for its request. */
  ghost predicate Sound(w: World) {
    && Inv(w.heap)
    && (forall x :: Live(w.heap, x) ==> x in w.held)
    && (forall x :: x in w.held ==> Live(w.heap, x) && w.held[x] + HEAD <= Size(w.heap, x))
  }

  lemma StepKeepsSound(w: World, op: Op)
    requires Sound(w) && Enabled(w, op)
    ensures Sound(Apply(w, op))
  {
    match op
    case MallocOp(n) => MallocKeepsInv(w.heap, n);
    case FreeOp(va) => FreeKeepsInv(w.heap, va);
  }

  ghost predicate AllEnabled(w: World, ops: seq<Op>)
    decreases |ops|
  {
    ops == [] || (Enabled(w, ops[0]) && AllEnabled(Apply(w, ops[0]), ops[1..]))
  }

  ghost function Run(w: World, ops: seq<Op>): World
    decreases |ops|
  {
    if ops == [] then w else Run(Apply(w, ops[0]), ops[1..])
  }

  lemma {:induction false} RunKeepsSound(w: World, ops: seq<Op>)
    requires Sound(w) && AllEnabled(w, ops)
    ensures Sound(Run(w, ops))
    decreases |ops|
  {
    if ops != [] {
      StepKeepsSound(w, ops[0]);
      RunKeepsSound(Apply(w, ops[0]), ops[1..]);
    }
  }

  ghost predicate InPayload(w: World, x: int, p: int) {
    x in w.held && x + HEAD <= p < x + HEAD + w.held[x]
  }

  /** The heap of a new process. */
  ghost function Boot(bottom: int): World {
    World(Heap(bottom, bottom, map[], []), map[])
  }

  /** In every run from an empty heap, no byte is in two held payloads, and all are inside the heap. */
  lemma HeldNeverOverlap(bottom: int, ops: seq<Op>, x: int, y: int, p: int)
    requires 0 < bottom && bottom % ALIGN == 0 && AllEnabled(Boot(bottom), ops)
    ensures var w := Run(Boot(bottom), ops);
      && Sound(w)
      && (InPayload(w, x, p) && InPayload(w, y, p) ==> x == y)
      && (InPayload(w, x, p) ==> w.heap.bottom <= p < w.heap.top)
  {
    RunKeepsSound(Boot(bottom), ops);
    var h := Run(Boot(bottom), ops).heap;
    assert x in h.blocks ==> BlockOk(h.bottom, h.top, h.blocks, x);
  }

  // ---- requests that are multiples of 16 ----

  /** All blocks on 16-byte bounds. */
  ghost predicate Sixteens(h: Heap) {
    h.top % HEAD == 0 && forall x :: x in h.blocks ==> x % HEAD == 0 && h.blocks[x] % HEAD == 0
  }

  lemma SumOf16(x: int, n: int)
    requires x % HEAD == n % HEAD == 0
    ensures (x + n) % HEAD == 0 && (x - n) % HEAD == 0
  {
  }

  /** Two multiples of 16, one smaller: there is room for a header between them. */
  lemma RoomOf16(a: int, b: int)
    requires a % HEAD == b % HEAD == 0 && a < b
    ensures a + HEAD <= b && RoundUp8(a) == a
  {
    assert a == HEAD * (a / HEAD) && b == HEAD * (b / HEAD);
    assert a == ALIGN * (2 * (a / HEAD));
  }

  lemma CutKeeps16(h: Heap, k: nat, y: int)
    requires Sixteens(h) && k < |h.free| && h.free[k] in h.blocks && y % HEAD == 0
    ensures Sixteens(Cut(h, k, y))
  {
    var x := h.free[k];
    SumOf16(x, h.blocks[x]);
    SumOf16(y, x);
    SumOf16(x + h.blocks[x], y);
  }

  lemma GrowKeeps16(h: Heap, need: int)
    requires Sixteens(h) && h.free != [] && Highest(h) in h.blocks && need % HEAD == 0
    ensures Sixteens(Grow(h, need))
  {
    var x := Highest(h);
    SumOf16(x, need);
    SumOf16(h.top, PGSIZE);
    SumOf16(h.top + PGSIZE, x + need);
  }

  /** Where the heap has to grow, its highest free block ends at heap_top and lacks less than a page. */
  ghost predicate GrowsByPage(h: Heap, need: int) {
    Full(h, need) ==> Highest(h) + Size(h, Highest(h)) == h.top && Highest(h) + need < h.top + PGSIZE
  }

  /** On 16-byte bounds a request that is a multiple of 16 always fits where it is cut; only growth can fail. */
  lemma AllocOf16(h: Heap, need: int)
    requires Inv(h) && Sixteens(h) && h.free != [] && need % HEAD == 0 && HEAD <= need
    ensures AllocOk(h, need) <==> GrowsByPage(h, need)
    ensures AllocOk(h, need) ==> Sixteens(Alloc(h, need))
  {
    if Full(h, need) {
      assert Highest(h) in h.free;
      GrowOf16(h, need);
    } else {
      var k := FirstFit(h, need, 0);
      assert h.free[k] in h.free;
      if need < Size(h, h.free[k]) {
        RoomOf16(need, Size(h, h.free[k]));
        SumOf16(h.free[k], need);
        CutKeeps16(h, k, h.free[k] + need);
      }
    }
  }

  lemma GrowOf16(h: Heap, need: int)
    requires Sixteens(h) && h.free != [] && Highest(h) in h.blocks && need % HEAD == 0
    ensures CanGrow(h, need) <==> Highest(h) + Size(h, Highest(h)) == h.top && Highest(h) + need < h.top + PGSIZE
    ensures Sixteens(Grow(h, need))
  {
    hide Sixteens;
    GrowKeeps16(h, need);
    EndsOf16(h, Highest(h) + need, need);
  }

  lemma EndsOf16(h: Heap, end: int, need: int)
    requires Sixteens(h) && end - need in h.blocks && need % HEAD == 0
    ensures end + HEAD <= h.top + PGSIZE <==> end < h.top + PGSIZE
    ensures need % ALIGN == 0
  {
    SumOf16(end - need, need);
    SumOf16(h.top, PGSIZE);
    Multiple(need / HEAD);
    if end < h.top + PGSIZE {
      RoomOf16(end, h.top + PGSIZE);
    }
  }

  lemma ReadyKeeps16(h: Heap)
    requires Sixteens(h)
    ensures Sixteens(Ready(h))
  {
    SumOf16(h.top, PGSIZE);
  }

  lemma MallocOf16(h: Heap, n: nat)
    requires Inv(h) && Sixteens(h) && n % HEAD == 0
    ensures MallocOk(h, n) <==> GrowsByPage(Ready(h), n + HEAD)
    ensures MallocOk(h, n) ==> Sixteens(Malloc(h, n))
  {
    SumOf16(n, HEAD);
    ReadyKeepsInv(h);
    ReadyKeeps16(h);
    AllocOf16(Ready(h), n + HEAD);
  }

  /**
   A request size is safe in every heap on 16-byte bounds that has room for it, if and only if it is a multiple of
   16.
   */
  lemma SafeSizesIff(n: nat)
    ensures (forall h :: Inv(h) && Sixteens(h) && !Full(Ready(h), n + HEAD) ==> MallocOk(h, n)) <==> n % HEAD == 0
  {
    if n % HEAD == 0 {
      forall h | Inv(h) && Sixteens(h) && !Full(Ready(h), n + HEAD) ensures MallocOk(h, n) {
        MallocOf16(h, n);
      }
    } else {
      var h := OneBlock(n + 2 * HEAD - n % HEAD);
      TooTight(n, h);
    }
  }

  /** A heap of one free block. */
  ghost function OneBlock(size: int): Heap {
    Heap(HEAD, HEAD + size, map[HEAD := size], [HEAD])
  }

  lemma TooTight(n: nat, h: Heap)
    requires n % HEAD != 0 && h == OneBlock(n + 2 * HEAD - n % HEAD)
    ensures Inv(h) && Sixteens(h) && !Full(Ready(h), n + HEAD) && !MallocOk(h, n)
  {
    hide Fits, RoundUp8;
    var size := n + 2 * HEAD - n % HEAD;
    Padded(n, size);
    assert BlockOk(h.bottom, h.top, h.blocks, HEAD);
    assert Size(h, h.free[0]) == size >= n + HEAD;
    assert FirstFit(h, n + HEAD, 0) == 0;
  }

  lemma Padded(n: nat, size: int)
    requires n % HEAD != 0 && size == n + 2 * HEAD - n % HEAD
    ensures size % HEAD == 0 && (HEAD + size) % HEAD == 0 && size % ALIGN == 0 && (HEAD + size) % ALIGN == 0
    ensures n + HEAD < size && !Fits(size, n + HEAD)
  {
    var k := n / HEAD;
    assert n == HEAD * k + n % HEAD;
    Multiple(k + 2);
    Multiple(k + 3);
  }

  lemma Multiple(k: int)
    ensures HEAD * k % HEAD == 0 && HEAD * k % ALIGN == 0
  {
    assert HEAD * k == ALIGN * (2 * k);
  }

  /** Every request of the run is a multiple of 16, and growth is by less than a page from a block at heap_top. */
  ghost predicate AllOf16(w: World, ops: seq<Op>)
    decreases |ops|
  {
    || ops == []
    || (&& (match ops[0]
            case MallocOp(n) => n % HEAD == 0 && GrowsByPage(Ready(w.heap), n + HEAD)
            case FreeOp(va) => va - HEAD in w.held)
        && AllOf16(Apply(w, ops[0]), ops[1..]))
  }

  /** Such runs are among those whose held blocks never overlap. */
  lemma {:induction false} RunsOf16(w: World, ops: seq<Op>)
    requires Sound(w) && Sixteens(w.heap) && AllOf16(w, ops)
    ensures AllEnabled(w, ops)
    decreases |ops|
  {
    if ops != [] {
      if ops[0].MallocOp? { MallocOf16(w.heap, ops[0].n); }
      StepKeepsSound(w, ops[0]);
      RunsOf16(Apply(w, ops[0]), ops[1..]);
    }
  }

  /** The first request for two pages fails: the block found lacks more than a page, and growth adds one. */
  lemma TwoPagesFail(bottom: int)
    ensures !MallocOk(Boot(bottom).heap, 2 * PGSIZE)
  {
    var h := Ready(Boot(bottom).heap);
    assert Size(h, h.free[0]) == PGSIZE;
  }
}
