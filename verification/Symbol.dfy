/**
 The symbol table of kernel/symbol.c: quicksort over two parallel arrays, and the bisection
 that names the function an address is in.
 */
module Symbol {
  datatype Symbol = Symbol(value: int, size: int)

  /** A symbol with its name: what the two arrays hold at one index. */
  datatype Entry = Entry(sym: Symbol, name: string)

  ghost function Zip(symbols: seq<Symbol>, names: seq<string>): (z: seq<Entry>)
    requires |symbols| == |names|
    ensures |z| == |symbols| && forall i :: 0 <= i < |z| ==> z[i] == Entry(symbols[i], names[i])
  {
    seq(|symbols|, i requires 0 <= i < |symbols| => Entry(symbols[i], names[i]))
  }

  ghost predicate Permuted(a: seq<Entry>, b: seq<Entry>) {
    multiset(a) == multiset(b)
  }

  ghost predicate SortedBetween(z: seq<Entry>, l: int, r: int) {
    forall i, j :: 0 <= l <= i < j <= r < |z| ==> z[i].sym.value <= z[j].sym.value
  }

  /** Outside `l..r` nothing changes; inside, entries only change places. */
  ghost predicate Within(z: seq<Entry>, z': seq<Entry>, l: int, r: int) {
    && |z'| == |z| && 0 <= l <= r + 1 <= |z|
    && z'[..l] == z[..l] && z'[r + 1..] == z[r + 1..] && Permuted(z'[l..r + 1], z[l..r + 1])
  }

  lemma Swapped(s: seq<Entry>, i: nat, j: nat)
    requires i < |s| && j < |s|
    ensures Permuted(s[i := s[j]][j := s[i]], s)
  {
    if i == j {
      assert s[i := s[j]][j := s[i]] == s;
    } else {
      Updated(s, i, s[j]);
      Updated(s[i := s[j]], j, s[i]);
    }
  }

  lemma Updated(s: seq<Entry>, i: nat, e: Entry)
    requires i < |s|
    ensures multiset(s[i := e]) == multiset(s)[s[i] := multiset(s)[s[i]] - 1] + multiset{e}
  {
    assert s == s[..i] + [s[i]] + s[i + 1..];
    assert s[i := e] == s[..i] + [e] + s[i + 1..];
  }

  /** The whole is permuted when a part is. */
  lemma WithinIsPermuted(z: seq<Entry>, z': seq<Entry>, l: int, r: int)
    requires Within(z, z', l, r)
    ensures Permuted(z', z)
  {
    assert z == z[..l] + z[l..r + 1] + z[r + 1..];
    assert z' == z'[..l] + z'[l..r + 1] + z'[r + 1..];
  }

  /** The part is permuted when the whole is and the rest stays. */
  lemma PermutedIsWithin(z: seq<Entry>, z': seq<Entry>, l: int, r: int)
    requires Permuted(z', z) && |z'| == |z| && 0 <= l <= r + 1 <= |z| && z'[..l] == z[..l] && z'[r + 1..] == z[r + 1..]
    ensures Within(z, z', l, r)
  {
    assert z == z[..l] + z[l..r + 1] + z[r + 1..];
    assert z' == z'[..l] + z'[l..r + 1] + z'[r + 1..];
    var m, m', a, b := multiset(z[l..r + 1]), multiset(z'[l..r + 1]), multiset(z[..l]), multiset(z[r + 1..]);
    assert a + m + b == a + m' + b;
    forall e
      ensures m[e] == m'[e]
    {
      assert (a + m + b)[e] == a[e] + m[e] + b[e] && (a + m' + b)[e] == a[e] + m'[e] + b[e];
    }
    assert m == m';
  }

  lemma WithinWider(z: seq<Entry>, z': seq<Entry>, l: int, r: int, l': int, r': int)
    requires Within(z, z', l, r) && 0 <= l' <= l && r <= r' < |z|
    ensures Within(z, z', l', r')
  {
    WithinIsPermuted(z, z', l, r);
    assert z'[..l'] == z'[..l][..l'] && z[..l'] == z[..l][..l'];
    assert z'[r' + 1..] == z'[r + 1..][r' - r..] && z[r' + 1..] == z[r + 1..][r' - r..];
    PermutedIsWithin(z, z', l', r');
  }

  lemma WithinTrans(a: seq<Entry>, b: seq<Entry>, c: seq<Entry>, l: int, r: int)
    requires Within(a, b, l, r) && Within(b, c, l, r)
    ensures Within(a, c, l, r)
  {
  }

  /** An entry inside came from inside. */
  lemma CameFrom(z: seq<Entry>, z': seq<Entry>, l: int, r: int, i: int) returns (j: int)
    requires Within(z, z', l, r) && l <= i <= r
    ensures l <= j <= r && z'[i] == z[j]
  {
    assert z'[i] == z'[l..r + 1][i - l];
    assert z'[i] in multiset(z'[l..r + 1]);
    assert z'[i] in multiset(z[l..r + 1]);
    assert z'[i] in z[l..r + 1];
    var k :| 0 <= k < |z[l..r + 1]| && z[l..r + 1][k] == z'[i];
    j := l + k;
  }

  /** The pivot's place while it is out of the arrays: putting it back at `hole` gives a permutation. */
  ghost predicate Holed(z0: seq<Entry>, z: seq<Entry>, l: int, r: int, hole: int, x: Entry) {
    0 <= l <= hole <= r < |z| == |z0| && Within(z0, z[hole := x], l, r)
  }

  /** Moving an entry into the hole moves the hole. */
  lemma HoleMoves(z0: seq<Entry>, z: seq<Entry>, l: int, r: int, hole: int, x: Entry, k: int)
    requires Holed(z0, z, l, r, hole, x) && l <= k <= r
    ensures Holed(z0, z[hole := z[k]], l, r, k, x)
  {
    var s := z[hole := x];
    var s' := z[hole := z[k]][k := x];
    assert s' == s[hole := s[k]][k := s[hole]];
    Swapped(s, hole, k);
    WithinIsPermuted(z0, s, l, r);
    assert s'[..l] == s[..l] && s'[r + 1..] == s[r + 1..];
    PermutedIsWithin(z0, s', l, r);
  }

  ghost predicate Below(z: seq<Entry>, from: int, to: int, v: int) {
    forall k :: 0 <= from <= k < to <= |z| ==> z[k].sym.value < v
  }

  ghost predicate NotBelow(z: seq<Entry>, from: int, to: int, v: int) {
    forall k :: 0 <= from <= k < to <= |z| ==> z[k].sym.value >= v
  }

  /** Bounds on a range survive a rearrangement of it. */
  lemma BoundsSurvive(z: seq<Entry>, z': seq<Entry>, l: int, r: int, v: int)
    requires Within(z, z', l, r)
    ensures Below(z, l, r + 1, v) ==> Below(z', l, r + 1, v)
    ensures NotBelow(z, l, r + 1, v) ==> NotBelow(z', l, r + 1, v)
  {
    forall i | l <= i <= r
      ensures Below(z, l, r + 1, v) ==> z'[i].sym.value < v
      ensures NotBelow(z, l, r + 1, v) ==> z'[i].sym.value >= v
    {
      var j := CameFrom(z, z', l, r, i);
    }
  }

  class SymbolTable {
    const symbols: array<Symbol>
    const names: array<string>

    constructor (syms: array<Symbol>, strings: array<string>)
      requires syms.Length == strings.Length
      ensures symbols == syms && names == strings && Valid()
    {
      symbols, names := syms, strings;
    }

    ghost predicate Valid() {
      symbols.Length == names.Length
    }

    ghost function Entries(): (z: seq<Entry>)
      requires Valid()
      reads symbols, names
      ensures |z| == symbols.Length
    {
      Zip(symbols[..], names[..])
    }

    /** Both arrays take the entry at `k` into index `i`. */
    method Copy(i: nat, k: nat)
      requires Valid() && i < symbols.Length && k < symbols.Length
      modifies symbols, names
      ensures Entries() == old(Entries())[i := old(Entries())[k]]
    {
      symbols[i] := symbols[k];
      names[i] := names[k];
      assert Entries() == old(Entries())[i := old(Entries())[k]];
    }

    /** The loop of quickSort: entries below the first one come before it, the others after it. */
    method Partition(l: nat, r: nat) returns (p: nat)
      requires Valid() && l < r < symbols.Length
      modifies symbols, names
      ensures l <= p <= r && Within(old(Entries()), Entries(), l, r)
      ensures Below(Entries(), l, p, Entries()[p].sym.value) && NotBelow(Entries(), p, r + 1, Entries()[p].sym.value)
    {
      ghost var z0 := Entries();
      var i, j := l, r;
      var x, temp := symbols[l], names[l];
      ghost var e := Entry(x, temp);
      assert z0[l := e] == z0;
      while i < j
        invariant l <= i <= j <= r && Parted(z0, Entries(), l, r, i, j, i, e)
        decreases j - i
      {
        j := FillLow(l, r, i, j, x.value, e, z0);
        i := FillHigh(l, r, i, j, x.value, e, z0);
      }
      ghost var z := Entries();
      symbols[i] := x;
      names[i] := temp;
      assert Entries() == z[i := e];
      p := i;
    }

    /** An entry below the pivot, searched from the upper end, fills the hole at `i`. */
    method FillLow(l: nat, r: nat, i: nat, j0: nat, v: int, ghost e: Entry, ghost z0: seq<Entry>) returns (j: nat)
      requires Valid() && l <= i < j0 <= r < symbols.Length && e.sym.value == v
      requires Parted(z0, Entries(), l, r, i, j0, i, e)
      modifies symbols, names
      ensures i <= j <= j0 && Parted(z0, Entries(), l, r, i, j, j, e)
      ensures i < j ==> Entries()[i].sym.value < v
    {
      hide Holed;
      ghost var z := Entries();
      j := j0;
      while i < j && symbols[j].value >= v
        invariant i <= j <= j0 && NotBelow(z, j + 1, r + 1, v)
        modifies {}
      {
        j := j - 1;
      }
      if i < j {
        HoleMoves(z0, z, l, r, i, e, j);
        Copy(i, j);
      }
    }

    /** An entry not below it, searched from the lower end, fills the hole at `j`. */
    method FillHigh(l: nat, r: nat, i0: nat, j: nat, v: int, ghost e: Entry, ghost z0: seq<Entry>) returns (i: nat)
      requires Valid() && l <= i0 <= j <= r < symbols.Length && e.sym.value == v
      requires Parted(z0, Entries(), l, r, i0, j, j, e) && (i0 < j ==> Entries()[i0].sym.value < v)
      modifies symbols, names
      ensures i0 <= i <= j && (i0 < j ==> i0 < i) && Parted(z0, Entries(), l, r, i, j, i, e)
    {
      hide Holed;
      ghost var z := Entries();
      i := i0;
      while i < j && symbols[i].value < v
        invariant i0 <= i <= j && Below(z, l, i, v)
        modifies {}
      {
        i := i + 1;
      }
      if i < j {
        HoleMoves(z0, z, l, r, j, e, i);
        Copy(j, i);
      }
    }

    /** func_name_printer: the index whose name is printed, or -1. */
    method FuncName(count: nat, addr: int) returns (at: int)
      requires Valid() && count <= symbols.Length
      ensures at == Search(Entries(), 0, count - 1, addr)
    {
      var left, right := 0, count - 1;
      while left <= right
        invariant 0 <= left && right < count
        invariant Search(Entries(), left, right, addr) == Search(Entries(), 0, count - 1, addr)
        decreases right - left
      {
        var mid := left + (right - left) / 2;
        var begin, end := symbols[mid].value, symbols[mid].value + symbols[mid].size;
        if begin <= addr && addr < end {
          return mid;
        }
        if begin > addr {
          right := mid - 1;
        } else {
          left := mid + 1;
        }
      }
      return -1;
    }

    /** quickSort */
    method QuickSort(l: nat, r: int)
      requires Valid() && -1 <= r < symbols.Length && l <= symbols.Length && l <= r + 1
      modifies symbols, names
      ensures Within(old(Entries()), Entries(), l, r)
      ensures SortedBetween(Entries(), l, r)
      decreases r - l
    {
      if l >= r { return; }
      ghost var z0 := Entries();
      var p: int := Partition(l, r);
      ghost var z1 := Entries();
      QuickSort(l, p - 1);
      ghost var z2 := Entries();
      QuickSort(p + 1, r);
      Joined(z0, z1, z2, Entries(), l, p, r);
    }
  }

  ghost predicate Covers(e: Entry, addr: int) {
    e.sym.value <= addr < e.sym.value + e.sym.size
  }

  /** Addresses go up, and no symbol starts inside another's range. */
  ghost predicate Separate(z: seq<Entry>) {
    forall i, j :: 0 <= i < j < |z| ==>
      z[i].sym.value < z[j].sym.value && z[i].sym.value + z[i].sym.size <= z[j].sym.value
  }

  /** Starts go up, and no two nonempty ranges meet; empty symbols may lie anywhere. */
  ghost predicate Disjoint(z: seq<Entry>) {
    forall i, j :: 0 <= i < j < |z| ==>
      z[i].sym.value < z[j].sym.value
      && (z[i].sym.size > 0 && z[j].sym.size > 0 ==> z[i].sym.value + z[i].sym.size <= z[j].sym.value)
  }

  /** func_name_printer's bisection of `lo..hi`: the index it prints, or -1. */
  ghost function Search(z: seq<Entry>, lo: int, hi: int, addr: int): int
    requires 0 <= lo && hi < |z|
    decreases hi - lo
  {
    if lo > hi then -1
    else
      var mid := lo + (hi - lo) / 2;
      if Covers(z[mid], addr) then mid
      else if z[mid].sym.value > addr then Search(z, lo, mid - 1, addr)
      else Search(z, mid + 1, hi, addr)
  }

  /** Bisecting `lo..hi` for index `k` looks at index `m`. */
  ghost predicate Probed(lo: int, hi: int, k: int, m: int)
    decreases hi - lo
  {
    lo <= hi &&
    var mid := lo + (hi - lo) / 2;
    m == mid || (if k < mid then Probed(lo, mid - 1, k, m) else mid < k && Probed(mid + 1, hi, k, m))
  }

  lemma ProbedStep(lo: int, hi: int, k: int)
    requires lo <= k <= hi
    ensures var mid := lo + (hi - lo) / 2;
      forall m :: Probed(lo, hi, k, m) <==>
        m == mid || (k < mid && Probed(lo, mid - 1, k, m)) || (mid < k && Probed(mid + 1, hi, k, m))
  {
  }

  /** A symbol behind `k` that is probed on the way to `k` starts at or below the address. */
  ghost predicate Misled(z: seq<Entry>, lo: int, hi: int, addr: int, k: int)
    requires 0 <= k
  {
    exists m :: k < m < |z| && Probed(lo, hi, k, m) && z[m].sym.value <= addr
  }

  /** A probe above the address sends the search towards `k`; one below it does so when `k` is behind it. */
  lemma MisledStep(z: seq<Entry>, lo: int, hi: int, addr: int, k: int)
    requires 0 <= lo <= k <= hi < |z|
    ensures var mid := lo + (hi - lo) / 2;
      && (k == mid ==> !Misled(z, lo, hi, addr, k))
      && (k < mid && z[mid].sym.value <= addr ==> Misled(z, lo, hi, addr, k))
      && (k < mid && z[mid].sym.value > addr ==> (Misled(z, lo, hi, addr, k) <==> Misled(z, lo, mid - 1, addr, k)))
      && (mid < k ==> (Misled(z, lo, hi, addr, k) <==> Misled(z, mid + 1, hi, addr, k)))
  {
    hide Probed;
    ProbedStep(lo, hi, k);
  }

  lemma Around(z: seq<Entry>, addr: int, k: int, i: int)
    requires Disjoint(z) && 0 <= k < |z| && Covers(z[k], addr) && 0 <= i < |z|
    ensures (Covers(z[i], addr) <==> i == k) && (z[i].sym.value > addr ==> k < i)
  {
  }

  /**
   With nonempty ranges disjoint, the symbol that covers an address is found exactly when the search is not misled.
   */
  lemma {:induction false} FoundIff(z: seq<Entry>, lo: int, hi: int, addr: int, k: int)
    requires Disjoint(z) && 0 <= lo <= k <= hi < |z| && Covers(z[k], addr)
    ensures Search(z, lo, hi, addr) == k <==> !Misled(z, lo, hi, addr, k)
    ensures Search(z, lo, hi, addr) == k || Search(z, lo, hi, addr) == -1
    decreases hi - lo
  {
    hide Disjoint, Misled;
    var mid := lo + (hi - lo) / 2;
    MisledStep(z, lo, hi, addr, k);
    Around(z, addr, k, mid);
    if mid != k {
      if z[mid].sym.value > addr {
        FoundIff(z, lo, mid - 1, addr, k);
      } else if k > mid {
        FoundIff(z, mid + 1, hi, addr, k);
      } else {
        NotThere(z, mid + 1, hi, addr, k);
      }
    }
  }

  /** A symbol is found at all its addresses exactly when no later one probed on the way to it starts before its end. */
  lemma AlwaysFoundIff(z: seq<Entry>, k: int)
    requires Disjoint(z) && 0 <= k < |z| && z[k].sym.size > 0
    ensures (forall addr :: Covers(z[k], addr) ==> Search(z, 0, |z| - 1, addr) == k)
      <==> (forall m :: k < m < |z| && Probed(0, |z| - 1, k, m) ==> z[k].sym.value + z[k].sym.size <= z[m].sym.value)
  {
    forall addr | Covers(z[k], addr)
      ensures Search(z, 0, |z| - 1, addr) == k <==> !Misled(z, 0, |z| - 1, addr, k)
    {
      FoundIff(z, 0, |z| - 1, addr, k);
    }
    forall m | k < m < |z| && Probed(0, |z| - 1, k, m) && z[m].sym.value < z[k].sym.value + z[k].sym.size
      ensures Covers(z[k], z[m].sym.value) && Misled(z, 0, |z| - 1, z[m].sym.value, k)
    {
    }
  }

  lemma {:induction false} NotThere(z: seq<Entry>, lo: int, hi: int, addr: int, k: int)
    requires Disjoint(z) && 0 <= k < lo && k < |z| && hi < |z| && Covers(z[k], addr)
    ensures Search(z, lo, hi, addr) == -1
    decreases hi - lo
  {
    if lo <= hi {
      var mid := lo + (hi - lo) / 2;
      assert !Covers(z[mid], addr);
      NotThere(z, lo, mid - 1, addr, k);
      NotThere(z, mid + 1, hi, addr, k);
    }
  }

  /** An address no symbol covers is not named. */
  lemma {:induction false} NobodyThere(z: seq<Entry>, lo: int, hi: int, addr: int)
    requires 0 <= lo && hi < |z| && forall i :: lo <= i <= hi ==> !Covers(z[i], addr)
    ensures Search(z, lo, hi, addr) == -1
    decreases hi - lo
  {
    if lo <= hi {
      var mid := lo + (hi - lo) / 2;
      NobodyThere(z, lo, mid - 1, addr);
      NobodyThere(z, mid + 1, hi, addr);
    }
  }

  /** Where no symbol starts inside another, the search names the one symbol that covers an address, if there is one. */
  lemma NamesTheCover(z: seq<Entry>, addr: int)
    requires Separate(z) && forall i :: 0 <= i < |z| ==> z[i].sym.size >= 0
    ensures var s := Search(z, 0, |z| - 1, addr);
      (s == -1 && forall i :: 0 <= i < |z| ==> !Covers(z[i], addr))
      || (0 <= s < |z| && forall i :: 0 <= i < |z| ==> (Covers(z[i], addr) <==> i == s))
  {
    if k :| 0 <= k < |z| && Covers(z[k], addr) {
      FoundIff(z, 0, |z| - 1, addr, k);
    } else {
      NobodyThere(z, 0, |z| - 1, addr);
    }
  }

  /** In any order: starts differ, and no symbol starts inside another's range. */
  ghost predicate Spread(z: seq<Entry>) {
    forall i, j :: 0 <= i < |z| && 0 <= j < |z| && i != j ==>
      z[i].sym.value != z[j].sym.value && !Covers(z[i], z[j].sym.value)
  }

  lemma Twice(s: seq<Entry>, i: int, j: int)
    requires 0 <= i < j < |s| && s[i] == s[j]
    ensures multiset(s)[s[i]] >= 2
  {
    assert s == s[..j] + s[j..];
    assert s[..j][i] == s[i] && s[j..][0] == s[i];
    assert s[i] in multiset(s[..j]) && s[i] in multiset(s[j..]);
  }

  lemma {:induction false} Once(s: seq<Entry>, a: int)
    requires 0 <= a < |s| && forall i :: 0 <= i < |s| && i != a ==> s[i] != s[a]
    ensures multiset(s)[s[a]] == 1
  {
    assert s == s[..a] + [s[a]] + s[a + 1..];
    assert s[a] !in s[..a] && s[a] !in s[a + 1..];
    assert multiset(s[..a])[s[a]] == 0 && multiset(s[a + 1..])[s[a]] == 0;
  }

  /** Sorting such a table makes it one that the search can be used on. */
  lemma SortedIsSeparate(z: seq<Entry>, z': seq<Entry>)
    requires Spread(z) && Permuted(z', z) && |z'| == |z| && SortedBetween(z', 0, |z'| - 1)
    ensures Separate(z')
  {
    assert z'[0..|z'|] == z' && z[0..|z|] == z;
    forall i, j | 0 <= i < j < |z'|
      ensures z'[i].sym.value < z'[j].sym.value && z'[i].sym.value + z'[i].sym.size <= z'[j].sym.value
    {
      var a := CameFrom(z, z', 0, |z| - 1, i);
      var b := CameFrom(z, z', 0, |z| - 1, j);
      Once(z, a);
      if a == b {
        Twice(z', i, j);
      }
      assert a != b;
    }
  }

  /** An empty symbol inside a function hides the function, though the nonempty ranges are disjoint. */
  lemma EmptySymbolHides(a: string, b: string, c: string)
    ensures var z := [Entry(Symbol(0, 100), a), Entry(Symbol(50, 0), b), Entry(Symbol(200, 10), c)];
      Disjoint(z) && Covers(z[0], 60) && Search(z, 0, 2, 60) == -1
  {
    var z := [Entry(Symbol(0, 100), a), Entry(Symbol(50, 0), b), Entry(Symbol(200, 10), c)];
    FoundIff(z, 0, 2, 60, 0);
    assert Probed(0, 2, 0, 1);
  }

  /** Everything left of `i` is below the pivot, everything right of `j` is not, and the hole is at `hole`. */
  ghost predicate Parted(z0: seq<Entry>, z: seq<Entry>, l: int, r: int, i: int, j: int, hole: int, e: Entry) {
    Holed(z0, z, l, r, hole, e) && Below(z, l, i, e.sym.value) && NotBelow(z, j + 1, r + 1, e.sym.value)
  }

  /** A partition with both parts sorted is sorted. */
  lemma Joined(z0: seq<Entry>, z1: seq<Entry>, z2: seq<Entry>, z3: seq<Entry>, l: int, p: int, r: int)
    requires l <= p <= r && Within(z0, z1, l, r) && Within(z1, z2, l, p - 1)
    requires Within(z2, z3, p + 1, r)
    requires Below(z1, l, p, z1[p].sym.value) && NotBelow(z1, p, r + 1, z1[p].sym.value)
    requires SortedBetween(z2, l, p - 1) && SortedBetween(z3, p + 1, r)
    ensures Within(z0, z3, l, r) && SortedBetween(z3, l, r)
  {
    WithinWider(z1, z2, l, p - 1, l, r);
    WithinWider(z2, z3, p + 1, r, l, r);
    WithinTrans(z0, z1, z2, l, r);
    WithinTrans(z0, z2, z3, l, r);
    JoinSorted(z1, z2, z3, l, p, r);
  }

  lemma Elsewhere(z: seq<Entry>, z': seq<Entry>, l: int, r: int)
    requires Within(z, z', l, r)
    ensures 0 <= l <= r + 1 <= |z| == |z'| && forall k :: 0 <= k < |z| && !(l <= k <= r) ==> z'[k] == z[k]
  {
    assert forall k :: 0 <= k < l ==> z'[k] == z'[..l][k] && z[k] == z[..l][k];
    assert forall k :: r < k < |z| ==> z'[k] == z'[r + 1..][k - r - 1] && z[k] == z[r + 1..][k - r - 1];
  }

  lemma JoinSorted(z1: seq<Entry>, z2: seq<Entry>, z3: seq<Entry>, l: int, p: int, r: int)
    requires l <= p <= r && Within(z1, z2, l, p - 1) && Within(z2, z3, p + 1, r)
    requires Below(z1, l, p, z1[p].sym.value) && NotBelow(z1, p, r + 1, z1[p].sym.value)
    requires SortedBetween(z2, l, p - 1) && SortedBetween(z3, p + 1, r)
    ensures SortedBetween(z3, l, r)
  {
    hide Within;
    Elsewhere(z1, z2, l, p - 1);
    Elsewhere(z2, z3, p + 1, r);
    var v := z1[p].sym.value;
    BoundsSurvive(z1, z2, l, p - 1, v);
    BoundsSurvive(z2, z3, p + 1, r, v);
  }
}
