/**
 The LEB128 readers of kernel/elf.c against the minimal encodings of section 7.6 of DWARF
 version 3. Bytes are numbers below 256; a byte of 128 or more says that another follows.
 */
module Leb128 {
  const TWO63 := 0x8000_0000_0000_0000
  const TWO64 := 0x1_0000_0000_0000_0000

  /** Minimal unsigned encoding. */
  function Uleb(v: nat): (s: seq<int>)
    ensures |s| > 0 && forall i :: 0 <= i < |s| ==> 0 <= s[i] < 256
    decreases v
  {
    if v < 128 then [v] else [v % 128 + 128] + Uleb(v / 128)
  }

  /** Minimal signed encoding. */
  function Sleb(v: int): (s: seq<int>)
    ensures |s| > 0 && forall i :: 0 <= i < |s| ==> 0 <= s[i] < 256
    decreases if v < 0 then -v else v
  {
    if -64 <= v < 64 then [v % 128] else [v % 128 + 128] + Sleb(v / 128)
  }

  /** How many bytes a number at the start of `s` takes. */
  function Length(s: seq<int>): nat
    decreases |s|
  {
    if s == [] then 0 else if s[0] < 128 then 1 else 1 + Length(s[1..])
  }

  /** The number its seven-bit groups make up, least significant first. */
  function Groups(s: seq<int>): int
    decreases |s|
  {
    if s == [] then 0 else s[0] % 128 + if s[0] < 128 then 0 else 128 * Groups(s[1..])
  }

  /** A number that ends within ten bytes: beyond that the reader would shift by 64 or more. */
  ghost predicate Readable(s: seq<int>) {
    && 0 < Length(s) <= 10 && Length(s) <= |s| && (forall i :: 0 <= i < |s| ==> 0 <= s[i] < 256)
    && s[Length(s) - 1] < 128
  }

  function Pow(b: int, n: nat): int {
    if n == 0 then 1 else b * Pow(b, n - 1)
  }

  lemma {:induction false} PowPositive(b: int, n: nat)
    requires b > 0
    ensures Pow(b, n) > 0
  {
    if n > 0 {
      PowPositive(b, n - 1);
    }
  }

  lemma {:induction false} UlebRoundTrip(v: nat, rest: seq<int>)
    ensures Groups(Uleb(v) + rest) == v && Length(Uleb(v) + rest) == |Uleb(v)|
    ensures Uleb(v)[|Uleb(v)| - 1] < 128
    decreases v
  {
    if v >= 128 {
      UlebRoundTrip(v / 128, rest);
      assert (Uleb(v) + rest)[1..] == Uleb(v / 128) + rest;
    }
  }

  lemma {:induction false} UlebLength(v: nat, k: nat)
    requires v < Pow(128, k) && k > 0
    ensures |Uleb(v)| <= k
    decreases v
  {
    if v >= 128 && k > 1 {
      UlebLength(v / 128, k - 1);
    }
  }

  /** Unsigned numbers below 2^64 are read back, and the reader moves past exactly their bytes. */
  lemma UnsignedRoundTrip(v: nat, rest: seq<int>)
    requires v < TWO64 && forall i :: 0 <= i < |rest| ==> 0 <= rest[i] < 256
    ensures Readable(Uleb(v) + rest)
    ensures Groups(Uleb(v) + rest) % TWO64 == v && Length(Uleb(v) + rest) == |Uleb(v)|
  {
    UlebRoundTrip(v, rest);
    UlebAtMostTen(v);
    BytesJoin(Uleb(v), rest);
    assert (Uleb(v) + rest)[|Uleb(v)| - 1] == Uleb(v)[|Uleb(v)| - 1];
    Small(v);
  }

  lemma UlebAtMostTen(v: nat)
    requires v < TWO64
    ensures |Uleb(v)| <= 10
  {
    Powers();
    UlebLength(v, 10);
  }

  lemma BytesJoin(a: seq<int>, b: seq<int>)
    requires forall i :: 0 <= i < |a| ==> 0 <= a[i] < 256
    requires forall i :: 0 <= i < |b| ==> 0 <= b[i] < 256
    ensures forall i :: 0 <= i < |a + b| ==> 0 <= (a + b)[i] < 256
  {
  }

  lemma Small(v: int)
    requires 0 <= v < TWO64
    ensures v % TWO64 == v
  {
  }

  lemma Powers()
    ensures Pow(128, 1) == 0x80 && Pow(128, 2) == 0x4000 && Pow(128, 3) == 0x20_0000 && Pow(128, 4) == 0x1000_0000
    ensures Pow(128, 5) == 0x8_0000_0000 && Pow(128, 6) == 0x400_0000_0000 && Pow(128, 7) == 0x2_0000_0000_0000
    ensures Pow(128, 8) == 0x100_0000_0000_0000 && Pow(128, 9) == 0x8000_0000_0000_0000
    ensures Pow(128, 10) == 0x40_0000_0000_0000_0000
  {
    assert Pow(128, 2) == 128 * Pow(128, 1);
    assert Pow(128, 3) == 128 * Pow(128, 2);
    assert Pow(128, 4) == 128 * Pow(128, 3);
    assert Pow(128, 5) == 128 * Pow(128, 4);
    assert Pow(128, 6) == 128 * Pow(128, 5);
    assert Pow(128, 7) == 128 * Pow(128, 6);
    assert Pow(128, 8) == 128 * Pow(128, 7);
    assert Pow(128, 9) == 128 * Pow(128, 8);
  }

  /** Two's complement of 64 bits. */
  function ToSigned(u: int): int {
    if u % TWO64 < TWO63 then u % TWO64 else u % TWO64 - TWO64
  }

  /** `1 << shift` on a 32-bit int: the machine takes the shift modulo 32. */
  function IntBit(shift: nat): int {
    Pow(2, shift % 32)
  }

  /** `x | -m` on 64 bits, for a power of two m: all bits from m's up are set. */
  function OrMinus(x: int, m: int): int
    requires m > 0
  {
    x % m - m
  }

  /** read_sleb128 on the bytes of one number. */
  function SlebValue(s: seq<int>): int
    requires Length(s) <= |s|
  {
    var k := Length(s);
    PowPositive(2, 7 * k % 32);
    if 7 * k < 64 && k > 0 && s[k - 1] % 128 >= 64 then OrMinus(Groups(s) % TWO64, IntBit(7 * k))
    else ToSigned(Groups(s))
  }

  /** What the groups of a signed encoding say: the number, modulo the power that fits in them. */
  lemma {:induction false} SlebGroups(v: int, rest: seq<int>)
    ensures Length(Sleb(v) + rest) == |Sleb(v)|
    ensures Groups(Sleb(v) + rest) == if v < 0 then v + Pow(128, |Sleb(v)|) else v
    ensures Sleb(v)[|Sleb(v)| - 1] < 128 && (Sleb(v)[|Sleb(v)| - 1] >= 64 <==> v < 0)
    decreases if v < 0 then -v else v
  {
    if -64 <= v < 64 {
      Powers();
    } else {
      SlebGroups(v / 128, rest);
      assert (Sleb(v) + rest)[1..] == Sleb(v / 128) + rest;
    }
  }

  /** The length of a signed encoding gives the size of the number, both ways. */
  lemma {:induction false} SlebLength(v: int)
    ensures var k := |Sleb(v)|;
      && -64 * Pow(128, k - 1) <= v < 64 * Pow(128, k - 1)
      && (k >= 2 ==> !(-64 * Pow(128, k - 2) <= v < 64 * Pow(128, k - 2)))
    decreases if v < 0 then -v else v
  {
    if !(-64 <= v < 64) {
      SlebLength(v / 128);
    }
  }

  lemma IntBits()
    ensures IntBit(7) == 0x80 && IntBit(14) == 0x4000 && IntBit(21) == 0x20_0000 && IntBit(28) == 0x1000_0000
    ensures IntBit(35) == 0x8 && IntBit(42) == 0x400 && IntBit(49) == 0x2_0000 && IntBit(56) == 0x100_0000
    ensures IntBit(63) == 0x8000_0000
  {
    Doubling(0);
    Doubling(7);
    Doubling(14);
    Doubling(21);
    Doubling(3);
    Doubling(10);
    Doubling(17);
    Doubling(24);
    assert Pow(2, 3) == 2 * Pow(2, 2);
  }

  lemma Doubling(n: nat)
    ensures Pow(2, n + 7) == 128 * Pow(2, n)
  {
    assert Pow(2, n + 7) == 2 * Pow(2, n + 6) && Pow(2, n + 6) == 2 * Pow(2, n + 5);
    assert Pow(2, n + 5) == 2 * Pow(2, n + 4) && Pow(2, n + 4) == 2 * Pow(2, n + 3);
    assert Pow(2, n + 3) == 2 * Pow(2, n + 2) && Pow(2, n + 2) == 2 * Pow(2, n + 1);
  }

  lemma SlebAtMostTen(v: int)
    requires -TWO63 <= v < TWO63
    ensures |Sleb(v)| <= 10
    ensures |Sleb(v)| <= 4 <==> -0x800_0000 <= v < 0x800_0000
    ensures |Sleb(v)| <= 9 <==> -0x4000_0000_0000_0000 <= v < 0x4000_0000_0000_0000
  {
    SlebLength(v);
    Powers();
    var k := |Sleb(v)|;
    if k > 10 {
      PowGrows(9, k - 2);
    } else if k > 4 {
      PowGrows(3, k - 2);
    } else {
      PowGrows(k - 1, 3);
    }
    if k <= 9 {
      PowGrows(k - 1, 8);
    } else {
      PowGrows(8, k - 2);
    }
  }

  lemma {:induction false} PowGrows(a: nat, b: nat)
    requires a <= b
    ensures 0 < Pow(128, a) <= Pow(128, b)
    decreases b
  {
    PowPositive(128, a);
    if a < b {
      PowGrows(a, b - 1);
    }
  }

  /** A number that is not negative is always read back. */
  lemma SignedNotNegative(v: int, rest: seq<int>)
    requires 0 <= v < TWO63
    ensures Length(Sleb(v) + rest) == |Sleb(v)| && SlebValue(Sleb(v) + rest) == v
  {
    hide Sleb, Groups, Length, SlebValue, Pow;
    SlebGroups(v, rest);
    assert (Sleb(v) + rest)[|Sleb(v)| - 1] == Sleb(v)[|Sleb(v)| - 1];
    Plain(Sleb(v) + rest);
    Small(v);
  }

  /** Without the sign bit, or with all 64 bits present, the groups are the value. */
  lemma Plain(s: seq<int>)
    requires 0 < Length(s) <= |s| && (s[Length(s) - 1] % 128 < 64 || Length(s) == 10)
    ensures SlebValue(s) == ToSigned(Groups(s))
  {
  }

  lemma SignedShort(v: int, rest: seq<int>)
    requires -0x800_0000 <= v < 0
    ensures Length(Sleb(v) + rest) == |Sleb(v)| && SlebValue(Sleb(v) + rest) == v
  {
    SlebAtMostTen(v);
    Extended(v, rest);
    BitsMatch(|Sleb(v)|);
    BelowPow(v);
    Small(v + Pow(128, |Sleb(v)|));
    OrMinusOf(v + Pow(128, |Sleb(v)|), Pow(128, |Sleb(v)|));
  }

  lemma BelowPow(v: int)
    requires -0x800_0000 <= v < 0
    ensures 0 <= v + Pow(128, |Sleb(v)|) < TWO64
  {
    SlebAtMostTen(v);
    SlebLength(v);
    PowGrows(|Sleb(v)|, 4);
    Powers();
  }

  lemma OrMinusOf(x: int, m: int)
    requires m > 0
    ensures OrMinus(x, m) >= -m && (0 <= x < m ==> OrMinus(x, m) == x - m)
  {
  }

  /** A negative number of fewer than ten bytes is extended by the 32-bit shift. */
  lemma Extended(v: int, rest: seq<int>)
    requires v < 0 && |Sleb(v)| <= 9
    ensures Length(Sleb(v) + rest) == |Sleb(v)| && IntBit(7 * |Sleb(v)|) > 0
    ensures SlebValue(Sleb(v) + rest) == OrMinus((v + Pow(128, |Sleb(v)|)) % TWO64, IntBit(7 * |Sleb(v)|))
  {
    SlebGroups(v, rest);
    PowPositive(2, 7 * |Sleb(v)| % 32);
    assert (Sleb(v) + rest)[|Sleb(v)| - 1] == Sleb(v)[|Sleb(v)| - 1];
  }

  lemma BitsMatch(k: nat)
    requires 1 <= k <= 4
    ensures IntBit(7 * k) == Pow(128, k)
  {
    Powers();
    IntBits();
    assert k == 1 || k == 2 || k == 3 || k == 4;
  }

  lemma BitsTooFew(k: nat)
    requires 5 <= k <= 9
    ensures 0 < IntBit(7 * k) <= 64 * Pow(128, k - 2)
  {
    PowGrows(3, k - 2);
    assert Pow(128, 3) == 128 * Pow(128, 2) && Pow(128, 2) == 128 * Pow(128, 1);
    if k == 9 {
      NineBits();
    } else {
      FewBits(k);
    }
  }

  lemma NineBits()
    ensures 0 < IntBit(63) <= 64 * Pow(128, 7)
  {
    IntBits();
    Powers();
  }

  lemma FewBits(k: nat)
    requires 5 <= k <= 8
    ensures 0 < IntBit(7 * k) <= 0x100_0000
  {
    IntBits();
    if k == 5 {
      assert 7 * k == 35;
    } else if k == 6 {
      assert 7 * k == 42;
    } else if k == 7 {
      assert 7 * k == 49;
    } else {
      assert 7 * k == 56;
    }
  }

  /** Five to nine bytes: the 32-bit shift leaves too few bits, and the result is too close to zero. */
  lemma SignedMiddle(v: int, rest: seq<int>)
    requires -0x4000_0000_0000_0000 <= v < -0x800_0000
    ensures Length(Sleb(v) + rest) == |Sleb(v)| && SlebValue(Sleb(v) + rest) != v
  {
    hide Sleb, Groups, Length, SlebValue, Pow, OrMinus, IntBit;
    SlebAtMostTen(v);
    SlebLength(v);
    Extended(v, rest);
    var k := |Sleb(v)|;
    BitsTooFew(k);
    PowPositive(128, k - 2);
    OrMinusOf((v + Pow(128, k)) % TWO64, IntBit(7 * k));
  }

  /** Ten bytes fill all 64 bits, and no extension is needed. */
  lemma SignedLong(v: int, rest: seq<int>)
    requires -TWO63 <= v < -0x4000_0000_0000_0000
    ensures Length(Sleb(v) + rest) == |Sleb(v)| && SlebValue(Sleb(v) + rest) == v
  {
    SlebGroups(v, rest);
    SlebAtMostTen(v);
    Powers();
    assert Groups(Sleb(v) + rest) == v + 64 * TWO64;
  }

  /** What the signed reader makes of a minimal encoding does not depend on what follows it. */
  lemma SlebIgnoresRest(v: int, rest: seq<int>)
    ensures Length(Sleb(v) + rest) == |Sleb(v)| == Length(Sleb(v))
    ensures SlebValue(Sleb(v) + rest) == SlebValue(Sleb(v))
  {
    SlebGroups(v, rest);
    SlebGroups(v, []);
    assert Sleb(v) + [] == Sleb(v);
    assert (Sleb(v) + rest)[|Sleb(v)| - 1] == Sleb(v)[|Sleb(v)| - 1];
  }

  /** The signed reader inverts the minimal encoding exactly on these 64-bit numbers; it always moves past its bytes. */
  lemma SignedRoundTripIff(v: int, rest: seq<int>)
    requires -TWO63 <= v < TWO63
    ensures Length(Sleb(v) + rest) == |Sleb(v)| <= 10
    ensures SlebValue(Sleb(v) + rest) == v <==> -0x800_0000 <= v || v < -0x4000_0000_0000_0000
  {
    SlebAtMostTen(v);
    if v >= 0 {
      SignedNotNegative(v, rest);
    } else if v >= -0x800_0000 {
      SignedShort(v, rest);
    } else if v >= -0x4000_0000_0000_0000 {
      SignedMiddle(v, rest);
    } else {
      SignedLong(v, rest);
    }
  }

  lemma {:induction false} GroupsBelow(s: seq<int>)
    requires forall i :: 0 <= i < |s| ==> 0 <= s[i] < 256
    ensures 0 <= Groups(s) < Pow(128, Length(s))
    decreases |s|
  {
    if s != [] && s[0] >= 128 {
      GroupsBelow(s[1..]);
    }
  }

  /** read_uleb128: the groups are shifted into place, modulo 2^64. */
  method ReadUleb(mem: seq<int>, off: nat) returns (value: int, next: nat)
    requires off <= |mem| && Readable(mem[off..])
    ensures value == Groups(mem[off..]) % TWO64 && next == off + Length(mem[off..])
  {
    var last;
    value, next, last := ReadGroups(mem, off);
  }

  /** The loop of both readers. Bits already read lie below the next group, so `|` is an addition. */
  method ReadGroups(mem: seq<int>, off: nat) returns (value: int, next: nat, last: int)
    requires off <= |mem| && Readable(mem[off..])
    ensures value == Groups(mem[off..]) % TWO64 && next == off + Length(mem[off..])
    ensures off < next <= |mem| && last == mem[next - 1]
  {
    hide Readable, PartWay, Groups, Length;
    ghost var s := mem[off..];
    FirstByte(s);
    next := off + 1;
    last := mem[off];
    assert s[0] == last;
    value := last % 128;
    var unit := 128;
    ghost var sum := last % 128;
    Small(sum);
    while last >= 128
      invariant off < next <= |mem| && last == mem[next - 1]
      invariant value == sum % TWO64
      invariant PartWay(s, next - off, last, sum, unit)
      decreases |mem| - next
    {
      WholeLater(s, next - off, last, sum, unit);
      last := mem[next];
      assert s[next - off] == last;
      ModAdd(sum, last % 128 * unit);
      sum := sum + last % 128 * unit;
      value := (value + last % 128 * unit) % TWO64;
      unit := unit * 128;
      next := next + 1;
    }
    LastByte(s, next - off, last, sum, unit);
  }

  lemma FirstByte(s: seq<int>)
    requires Readable(s)
    ensures |s| > 0 && s[0] >= 0 && PartWay(s, 1, s[0], s[0] % 128, 128)
  {
  }

  lemma LastByte(s: seq<int>, n: int, last: int, sum: int, unit: int)
    requires PartWay(s, n, last, sum, unit) && last < 128
    ensures sum == Groups(s) && n == Length(s)
  {
  }

  lemma ModAdd(a: int, b: int)
    ensures (a % TWO64 + b) % TWO64 == (a + b) % TWO64
  {
  }

  /** After `n` bytes, the last of which is `last`: the groups so far, and what one more is worth. */
  ghost predicate PartWay(s: seq<int>, n: int, last: int, sum: int, unit: int) {
    && 0 < n <= |s|
    && if last < 128 then sum == Groups(s) && n == Length(s)
       else sum + unit * Groups(s[n..]) == Groups(s) && n + Length(s[n..]) == Length(s)
  }

  /** One more byte. */
  lemma WholeLater(s: seq<int>, n: int, last: int, sum: int, unit: int)
    requires Readable(s) && PartWay(s, n, last, sum, unit) && last >= 128 && s[n - 1] == last
    ensures n < |s| && PartWay(s, n + 1, s[n], sum + s[n] % 128 * unit, unit * 128)
  {
    if n < |s| {
      assert s[n..][0] == s[n] && s[n..][1..] == s[n + 1..];
      Regroup(unit, s[n] % 128, Groups(s[n + 1..]));
    }
  }

  lemma Regroup(place: int, g: int, later: int)
    ensures place * (g + 128 * later) == g * place + place * 128 * later
    ensures place * g == g * place
  {
  }

  /** read_sleb128 */
  method ReadSleb(mem: seq<int>, off: nat) returns (value: int, next: nat)
    requires off <= |mem| && Readable(mem[off..])
    ensures value == SlebValue(mem[off..]) && next == off + Length(mem[off..])
  {
    var u, last;
    u, next, last := ReadGroups(mem, off);
    var shift := 7 * (next - off);
    if shift < 64 && last % 128 >= 64 {
      PowPositive(2, shift % 32);
      value := OrMinus(u, IntBit(shift));
    } else {
      value := ToSigned(u);
    }
  }
}
