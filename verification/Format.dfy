/**
 What vsnprintf of util/snprintf.c prints, and what atol of util/string.c reads back.

 A format is a sequence of tokens. `Render` is the text it stands for; `Emitted` is the text
 the code produces as it goes, which differs in one respect: a %c that no longer fits does
 not take its argument, so the directives after it read the arguments one place early.
 */
module Format {
  /** One variadic argument: what it is as a number, and the string it points to when used as a pointer. */
  datatype Arg = Arg(num: int, str: string)

  datatype Token =
    | Literal(c: char)
    | Hex(prefix: bool, long: bool)
    | Decimal(long: bool)
    | Text
    | Character

  /** Reading a format: unknown characters after a percent sign are skipped, and the directive goes on. */
  ghost function Parse(s: string, format: bool, long: bool): seq<Token>
    decreases |s|
  {
    if s == [] then []
    else if !format then
      if s[0] == '%' then Parse(s[1..], true, long) else [Literal(s[0])] + Parse(s[1..], false, long)
    else
      match s[0]
      case 'l' => Parse(s[1..], true, true)
      case 'p' => [Hex(true, true)] + Parse(s[1..], false, false)
      case 'x' => [Hex(false, long)] + Parse(s[1..], false, false)
      case 'd' => [Decimal(long)] + Parse(s[1..], false, false)
      case 's' => [Text] + Parse(s[1..], false, false)
      case 'c' => [Character] + Parse(s[1..], false, false)
      case _ => Parse(s[1..], true, long)
  }

  /** How a token is written in a format. */
  ghost function Written(t: Token): string {
    match t
    case Literal(c) => [c]
    case Hex(prefix, long) => if prefix then "%p" else if long then "%lx" else "%x"
    case Decimal(long) => if long then "%ld" else "%d"
    case Text => "%s"
    case Character => "%c"
  }

  ghost function WrittenAll(ts: seq<Token>): string {
    if ts == [] then "" else Written(ts[0]) + WrittenAll(ts[1..])
  }

  /** A format reads back as the tokens it was written from. A percent sign is no literal, and %p is always long. */
  lemma {:induction false} ParseWritten(ts: seq<Token>)
    requires forall i :: 0 <= i < |ts| ==> ts[i] != Literal('%') && ts[i] != Hex(true, false)
    ensures Parse(WrittenAll(ts), false, false) == ts
  {
    if ts != [] {
      ParseWritten(ts[1..]);
      ParseFirst(ts[0], WrittenAll(ts[1..]));
      assert ts == [ts[0]] + ts[1..];
    }
  }

  lemma ParseFirst(t: Token, rest: string)
    requires t != Literal('%') && t != Hex(true, false)
    ensures Parse(Written(t) + rest, false, false) == [t] + Parse(rest, false, false)
  {
    var s := Written(t) + rest;
    if t.Literal? {
      assert s[1..] == rest;
    } else if |Written(t)| == 2 {
      assert s[1..][1..] == rest;
    } else {
      assert Parse(s[1..], true, false) == Parse(s[1..][1..], true, true);
      assert s[1..][1..][1..] == rest;
    }
  }

  function DigitChar(d: int): char
    requires 0 <= d < 16
  {
    if d < 10 then ('0' as int + d) as char else ('a' as int + d - 10) as char
  }

  function Pow16(i: nat): (p: int)
    ensures p > 0
  {
    if i == 0 then 1 else 16 * Pow16(i - 1)
  }

  /** `(num >> (4 * i)) & 0xF`, with the shift of a signed long. */
  function Nibble(num: int, i: nat): int {
    num / Pow16(i) % 16
  }

  /** The lowest `count` nibbles, highest first. */
  ghost function HexDigits(num: int, count: nat): (s: string)
    ensures |s| == count
  {
    if count == 0 then [] else [DigitChar(Nibble(num, count - 1))] + HexDigits(num, count - 1)
  }

  ghost function Dec(num: nat): (s: string)
    ensures |s| > 0
  {
    if num < 10 then [DigitChar(num)] else Dec(num / 10) + [DigitChar(num % 10)]
  }

  ghost function Signed(num: int): string {
    if num < 0 then "-" + Dec(-num) else Dec(num)
  }

  /** The digit that a character stands for in base 16. */
  ghost function HexDigit(c: char): int {
    if '0' <= c <= '9' then c as int - '0' as int
    else if 'a' <= c <= 'f' then c as int - 'a' as int + 10
    else -1
  }

  /** The number that some characters spell in base 16. */
  ghost function HexValue(s: string): int {
    if s == "" then 0 else HexDigit(s[0]) * Pow16(|s| - 1) + HexValue(s[1..])
  }

  /** The digits of %x and %p spell the number, modulo the power that fits in them. */
  lemma {:induction false} HexReadsBack(num: int, count: nat)
    ensures HexValue(HexDigits(num, count)) == num % Pow16(count)
  {
    if count > 0 {
      HexReadsBack(num, count - 1);
      var s := HexDigits(num, count);
      assert s[0] == DigitChar(Nibble(num, count - 1)) && s[1..] == HexDigits(num, count - 1);
      DigitReadsBack(Nibble(num, count - 1));
      TopNibble(num, Pow16(count - 1));
    }
  }

  lemma DigitReadsBack(d: int)
    requires 0 <= d < 16
    ensures HexDigit(DigitChar(d)) == d
  {
  }

  /** The highest nibble and the rest. */
  lemma TopNibble(num: int, unit: int)
    requires unit > 0
    ensures num / unit % 16 * unit + num % unit == num % (16 * unit)
  {
    var q, r := num / unit, num % unit;
    var n := q % 16;
    assert num == unit * q + r;
    assert q == 16 * (q / 16) + n;
    Spread(unit, q / 16, n);
    Bounded(unit, n);
    ModIs(num, 16 * unit, q / 16, n * unit + r);
  }

  lemma Spread(unit: int, q: int, n: int)
    ensures unit * (16 * q + n) == 16 * unit * q + n * unit
  {
  }

  lemma Bounded(unit: int, n: int)
    requires unit > 0 && 0 <= n < 16
    ensures 0 <= n * unit <= 15 * unit
  {
  }

  lemma ModIs(a: int, b: int, q: int, r: int)
    requires 0 <= r < b && a == b * q + r
    ensures a % b == r
  {
    var d := a / b - q;
    assert b * (a / b) == b * q + b * d;
    AtLeast(b, d);
  }

  lemma AtLeast(b: int, d: int)
    requires b > 0
    ensures (d >= 1 ==> b * d >= b) && (d <= -1 ==> b * d <= -b)
  {
    if d >= 1 {
      assert b * d == b + b * (d - 1);
    } else if d <= -1 {
      assert b * d == -b + b * (d + 1);
    }
  }

  /** What va_arg reads as an int: the low 32 bits, signed. */
  function AsInt(v: int): (r: int)
    ensures -0x8000_0000 <= r < 0x8000_0000 && (-0x8000_0000 <= v < 0x8000_0000 ==> r == v)
  {
    (v + 0x8000_0000) % 0x1_0000_0000 - 0x8000_0000
  }

  /** The text of one token. */
  ghost function Show(t: Token, a: Arg): string {
    match t
    case Literal(c) => [c]
    case Hex(prefix, long) => (if prefix then "0x" else "") + HexDigits(a.num, if long then 16 else 8)
    case Decimal(long) => Signed(if long then a.num else AsInt(a.num))
    case Text => a.str
    case Character => [(a.num % 256) as char]
  }

  ghost predicate Takes(t: Token) {
    !t.Literal?
  }

  ghost function ArgCount(ts: seq<Token>): nat {
    if ts == [] then 0 else (if Takes(ts[0]) then 1 else 0) + ArgCount(ts[1..])
  }

  ghost function Head(args: seq<Arg>): Arg {
    if args == [] then Arg(0, "") else args[0]
  }

  ghost function Tail(args: seq<Arg>): seq<Arg> {
    if args == [] then [] else args[1..]
  }

  /** The unbounded rendering. */
  ghost function Render(ts: seq<Token>, args: seq<Arg>): string
    decreases |ts|
  {
    if ts == [] then ""
    else Show(ts[0], Head(args)) + Render(ts[1..], if Takes(ts[0]) then Tail(args) else args)
  }

  /** The code's rendering into a buffer of `n` bytes, from position `pos` on. */
  ghost function Emitted(ts: seq<Token>, args: seq<Arg>, pos: nat, n: nat): string
    decreases |ts|
  {
    if ts == [] then ""
    else if ts[0].Character? && pos + 1 >= n then [(0 as char)] + Emitted(ts[1..], args, pos + 1, n)
    else
      var text := Show(ts[0], Head(args));
      text + Emitted(ts[1..], if Takes(ts[0]) then Tail(args) else args, pos + |text|, n)
  }

  ghost function Take(s: string, k: int): string {
    if k < 0 then "" else if k <= |s| then s[..k] else s
  }

  /** Whatever the arguments, the bytes that fit are those of the rendering. */
  lemma {:induction false} FitsIsRight(ts: seq<Token>, args: seq<Arg>, pos: nat, n: nat)
    ensures Take(Emitted(ts, args, pos, n), n - 1 - pos) == Take(Render(ts, args), n - 1 - pos)
    decreases |ts|
  {
    if ts != [] && pos + 1 < n {
      var text := Show(ts[0], Head(args));
      var args' := if Takes(ts[0]) then Tail(args) else args;
      FitsIsRight(ts[1..], args', pos + |text|, n);
      var e, r := Emitted(ts[1..], args', pos + |text|, n), Render(ts[1..], args');
      TakeJoin(text, e, r, n - 1 - pos);
      assert Emitted(ts, args, pos, n) == text + e;
      assert Render(ts, args) == text + r;
    } else {
      TakeNone(Emitted(ts, args, pos, n), Render(ts, args), n - 1 - pos);
    }
  }

  lemma TakeNone(a: string, b: string, k: int)
    requires k <= 0 || a == b
    ensures Take(a, k) == Take(b, k)
  {
  }

  lemma TakeJoin(a: string, b: string, c: string, k: int)
    requires Take(b, k - |a|) == Take(c, k - |a|)
    ensures Take(a + b, k) == Take(a + c, k)
  {
    if k > |a| {
      assert Take(a + b, k) == a + Take(b, k - |a|);
      assert Take(a + c, k) == a + Take(c, k - |a|);
    } else if k >= 0 {
      assert (a + b)[..k] == a[..k] == (a + c)[..k];
    }
  }

  /** Tokens whose text has a length that depends on the argument. */
  ghost predicate Varies(t: Token) {
    t.Decimal? || t.Text?
  }

  ghost predicate AnyVaries(ts: seq<Token>) {
    ts != [] && (Varies(ts[0]) || AnyVaries(ts[1..]))
  }

  lemma SameLength(t: Token, a: Arg, b: Arg)
    requires !Varies(t)
    ensures |Show(t, a)| == |Show(t, b)| && (t.Character? ==> |Show(t, a)| == 1)
  {
  }

  /** A %d or %s comes after a %c that does not fit. */
  ghost predicate Starved(ts: seq<Token>, args: seq<Arg>, pos: nat, n: nat)
    decreases |ts|
  {
    ts != [] &&
    if ts[0].Character? && pos + 1 >= n then AnyVaries(ts[1..])
    else Starved(ts[1..], if Takes(ts[0]) then Tail(args) else args, pos + |Show(ts[0], Head(args))|, n)
  }

  /** The arguments agree up to the first %c that does not fit. */
  ghost predicate SameUntilFull(ts: seq<Token>, a: seq<Arg>, b: seq<Arg>, pos: nat, n: nat)
    decreases |ts|
  {
    ts == [] || (ts[0].Character? && pos + 1 >= n)
    || (if Takes(ts[0]) then
          Head(a) == Head(b) && SameUntilFull(ts[1..], Tail(a), Tail(b), pos + |Show(ts[0], Head(a))|, n)
        else SameUntilFull(ts[1..], a, b, pos + |Show(ts[0], Head(a))|, n))
  }

  /** Without %d and %s, arguments do not matter to lengths. */
  lemma {:induction false} FixedLength(ts: seq<Token>, a: seq<Arg>, b: seq<Arg>, pos: nat, n: nat)
    requires !AnyVaries(ts)
    ensures |Render(ts, a)| == |Render(ts, b)| == |Emitted(ts, a, pos, n)|
    decreases |ts|
  {
    if ts != [] {
      SameLength(ts[0], Head(a), Head(b));
      var a', b' := if Takes(ts[0]) then Tail(a) else a, if Takes(ts[0]) then Tail(b) else b;
      FixedLength(ts[1..], a', b', pos + |Show(ts[0], Head(a))|, n);
      FixedLength(ts[1..], a, a', pos + 1, n);
    }
  }

  /** With no %d or %s behind a %c that does not fit, the length returned is that of the rendering. */
  lemma {:induction false} CountIsRight(ts: seq<Token>, args: seq<Arg>, pos: nat, n: nat)
    requires !Starved(ts, args, pos, n)
    ensures |Emitted(ts, args, pos, n)| == |Render(ts, args)|
    decreases |ts|
  {
    if ts != [] {
      if ts[0].Character? && pos + 1 >= n {
        FixedLength(ts[1..], args, Tail(args), pos + 1, n);
      } else {
        CountIsRight(ts[1..], if Takes(ts[0]) then Tail(args) else args, pos + |Show(ts[0], Head(args))|, n);
      }
    }
  }

  /** The argument, counted from here, that the last %d or %s takes. */
  ghost function LastVarying(ts: seq<Token>): nat
    requires AnyVaries(ts)
  {
    if AnyVaries(ts[1..]) then (if Takes(ts[0]) then 1 else 0) + LastVarying(ts[1..]) else 0
  }

  /** Plain arguments up to place `k`, and there one that prints a character more. */
  ghost function Pad(k: nat): seq<Arg> {
    seq(k, _ => Arg(0, "")) + [Arg(10, "x")]
  }

  lemma PadTail(k: nat)
    ensures k > 0 ==> Head(Pad(k)) == Arg(0, "") && Tail(Pad(k)) == Pad(k - 1)
  {
  }

  lemma OneMore(t: Token)
    requires Varies(t)
    ensures |Show(t, Arg(10, "x"))| == |Show(t, Arg(0, ""))| + 1
  {
    assert Dec(10) == Dec(1) + [DigitChar(0)];
  }

  lemma {:induction false} RenderMore(ts: seq<Token>)
    requires AnyVaries(ts)
    ensures |Render(ts, Pad(LastVarying(ts)))| == |Render(ts, [])| + 1
    decreases |ts|
  {
    var k := LastVarying(ts);
    if AnyVaries(ts[1..]) {
      RenderMore(ts[1..]);
      PadTail(k);
      if !Takes(ts[0]) { SameLength(ts[0], Head(Pad(k)), Head([])); }
    } else {
      assert Pad(0) == [Arg(10, "x")];
      OneMore(ts[0]);
      FixedLength(ts[1..], Tail(Pad(0)), [], 0, 0);
    }
  }

  lemma {:induction false} EmitNoMore(ts: seq<Token>, k: nat, pos: nat, n: nat)
    requires pos + 1 >= n && AnyVaries(ts) && k > LastVarying(ts)
    ensures |Emitted(ts, Pad(k), pos, n)| == |Render(ts, [])|
    decreases |ts|
  {
    PadTail(k);
    var text := Show(ts[0], Head(Pad(k)));
    var k' := if Takes(ts[0]) && !ts[0].Character? then k - 1 else k;
    if AnyVaries(ts[1..]) {
      EmitNoMore(ts[1..], k', pos + if ts[0].Character? then 1 else |text|, n);
    } else {
      FixedLength(ts[1..], Pad(k'), [], pos + |text|, n);
    }
    if !Varies(ts[0]) { SameLength(ts[0], Head(Pad(k)), Head([])); }
  }

  /** With one, there are arguments, the same as far as they fit, for which the length returned is wrong. */
  lemma {:induction false} CountGoesWrong(ts: seq<Token>, args: seq<Arg>, pos: nat, n: nat) returns (bad: seq<Arg>)
    requires Starved(ts, args, pos, n)
    ensures SameUntilFull(ts, args, bad, pos, n)
    ensures |Emitted(ts, bad, pos, n)| != |Render(ts, bad)|
    decreases |ts|
  {
    if ts[0].Character? && pos + 1 >= n {
      var k := LastVarying(ts[1..]);
      bad := Pad(k + 1);
      PadTail(k + 1);
      RenderMore(ts[1..]);
      EmitNoMore(ts[1..], k + 1, pos + 1, n);
    } else if Takes(ts[0]) {
      bad := CountGoesWrong(ts[1..], Tail(args), pos + |Show(ts[0], Head(args))|, n);
      bad := [Head(args)] + bad;
    } else {
      bad := CountGoesWrong(ts[1..], args, pos + |Show(ts[0], Head(args))|, n);
      SameLength(ts[0], Head(args), Head(bad));
    }
  }

  lemma {:induction false} StarvedSame(ts: seq<Token>, a: seq<Arg>, b: seq<Arg>, pos: nat, n: nat)
    requires SameUntilFull(ts, a, b, pos, n)
    ensures Starved(ts, a, pos, n) == Starved(ts, b, pos, n)
    decreases |ts|
  {
    if ts != [] && !(ts[0].Character? && pos + 1 >= n) {
      if Takes(ts[0]) {
        StarvedSame(ts[1..], Tail(a), Tail(b), pos + |Show(ts[0], Head(a))|, n);
      } else {
        SameLength(ts[0], Head(a), Head(b));
        StarvedSame(ts[1..], a, b, pos + |Show(ts[0], Head(a))|, n);
      }
    }
  }

  /** The length returned is right, whatever the arguments past the cut, exactly when no %d or %s follows a cut %c. */
  lemma CountIsRightIff(ts: seq<Token>, args: seq<Arg>, n: nat)
    ensures (forall other :: SameUntilFull(ts, args, other, 0, n) ==>
               |Emitted(ts, other, 0, n)| == |Render(ts, other)|)
       <==> !Starved(ts, args, 0, n)
  {
    if Starved(ts, args, 0, n) {
      var bad := CountGoesWrong(ts, args, 0, n);
    } else {
      forall other | SameUntilFull(ts, args, other, 0, n)
        ensures |Emitted(ts, other, 0, n)| == |Render(ts, other)|
      {
        StarvedSame(ts, args, other, 0, n);
        CountIsRight(ts, other, 0, n);
      }
    }
  }

  /** atol's digit loop, from an accumulator. */
  function Fold(s: string, acc: int): int
    decreases |s|
  {
    if s == [] then acc else Fold(s[1..], acc * 10 + (s[0] as int - '0' as int))
  }

  function SkipSpaces(s: string): (r: string)
    ensures |r| <= |s|
    decreases |s|
  {
    if s != [] && s[0] == ' ' then SkipSpaces(s[1..]) else s
  }

  /** atol */
  function Atol(s: string): int {
    var t := SkipSpaces(s);
    if t != [] && t[0] == '-' then -Fold(t[1..], 0)
    else if t != [] && t[0] == '+' then Fold(t[1..], 0)
    else Fold(t, 0)
  }

  lemma {:induction false} FoldSnoc(s: string, c: char, acc: int)
    ensures Fold(s + [c], acc) == Fold(s, acc) * 10 + (c as int - '0' as int)
    decreases |s|
  {
    if s == [] {
    } else {
      assert (s + [c])[1..] == s[1..] + [c];
      FoldSnoc(s[1..], c, acc * 10 + (s[0] as int - '0' as int));
    }
  }

  lemma {:induction false} FoldDec(n: nat)
    ensures Fold(Dec(n), 0) == n
    ensures '0' <= Dec(n)[0] <= '9'
    decreases n
  {
    if n >= 10 {
      FoldDec(n / 10);
      FoldSnoc(Dec(n / 10), DigitChar(n % 10), 0);
    }
  }

  /** On the way to n the accumulator never exceeds n, so a long that holds the result holds every step. */
  lemma {:induction false} FoldBounded(n: nat, k: nat)
    requires k <= |Dec(n)|
    ensures 0 <= Fold(Dec(n)[..k], 0) <= n
    decreases n
  {
    if k == |Dec(n)| {
      assert Dec(n)[..k] == Dec(n);
      FoldDec(n);
    } else if n >= 10 {
      FoldBounded(n / 10, k);
      assert Dec(n)[..k] == Dec(n / 10)[..k];
    }
  }

  /** Reading back what %ld prints gives the number. */
  lemma AtolOfSigned(v: int)
    ensures Atol(Signed(v)) == v
  {
    if v < 0 {
      FoldDec(-v);
      assert Signed(v)[1..] == Dec(-v);
    } else {
      FoldDec(v);
    }
  }

  /** "%c%d" with 65 and 100 into one byte: the code counts the digits of 65. */
  lemma CutCharacterMiscounts()
    ensures var ts, args := [Character, Decimal(false)], [Arg(65, ""), Arg(100, "")];
      |Emitted(ts, args, 0, 1)| == 3 && |Render(ts, args)| == 4
  {
    var ts, args := [Character, Decimal(false)], [Arg(65, ""), Arg(100, "")];
    assert ts[1..] == [Decimal(false)] && ts[1..][1..] == [];
    assert args[1..] == [Arg(100, "")];
    assert Dec(100) == Dec(10) + [DigitChar(0)] && Dec(10) == Dec(1) + [DigitChar(0)];
    assert Dec(65) == Dec(6) + [DigitChar(5)];
  }
}
