/**
 The code of vsnprintf in util/snprintf.c and of atol in util/string.c, against the texts
 and numbers of Format.
 */
module Snprintf {
  import opened Format

  /** A buffer after `text` is put at `pos`, as far as it fits below the last of `n` bytes. */
  ghost function Put(o: seq<char>, n: nat, pos: nat, text: string): (r: seq<char>)
    ensures |r| == |o|
    ensures forall i :: 0 <= i < |o| ==> r[i] == if pos <= i < pos + |text| && i + 1 < n then text[i - pos] else o[i]
  {
    seq(|o|, i requires 0 <= i < |o| => if pos <= i < pos + |text| && i + 1 < n then text[i - pos] else o[i])
  }

  lemma PutNone(o: seq<char>, n: nat, pos: nat)
    ensures Put(o, n, pos, "") == o
  {
  }

  lemma PutJoin(o: seq<char>, n: nat, pos: nat, a: string, b: string)
    ensures Put(Put(o, n, pos, a), n, pos + |a|, b) == Put(o, n, pos, a + b)
  {
  }

  method PutChar(out: array<char>, n: nat, pos: nat, c: char) returns (next: nat)
    requires n <= out.Length
    modifies out
    ensures next == pos + 1 && out[..] == Put(old(out[..]), n, pos, [c])
  {
    next := pos + 1;
    if next < n { out[next - 1] := c; }
  }

  method PutHex(out: array<char>, n: nat, pos: nat, num: int, count: nat) returns (next: nat)
    requires n <= out.Length
    modifies out
    ensures next == pos + count && out[..] == Put(old(out[..]), n, pos, HexDigits(num, count))
  {
    hide HexDigits, Pow16;
    ghost var o, done := out[..], "";
    PutNone(o, n, pos);
    NothingYet(HexDigits(num, count));
    next := pos;
    var i: int := count - 1;
    while i >= 0
      invariant -1 <= i < count && next == pos + |done| && |done| + i + 1 == count
      invariant done + HexDigits(num, i + 1) == HexDigits(num, count)
      invariant out[..] == Put(o, n, pos, done)
    {
      var d := Nibble(num, i);
      NextHexDigit(num, i, done);
      PutJoin(o, n, pos, done, [DigitChar(d)]);
      next := PutChar(out, n, next, DigitChar(d));
      done := done + [DigitChar(d)];
      i := i - 1;
    }
    NoHexDigit(num, done);
  }

  lemma NothingYet(text: string)
    ensures "" + text == text
  {
  }

  lemma NextHexDigit(num: int, i: nat, done: string)
    ensures done + HexDigits(num, i + 1) == done + [DigitChar(Nibble(num, i))] + HexDigits(num, i)
  {
    assert HexDigits(num, i + 1) == [DigitChar(Nibble(num, i))] + HexDigits(num, i);
  }

  lemma NoHexDigit(num: int, done: string)
    ensures done + HexDigits(num, 0) == done
  {
  }

  method PutText(out: array<char>, n: nat, pos: nat, text: string) returns (next: nat)
    requires n <= out.Length
    modifies out
    ensures next == pos + |text| && out[..] == Put(old(out[..]), n, pos, text)
  {
    ghost var o := out[..];
    PutNone(o, n, pos);
    next := pos;
    var i := 0;
    assert text[..0] == "";
    while i < |text|
      invariant 0 <= i <= |text| && next == pos + i
      invariant out[..] == Put(o, n, pos, text[..i])
    {
      assert text[..i + 1] == text[..i] + [text[i]];
      PutJoin(o, n, pos, text[..i], [text[i]]);
      next := PutChar(out, n, next, text[i]);
      i := i + 1;
    }
    assert text[..i] == text;
  }

  /** The counting loop of %d. */
  method CountDigits(num: nat) returns (digits: nat)
    ensures digits == |Dec(num)|
  {
    digits := 1;
    var nn := num / 10;
    while nn != 0
      invariant nn >= 0 && digits >= 1
      invariant if nn == 0 then digits == |Dec(num)| else digits + |Dec(nn)| == |Dec(num)|
      decreases nn
    {
      digits := digits + 1;
      nn := nn / 10;
    }
  }

  /** The digits of %d are written from the last to the first. */
  method PutDigits(out: array<char>, n: nat, pos: nat, num: nat) returns (next: nat)
    requires n <= out.Length
    modifies out
    ensures next == pos + |Dec(num)| && out[..] == Put(old(out[..]), n, pos, Dec(num))
  {
    ghost var o, done := out[..], "";
    var digits := CountDigits(num);
    var left: nat := num;
    PutNone(o, n, pos + digits);
    var i: int := digits - 1;
    while i >= 0
      invariant -1 <= i < digits
      invariant |done| + i + 1 == |Dec(num)| == digits
      invariant DigitsLeft(num, left, done, i)
      invariant out[..] == Put(o, n, pos + i + 1, done)
    {
      ghost var c := DigitChar(left % 10);
      PutFront(o, n, pos + i, c, done);
      NextDigit(num, left, done, i);
      if pos + i + 1 < n { out[pos + i] := DigitChar(left % 10); }
      done := [c] + done;
      left := left / 10;
      i := i - 1;
    }
    next := pos + digits;
  }

  /** The digits of `left`, `i + 1` of them, are still to come in front of what is done. */
  ghost predicate DigitsLeft(num: nat, left: nat, done: string, i: int) {
    if i < 0 then done == Dec(num) else |Dec(left)| == i + 1 && Dec(left) + done == Dec(num)
  }

  lemma NextDigit(num: nat, left: nat, done: string, i: int)
    requires DigitsLeft(num, left, done, i) && i >= 0
    ensures DigitsLeft(num, left / 10, [DigitChar(left % 10)] + done, i - 1)
  {
    var c := DigitChar(left % 10);
    if left >= 10 {
      assert Dec(left / 10) + ([c] + done) == Dec(left) + done;
    }
  }

  lemma PutFront(o: seq<char>, n: nat, pos: nat, c: char, done: string)
    ensures Put(o, n, pos, [c] + done) ==
      var r := Put(o, n, pos + 1, done); if pos + 1 < n && pos < |o| then r[pos := c] else r
  {
  }

  method PutDecimal(out: array<char>, n: nat, pos: nat, v: int) returns (next: nat)
    requires n <= out.Length
    modifies out
    ensures next == pos + |Signed(v)| && out[..] == Put(old(out[..]), n, pos, Signed(v))
  {
    var num := v;
    next := pos;
    ghost var o := out[..];
    if num < 0 {
      num := -num;
      PutJoin(o, n, pos, "-", Dec(num));
      next := PutChar(out, n, next, '-');
    }
    next := PutDigits(out, n, next, num);
  }

  method PutPointer(out: array<char>, n: nat, pos: nat, num: int, count: nat) returns (next: nat)
    requires n <= out.Length
    modifies out
    ensures next == pos + 2 + count && out[..] == Put(old(out[..]), n, pos, "0x" + HexDigits(num, count))
  {
    ghost var o := out[..];
    PutJoin(o, n, pos, ['0'], ['x']);
    PutJoin(o, n, pos, "0x", HexDigits(num, count));
    next := PutChar(out, n, pos, '0');
    next := PutChar(out, n, next, 'x');
    assert ['0'] + ['x'] == "0x";
    next := PutHex(out, n, next, num, count);
  }

  /** The directives that always take their argument. */
  method PutToken(out: array<char>, n: nat, pos: nat, t: Token, a: Arg) returns (next: nat)
    requires n <= out.Length && (t.Hex? || t.Decimal? || t.Text?)
    modifies out
    ensures next == pos + |Show(t, a)| && out[..] == Put(old(out[..]), n, pos, Show(t, a))
  {
    match t
    case Hex(prefix, long) =>
      var count := if long then 16 else 8;
      if prefix {
        next := PutPointer(out, n, pos, a.num, count);
      } else {
        next := PutHex(out, n, pos, a.num, count);
        assert "" + HexDigits(a.num, count) == HexDigits(a.num, count);
      }
    case Decimal(long) =>
      next := PutDecimal(out, n, pos, if long then a.num else AsInt(a.num));
    case Text =>
      next := PutText(out, n, pos, a.str);
  }

  /** What is done and what is to come make up the whole. */
  ghost predicate Midway(s: string, args: seq<Arg>, n: nat, i: nat, format: bool, long: bool, rest: seq<Arg>,
                         done: string) {
    && i <= |s|
    && done + Emitted(Parse(s[i..], format, long), rest, |done|, n) == Emitted(Parse(s, false, false), args, 0, n)
  }

  /** A character that makes no token. */
  lemma Skip(s: string, args: seq<Arg>, n: nat, i: nat, format: bool, long: bool, rest: seq<Arg>, done: string)
    requires Midway(s, args, n, i, format, long, rest, done) && i < |s|
    ensures !format && s[i] == '%' ==> Midway(s, args, n, i + 1, true, long, rest, done)
    ensures format && s[i] !in "pxdsc" ==> Midway(s, args, n, i + 1, true, long || s[i] == 'l', rest, done)
  {
    assert s[i..][1..] == s[i + 1..];
  }

  ghost function TokenOf(c: char, long: bool): Token {
    if c == 'p' then Hex(true, true) else if c == 'x' then Hex(false, long)
    else if c == 'd' then Decimal(long) else if c == 's' then Text else Character
  }

  /** A directive that takes its argument. */
  lemma ParseDirective(s: string, i: nat, long: bool)
    requires i < |s| && s[i] in "pxdsc"
    ensures Parse(s[i..], true, long) == [TokenOf(s[i], long)] + Parse(s[i + 1..], false, false)
  {
    assert s[i..][0] == s[i] && s[i..][1..] == s[i + 1..];
  }

  lemma Directive(s: string, args: seq<Arg>, n: nat, i: nat, long: bool, rest: seq<Arg>, done: string)
    requires Midway(s, args, n, i, true, long, rest, done) && i < |s| && s[i] in "pxdsc"
    requires s[i] == 'c' ==> |done| + 1 < n
    ensures Midway(s, args, n, i + 1, false, false, Tail(rest), done + Show(TokenOf(s[i], long), Head(rest)))
  {
    hide Parse, Emitted, Show;
    var t := TokenOf(s[i], long);
    var ts := Parse(s[i + 1..], false, false);
    ParseDirective(s, i, long);
    EmitFirst(t, ts, rest, |done|, n);
    Assoc(done, Show(t, Head(rest)), Emitted(ts, Tail(rest), |done| + |Show(t, Head(rest))|, n));
  }

  lemma EmitFirst(t: Token, ts: seq<Token>, rest: seq<Arg>, pos: nat, n: nat)
    requires Takes(t) && (t.Character? ==> pos + 1 < n)
    ensures Emitted([t] + ts, rest, pos, n) ==
      Show(t, Head(rest)) + Emitted(ts, Tail(rest), pos + |Show(t, Head(rest))|, n)
  {
    assert ([t] + ts)[1..] == ts;
  }

  lemma Assoc(a: string, b: string, c: string)
    ensures a + b + c == a + (b + c)
  {
  }

  /** A %c that does not fit, and a plain character. */
  lemma OneByte(s: string, args: seq<Arg>, n: nat, i: nat, format: bool, long: bool, rest: seq<Arg>, done: string)
    requires Midway(s, args, n, i, format, long, rest, done) && i < |s|
    ensures format && s[i] == 'c' && |done| + 1 >= n ==>
      Midway(s, args, n, i + 1, false, false, rest, done + [0 as char])
    ensures !format && s[i] != '%' ==> Midway(s, args, n, i + 1, false, long, rest, done + [s[i]])
  {
    assert s[i..][1..] == s[i + 1..];
    var later := Parse(s[i + 1..], false, if format then false else long);
    var c := if format then 0 as char else s[i];
    assert ([Character] + later)[1..] == later && ([Literal(s[i])] + later)[1..] == later;
    Assoc(done, [c], Emitted(later, rest, |done| + 1, n));
  }

  /** A buffer of which `n` bytes hold as much of the text as fits, and a NUL behind it. */
  ghost function Stored(o: seq<char>, n: nat, text: string): seq<char>
    requires n <= |o|
  {
    var fits := Take(text, n - 1);
    if n == 0 then o else fits + [0 as char] + o[|fits| + 1..]
  }

  lemma Finished(o: seq<char>, n: nat, done: string, text: string)
    requires n <= |o| && Take(done, n - 1) == Take(text, n - 1)
    ensures n > 0 ==> Put(o, n, 0, done)[if |done| < n then |done| else n - 1 := 0 as char] == Stored(o, n, text)
    ensures n == 0 ==> Put(o, n, 0, done) == o
  {
    if n > 0 {
      var fits := Take(done, n - 1);
      var r := Put(o, n, 0, done)[|fits| := 0 as char];
      assert r[..|fits|] == fits;
      assert r[|fits| + 1..] == o[|fits| + 1..];
      assert r == r[..|fits|] + [r[|fits|]] + r[|fits| + 1..];
    }
  }

  /** The character after a percent sign and what came behind it. */
  method InFormat(out: array<char>, n: nat, s: string, i: nat, long: bool, pos: nat, rest: seq<Arg>,
                  ghost args: seq<Arg>, ghost o: seq<char>, ghost done: string)
    returns (format': bool, long': bool, pos': nat, rest': seq<Arg>, ghost done': string)
    requires n <= out.Length && i < |s| && pos == |done| && out[..] == Put(o, n, 0, done)
    requires Midway(s, args, n, i, true, long, rest, done)
    modifies out
    ensures pos' == |done'| && out[..] == Put(o, n, 0, done')
    ensures Midway(s, args, n, i + 1, format', long', rest', done')
  {
    format', long', pos', rest', done' := false, false, pos, rest, done;
    if s[i] in "pxds" {
      Directive(s, args, n, i, long, rest, done);
      var t := if s[i] == 'p' then Hex(true, true) else if s[i] == 'x' then Hex(false, long)
               else if s[i] == 'd' then Decimal(long) else Text;
      var a := if rest == [] then Arg(0, "") else rest[0];
      PutJoin(o, n, 0, done, Show(t, a));
      pos' := PutToken(out, n, pos, t, a);
      done' := done + Show(t, a);
      rest' := if rest == [] then [] else rest[1..];
    } else if s[i] == 'c' {
      pos', rest', done' := PutCharacter(out, n, s, i, long, pos, rest, args, o, done);
    } else {
      Skip(s, args, n, i, true, long, rest, done);
      format', long' := true, long || s[i] == 'l';
    }
  }

  /** %c takes its argument only when it fits. */
  method PutCharacter(out: array<char>, n: nat, s: string, i: nat, long: bool, pos: nat, rest: seq<Arg>,
                      ghost args: seq<Arg>, ghost o: seq<char>, ghost done: string)
    returns (pos': nat, rest': seq<Arg>, ghost done': string)
    requires n <= out.Length && i < |s| && pos == |done| && out[..] == Put(o, n, 0, done) && s[i] == 'c'
    requires Midway(s, args, n, i, true, long, rest, done)
    modifies out
    ensures pos' == |done'| && out[..] == Put(o, n, 0, done')
    ensures Midway(s, args, n, i + 1, false, false, rest', done')
  {
    if pos + 1 < n {
      Directive(s, args, n, i, long, rest, done);
      var a := if rest == [] then Arg(0, "") else rest[0];
      var c := (a.num % 256) as char;
      assert TokenOf(s[i], long) == Character && Head(rest) == a && Show(Character, a) == [c];
      PutJoin(o, n, 0, done, [c]);
      pos' := PutChar(out, n, pos, c);
      done' := done + [c];
      rest' := if rest == [] then [] else rest[1..];
    } else {
      OneByte(s, args, n, i, true, long, rest, done);
      PutJoin(o, n, 0, done, [0 as char]);
      assert Put(out[..], n, pos, [0 as char]) == out[..];
      pos', rest', done' := pos + 1, rest, done + [0 as char];
    }
  }

  /** vsnprintf, with enough arguments, none of them the minimum long. */
  method Vsnprintf(out: array<char>, n: nat, s: string, args: seq<Arg>) returns (count: nat)
    requires n <= out.Length && ArgCount(Parse(s, false, false)) <= |args|
    requires forall i :: 0 <= i < |args| ==> -0x8000_0000_0000_0000 < args[i].num < 0x8000_0000_0000_0000
    modifies out
    ensures count == |Emitted(Parse(s, false, false), args, 0, n)|
    ensures out[..] == Stored(old(out[..]), n, Render(Parse(s, false, false), args))
    ensures !Starved(Parse(s, false, false), args, 0, n) ==> count == |Render(Parse(s, false, false), args)|
  {
    ghost var o, done := out[..], "";
    var format, long, pos, rest := false, false, 0, args;
    var i := 0;
    PutNone(o, n, 0);
    assert s[0..] == s;
    while i < |s|
      invariant i <= |s| && pos == |done| && out[..] == Put(o, n, 0, done)
      invariant Midway(s, args, n, i, format, long, rest, done)
    {
      if format {
        format, long, pos, rest, done := InFormat(out, n, s, i, long, pos, rest, args, o, done);
      } else if s[i] == '%' {
        Skip(s, args, n, i, format, long, rest, done);
        format := true;
      } else {
        OneByte(s, args, n, i, format, long, rest, done);
        PutJoin(o, n, 0, done, [s[i]]);
        pos := PutChar(out, n, pos, s[i]);
        done := done + [s[i]];
      }
      i := i + 1;
    }
    assert done + "" == done;
    EmittedIs(o, n, Parse(s, false, false), args);
    Terminate(out, n, pos);
    count := pos;
  }

  /** The code's text, cut off and terminated, is the rendering cut off and terminated. */
  lemma EmittedIs(o: seq<char>, n: nat, ts: seq<Token>, args: seq<Arg>)
    requires n <= |o|
    ensures var done := Emitted(ts, args, 0, n);
      && (n > 0 ==>
        Put(o, n, 0, done)[if |done| < n then |done| else n - 1 := 0 as char] == Stored(o, n, Render(ts, args)))
      && (n == 0 ==> Put(o, n, 0, done) == Stored(o, n, Render(ts, args)))
      && (!Starved(ts, args, 0, n) ==> |done| == |Render(ts, args)|)
  {
    FitsIsRight(ts, args, 0, n);
    Finished(o, n, Emitted(ts, args, 0, n), Render(ts, args));
    if !Starved(ts, args, 0, n) {
      CountIsRight(ts, args, 0, n);
    }
  }

  method Terminate(out: array<char>, n: nat, pos: nat)
    requires n <= out.Length
    modifies out
    ensures out[..] == if n == 0 then old(out[..]) else old(out[..])[if pos < n then pos else n - 1 := 0 as char]
  {
    if pos < n {
      out[pos] := 0 as char;
    } else if n > 0 {
      out[n - 1] := 0 as char;
    }
  }

  /** atol */
  method ReadLong(str: string) returns (r: int)
    ensures r == Atol(str)
  {
    var i := 0;
    assert str[0..] == str;
    while i < |str| && str[i] == ' '
      invariant 0 <= i <= |str| && SkipSpaces(str[i..]) == SkipSpaces(str)
    {
      assert str[i..][1..] == str[i + 1..];
      i := i + 1;
    }
    var negative := false;
    ghost var t := str[i..];
    assert SkipSpaces(t) == t;
    if i < |str| && (str[i] == '-' || str[i] == '+') {
      negative := str[i] == '-';
      assert str[i..][1..] == str[i + 1..];
      i := i + 1;
    }
    ghost var digits := str[i..];
    var res := 0;
    while i < |str|
      invariant 0 <= i <= |str| && Fold(str[i..], res) == Fold(digits, 0)
    {
      assert str[i..][1..] == str[i + 1..];
      res := res * 10 + (str[i] as int - '0' as int);
      i := i + 1;
    }
    r := if negative then -res else res;
  }
}
