/**
 The line-number program of kernel/elf.c (section 6.2 of DWARF version 3): its opcodes, the
 table of rows it builds, and the row that print_error_line of kernel/process.c picks.
 */
module LineTable {
  import opened Leb128

  /** The header fields that the opcodes use. */
  datatype Header = Header(minInstruction: int, lineBase: int, lineRange: int, opcodeBase: int)

  /** The registers, and a row of the table. */
  datatype Row = Row(addr: int, line: int, file: int)

  datatype State = State(regs: Row, rows: seq<Row>)

  datatype Op =
    | Copy
    | EndSequence
    | SetAddress(addr: int)
    | SetDiscriminator(d: nat)
    | AdvancePc(d: nat)
    | AdvanceLine(delta: int)
    | SetFile(file: nat)
    | SetColumn(column: nat)
    | NegateStmt
    | SetBasicBlock
    | ConstAddPc
    | FixedAdvancePc(d: nat)
    | Special(op: int)

  /** A row is added; it replaces the last one when that has the same address. */
  function Emit(rows: seq<Row>, row: Row): seq<Row> {
    (if rows != [] && rows[|rows| - 1].addr == row.addr then rows[..|rows| - 1] else rows) + [row]
  }

  /** The row that the registers stand for in a unit whose files start at `base`. */
  function RowOf(regs: Row, base: int): Row {
    regs.(file := (regs.file + base - 1) % TWO64)
  }

  /** The quotient of C, which truncates. */
  function Quotient(a: int, b: int): int
    requires b > 0
  {
    if a >= 0 then a / b else -(-a / b)
  }

  function Remainder(a: int, b: int): int
    requires b > 0
  {
    a - Quotient(a, b) * b
  }

  /** A special opcode's move. Registers are 64 bits wide. */
  function Moved(h: Header, regs: Row, op: int): Row
    requires h.lineRange > 0
  {
    var adjust := op - h.opcodeBase;
    Row((regs.addr + Quotient(adjust, h.lineRange) * h.minInstruction) % TWO64,
        (regs.line + h.lineBase + Remainder(adjust, h.lineRange)) % TWO64, regs.file)
  }

  /** What read_sleb128 makes of a line delta: the delta itself by SignedRoundTripIff, or not. */
  function ReadBack(delta: int): int {
    SlebIgnoresRest(delta, []);
    SlebValue(Sleb(delta))
  }

  /** One opcode on the registers, before any row is added. */
  function Register(h: Header, regs: Row, op: Op): Row
    requires h.lineRange > 0
  {
    match op
    case SetAddress(a) => regs.(addr := a)
    case AdvancePc(d) => regs.(addr := (regs.addr + d * h.minInstruction) % TWO64)
    case AdvanceLine(delta) => regs.(line := (regs.line + ReadBack(delta)) % TWO64)
    case SetFile(f) => regs.(file := f)
    case ConstAddPc => regs.(addr := (regs.addr + Quotient(255 - h.opcodeBase, h.lineRange) * h.minInstruction) % TWO64)
    case FixedAdvancePc(d) => regs.(addr := (regs.addr + d) % TWO64)
    case Special(o) => Moved(h, regs, o)
    case _ => regs
  }

  predicate Adds(op: Op) {
    op.Copy? || op.EndSequence? || op.Special?
  }

  function Exec(h: Header, base: int, st: State, op: Op): State
    requires h.lineRange > 0
  {
    var regs := Register(h, st.regs, op);
    State(regs, if Adds(op) then Emit(st.rows, RowOf(regs, base)) else st.rows)
  }

  /**
   Standard opcodes 10, 11 and 12 of section 6.2.5.2 of DWARF version 3 are run as special ones: with the usual
   opcode_base of 13 they add a row at the same address, on another line.
   */
  lemma LaterOpcodesAddRows(h: Header, base: int, st: State, op: int)
    requires 10 <= op <= 12 && h.opcodeBase == 13 && h.lineRange > 3 && 0 <= st.regs.addr < TWO64
    ensures var regs := Exec(h, base, st, Special(op)).regs;
      && regs.addr == st.regs.addr && regs.line == (st.regs.line + h.lineBase - (13 - op)) % TWO64
      && Exec(h, base, st, Special(op)).rows == Emit(st.rows, RowOf(regs, base))
  {
    SmallQuotient(op - 13, h.lineRange);
  }

  lemma SmallQuotient(a: int, b: int)
    requires -b < a <= 0
    ensures Quotient(a, b) == 0 && Remainder(a, b) == a
  {
    Below(-a, b);
    if a == 0 { Below(a, b); }
    assert 0 * b == 0;
  }

  lemma Below(a: int, b: int)
    requires 0 <= a < b
    ensures a / b == 0
  {
    AtLeastOnce(b, a / b);
  }

  lemma AtLeastOnce(b: int, q: int)
    requires b > 0
    ensures (q >= 1 ==> b * q >= b) && (q <= -1 ==> b * q <= -b)
  {
    if q >= 1 {
      assert b * q == b + b * (q - 1);
    } else if q <= -1 {
      assert b * q == -b + b * (q + 1);
    }
  }

  ghost function ExecAll(h: Header, base: int, st: State, ops: seq<Op>): State
    requires h.lineRange > 0
    decreases |ops|
  {
    if ops == [] then st else ExecAll(h, base, Exec(h, base, st, ops[0]), ops[1..])
  }

  // ---- what the opcodes mean (sections 6.2.5.1 to 6.2.5.3 of DWARF version 3) ----

  /** From `st`, a program leaves these registers, and adds the row they show. */
  ghost predicate AddsRow(st: State, st': State, base: int, addr: int, line: int, file: int) {
    st'.regs == Row(addr, line, file) && st'.rows == Emit(st.rows, Row(addr, line, (file + base - 1) % TWO64))
  }

  /** From `st`, a program leaves these registers, and adds no row. */
  ghost predicate Moves(st: State, st': State, addr: int, line: int, file: int) {
    st'.regs == Row(addr, line, file) && st'.rows == st.rows
  }

  lemma {:induction false} ExecOne(h: Header, base: int, st: State, op: Op, ops: seq<Op>)
    requires h.lineRange > 0
    ensures ExecAll(h, base, st, [op] + ops) == ExecAll(h, base, Exec(h, base, st, op), ops)
  {
    assert ([op] + ops)[1..] == ops;
  }

  lemma ReaderInverts(l: int)
    requires -0x800_0000 <= l < TWO63 || -TWO63 <= l < -0x4000_0000_0000_0000
    ensures ReadBack(l) == l
  {
    SignedRoundTripIff(l, []);
    SlebIgnoresRest(l, []);
  }

  /** advance_pc, advance_line, copy: a row `q` instructions and `l` lines on. */
  lemma AdvanceAndCopy(h: Header, base: int, st: State, q: nat, l: int)
    requires h.lineRange > 0 && (-0x800_0000 <= l < TWO63 || -TWO63 <= l < -0x4000_0000_0000_0000)
    ensures AddsRow(st, ExecAll(h, base, st, [AdvancePc(q), AdvanceLine(l), Copy]), base,
                    (st.regs.addr + q * h.minInstruction) % TWO64, (st.regs.line + l) % TWO64, st.regs.file)
  {
    hide ReadBack;
    ReaderInverts(l);
    var st1 := Exec(h, base, st, AdvancePc(q));
    var st2 := Exec(h, base, st1, AdvanceLine(l));
    var st3 := Exec(h, base, st2, Copy);
    assert [AdvancePc(q), AdvanceLine(l), Copy] == [AdvancePc(q)] + ([AdvanceLine(l)] + ([Copy] + []));
    ExecOne(h, base, st, AdvancePc(q), [AdvanceLine(l)] + ([Copy] + []));
    ExecOne(h, base, st1, AdvanceLine(l), [Copy] + []);
    ExecOne(h, base, st2, Copy, []);
  }

  /** The special opcode for `q` instructions and `l` lines adds the same row. */
  lemma SpecialDoesBoth(h: Header, base: int, st: State, q: nat, l: int)
    requires h.lineRange > 0 && h.lineBase <= l < h.lineBase + h.lineRange
    ensures AddsRow(st, Exec(h, base, st, Special(l - h.lineBase + h.lineRange * q + h.opcodeBase)), base,
                    (st.regs.addr + q * h.minInstruction) % TWO64, (st.regs.line + l) % TWO64, st.regs.file)
  {
    QuotientIs(l - h.lineBase, q, h.lineRange);
  }

  lemma QuotientIs(r: int, q: nat, b: int)
    requires 0 <= r < b
    ensures Quotient(r + b * q, b) == q && Remainder(r + b * q, b) == r
  {
    var a := r + b * q;
    AtLeastOnce(b, q);
    var d := a / b - q;
    assert b * (a / b) == b * q + b * d;
    AtLeastOnce(b, d);
  }

  /** const_add_pc moves the address as special opcode 255 does, and nothing else. */
  lemma ConstAddsAs255(h: Header, base: int, st: State)
    requires h.lineRange > 0
    ensures Moves(st, Exec(h, base, st, ConstAddPc), Exec(h, base, st, Special(255)).regs.addr, st.regs.line,
                  st.regs.file)
  {
  }

  /** set_address, fixed_advance_pc and set_file set what the next row shows. */
  lemma SetsShow(h: Header, base: int, st: State, a: int, d: nat, f: nat)
    requires h.lineRange > 0
    ensures AddsRow(st, ExecAll(h, base, st, [SetAddress(a), Copy]), base, a, st.regs.line, st.regs.file)
    ensures AddsRow(st, ExecAll(h, base, st, [FixedAdvancePc(d), Copy]), base, (st.regs.addr + d) % TWO64,
                    st.regs.line, st.regs.file)
    ensures AddsRow(st, ExecAll(h, base, st, [SetFile(f), Copy]), base, st.regs.addr, st.regs.line, f)
  {
    Two(h, base, st, SetAddress(a), Copy);
    Two(h, base, st, FixedAdvancePc(d), Copy);
    Two(h, base, st, SetFile(f), Copy);
  }

  lemma Two(h: Header, base: int, st: State, a: Op, b: Op)
    requires h.lineRange > 0
    ensures ExecAll(h, base, st, [a, b]) == Exec(h, base, Exec(h, base, st, a), b)
  {
    assert [a, b] == [a] + ([b] + []);
    ExecOne(h, base, st, a, [b] + []);
    ExecOne(h, base, Exec(h, base, st, a), b, []);
  }

  /** end_sequence adds the last row; the remaining opcodes change nothing that a row shows. */
  lemma OthersShowNothing(h: Header, base: int, st: State, op: Op)
    requires h.lineRange > 0
    ensures AddsRow(st, Exec(h, base, st, EndSequence), base, st.regs.addr, st.regs.line, st.regs.file)
    ensures op.SetDiscriminator? || op.SetColumn? || op.NegateStmt? || op.SetBasicBlock? ==> Exec(h, base, st, op) == st
  {
  }

  /** The rows the program adds, before any is replaced. */
  ghost function Added(h: Header, base: int, regs: Row, ops: seq<Op>): seq<Row>
    requires h.lineRange > 0
    decreases |ops|
  {
    if ops == [] then []
    else
      var regs' := Register(h, regs, ops[0]);
      (if Adds(ops[0]) then [RowOf(regs', base)] else []) + Added(h, base, regs', ops[1..])
  }

  ghost function EmitAll(rows: seq<Row>, added: seq<Row>): seq<Row>
    decreases |added|
  {
    if added == [] then rows else EmitAll(Emit(rows, added[0]), added[1..])
  }

  lemma {:induction false} ExecIsEmit(h: Header, base: int, st: State, ops: seq<Op>)
    requires h.lineRange > 0
    ensures ExecAll(h, base, st, ops).rows == EmitAll(st.rows, Added(h, base, st.regs, ops))
    decreases |ops|
  {
    if ops != [] {
      ExecIsEmit(h, base, Exec(h, base, st, ops[0]), ops[1..]);
      var regs' := Register(h, st.regs, ops[0]);
      var later := Added(h, base, regs', ops[1..]);
      if Adds(ops[0]) {
        assert ([RowOf(regs', base)] + later)[1..] == later;
      } else {
        assert [] + later == later;
      }
    }
  }

  ghost predicate NoNeighbours(rows: seq<Row>) {
    forall i :: 0 <= i < |rows| - 1 ==> rows[i].addr != rows[i + 1].addr
  }

  ghost predicate Increasing(rows: seq<Row>) {
    forall i, j :: 0 <= i < j < |rows| ==> rows[i].addr < rows[j].addr
  }

  ghost predicate NeverBack(rows: seq<Row>) {
    forall i, j :: 0 <= i < j < |rows| ==> rows[i].addr <= rows[j].addr
  }

  /** No run of the line program leaves two neighbouring rows with the same address. */
  lemma {:induction false} RunsLeaveNoNeighbours(rows: seq<Row>, added: seq<Row>)
    requires NoNeighbours(rows)
    ensures NoNeighbours(EmitAll(rows, added))
    decreases |added|
  {
    if added != [] {
      RunsLeaveNoNeighbours(Emit(rows, added[0]), added[1..]);
    }
  }

  /** When addresses never go back, the table is strictly increasing. */
  lemma {:induction false} RunsIncrease(rows: seq<Row>, added: seq<Row>)
    requires Increasing(rows) && NeverBack(added)
    requires forall i, k :: 0 <= i < |rows| && 0 <= k < |added| ==> rows[i].addr <= added[k].addr
    ensures Increasing(EmitAll(rows, added))
    decreases |added|
  {
    if added != [] {
      var next := Emit(rows, added[0]);
      assert forall i :: 0 <= i < |next| - 1 ==> next[i] == rows[i];
      assert forall i :: 0 <= i < |rows| - 1 ==> rows[i].addr < rows[|rows| - 1].addr <= added[0].addr;
      RunsIncrease(next, added[1..]);
    }
  }

  /** Of neighbouring rows with one address, the last stays in the table. */
  lemma {:induction false} LastRowStays(rows: seq<Row>, added: seq<Row>, k: nat)
    requires k < |added| && (k + 1 < |added| ==> added[k + 1].addr != added[k].addr)
    ensures added[k] in EmitAll(rows, added)
    decreases |added|
  {
    var next := Emit(rows, added[0]);
    if k > 0 {
      LastRowStays(next, added[1..], k - 1);
    } else {
      assert next[|next| - 1] == added[0];
      RowStays(next, added[1..], |next| - 1);
    }
  }

  /** A row with another behind it, or with no more rows of its address to come, stays. */
  lemma {:induction false} RowStays(rows: seq<Row>, added: seq<Row>, i: nat)
    requires i < |rows| && (i < |rows| - 1 || (added != [] ==> added[0].addr != rows[i].addr))
    ensures i < |EmitAll(rows, added)| && EmitAll(rows, added)[i] == rows[i]
    decreases |added|
  {
    if added != [] {
      RowStays(Emit(rows, added[0]), added[1..], i);
    }
  }

  /** print_error_line's loop: the row before the first one above `mepc`, -1 before the table, -2 when there is none. */
  method SelectRow(rows: seq<Row>, mepc: int) returns (k: int)
    ensures k == -2 <==> forall i :: 0 <= i < |rows| ==> rows[i].addr <= mepc
    ensures k != -2 ==> -1 <= k < |rows| - 1 && rows[k + 1].addr > mepc && forall i :: 0 <= i <= k ==>
      rows[i].addr <= mepc
  {
    var i := 0;
    while i < |rows|
      invariant 0 <= i <= |rows| && forall j :: 0 <= j < i ==> rows[j].addr <= mepc
    {
      if rows[i].addr > mepc {
        return i - 1;
      }
      i := i + 1;
    }
    return -2;
  }

  /** The row for an address: it is not above it, and the next row is. */
  ghost predicate RowFor(rows: seq<Row>, mepc: int, k: int) {
    0 <= k < |rows| - 1 && rows[k].addr <= mepc < rows[k + 1].addr
  }

  /** In an increasing table, for an address from the first row up to the last, the loop picks the one row for it. */
  lemma SelectsTheRow(rows: seq<Row>, mepc: int, k: int)
    requires Increasing(rows) && rows != [] && rows[0].addr <= mepc < rows[|rows| - 1].addr
    requires -1 <= k < |rows| - 1 && rows[k + 1].addr > mepc && forall i :: 0 <= i <= k ==> rows[i].addr <= mepc
    ensures forall j :: RowFor(rows, mepc, j) <==> j == k
  {
    assert k >= 0;
    assert forall j :: k + 1 < j < |rows| ==> rows[k + 1].addr < rows[j].addr;
  }

  /** Little-endian bytes. */
  function Le(v: int, n: nat): (s: seq<int>)
    ensures |s| == n && forall i :: 0 <= i < n ==> 0 <= s[i] < 256
    decreases n
  {
    if n == 0 then [] else [v % 256] + Le(v / 256, n - 1)
  }

  /** How an opcode is written. */
  ghost function Encode(op: Op): seq<int> {
    match op
    case Copy => [1]
    case EndSequence => [0] + (Uleb(1) + [1])
    case SetAddress(a) => [0] + (Uleb(9) + ([2] + Le(a, 8)))
    case SetDiscriminator(d) => [0] + (Uleb(1 + |Uleb(d)|) + ([4] + Uleb(d)))
    case AdvancePc(d) => [2] + Uleb(d)
    case AdvanceLine(delta) => [3] + Sleb(delta)
    case SetFile(f) => [4] + Uleb(f)
    case SetColumn(c) => [5] + Uleb(c)
    case NegateStmt => [6]
    case SetBasicBlock => [7]
    case ConstAddPc => [8]
    case FixedAdvancePc(d) => [9] + Le(d, 2)
    case Special(o) => [o]
  }

  /** Operands that fit their registers, and the codes that the switch takes for special ones. */
  ghost predicate OpOk(op: Op) {
    match op
    case SetAddress(a) => 0 <= a < TWO64
    case SetDiscriminator(d) => d < TWO64
    case AdvancePc(d) => d < TWO64
    case AdvanceLine(delta) => -TWO63 <= delta < TWO63
    case SetFile(f) => f < TWO64
    case SetColumn(c) => c < TWO64
    case FixedAdvancePc(d) => d < 0x1_0000
    case Special(o) => 10 <= o < 256
    case _ => true
  }

  ghost predicate AllBytes(s: seq<int>) {
    forall i :: 0 <= i < |s| ==> 0 <= s[i] < 256
  }

  lemma {:induction false} LeRoundTrip(v: int, n: nat)
    requires 0 <= v < Pow(256, n)
    ensures LeValue(Le(v, n)) == v
    decreases n
  {
    if n > 0 {
      LeRoundTrip(v / 256, n - 1);
      assert Le(v, n)[1..] == Le(v / 256, n - 1);
    }
  }

  function LeValue(s: seq<int>): int {
    if s == [] then 0 else s[0] + 256 * LeValue(s[1..])
  }

  /** read_uint64 and read_uint16: bytes from the lowest up. */
  method ReadLe(mem: seq<int>, off: nat, n: nat) returns (value: int, next: nat)
    requires off + n <= |mem|
    ensures value == LeValue(mem[off..off + n]) && next == off + n
  {
    value, next := 0, off;
    var unit := 1;
    ghost var s := mem[off..off + n];
    while next < off + n
      invariant off <= next <= off + n && value + unit * LeValue(mem[next..off + n]) == LeValue(s)
    {
      ghost var later := mem[next..off + n];
      assert later[0] == mem[next] && later[1..] == mem[next + 1..off + n];
      Shift(unit, mem[next], LeValue(mem[next + 1..off + n]));
      value := value + mem[next] * unit;
      unit := unit * 256;
      next := next + 1;
    }
    assert mem[next..off + n] == [];
  }

  lemma Shift(unit: int, b: int, later: int)
    ensures unit * (b + 256 * later) == b * unit + unit * 256 * later
  {
  }

  /** `mem` goes on from `off` with these bytes and then `rest`. */
  ghost predicate Follows(mem: seq<int>, off: nat, s: seq<int>, rest: seq<int>) {
    off <= |mem| && mem[off..] == s + rest && AllBytes(mem)
  }

  lemma FollowsByte(mem: seq<int>, off: nat, b: int, s: seq<int>, rest: seq<int>)
    requires Follows(mem, off, [b] + s, rest)
    ensures off < |mem| && mem[off] == b && Follows(mem, off + 1, s, rest)
  {
    assert mem[off] == mem[off..][0];
    assert mem[off + 1..] == mem[off..][1..];
    assert ([b] + s + rest)[1..] == s + rest;
  }

  lemma FollowsPart(mem: seq<int>, off: nat, s: seq<int>, t: seq<int>, rest: seq<int>)
    requires Follows(mem, off, s + t, rest)
    ensures Follows(mem, off, s, t + rest) && off + |s| <= |mem| && Follows(mem, off + |s|, t, rest)
  {
    assert s + t + rest == s + (t + rest);
    assert mem[off + |s|..] == mem[off..][|s|..];
  }

  method TakeUleb(mem: seq<int>, off: nat, ghost v: nat, ghost rest: seq<int>) returns (value: nat, next: nat)
    requires Follows(mem, off, Uleb(v), rest) && v < TWO64
    ensures value == v && next == off + |Uleb(v)| <= |mem| && Follows(mem, next, [], rest)
  {
    assert AllBytes(rest) by {
      assert forall i :: 0 <= i < |rest| ==> rest[i] == mem[off..][|Uleb(v)| + i];
    }
    UnsignedRoundTrip(v, rest);
    value, next := ReadUleb(mem, off);
    assert mem[next..] == mem[off..][|Uleb(v)|..];
  }

  method TakeSleb(mem: seq<int>, off: nat, ghost v: int, ghost rest: seq<int>) returns (value: int, next: nat)
    requires Follows(mem, off, Sleb(v), rest) && -TWO63 <= v < TWO63
    ensures value == ReadBack(v) && next == off + |Sleb(v)| <= |mem| && Follows(mem, next, [], rest)
  {
    SignedRoundTripIff(v, rest);
    SlebIgnoresRest(v, rest);
    SlebGroups(v, rest);
    assert (Sleb(v) + rest)[|Sleb(v)| - 1] == Sleb(v)[|Sleb(v)| - 1];
    assert forall i :: 0 <= i < |mem[off..]| ==> mem[off..][i] == mem[off + i];
    value, next := ReadSleb(mem, off);
    assert mem[next..] == mem[off..][|Sleb(v)|..];
  }

  method TakeLe(mem: seq<int>, off: nat, n: nat, ghost v: int, ghost rest: seq<int>) returns (value: int, next: nat)
    requires Follows(mem, off, Le(v, n), rest) && 0 <= v < Pow(256, n)
    ensures value == v && next == off + n <= |mem| && Follows(mem, next, [], rest)
  {
    assert mem[off..off + n] == mem[off..][..n] == Le(v, n);
    LeRoundTrip(v, n);
    value, next := ReadLe(mem, off, n);
    assert mem[next..] == mem[off..][n..];
  }

  ghost predicate IsExtended(op: Op) {
    op.EndSequence? || op.SetAddress? || op.SetDiscriminator?
  }

  /** What follows the zero byte and the length of an extended opcode. */
  ghost function Body(op: Op): seq<int> {
    match op
    case EndSequence => [1]
    case SetAddress(a) => [2] + Le(a, 8)
    case SetDiscriminator(d) => [4] + Uleb(d)
    case _ => []
  }

  ghost function BodyLength(op: Op): nat {
    match op
    case SetAddress(a) => 9
    case SetDiscriminator(d) => 1 + |Uleb(d)|
    case _ => 1
  }

  lemma EncodeExtended(op: Op)
    requires IsExtended(op) && OpOk(op)
    ensures Encode(op) == [0] + (Uleb(BodyLength(op)) + Body(op)) && BodyLength(op) < TWO64
  {
    if op.SetDiscriminator? {
      UnsignedRoundTrip(op.d, []);
    }
  }

  lemma Pow256()
    ensures Pow(256, 2) == 0x1_0000 && Pow(256, 8) == TWO64
  {
    assert Pow(256, 2) == 256 * Pow(256, 1);
    assert Pow(256, 4) == 256 * Pow(256, 3) && Pow(256, 3) == 256 * Pow(256, 2);
    assert Pow(256, 6) == 256 * Pow(256, 5) && Pow(256, 5) == 256 * Pow(256, 4);
    assert Pow(256, 8) == 256 * Pow(256, 7) && Pow(256, 7) == 256 * Pow(256, 6);
  }

  /** Opcode 0, from its length on. */
  method StepExtended(mem: seq<int>, off: nat, h: Header, base: int, st: State, ghost op: Op, ghost rest: seq<int>)
    returns (st': State, next: nat, done: bool)
    requires h.lineRange > 0 && IsExtended(op) && OpOk(op) && BodyLength(op) < TWO64
    requires Follows(mem, off, Uleb(BodyLength(op)) + Body(op), rest)
    ensures st' == Exec(h, base, st, op) && done == op.EndSequence?
    ensures next <= |mem| && Follows(mem, next, [], rest)
  {
    hide Follows, Uleb, Le;
    FollowsPart(mem, off, Uleb(BodyLength(op)), Body(op), rest);
    var length;
    length, next := TakeUleb(mem, off, BodyLength(op), Body(op) + rest);
    st', done := st, false;
    ghost var operand := Body(op)[1..];
    assert Body(op) == [Body(op)[0]] + operand;
    FollowsByte(mem, next, Body(op)[0], operand, rest);
    var code := mem[next];
    next := next + 1;
    if code == 1 {
      assert operand == [];
      st' := st.(rows := Emit(st.rows, RowOf(st.regs, base)));
      done := true;
    } else if code == 2 {
      Pow256();
      var a;
      a, next := TakeLe(mem, next, 8, op.addr, rest);
      st' := st.(regs := st.regs.(addr := a));
    } else if code == 4 {
      var d;
      d, next := TakeUleb(mem, next, op.d, rest);
    }
  }

  /** Opcodes with one operand. */
  method StepOperand(mem: seq<int>, off: nat, code: int, h: Header, regs: Row, ghost op: Op, ghost rest: seq<int>)
    returns (regs': Row, next: nat)
    requires h.lineRange > 0 && OpOk(op) && code in {2, 3, 4, 5, 9} && Encode(op)[0] == code && !op.Special?
    requires !IsExtended(op)
    requires Follows(mem, off, Encode(op)[1..], rest)
    ensures regs' == Register(h, regs, op) && next <= |mem| && Follows(mem, next, [], rest)
  {
    regs' := regs;
    ghost var operand := Encode(op)[1..];
    if code == 2 {
      assert op.AdvancePc? && operand == Uleb(op.d);
      var d;
      d, next := TakeUleb(mem, off, op.d, rest);
      regs' := regs.(addr := (regs.addr + d * h.minInstruction) % TWO64);
    } else if code == 3 {
      assert op.AdvanceLine? && operand == Sleb(op.delta);
      var delta;
      delta, next := TakeSleb(mem, off, op.delta, rest);
      regs' := regs.(line := (regs.line + delta) % TWO64);
    } else if code == 4 {
      assert op.SetFile? && operand == Uleb(op.file);
      var f;
      f, next := TakeUleb(mem, off, op.file, rest);
      regs' := regs.(file := f);
    } else if code == 5 {
      assert op.SetColumn? && operand == Uleb(op.column);
      var c;
      c, next := TakeUleb(mem, off, op.column, rest);
    } else {
      assert op.FixedAdvancePc? && operand == Le(op.d, 2);
      Pow256();
      var d;
      d, next := TakeLe(mem, off, 2, op.d, rest);
      regs' := regs.(addr := (regs.addr + d) % TWO64);
    }
  }

  /** One turn of the opcode loop. */
  method Step(mem: seq<int>, off: nat, h: Header, base: int, st: State, ghost op: Op, ghost rest: seq<int>)
    returns (st': State, next: nat, done: bool)
    requires h.lineRange > 0 && OpOk(op) && Follows(mem, off, Encode(op), rest)
    ensures st' == Exec(h, base, st, op) && done == op.EndSequence?
    ensures next <= |mem| && Follows(mem, next, [], rest)
  {
    hide Follows, Uleb, Sleb, Le;
    ghost var tail := Encode(op)[1..];
    assert Encode(op) == [Encode(op)[0]] + tail;
    FollowsByte(mem, off, Encode(op)[0], tail, rest);
    var code := mem[off];
    st', next, done := st, off + 1, false;
    if code == 0 {
      EncodeExtended(op);
      assert tail == Uleb(BodyLength(op)) + Body(op);
      st', next, done := StepExtended(mem, next, h, base, st, op, rest);
    } else if code == 1 {
      st' := st.(rows := Emit(st.rows, RowOf(st.regs, base)));
    } else if code in {2, 3, 4, 5, 9} {
      var regs;
      regs, next := StepOperand(mem, next, code, h, st.regs, op, rest);
      st' := st.(regs := regs);
    } else if code == 6 || code == 7 {
    } else if code == 8 {
      var adjust := 255 - h.opcodeBase;
      st' := st.(regs := st.regs.(addr := (st.regs.addr + Quotient(adjust, h.lineRange) * h.minInstruction) % TWO64));
    } else {
      var regs := Moved(h, st.regs, code);
      st' := State(regs, Emit(st.rows, RowOf(regs, base)));
    }
  }

  ghost function EncodeAll(ops: seq<Op>): seq<int>
    decreases |ops|
  {
    if ops == [] then [] else Encode(ops[0]) + EncodeAll(ops[1..])
  }

  /** One sequence: opcodes, the last of which ends it. */
  ghost predicate Sequence(ops: seq<Op>) {
    && ops != [] && (forall i :: 0 <= i < |ops| ==> OpOk(ops[i]))
    && (forall i :: 0 <= i < |ops| ==> (ops[i].EndSequence? <==> i == |ops| - 1))
  }

  /** The opcode loop of make_addr_line: decoding and running the bytes of a program is running the program. */
  method RunProgram(mem: seq<int>, off: nat, h: Header, base: int, rows: seq<Row>, ghost ops: seq<Op>,
                    ghost rest: seq<int>)
    returns (rows': seq<Row>, next: nat)
    requires h.lineRange > 0 && Sequence(ops) && Follows(mem, off, EncodeAll(ops), rest)
    ensures rows' == ExecAll(h, base, State(Row(0, 1, 1), rows), ops).rows
    ensures next <= |mem| && mem[next..] == rest
  {
    var st := State(Row(0, 1, 1), rows);
    ghost var left := ops;
    var done := false;
    next := off;
    while !done
      invariant next <= |mem| && Follows(mem, next, EncodeAll(left), rest)
      invariant ExecAll(h, base, st, left) == ExecAll(h, base, State(Row(0, 1, 1), rows), ops)
      invariant if done then left == [] else Sequence(left)
      decreases |left|
    {
      ghost var later := EncodeAll(left[1..]);
      FollowsPart(mem, next, Encode(left[0]), later, rest);
      st, next, done := Step(mem, next, h, base, st, left[0], later + rest);
      assert [] + (later + rest) == later + rest;
      left := left[1..];
    }
    rows' := st.rows;
    assert [] + rest == rest;
  }

  /** One compilation unit: its header, where its files start, and its program. */
  datatype Unit = Unit(h: Header, base: int, ops: seq<Op>)

  ghost predicate UnitsOk(units: seq<Unit>) {
    forall i :: 0 <= i < |units| ==> units[i].h.lineRange > 0
  }

  /** make_addr_line's outer loop: all units add to one table. */
  ghost function RunUnits(rows: seq<Row>, units: seq<Unit>): seq<Row>
    requires UnitsOk(units)
    decreases |units|
  {
    if units == [] then rows
    else
      var u := units[0];
      RunUnits(ExecAll(u.h, u.base, State(Row(0, 1, 1), rows), u.ops).rows, units[1..])
  }

  ghost function AllAdded(units: seq<Unit>): seq<Row>
    requires UnitsOk(units)
    decreases |units|
  {
    if units == [] then [] else Added(units[0].h, units[0].base, Row(0, 1, 1), units[0].ops) + AllAdded(units[1..])
  }

  lemma {:induction false} EmitJoin(rows: seq<Row>, a: seq<Row>, b: seq<Row>)
    ensures EmitAll(EmitAll(rows, a), b) == EmitAll(rows, a + b)
    decreases |a|
  {
    if a == [] {
      assert a + b == b;
    } else {
      assert (a + b)[1..] == a[1..] + b;
      EmitJoin(Emit(rows, a[0]), a[1..], b);
    }
  }

  lemma {:induction false} UnitsEmit(rows: seq<Row>, units: seq<Unit>)
    requires UnitsOk(units)
    ensures RunUnits(rows, units) == EmitAll(rows, AllAdded(units))
    decreases |units|
  {
    if units != [] {
      var u := units[0];
      var st := State(Row(0, 1, 1), rows);
      ExecIsEmit(u.h, u.base, st, u.ops);
      UnitsEmit(ExecAll(u.h, u.base, st, u.ops).rows, units[1..]);
      EmitJoin(rows, Added(u.h, u.base, Row(0, 1, 1), u.ops), AllAdded(units[1..]));
    }
  }

  /** The table of any units: no equal neighbours, and strictly increasing when the addresses added never go back. */
  lemma TableIsSound(units: seq<Unit>)
    requires UnitsOk(units)
    ensures NoNeighbours(RunUnits([], units))
    ensures NeverBack(AllAdded(units)) ==> Increasing(RunUnits([], units))
  {
    UnitsEmit([], units);
    RunsLeaveNoNeighbours([], AllAdded(units));
    if NeverBack(AllAdded(units)) {
      RunsIncrease([], AllAdded(units));
    }
  }
}
