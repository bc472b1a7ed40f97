/**
 The flattened device tree scanner of spike_interface/dts_parse.c. A tree is flattened
 into big-endian words as section 5.4 of the Devicetree Specification lays out; scanning
 reports its nodes and properties depth first, and overwrites with NOPs the nodes that the
 caller asks to delete.
 */
module Fdt {
  import opened Options

  newtype byte = x: int | 0 <= x < 256

  /** A word in memory, byte by byte. */
  datatype Word = Word(b0: byte, b1: byte, b2: byte, b3: byte)

  /** The number that a word stands for: its bytes from the highest down. */
  function Value(w: Word): nat {
    w.b0 as int * 0x1000000 + w.b1 as int * 0x10000 + w.b2 as int * 0x100 + w.b3 as int
  }

  /** The load of a word on a little-endian machine. */
  function Loaded(w: Word): nat {
    w.b0 as int + w.b1 as int * 0x100 + w.b2 as int * 0x10000 + w.b3 as int * 0x1000000
  }

  /** x & 0x00FF00FF */
  function EvenBytes(x: nat): nat {
    x % 0x100 + x / 0x10000 % 0x100 * 0x10000
  }

  /** x & 0xFF00FF00 */
  function OddBytes(x: nat): nat {
    x / 0x100 % 0x100 * 0x100 + x / 0x1000000 % 0x100 * 0x1000000
  }

  /** bswap on 32 bits. The parts that it joins do not overlap, and no shift loses a bit. */
  function Bswap(x: nat): nat {
    var y := EvenBytes(x) * 0x100 + OddBytes(x) / 0x100;
    y % 0x10000 * 0x10000 + y / 0x10000
  }

  /** It turns the little-endian load of a word into the word's value, which is what the scanner works with. */
  lemma BswapReversesBytes(w: Word)
    ensures Bswap(Loaded(w)) == Value(w)
  {
    hide Loaded, Bswap;
    BytesOf(w);
    BswapOf(Loaded(w), w.b0 as int, w.b1 as int, w.b2 as int, w.b3 as int);
  }

  lemma BswapOf(x: nat, a: int, b: int, c: int, d: int)
    requires 0 <= a < 0x100 && 0 <= b < 0x100 && 0 <= c < 0x100 && 0 <= d < 0x100
    requires x % 0x100 == a && x / 0x100 % 0x100 == b && x / 0x10000 % 0x100 == c && x / 0x1000000 % 0x100 == d
    ensures Bswap(x) == a * 0x1000000 + b * 0x10000 + c * 0x100 + d
  {
    assert EvenBytes(x) == a + c * 0x10000;
    assert OddBytes(x) == b * 0x100 + d * 0x1000000;
    hide EvenBytes, OddBytes;
    Swapped(a, b, c, d);
  }

  lemma Swapped(a: int, b: int, c: int, d: int)
    requires 0 <= a < 0x100 && 0 <= b < 0x100 && 0 <= c < 0x100 && 0 <= d < 0x100
    ensures var y := (a + c * 0x10000) * 0x100 + (b * 0x100 + d * 0x1000000) / 0x100;
      y % 0x10000 == b + a * 0x100 && y / 0x10000 == d + c * 0x100
  {
    assert b * 0x100 + d * 0x1000000 == 0x100 * (b + d * 0x10000);
    var y := b + a * 0x100 + 0x10000 * (d + c * 0x100);
    assert y / 0x10000 == d + c * 0x100;
  }

  /** The four bytes of a load. */
  lemma BytesOf(w: Word)
    ensures Loaded(w) % 0x100 == w.b0 as int && Loaded(w) / 0x100 % 0x100 == w.b1 as int
    ensures Loaded(w) / 0x10000 % 0x100 == w.b2 as int && Loaded(w) / 0x1000000 % 0x100 == w.b3 as int
  {
    var x := Loaded(w);
    assert x / 0x1000000 == w.b3 as int;
    assert x / 0x10000 == w.b2 as int + 0x100 * w.b3 as int;
    assert x / 0x100 == w.b1 as int + 0x100 * (w.b2 as int + 0x100 * w.b3 as int);
  }

  lemma BswapUndoesItself(x: nat)
    requires x < 0x1_0000_0000
    ensures Bswap(Bswap(x)) == x
  {
    hide Bswap;
    var w := WordOf(x);
    BswapReversesBytes(w);
    BswapReversesBytes(Word(w.b3, w.b2, w.b1, w.b0));
  }

  /** Every 32-bit number is the load of some word. */
  lemma WordOf(x: nat) returns (w: Word)
    requires x < 0x1_0000_0000
    ensures Loaded(w) == x
  {
    var y := x / 0x100;
    var z := y / 0x100;
    w := Word((x % 0x100) as byte, (y % 0x100) as byte, (z % 0x100) as byte, (z / 0x100) as byte);
  }

  const BEGIN_NODE := Word(0, 0, 0, 1)
  const END_NODE := Word(0, 0, 0, 2)
  const PROP := Word(0, 0, 0, 3)
  const NOP := Word(0, 0, 0, 4)

  /** What stands between a node's name and its end, in order. */
  datatype Item =
    | Nop
    | Prop(prop: Property)
    | Node(name: seq<byte>, items: seq<Item>)

  /** A property: its length in bytes, its name's offset in the strings, and the words of its value. */
  datatype Property = Property(len: Word, name: Word, value: seq<Word>)

  /** A node, by where it starts. */
  datatype Tree = Tree(at: nat, name: seq<byte>, props: seq<Property>, children: seq<Tree>)

  datatype Event =
    | Open(at: nat, name: seq<byte>)
    | PropEvent(owner: Option<nat>, prop: Property)
    | Done(at: nat)
    | Close(at: nat)

  ghost predicate PropOk(p: Property) {
    Value(p.len) < 0x80000000 && |p.value| == (Value(p.len) + 3) / 4
  }

  ghost predicate NameOk(name: seq<byte>) {
    forall i :: 0 <= i < |name| ==> name[i] != 0
  }

  /** Well formed: properties come before the first child. `last` says that a child has been seen. */
  ghost predicate ItemsOk(items: seq<Item>, last: bool)
    decreases items
  {
    items == [] || match items[0]
      case Nop => ItemsOk(items[1..], last)
      case Prop(p) => !last && PropOk(p) && ItemsOk(items[1..], last)
      case Node(name, sub) => NameOk(name) && ItemsOk(sub, false) && ItemsOk(items[1..], true)
  }

  /** A name, a terminating NUL, and padding to a whole word. */
  ghost function NameWords(name: seq<byte>): (w: seq<Word>)
    ensures |w| == |name| / 4 + 1
    decreases |name|
  {
    if |name| >= 4 then [Word(name[0], name[1], name[2], name[3])] + NameWords(name[4..])
    else [Word(if |name| > 0 then name[0] else 0, if |name| > 1 then name[1] else 0,
               if |name| > 2 then name[2] else 0, 0)]
  }

  ghost function Flat(item: Item): (w: seq<Word>)
    ensures |w| > 0
    decreases item
  {
    match item
    case Nop => [NOP]
    case Prop(p) => [PROP, p.len, p.name] + p.value
    case Node(name, sub) => [BEGIN_NODE] + NameWords(name) + Flatten(sub) + [END_NODE]
  }

  ghost function Flatten(items: seq<Item>): seq<Word>
    decreases items
  {
    if items == [] then [] else Flat(items[0]) + Flatten(items[1..])
  }

  /** Where a node's items start. */
  ghost function Inside(off: nat, name: seq<byte>): nat {
    off + 1 + |NameWords(name)|
  }

  /** The C string at the start of some memory. */
  function CString(mem: seq<Word>): seq<byte>
    decreases |mem|
  {
    if mem == [] || mem[0].b0 == 0 then []
    else if mem[0].b1 == 0 then [mem[0].b0]
    else if mem[0].b2 == 0 then [mem[0].b0, mem[0].b1]
    else if mem[0].b3 == 0 then [mem[0].b0, mem[0].b1, mem[0].b2]
    else [mem[0].b0, mem[0].b1, mem[0].b2, mem[0].b3] + CString(mem[1..])
  }

  lemma {:induction false} NameRoundTrip(name: seq<byte>, rest: seq<Word>)
    requires NameOk(name)
    ensures CString(NameWords(name) + rest) == name
    decreases |name|
  {
    var mem := NameWords(name) + rest;
    assert mem[0] == NameWords(name)[0];
    if |name| >= 4 {
      NameRoundTrip(name[4..], rest);
      assert mem[1..] == NameWords(name[4..]) + rest;
      assert name == name[..4] + name[4..];
    }
  }

  /** The nodes among some items that start at `off`. */
  ghost function Children(items: seq<Item>, off: nat): seq<Tree>
    decreases items
  {
    if items == [] then []
    else
      (match items[0]
       case Node(name, sub) => [Tree(off, name, Props(sub), Children(sub, Inside(off, name)))]
       case _ => [])
      + Children(items[1..], off + |Flat(items[0])|)
  }

  ghost function Props(items: seq<Item>): seq<Property>
    decreases |items|
  {
    if items == [] then []
    else (if items[0].Prop? then [items[0].prop] else []) + Props(items[1..])
  }

  ghost function PropEvents(owner: Option<nat>, props: seq<Property>): seq<Event>
    decreases |props|
  {
    if props == [] then [] else [PropEvent(owner, props[0])] + PropEvents(owner, props[1..])
  }

  /** Depth first: a node opens, its properties, one `done`, its children, and it closes. */
  ghost function TreeEvents(t: Tree): seq<Event>
    decreases t
  {
    [Open(t.at, t.name)] + PropEvents(Some(t.at), t.props) + [Done(t.at)] + ForestEvents(t.children) + [Close(t.at)]
  }

  ghost function ForestEvents(ts: seq<Tree>): seq<Event>
    decreases ts
  {
    if ts == [] then [] else TreeEvents(ts[0]) + ForestEvents(ts[1..])
  }

  ghost function DoneOf(owner: Option<nat>): seq<Event> {
    if owner.Some? then [Done(owner.value)] else []
  }

  /** The events as the scanner comes to them. */
  ghost function ScanEvents(items: seq<Item>, owner: Option<nat>, last: bool, off: nat): seq<Event>
    decreases items
  {
    if items == [] then if last then [] else DoneOf(owner)
    else
      var rest := off + |Flat(items[0])|;
      match items[0]
      case Nop => ScanEvents(items[1..], owner, last, rest)
      case Prop(p) => [PropEvent(owner, p)] + ScanEvents(items[1..], owner, last, rest)
      case Node(name, sub) =>
        (if last then [] else DoneOf(owner))
        + ([Open(off, name)] + ScanEvents(sub, Some(off), false, Inside(off, name)) + [Close(off)])
        + ScanEvents(items[1..], owner, true, rest)
  }

  /** What the scan of some items should report. */
  ghost function Expected(props: seq<Property>, trees: seq<Tree>, owner: Option<nat>, last: bool): seq<Event> {
    (if last then [] else PropEvents(owner, props) + DoneOf(owner)) + ForestEvents(trees)
  }

  lemma ExpectProp(p: Property, props: seq<Property>, trees: seq<Tree>, owner: Option<nat>)
    ensures Expected([p] + props, trees, owner, false) == [PropEvent(owner, p)] + Expected(props, trees, owner, false)
  {
    assert ([p] + props)[1..] == props;
  }

  lemma ExpectNode(t: Tree, trees: seq<Tree>, owner: Option<nat>, last: bool)
    ensures Expected([], [t] + trees, owner, last)
         == (if last then [] else DoneOf(owner)) + TreeEvents(t) + Expected([], trees, owner, true)
  {
    assert ([t] + trees)[1..] == trees;
  }

  lemma ExpectTree(t: Tree)
    ensures TreeEvents(t) == [Open(t.at, t.name)] + Expected(t.props, t.children, Some(t.at), false) + [Close(t.at)]
  {
  }

  /** Scanning any well-formed flattened tree is the depth-first walk of the tree. */
  lemma {:induction false} ScanIsDepthFirst(items: seq<Item>, owner: Option<nat>, last: bool, off: nat)
    requires ItemsOk(items, last)
    ensures ScanEvents(items, owner, last, off) == Expected(Props(items), Children(items, off), owner, last)
    ensures last ==> Props(items) == []
    decreases items
  {
    if items == [] {
    } else if items[0].Node? {
      ScanIsDepthFirst(items[1..], owner, true, off + |Flat(items[0])|);
      ScanIsDepthFirst(items[0].items, Some(off), false, Inside(off, items[0].name));
      NodeDepthFirst(items, owner, last, off);
    } else {
      var rest := off + |Flat(items[0])|;
      ScanIsDepthFirst(items[1..], owner, last, rest);
      assert Children(items, off) == Children(items[1..], rest);
      if items[0].Prop? {
        ExpectProp(items[0].prop, Props(items[1..]), Children(items, off), owner);
      } else {
        assert Props(items) == Props(items[1..]);
      }
    }
  }

  lemma NodeDepthFirst(items: seq<Item>, owner: Option<nat>, last: bool, off: nat)
    requires items != [] && items[0].Node?
    requires Props(items[1..]) == []
    requires var rest := off + |Flat(items[0])|;
      ScanEvents(items[1..], owner, true, rest) == Expected([], Children(items[1..], rest), owner, true)
    requires var sub, inside := items[0].items, Inside(off, items[0].name);
      ScanEvents(sub, Some(off), false, inside) == Expected(Props(sub), Children(sub, inside), Some(off), false)
    ensures ScanEvents(items, owner, last, off) == Expected(Props(items), Children(items, off), owner, last)
    ensures Props(items) == []
  {
    hide Flat, Inside, Expected;
    var rest := off + |Flat(items[0])|;
    var name, sub := items[0].name, items[0].items;
    var t := Tree(off, name, Props(sub), Children(sub, Inside(off, name)));
    ExpectTree(t);
    ExpectNode(t, Children(items[1..], rest), owner, last);
    assert Props(items) == [];
    assert Children(items, off) == [t] + Children(items[1..], rest);
  }

  ghost function Nops(n: nat): seq<Item> {
    seq(n, _ => Nop)
  }

  /** The items with each node that starts at an offset in `del` replaced by NOPs. */
  ghost function Pruned(items: seq<Item>, off: nat, del: nat -> bool): seq<Item>
    decreases items
  {
    if items == [] then []
    else
      (match items[0]
       case Node(name, sub) =>
         if del(off) then Nops(|Flat(items[0])|) else [Node(name, Pruned(sub, Inside(off, name), del))]
       case _ => [items[0]])
      + Pruned(items[1..], off + |Flat(items[0])|, del)
  }

  /** The trees with those subtrees removed. */
  ghost function Kept(ts: seq<Tree>, del: nat -> bool): seq<Tree>
    decreases ts
  {
    if ts == [] then []
    else
      (if del(ts[0].at) then []
       else [Tree(ts[0].at, ts[0].name, ts[0].props, Kept(ts[0].children, del))])
      + Kept(ts[1..], del)
  }

  /** What NOPs in front of some items change: the place the items start. */
  lemma {:induction false} NopsInFront(n: nat, items: seq<Item>, off: nat)
    ensures Props(Nops(n) + items) == Props(items)
    ensures Children(Nops(n) + items, off) == Children(items, off + n)
    decreases n
  {
    if n == 0 {
      assert Nops(n) + items == items;
    } else {
      NopsInFront(n - 1, items, off + 1);
      assert (Nops(n) + items)[1..] == Nops(n - 1) + items;
    }
  }

  lemma {:induction false} NopsFlatten(n: nat, items: seq<Item>, last: bool)
    ensures Flatten(Nops(n) + items) == seq(n, _ => NOP) + Flatten(items)
    ensures ItemsOk(Nops(n) + items, last) == ItemsOk(items, last)
    decreases n
  {
    if n == 0 {
      assert Nops(n) + items == items;
    } else {
      NopsFlatten(n - 1, items, last);
      assert (Nops(n) + items)[1..] == Nops(n - 1) + items;
      assert [NOP] + seq(n - 1, _ => NOP) == seq(n, _ => NOP);
    }
  }

  lemma {:induction false} OkWeakens(items: seq<Item>)
    requires ItemsOk(items, true)
    ensures ItemsOk(items, false)
    decreases items
  {
    if items != [] && !items[0].Node? {
      OkWeakens(items[1..]);
    }
  }

  lemma PropsJoin(item: Item, items: seq<Item>)
    ensures ([item] + items)[0] == item && ([item] + items)[1..] == items
  {
  }

  /** Same size and form, same properties, and the tree without the deleted subtrees. */
  ghost predicate Fits(items: seq<Item>, pruned: seq<Item>, off: nat, del: nat -> bool, last: bool) {
    && |Flatten(pruned)| == |Flatten(items)| && ItemsOk(pruned, last)
    && Props(pruned) == Props(items) && Children(pruned, off) == Kept(Children(items, off), del)
  }

  lemma OtherFits(items: seq<Item>, after: seq<Item>, off: nat, del: nat -> bool, last: bool)
    requires items != [] && !items[0].Node? && ItemsOk(items, last)
    requires Fits(items[1..], after, off + |Flat(items[0])|, del, last)
    ensures Fits(items, [items[0]] + after, off, del, last)
  {
    PropsJoin(items[0], after);
    assert Children(items, off) == Children(items[1..], off + |Flat(items[0])|);
    assert Children([items[0]] + after, off) == Children(after, off + |Flat(items[0])|);
  }

  lemma FirstTree(items: seq<Item>, off: nat, del: nat -> bool)
    requires items != [] && items[0].Node?
    ensures Children(items, off) ==
      [Tree(off, items[0].name, Props(items[0].items), Children(items[0].items, Inside(off, items[0].name)))]
      + Children(items[1..], off + |Flat(items[0])|)
    ensures Props(items) == Props(items[1..])
    ensures Kept(Children(items, off), del) ==
      (if del(off) then []
       else [Tree(off, items[0].name, Props(items[0].items),
                  Kept(Children(items[0].items, Inside(off, items[0].name)), del))])
      + Kept(Children(items[1..], off + |Flat(items[0])|), del)
  {
    var t := Tree(off, items[0].name, Props(items[0].items), Children(items[0].items, Inside(off, items[0].name)));
    var ts := Children(items[1..], off + |Flat(items[0])|);
    assert Children(items, off) == [t] + ts;
    assert ([t] + ts)[1..] == ts && ([t] + ts)[0] == t;
  }

  lemma DeletedFits(items: seq<Item>, after: seq<Item>, off: nat, del: nat -> bool, last: bool)
    requires items != [] && items[0].Node? && del(off)
    requires Fits(items[1..], after, off + |Flat(items[0])|, del, true)
    ensures Fits(items, Nops(|Flat(items[0])|) + after, off, del, last)
  {
    var size := |Flat(items[0])|;
    OkWeakens(after);
    NopsInFront(size, after, off);
    NopsFlatten(size, after, last);
    FirstTree(items, off, del);
  }

  lemma KeptFits(items: seq<Item>, sub: seq<Item>, after: seq<Item>, off: nat, del: nat -> bool, last: bool)
    requires items != [] && items[0].Node? && !del(off) && NameOk(items[0].name)
    requires Fits(items[1..], after, off + |Flat(items[0])|, del, true)
    requires Fits(items[0].items, sub, Inside(off, items[0].name), del, false)
    ensures Fits(items, [Node(items[0].name, sub)] + after, off, del, last)
  {
    var node := Node(items[0].name, sub);
    PropsJoin(node, after);
    FirstTree(items, off, del);
    FirstTree([node] + after, off, del);
    assert |Flat(node)| == |Flat(items[0])|;
  }

  /** Deleting keeps every offset and the form, and gives the tree without the deleted subtrees. */
  lemma {:induction false} PrunedIsKept(items: seq<Item>, off: nat, del: nat -> bool, last: bool)
    requires ItemsOk(items, last)
    ensures Fits(items, Pruned(items, off, del), off, del, last)
    decreases items
  {
    if items != [] {
      var size := |Flat(items[0])|;
      var after := Pruned(items[1..], off + size, del);
      PrunedIsKept(items[1..], off + size, del, last || items[0].Node?);
      if !items[0].Node? {
        OtherFits(items, after, off, del, last);
      } else if del(off) {
        DeletedFits(items, after, off, del, last);
      } else {
        var inside := Inside(off, items[0].name);
        PrunedIsKept(items[0].items, inside, del, false);
        KeptFits(items, Pruned(items[0].items, inside, del), after, off, del, last);
      }
    }
  }

  /** The items lie flattened at `off`, with a word after them. */
  ghost predicate Holds(mem: seq<Word>, off: nat, items: seq<Item>) {
    off + |Flatten(items)| < |mem| && mem[off..off + |Flatten(items)|] == Flatten(items)
  }

  /** Words that are not the start of an item. */
  predicate Ends(w: Word) {
    Value(w) != 1 && Value(w) != 3 && Value(w) != 4
  }

  lemma HoldsFirst(mem: seq<Word>, off: nat, items: seq<Item>)
    requires Holds(mem, off, items) && items != []
    ensures mem[off..off + |Flat(items[0])|] == Flat(items[0])
    ensures Holds(mem, off + |Flat(items[0])|, items[1..])
    ensures off + |Flatten(items)| == off + |Flat(items[0])| + |Flatten(items[1..])|
  {
    hide Flat;
    Halves(mem, off, Flat(items[0]), Flatten(items[1..]));
  }

  lemma Halves<T>(mem: seq<T>, off: nat, a: seq<T>, b: seq<T>)
    requires off + |a| + |b| <= |mem| && mem[off..off + |a| + |b|] == a + b
    ensures mem[off..off + |a|] == a && mem[off + |a|..off + |a| + |b|] == b
  {
    var m := mem[off..off + |a| + |b|];
    assert m[..|a|] == a && m[|a|..] == b;
  }

  lemma HoldsInside(mem: seq<Word>, off: nat, name: seq<byte>, sub: seq<Item>)
    requires off + |Flat(Node(name, sub))| <= |mem| && NameOk(name)
    requires mem[off..off + |Flat(Node(name, sub))|] == Flat(Node(name, sub))
    ensures CString(mem[off + 1..]) == name
    ensures Holds(mem, Inside(off, name), sub)
    ensures mem[Inside(off, name) + |Flatten(sub)|] == END_NODE
    ensures Inside(off, name) + |Flatten(sub)| + 1 == off + |Flat(Node(name, sub))|
  {
    var words := NameWords(name);
    Layers(mem, off, [BEGIN_NODE], words, Flatten(sub), [END_NODE]);
    NameRoundTrip(name, mem[off + 1 + |words|..]);
  }

  /** Four pieces in a row, each found at its place. */
  lemma Layers<T>(mem: seq<T>, off: nat, a: seq<T>, b: seq<T>, c: seq<T>, d: seq<T>)
    requires off + |a| + |b| + |c| + |d| <= |mem| && |d| == 1
    requires mem[off..off + |a| + |b| + |c| + |d|] == a + b + c + d
    ensures mem[off + |a|..] == b + mem[off + |a| + |b|..]
    ensures mem[off + |a| + |b|..off + |a| + |b| + |c|] == c
    ensures mem[off + |a| + |b| + |c|] == d[0]
  {
    var m := mem[off..off + |a| + |b| + |c| + |d|];
    assert forall i :: 0 <= i < |m| ==> m[i] == mem[off + i];
    assert forall i :: 0 <= i < |b| ==> m[|a| + i] == b[i];
    assert forall i :: 0 <= i < |c| ==> m[|a| + |b| + i] == c[i];
    assert m[|a| + |b| + |c|] == d[0];
    assert forall i :: 0 <= i < |b| ==> mem[off + |a| + i] == b[i];
    assert forall i :: 0 <= i < |c| ==> mem[off + |a| + |b| + i] == c[i];
  }

  /** What is left of a node after its scan. */
  ghost function After(name: seq<byte>, sub: seq<Item>, off: nat, del: nat -> bool): seq<Item> {
    if del(off) then Nops(|Flat(Node(name, sub))|) else [Node(name, Pruned(sub, Inside(off, name), del))]
  }

  lemma AfterIs(name: seq<byte>, sub: seq<Item>, off: nat, del: nat -> bool)
    ensures if del(off) then Flatten(After(name, sub, off, del)) == seq(|Flat(Node(name, sub))|, _ => NOP)
            else After(name, sub, off, del) == [Node(name, Pruned(sub, Inside(off, name), del))]
  {
    var size := |Flat(Node(name, sub))|;
    NopsFlatten(size, [], false);
    assert Nops(size) + [] == Nops(size);
  }

  lemma Outside<T>(before: seq<T>, mem: seq<T>, lex: nat, next: nat, mid: seq<T>)
    requires lex <= next <= |before| && |mid| == next - lex && mem == before[..lex] + mid + before[next..]
    ensures |mem| == |before| && mem[..lex] == before[..lex] && mem[next..] == before[next..]
  {
  }

  /** A second scan, after one that deleted some nodes, sees the tree without their subtrees. */
  lemma RescanSeesPruned(items: seq<Item>, owner: Option<nat>, off: nat, del: nat -> bool)
    requires ItemsOk(items, false)
    ensures ItemsOk(Pruned(items, off, del), false)
    ensures ScanEvents(Pruned(items, off, del), owner, false, off)
         == Expected(Props(items), Kept(Children(items, off), del), owner, false)
  {
    PrunedIsKept(items, off, del, false);
    ScanIsDepthFirst(Pruned(items, off, del), owner, false, off);
  }

  class Blob {
    const mem: array<Word>

    constructor (words: seq<Word>)
      ensures fresh(mem) && mem[..] == words
    {
      mem := new Word[|words|](i requires 0 <= i < |words| => words[i]);
    }

    /** The deletion loop: from `lex` to `next` all words become NOPs. */
    method Erase(lex: nat, next: nat)
      requires lex <= next <= mem.Length
      modifies mem
      ensures mem[..] == old(mem[..lex]) + seq(next - lex, _ => NOP) + old(mem[next..])
    {
      var i := lex;
      while i != next
        invariant lex <= i <= next
        invariant forall j :: 0 <= j < mem.Length ==> mem[j] == if lex <= j < i then NOP else old(mem[j])
      {
        mem[i] := NOP;
        i := i + 1;
      }
    }

    /** After the child's own scan: the node is overwritten if its close callback asks for that. */
    method CloseChild(lex: nat, next: nat, del: nat -> bool, ghost before: seq<Word>, ghost name: seq<byte>,
                      ghost sub: seq<Item>)
      requires next == lex + |Flat(Node(name, sub))| <= |before| == mem.Length
      requires before[lex..next] == Flat(Node(name, sub))
      requires var sub' := Pruned(sub, Inside(lex, name), del);
        && |Flatten(sub')| == |Flatten(sub)|
        && mem[..] == before[..Inside(lex, name)] + Flatten(sub') + before[Inside(lex, name) + |Flatten(sub)|..]
      modifies mem
      ensures mem[..] == before[..lex] + Flatten(After(name, sub, lex, del)) + before[next..]
      ensures |Flatten(After(name, sub, lex, del))| == next - lex
    {
      hide Flat, Flatten, Pruned, Inside, After, Nops;
      ghost var sub' := Pruned(sub, Inside(lex, name), del);
      AroundNode(before, mem[..], lex, name, sub, sub');
      AfterIs(name, sub, lex, del);
      if del(lex) {
        Outside(before, mem[..], lex, next, Flatten([Node(name, sub')]));
        Erase(lex, next);
      }
    }

    /** One child: fdt_scan_helper's FDT_BEGIN_NODE case. */
    method ScanChild(lex: nat, del: nat -> bool, ghost name: seq<byte>, ghost sub: seq<Item>)
      returns (next: nat, events: seq<Event>)
      requires NameOk(name) && ItemsOk(sub, false)
      requires lex + |Flat(Node(name, sub))| <= mem.Length
      requires mem[lex..lex + |Flat(Node(name, sub))|] == Flat(Node(name, sub))
      modifies mem
      ensures next == lex + |Flat(Node(name, sub))|
      ensures mem[..] == old(mem[..])[..lex] + Flatten(After(name, sub, lex, del)) + old(mem[..])[next..]
      ensures |Flatten(After(name, sub, lex, del))| == |Flat(Node(name, sub))|
      ensures events == [Open(lex, name)] + ScanEvents(sub, Some(lex), false, Inside(lex, name)) + [Close(lex)]
      decreases |Flat(Node(name, sub))|, 0
    {
      ghost var m0 := mem[..];
      HoldsInside(m0, lex, name, sub);
      var child := CString(mem[lex + 1..]);
      var inside := lex + 2 + |child| / 4;
      assert inside == Inside(lex, name);
      var inner;
      next, inner := ScanItems(inside, Some(lex), del, sub);
      events := [Open(lex, child)] + inner + [Close(lex)];
      PrunedIsKept(sub, Inside(lex, name), del, false);
      CloseChild(lex, next, del, m0, name, sub);
    }

    /** fdt_scan_helper, over items that end with a word that starts no item. */
    method ScanItems(start: nat, node: Option<nat>, del: nat -> bool, ghost items: seq<Item>)
      returns (next: nat, events: seq<Event>)
      requires ItemsOk(items, false) && Holds(mem[..], start, items) && Ends(mem[start + |Flatten(items)|])
      modifies mem
      ensures next == start + |Flatten(items)| + if old(mem[start + |Flatten(items)|]) == END_NODE then 1 else 0
      ensures mem[..] == old(mem[..])[..start] + Flatten(Pruned(items, start, del))
                         + old(mem[..])[start + |Flatten(items)|..]
      ensures events == ScanEvents(items, node, false, start)
      decreases |Flatten(items)|, 4
    {
      hide Pruned, ScanEvents, Flatten;
      ghost var m0 := mem[..];
      var lex, last;
      lex, last, events := ScanLoop(start, node, del, items, m0);
      Finished(m0, mem[..], start, lex, items, last, node, del, events);
      next := if Value(mem[lex]) == 2 then lex + 1 else lex;
      if !last && node.Some? { events := events + [Done(node.value)]; }
    }

    /** Two calls of fdt_scan, the second with callbacks of its own. */
    method ScanTwice(start: nat, del: nat -> bool, del': nat -> bool, ghost items: seq<Item>)
      returns (first: seq<Event>, second: seq<Event>)
      requires ItemsOk(items, false) && Holds(mem[..], start, items) && Ends(mem[start + |Flatten(items)|])
      modifies mem
      ensures first == Expected(Props(items), Children(items, start), None, false)
      ensures second == Expected(Props(items), Kept(Children(items, start), del), None, false)
    {
      ghost var m0, pruned := mem[..], Pruned(items, start, del);
      var next;
      next, first := ScanItems(start, None, del, items);
      ScanIsDepthFirst(items, None, false, start);
      PrunedIsKept(items, start, del, false);
      RescanSeesPruned(items, None, start, del);
      StillHeld(m0, mem[..], start, items, pruned);
      next, second := ScanItems(start, None, del', pruned);
    }

    /** The loop of fdt_scan_helper. */
    method ScanLoop(start: nat, node: Option<nat>, del: nat -> bool, ghost items: seq<Item>, ghost m0: seq<Word>)
      returns (lex: nat, last: bool, events: seq<Event>)
      requires m0 == mem[..] && Ahead(m0, start, start, items, items, false)
      modifies mem
      ensures Progress(m0, mem[..], start, lex, items, [], last, node, del, events)
      decreases |Flatten(items)|, 3
    {
      ghost var rest := items;
      lex, last, events := start, false, [];
      assert [] + ScanEvents(items, node, false, start) == ScanEvents(items, node, false, start);
      AtCursor(m0, m0, start, lex, items, rest, last, node, del, events);
      while !Ends(mem[lex])
        invariant lex < mem.Length && (Ends(mem[lex]) <==> rest == [])
        invariant Progress(m0, mem[..], start, lex, items, rest, last, node, del, events)
        decreases |rest|
      {
        lex, last, events := Advance(lex, last, node, del, events, m0, start, items, rest);
        rest := rest[1..];
      }
    }

    /** One turn of the loop. */
    method Advance(lex: nat, last: bool, node: Option<nat>, del: nat -> bool, said: seq<Event>,
                   ghost m0: seq<Word>, ghost start: nat, ghost items: seq<Item>, ghost rest: seq<Item>)
      returns (next: nat, last': bool, events: seq<Event>)
      requires rest != [] && Progress(m0, mem[..], start, lex, items, rest, last, node, del, said)
      modifies mem
      ensures next < mem.Length && (Ends(mem[next]) <==> rest[1..] == [])
      ensures Progress(m0, mem[..], start, next, items, rest[1..], last', node, del, events)
      decreases |Flatten(items)|, 2
    {
      ghost var was := mem[..];
      AtCursor(m0, was, start, lex, items, rest, last, node, del, said);
      last' := last || Value(mem[lex]) == 1;
      assert last' == (last || rest[0].Node?);
      var emitted;
      next, emitted := ScanItem(lex, last, node, del, rest, was);
      OneStep(m0, was, mem[..], start, lex, next, items, rest, last, node, del, said);
      events := said + emitted;
      AtCursor(m0, mem[..], start, next, items, rest[1..], last', node, del, events);
    }

    /** The item at the cursor. */
    method ScanItem(lex: nat, last: bool, node: Option<nat>, del: nat -> bool, ghost rest: seq<Item>,
                    ghost was: seq<Word>)
      returns (next: nat, emitted: seq<Event>)
      requires was == mem[..]
      requires rest != [] && ItemsOk(rest, last) && lex + |Flat(rest[0])| <= mem.Length
      requires mem[lex..lex + |Flat(rest[0])|] == Flat(rest[0])
      modifies mem
      ensures next == lex + |Flat(rest[0])| <= |was|
      ensures mem[..] == was[..lex] + Flatten(FirstAfter(rest[0], lex, del)) + was[next..]
      ensures |Flatten(FirstAfter(rest[0], lex, del))| == next - lex
      ensures emitted == FirstEvents(rest[0], node, last, lex)
      decreases |Flat(rest[0])|, 1
    {
      hide Flat, Flatten, ItemsOk, ScanEvents, After;
      ghost var item := rest[0];
      ItemAt(item, rest, last, mem[..], lex);
      if Value(mem[lex]) == 4 {
        next, emitted := lex + 1, [];
        OneItem(item, mem[..], lex);
      } else if Value(mem[lex]) == 3 {
        var len := Value(mem[lex + 1]);
        next := lex + 3 + (len + 3) / 4;
        emitted := [PropEvent(node, Property(mem[lex + 1], mem[lex + 2], mem[lex + 3..next]))];
        OneItem(item, mem[..], lex);
      } else {
        var inner;
        next, inner := ScanChild(lex, del, item.name, item.items);
        emitted := (if last || node == None then [] else [Done(node.value)]) + inner;
      }
    }
  }

  /** What the words at the cursor tell of the item they are. */
  lemma ItemAt(item: Item, rest: seq<Item>, last: bool, mem: seq<Word>, lex: nat)
    requires rest != [] && item == rest[0] && ItemsOk(rest, last)
    requires lex + |Flat(item)| <= |mem| && mem[lex..lex + |Flat(item)|] == Flat(item)
    ensures lex < |mem| && (Value(mem[lex]) == 4 <==> item.Nop?) && (Value(mem[lex]) == 3 <==> item.Prop?)
    ensures item.Nop? ==> |Flat(item)| == 1
    ensures item.Prop? ==> |Flat(item)| == 3 + (Value(item.prop.len) + 3) / 4
    ensures item.Prop? ==> item.prop == Property(mem[lex + 1], mem[lex + 2], mem[lex + 3..lex + |Flat(item)|])
    ensures item.Node? ==> NameOk(item.name) && ItemsOk(item.items, false)
  {
    var words := mem[lex..lex + |Flat(item)|];
    assert words[0] == mem[lex];
    if item.Prop? {
      assert words[1] == mem[lex + 1] && words[2] == mem[lex + 2];
      assert words[3..] == mem[lex + 3..lex + |Flat(item)|];
    }
  }

  lemma OneItem(item: Item, mem: seq<Word>, lex: nat)
    requires lex + |Flat(item)| <= |mem| && mem[lex..lex + |Flat(item)|] == Flat(item)
    ensures Flatten([item]) == Flat(item)
    ensures mem == mem[..lex] + Flat(item) + mem[lex + |Flat(item)|..]
  {
    assert Flatten([item]) == Flat(item) + [];
  }

  /** The scan's loop invariant: what is done and what remains make up the whole. */
  ghost predicate Progress(m0: seq<Word>, mem: seq<Word>, start: nat, lex: nat, items: seq<Item>, rest: seq<Item>,
                           last: bool, node: Option<nat>, del: nat -> bool, events: seq<Event>) {
    && Ahead(m0, start, lex, items, rest, last) && Memory(m0, mem, start, lex, items, rest, del)
    && events + ScanEvents(rest, node, last, lex) == ScanEvents(items, node, false, start)
  }

  ghost predicate Ahead(m0: seq<Word>, start: nat, lex: nat, items: seq<Item>, rest: seq<Item>, last: bool) {
    && ItemsOk(rest, last) && Holds(m0, lex, rest) && start <= lex
    && lex + |Flatten(rest)| == start + |Flatten(items)| && Ends(m0[lex + |Flatten(rest)|])
  }

  ghost predicate Memory(m0: seq<Word>, mem: seq<Word>, start: nat, lex: nat, items: seq<Item>, rest: seq<Item>,
                         del: nat -> bool) {
    && start <= lex <= |mem| == |m0| && mem[lex..] == m0[lex..]
    && mem[..lex] + Flatten(Pruned(rest, lex, del)) == m0[..start] + Flatten(Pruned(items, start, del))
  }

  /** What the first item becomes. */
  ghost function FirstAfter(item: Item, off: nat, del: nat -> bool): seq<Item> {
    if item.Node? then After(item.name, item.items, off, del) else [item]
  }

  /** What the scan of the first item reports. */
  ghost function FirstEvents(item: Item, node: Option<nat>, last: bool, off: nat): seq<Event> {
    match item
    case Nop => []
    case Prop(p) => [PropEvent(node, p)]
    case Node(name, sub) =>
      (if last then [] else DoneOf(node))
      + ([Open(off, name)] + ScanEvents(sub, Some(off), false, Inside(off, name)) + [Close(off)])
  }

  lemma {:induction false} FlattenJoin(a: seq<Item>, b: seq<Item>)
    ensures Flatten(a + b) == Flatten(a) + Flatten(b)
    decreases |a|
  {
    if a == [] {
      assert a + b == b;
    } else {
      assert (a + b)[1..] == a[1..] + b;
      FlattenJoin(a[1..], b);
    }
  }

  lemma ScanFirst(rest: seq<Item>, node: Option<nat>, last: bool, off: nat)
    requires rest != []
    ensures ScanEvents(rest, node, last, off) ==
      FirstEvents(rest[0], node, last, off)
      + ScanEvents(rest[1..], node, last || rest[0].Node?, off + |Flat(rest[0])|)
  {
    hide Flat, Inside;
    if rest[0].Nop? {
      Nothing(ScanEvents(rest[1..], node, last, off + |Flat(rest[0])|));
    }
  }

  lemma Nothing<T>(s: seq<T>)
    ensures [] + s == s
  {
  }

  lemma OneStep(m0: seq<Word>, mem: seq<Word>, mem': seq<Word>, start: nat, lex: nat, next: nat, items: seq<Item>,
                rest: seq<Item>, last: bool, node: Option<nat>, del: nat -> bool, events: seq<Event>)
    requires rest != [] && Progress(m0, mem, start, lex, items, rest, last, node, del, events)
    requires next == lex + |Flat(rest[0])| <= |mem|
    requires |Flatten(FirstAfter(rest[0], lex, del))| == next - lex
    requires mem' == mem[..lex] + Flatten(FirstAfter(rest[0], lex, del)) + mem[next..]
    ensures Progress(m0, mem', start, next, items, rest[1..], last || rest[0].Node?, node, del,
                     events + FirstEvents(rest[0], node, last, lex))
  {
    hide Ahead, Memory, ScanEvents, Flatten, Flat, FirstAfter, FirstEvents;
    AheadStep(m0, start, lex, items, rest, last);
    MemoryKept(m0, mem, mem', start, lex, items, rest, del);
    EventsStep(rest, node, last, lex, events);
    Assembled(m0, mem', start, next, items, rest[1..], last || rest[0].Node?, node, del,
              events + FirstEvents(rest[0], node, last, lex));
  }

  lemma Assembled(m0: seq<Word>, mem: seq<Word>, start: nat, lex: nat, items: seq<Item>, rest: seq<Item>,
                  last: bool, node: Option<nat>, del: nat -> bool, events: seq<Event>)
    requires Ahead(m0, start, lex, items, rest, last) && Memory(m0, mem, start, lex, items, rest, del)
    requires events + ScanEvents(rest, node, last, lex) == ScanEvents(items, node, false, start)
    ensures Progress(m0, mem, start, lex, items, rest, last, node, del, events)
  {
  }

  lemma AheadStep(m0: seq<Word>, start: nat, lex: nat, items: seq<Item>, rest: seq<Item>, last: bool)
    requires rest != [] && Ahead(m0, start, lex, items, rest, last)
    ensures Ahead(m0, start, lex + |Flat(rest[0])|, items, rest[1..], last || rest[0].Node?)
  {
    HoldsFirst(m0, lex, rest);
  }

  lemma MemoryKept(m0: seq<Word>, mem: seq<Word>, mem': seq<Word>, start: nat, lex: nat, items: seq<Item>,
                   rest: seq<Item>, del: nat -> bool)
    requires rest != [] && Memory(m0, mem, start, lex, items, rest, del)
    requires |Flatten(FirstAfter(rest[0], lex, del))| == |Flat(rest[0])|
    requires lex + |Flat(rest[0])| <= |mem|
    requires mem' == mem[..lex] + Flatten(FirstAfter(rest[0], lex, del)) + mem[lex + |Flat(rest[0])|..]
    ensures Memory(m0, mem', start, lex + |Flat(rest[0])|, items, rest[1..], del)
  {
    hide Flat, Flatten, Pruned, FirstAfter;
    var next, first := lex + |Flat(rest[0])|, FirstAfter(rest[0], lex, del);
    var later := Pruned(rest[1..], next, del);
    FlattenJoin(first, later);
    PrunedFirst(rest, lex, del);
    MemoryStep(m0, mem, mem', lex, next, Flatten(first), Flatten(later));
  }

  lemma PrunedFirst(rest: seq<Item>, off: nat, del: nat -> bool)
    requires rest != []
    ensures Pruned(rest, off, del) == FirstAfter(rest[0], off, del) + Pruned(rest[1..], off + |Flat(rest[0])|, del)
  {
  }

  lemma EventsStep(rest: seq<Item>, node: Option<nat>, last: bool, off: nat, events: seq<Event>)
    requires rest != []
    ensures events + FirstEvents(rest[0], node, last, off)
              + ScanEvents(rest[1..], node, last || rest[0].Node?, off + |Flat(rest[0])|)
         == events + ScanEvents(rest, node, last, off)
  {
    ScanFirst(rest, node, last, off);
    Assoc(events, FirstEvents(rest[0], node, last, off),
          ScanEvents(rest[1..], node, last || rest[0].Node?, off + |Flat(rest[0])|));
  }

  lemma Assoc<T>(a: seq<T>, b: seq<T>, c: seq<T>)
    ensures a + b + c == a + (b + c)
  {
  }

  lemma StillHeld(m0: seq<Word>, mem: seq<Word>, start: nat, items: seq<Item>, pruned: seq<Item>)
    requires start + |Flatten(items)| < |m0| && |Flatten(pruned)| == |Flatten(items)|
    requires mem == m0[..start] + Flatten(pruned) + m0[start + |Flatten(items)|..]
    ensures Holds(mem, start, pruned) && mem[start + |Flatten(pruned)|] == m0[start + |Flatten(items)|]
  {
    assert mem[start..start + |Flatten(pruned)|] == Flatten(pruned);
  }

  /** When the items run out the memory and the events are complete. */
  lemma Finished(m0: seq<Word>, mem: seq<Word>, start: nat, lex: nat, items: seq<Item>, last: bool,
                 node: Option<nat>, del: nat -> bool, events: seq<Event>)
    requires Progress(m0, mem, start, lex, items, [], last, node, del, events)
    ensures lex == start + |Flatten(items)| < |m0| && mem[lex] == m0[lex]
    ensures mem == m0[..start] + Flatten(Pruned(items, start, del)) + m0[lex..]
    ensures events + (if last then [] else DoneOf(node)) == ScanEvents(items, node, false, start)
  {
    assert mem == mem[..lex] + mem[lex..];
    assert mem[lex] == mem[lex..][0] && m0[lex] == m0[lex..][0];
    assert mem[..lex] + [] == mem[..lex];
  }

  /** While items remain, the next one is at the cursor. */
  lemma AtCursor(m0: seq<Word>, mem: seq<Word>, start: nat, lex: nat, items: seq<Item>, rest: seq<Item>, last: bool,
                 node: Option<nat>, del: nat -> bool, events: seq<Event>)
    requires Progress(m0, mem, start, lex, items, rest, last, node, del, events)
    ensures ItemsOk(rest, last) && lex < |mem|
    ensures Ends(mem[lex]) <==> rest == []
    ensures rest != [] ==>
      && lex + |Flat(rest[0])| <= |mem| && mem[lex..lex + |Flat(rest[0])|] == Flat(rest[0])
      && |Flat(rest[0])| <= |Flatten(rest)| <= |Flatten(items)| && mem[lex] == Flat(rest[0])[0]
  {
    assert mem[lex] == mem[lex..][0] && m0[lex] == m0[lex..][0];
    FirstWord(m0, lex, rest);
    if rest != [] {
      HoldsFirst(m0, lex, rest);
      var size := |Flat(rest[0])|;
      assert mem[lex..][..size] == m0[lex..][..size];
      assert mem[lex..lex + size] == mem[lex..][..size] && m0[lex..lex + size] == m0[lex..][..size];
    }
  }

  lemma MemoryStep<T>(m0: seq<T>, mem: seq<T>, mem': seq<T>, lex: nat, next: nat, first: seq<T>, later: seq<T>)
    requires lex <= next <= |mem| == |m0| && |first| == next - lex
    requires mem[lex..] == m0[lex..] && mem' == mem[..lex] + first + mem[next..]
    ensures |mem'| == |m0| && mem'[next..] == m0[next..]
    ensures mem'[..next] + later == mem[..lex] + (first + later)
  {
    assert mem'[..next] == mem[..lex] + first;
    assert mem'[next..] == mem[next..];
    assert mem[next..] == mem[lex..][next - lex..] && m0[next..] == m0[lex..][next - lex..];
  }

  /** A word that starts an item, where the remaining items are, is the start of one of them. */
  lemma FirstWord(m0: seq<Word>, lex: nat, rest: seq<Item>)
    requires Holds(m0, lex, rest)
    ensures rest == [] ==> m0[lex] == m0[lex + |Flatten(rest)|]
    ensures rest != [] ==> m0[lex] == Flat(rest[0])[0]
    ensures rest != [] ==> !Ends(m0[lex])
  {
    if rest != [] {
      assert Flatten(rest)[0] == Flat(rest[0])[0];
      assert m0[lex..lex + |Flatten(rest)|][0] == m0[lex];
    }
  }

  lemma AroundNode(before: seq<Word>, after: seq<Word>, off: nat, name: seq<byte>, sub: seq<Item>, sub': seq<Item>)
    requires off + |Flat(Node(name, sub))| <= |before| && |Flatten(sub')| == |Flatten(sub)|
    requires before[off..off + |Flat(Node(name, sub))|] == Flat(Node(name, sub))
    requires after == before[..Inside(off, name)] + Flatten(sub') + before[Inside(off, name) + |Flatten(sub)|..]
    ensures after == before[..off] + Flatten([Node(name, sub')]) + before[off + |Flat(Node(name, sub))|..]
    ensures |Flatten([Node(name, sub')])| == |Flat(Node(name, sub))|
  {
    hide Flat, Flatten;
    var h := [BEGIN_NODE] + NameWords(name);
    var end := off + |h| + |Flatten(sub)| + 1;
    NodeWords(name, sub);
    NodeWords(name, sub');
    Around(before, off, h, Flatten(sub), [END_NODE]);
    Regroup(before[..off], h, Flatten(sub'), [END_NODE], before[end..]);
  }

  lemma NodeWords(name: seq<byte>, sub: seq<Item>)
    ensures Flatten([Node(name, sub)]) == Flat(Node(name, sub))
         == [BEGIN_NODE] + NameWords(name) + Flatten(sub) + [END_NODE]
  {
    assert Flatten([Node(name, sub)]) == Flat(Node(name, sub)) + [];
  }

  lemma Around<T>(before: seq<T>, off: nat, h: seq<T>, s: seq<T>, e: seq<T>)
    requires off + |h| + |s| + |e| <= |before| && before[off..off + |h| + |s| + |e|] == h + s + e
    ensures before[..off + |h|] == before[..off] + h
    ensures before[off + |h| + |s|..] == e + before[off + |h| + |s| + |e|..]
  {
    var m := before[off..off + |h| + |s| + |e|];
    assert m[..|h|] == h;
    assert m[|h| + |s|..] == e;
    assert before[..off + |h|] == before[..off] + m[..|h|];
    assert before[off + |h| + |s|..] == m[|h| + |s|..] + before[off + |h| + |s| + |e|..];
  }

  lemma Regroup<T>(a: seq<T>, h: seq<T>, s: seq<T>, e: seq<T>, b: seq<T>)
    ensures (a + h) + s + (e + b) == a + (h + s + e) + b
  {
  }
}
