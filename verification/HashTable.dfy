/**
 The chained hash table of util/hash_table.c. Buckets are singly linked lists behind
 sentinel heads; addresses are natural numbers, 0 is NULL, and the sentinel of bucket `b`
 is at address `b + 1`.

 The table refines a finite map whose keys are compared with the table's own `equal`.
 */
module HashTable {
  import opened Options

  /** HASH_TABLE_SIZE */
  const SIZE := 128

  datatype Entry<K, V> = Entry(key: K, value: V)

  /** `equal` is an equivalence, and equal keys have the same hash. */
  ghost predicate Congruent<K(!new)>(equal: (K, K) -> bool, hash: K -> nat) {
    && (forall k :: hash(k) < SIZE)
    && (forall k :: equal(k, k))
    && (forall j, k :: equal(j, k) ==> equal(k, j) && hash(j) == hash(k))
    && (forall i, j, k :: equal(i, j) && equal(j, k) ==> equal(i, k))
  }

  /** What hash_table_init stores in the sentinel at address `a`. */
  function NullLink(a: nat): nat {
    0
  }

  /** From address `a`, the links lead through `nodes` and end. */
  ghost predicate Linked(next: map<nat, nat>, a: nat, nodes: seq<nat>)
    decreases |nodes|
  {
    && a in next
    && next[a] == (if nodes == [] then 0 else nodes[0])
    && (nodes != [] ==> nodes[0] != 0 && Linked(next, nodes[0], nodes[1..]))
  }

  lemma {:induction false} LinkedFrame(next: map<nat, nat>, next': map<nat, nat>, a: nat, nodes: seq<nat>)
    requires Linked(next, a, nodes)
    requires a in next' && next'[a] == next[a]
    requires forall i :: 0 <= i < |nodes| && nodes[i] in next ==> nodes[i] in next' && next'[nodes[i]] == next[nodes[i]]
    ensures Linked(next', a, nodes)
    decreases |nodes|
  {
    if nodes != [] {
      LinkedFrame(next, next', nodes[0], nodes[1..]);
    }
  }

  /** The links from any place in the chain on. */
  lemma {:induction false} LinkedFrom(next: map<nat, nat>, a: nat, nodes: seq<nat>, i: nat)
    requires Linked(next, a, nodes) && i <= |nodes|
    ensures Linked(next, if i == 0 then a else nodes[i - 1], nodes[i..])
    decreases |nodes|
  {
    if i > 0 {
      LinkedFrom(next, nodes[0], nodes[1..], i - 1);
      assert nodes[1..][i - 1..] == nodes[i..];
    }
  }

  /** Two pieces of a chain. */
  lemma {:induction false} LinkedJoin(next: map<nat, nat>, a: nat, front: seq<nat>, back: seq<nat>)
    requires a in next && Linked(next, if front == [] then a else front[|front| - 1], back)
    requires forall i :: 0 <= i < |front| ==> front[i] != 0
    requires front != [] ==> next[a] == front[0]
    requires forall i :: 0 <= i < |front| - 1 ==> front[i] in next && next[front[i]] == front[i + 1]
    ensures Linked(next, a, front + back)
    decreases |front|
  {
    if front == [] {
      assert front + back == back;
    } else {
      assert (front + back)[1..] == front[1..] + back;
      LinkedJoin(next, front[0], front[1..], back);
    }
  }

  /** The value under `key` in a list of nodes: the first match decides. */
  ghost function Search<K, V>(equal: (K, K) -> bool, entries: map<nat, Entry<K, V>>, nodes: seq<nat>, key: K): Option<V>
  {
    if nodes == [] || nodes[0] !in entries then None
    else if equal(entries[nodes[0]].key, key) then Some(entries[nodes[0]].value)
    else Search(equal, entries, nodes[1..], key)
  }

  class Table<K(!new), V> {
    const equal: (K, K) -> bool
    const hash: K -> nat
    var next: map<nat, nat>
    var entries: map<nat, Entry<K, V>>
    /** The nodes of each bucket, in chain order. */
    ghost var chains: seq<seq<nat>>

    constructor (eq: (K, K) -> bool, h: K -> nat)
      requires Congruent(eq, h)
      ensures Valid() && equal == eq && hash == h && (forall k :: Lookup(k) == None)
    {
      equal, hash := eq, h;
      next := map a: nat | 1 <= a <= SIZE :: NullLink(a);
      entries := map[];
      chains := seq(SIZE, _ => []);
    }

    ghost predicate NodeOk(b: nat, a: nat)
      reads this
    {
      SIZE < a && a in entries && hash(entries[a].key) == b
    }

    ghost predicate BucketOk(b: nat, nodes: seq<nat>)
      reads this
    {
      && Linked(next, b + 1, nodes)
      && (forall i :: 0 <= i < |nodes| ==> NodeOk(b, nodes[i]))
      && (forall i, j :: 0 <= i < j < |nodes| && NodeOk(b, nodes[i]) && NodeOk(b, nodes[j])
                         ==> !equal(entries[nodes[i]].key, entries[nodes[j]].key))
    }

    ghost predicate Valid()
      reads this
    {
      && Congruent(equal, hash)
      && |chains| == SIZE
      && forall b :: 0 <= b < SIZE ==> BucketOk(b, chains[b])
    }

    /** The map the table stands for. */
    ghost function Lookup(key: K): Option<V>
      requires Valid()
      reads this
    {
      Search(equal, entries, chains[hash(key)], key)
    }

    /** defalut_get: walk the chain. */
    method Get(key: K) returns (r: Option<V>)
      requires Valid()
      ensures r == Lookup(key)
    {
      ghost var nodes := chains[hash(key)];
      ghost var i := 0;
      var a := next[hash(key) + 1];
      while a != 0
        invariant 0 <= i <= |nodes| && a == (if i < |nodes| then nodes[i] else 0)
        invariant Search(equal, entries, nodes[i..], key) == Lookup(key)
        decreases |nodes| - i
      {
        if equal(entries[a].key, key) {
          return Some(entries[a].value);
        }
        LinkedFrom(next, hash(key) + 1, nodes, i + 1);
        assert nodes[i..][1..] == nodes[i + 1..];
        a := next[a];
        i := i + 1;
      }
      return None;
    }
 
    /**
     default_put, with `node` the page for the new node: refuses a key that is present, else links it in at the
     front.
     */
    method Put(key: K, value: V, node: nat) returns (ok: bool)
      requires Valid() && SIZE < node && node !in entries
      modifies this
      ensures Valid()
      ensures ok == old(Lookup(key)).None?
      ensures forall k :: Lookup(k) == if ok && equal(key, k) then Some(value) else old(Lookup(k))
    {
      var found := Get(key);
      if found.Some? {
        return false;
      }
      var b := hash(key);
      ghost var nodes := chains[b];
      SearchMisses(equal, entries, nodes, key);
      ghost var next0, entries0, chains0 := next, entries, chains;
      entries := entries[node := Entry(key, value)];
      next := next[node := next[b + 1]][b + 1 := node];
      chains := chains[b := [node] + nodes];
      forall c | 0 <= c < SIZE ensures BucketOk(c, chains[c]) {
        PutKeepsBucket(next0, entries0, chains0, key, value, node, c);
      }
      forall k ensures Search(equal, entries, chains[hash(k)], k)
                    == if equal(key, k) then Some(value) else Search(equal, entries0, chains0[hash(k)], k) {
        SearchFrame(equal, entries0, entries, chains0[hash(k)], k);
        if hash(k) == b { assert chains[b][1..] == nodes; }
      }
      return true;
    }

    lemma PutKeepsBucket(next0: map<nat, nat>, entries0: map<nat, Entry<K, V>>, chains0: seq<seq<nat>>, key: K,
                         value: V, node: nat, c: nat)
      requires Congruent(equal, hash) && c < SIZE && |chains0| == SIZE && SIZE < node && node !in entries0
      requires SentinelOf(key) in next0 && next == next0[node := next0[SentinelOf(key)]][SentinelOf(key) := node]
      requires entries == entries0[node := Entry(key, value)]
      requires chains == chains0[hash(key) := [node] + chains0[hash(key)]]
      requires Linked(next0, c + 1, chains0[c])
      requires forall i :: 0 <= i < |chains0[c]| ==>
        SIZE < chains0[c][i] && chains0[c][i] in entries0 && hash(entries0[chains0[c][i]].key) == c
      requires forall i, j :: 0 <= i < j < |chains0[c]| ==>
        !equal(entries0[chains0[c][i]].key, entries0[chains0[c][j]].key)
      requires c == hash(key) ==> forall i :: 0 <= i < |chains0[c]| ==> !equal(entries0[chains0[c][i]].key, key)
      ensures BucketOk(c, chains[c])
    {
      if c == hash(key) {
        LinkedFrom(next0, c + 1, chains0[c], 0);
        LinkedTail(next0, next, c + 1, node, chains0[c]);
      } else {
        LinkedFrame(next0, next, c + 1, chains0[c]);
      }
    }

    /** default_erase: find the predecessor of the matching node and link past it. */
    method Erase(key: K) returns (ok: bool)
      requires Valid()
      modifies this
      ensures Valid()
      ensures ok == old(Lookup(key)).Some?
      ensures forall k :: Lookup(k) == if equal(key, k) then None else old(Lookup(k))
    {
      ghost var b, nodes := hash(key), chains[hash(key)];
      ghost var i := 0;
      var head := hash(key) + 1;
      while next[head] != 0 && !equal(entries[next[head]].key, key)
        invariant 0 <= i <= |nodes| && head == (if i == 0 then b + 1 else nodes[i - 1])
        invariant Linked(next, head, nodes[i..])
        invariant forall j :: 0 <= j < i ==> !equal(entries[nodes[j]].key, key)
        modifies {}
        decreases |nodes| - i
      {
        LinkedFrom(next, b + 1, nodes, i + 1);
        head := next[head];
        i := i + 1;
      }
      EraseMeaning(key, i);
      ok := next[head] != 0;
      if ok {
        assert nodes[i..][0] == nodes[i];
        var node := next[head];
        ghost var next0, entries0, chains0 := next, entries, chains;
        next := next[head := next[node]] - {node};
        entries := entries - {node};
        chains := chains[b := nodes[..i] + nodes[i + 1..]];
        forall c | 0 <= c < SIZE ensures BucketOk(c, chains[c]) {
          EraseKeepsBucket(next0, entries0, chains0, b, i, c);
        }
        forall k ensures Search(equal, entries, chains[hash(k)], k)
                      == Search(equal, entries0, if hash(k) == b then nodes[..i] + nodes[i + 1..]
                        else chains0[hash(k)], k) {
          EraseSearches(entries0, chains0, b, i, k);
        }
      }
    }

    lemma EraseKeepsBucket(next0: map<nat, nat>, entries0: map<nat, Entry<K, V>>, chains0: seq<seq<nat>>, b: nat,
                           i: nat, c: nat)
      requires Congruent(equal, hash) && b < SIZE && c < SIZE && |chains0| == SIZE && i < |chains0[b]|
      requires forall d: nat :: d < SIZE ==> Bucket0(next0, entries0, d, chains0[d])
      requires var nodes := chains0[b];
               var h := if i == 0 then b + 1 else nodes[i - 1];
               && h in next0 && nodes[i] in next0 && next == next0[h := next0[nodes[i]]] - {nodes[i]}
               && entries == entries0 - {nodes[i]}
               && chains == chains0[b := nodes[..i] + nodes[i + 1..]]
      ensures BucketOk(c, chains[c])
    {
      var nodes := chains0[b];
      assert Bucket0(next0, entries0, b, nodes) && Bucket0(next0, entries0, c, chains0[c]);
      if c == b {
        LinkedPast(next0, next, b + 1, nodes, i);
        var r := nodes[..i] + nodes[i + 1..];
        assert forall j :: 0 <= j < |r| ==> r[j] == nodes[if j < i then j else j + 1] && r[j] != nodes[i];
        StillBucket(next, entries0, nodes[i], b, r);
      } else {
        assert forall j :: 0 <= j < |chains0[c]| ==> chains0[c][j] != nodes[i];
        LinkedFrame(next0, next, c + 1, chains0[c]);
        StillBucket(next, entries0, nodes[i], c, chains0[c]);
      }
    }

    /** A bucket without the removed node keeps its entries. */
    lemma StillBucket(links: map<nat, nat>, entries0: map<nat, Entry<K, V>>, gone: nat, c: nat, nodes: seq<nat>)
      requires next == links && entries == entries0 - {gone} && Linked(links, c + 1, nodes)
      requires forall i :: 0 <= i < |nodes| ==>
        nodes[i] != gone && SIZE < nodes[i] && nodes[i] in entries0 && hash(entries0[nodes[i]].key) == c
      requires forall i, j :: 0 <= i < j < |nodes| ==> !equal(entries0[nodes[i]].key, entries0[nodes[j]].key)
      ensures BucketOk(c, nodes)
    {
    }

    /** A sound bucket, for given links and entries. */
    ghost predicate Bucket0(next0: map<nat, nat>, entries0: map<nat, Entry<K, V>>, b: nat, nodes: seq<nat>) {
      && Linked(next0, b + 1, nodes)
      && (forall i :: 0 <= i < |nodes| ==> SIZE < nodes[i] && nodes[i] in entries0 && hash(entries0[nodes[i]].key) == b)
      && (forall i, j :: 0 <= i < j < |nodes| ==> !equal(entries0[nodes[i]].key, entries0[nodes[j]].key))
    }

    lemma EraseSearches(entries0: map<nat, Entry<K, V>>, chains0: seq<seq<nat>>, b: nat, i: nat, k: K)
      requires Congruent(equal, hash) && b < SIZE && |chains0| == SIZE && i < |chains0[b]|
      requires forall d, j :: 0 <= d < SIZE && 0 <= j < |chains0[d]| ==>
        chains0[d][j] in entries0 && hash(entries0[chains0[d][j]].key) == d
      requires forall j :: 0 <= j < |chains0[b]| && j != i ==> chains0[b][j] != chains0[b][i]
      requires entries == entries0 - {chains0[b][i]} && chains == chains0[b := chains0[b][..i] + chains0[b][i + 1..]]
      ensures Search(equal, entries, chains[hash(k)], k)
           == Search(equal, entries0, if hash(k) == b then chains0[b][..i] + chains0[b][i + 1..]
             else chains0[hash(k)], k)
    {
      SearchFrame(equal, entries, entries0, chains[hash(k)], k);
    }

    /** What the chain without node `i` answers, when no earlier node matches `key`. */
    lemma EraseMeaning(key: K, i: nat)
      requires Valid() && i <= |chains[hash(key)]|
      requires forall j :: 0 <= j < i ==> !equal(entries[chains[hash(key)][j]].key, key)
      requires i < |chains[hash(key)]| ==> equal(entries[chains[hash(key)][i]].key, key)
      ensures Lookup(key).Some? <==> i < |chains[hash(key)]|
      ensures i < |chains[hash(key)]| ==>
                var nodes := chains[hash(key)];
                forall k :: hash(k) == hash(key) ==>
                  Search(equal, entries, nodes[..i] + nodes[i + 1..], k) == if equal(key, k) then None else Lookup(k)
      ensures i == |chains[hash(key)]| ==> forall k :: equal(key, k) ==> Lookup(k) == None
    {
      var nodes := chains[hash(key)];
      SearchAt(equal, hash, entries, nodes, key, i);
      if i < |nodes| {
        forall k | hash(k) == hash(key)
          ensures Search(equal, entries, nodes[..i] + nodes[i + 1..], k) == if equal(key, k) then None else Lookup(k)
        {
          SearchWithout(equal, hash, entries, nodes, key, k, i);
        }
      } else {
        forall k | equal(key, k) ensures Lookup(k) == None {
          SearchAt(equal, hash, entries, nodes, k, i);
        }
      }
    }

    /** Address of the sentinel `key` belongs to. */
    ghost function SentinelOf(key: K): nat {
      hash(key) + 1
    }
  }

  /** Unlinking node `i` of a chain with distinct nodes. */
  lemma LinkedPast(next: map<nat, nat>, next': map<nat, nat>, a: nat, nodes: seq<nat>, i: nat)
    requires Linked(next, a, nodes) && i < |nodes| && a !in nodes
    requires forall j, k :: 0 <= j < k < |nodes| ==> nodes[j] != nodes[k]
    requires var h := if i == 0 then a else nodes[i - 1];
             h in next && nodes[i] in next && next' == next[h := next[nodes[i]]] - {nodes[i]}
    ensures Linked(next', a, nodes[..i] + nodes[i + 1..])
  {
    var h := if i == 0 then a else nodes[i - 1];
    LinkedFrom(next, a, nodes, i + 1);
    assert Linked(next, nodes[i], nodes[i + 1..]);
    if i + 1 < |nodes| {
      LinkedFrom(next, a, nodes, i + 2);
      assert nodes[i + 1..][1..] == nodes[i + 2..];
      LinkedFrame(next, next', nodes[i + 1], nodes[i + 2..]);
    }
    assert Linked(next', h, nodes[i + 1..]);
    LinkedFront(next, a, nodes, i);
    LinkedJoin(next', a, nodes[..i], nodes[i + 1..]);
  }

  /** The links among the first `i` nodes of a chain. */
  lemma LinkedFront(next: map<nat, nat>, a: nat, nodes: seq<nat>, i: nat)
    requires Linked(next, a, nodes) && i <= |nodes|
    ensures var front := nodes[..i];
      && (forall j :: 0 <= j < i ==> front[j] != 0) && a in next && (i > 0 ==> next[a] == front[0])
      && (forall j :: 0 <= j < i - 1 ==> front[j] in next && next[front[j]] == front[j + 1])
  {
    var front := nodes[..i];
    forall j | 0 <= j < i
      ensures front[j] != 0
    {
      LinkedFrom(next, a, nodes, j);
    }
    forall j | 0 <= j < i - 1
      ensures front[j] in next && next[front[j]] == front[j + 1]
    {
      LinkedFrom(next, a, nodes, j + 1);
    }
  }

  /** Moving the whole chain behind a new node. */
  lemma LinkedTail(next: map<nat, nat>, next': map<nat, nat>, head: nat, node: nat, nodes: seq<nat>)
    requires Linked(next, head, nodes) && node != 0 && node != head && node !in nodes && head !in nodes
    requires next' == next[node := next[head]][head := node]
    ensures Linked(next', head, [node] + nodes)
  {
    assert ([node] + nodes)[1..] == nodes;
    if nodes != [] {
      LinkedFrame(next, next', nodes[0], nodes[1..]);
    }
  }

  /** A search that passes the first `i` nodes. */
  lemma {:induction false} SearchAt<K(!new), V>(equal: (K, K) -> bool, hash: K -> nat, entries: map<nat, Entry<K, V>>,
                                                nodes: seq<nat>, key: K, i: nat)
    requires Congruent(equal, hash) && i <= |nodes|
    requires forall j :: 0 <= j < |nodes| ==> nodes[j] in entries
    requires forall j :: 0 <= j < i ==> !equal(entries[nodes[j]].key, key)
    ensures Search(equal, entries, nodes, key) == Search(equal, entries, nodes[i..], key)
    decreases i
  {
    if i == 0 {
      assert nodes[0..] == nodes;
    } else {
      SearchAt(equal, hash, entries, nodes[1..], key, i - 1);
      assert nodes[1..][i - 1..] == nodes[i..];
    }
  }

  /** Without the only node that matches `key`, searches for equal keys fail and others are unchanged. */
  lemma {:induction false} SearchWithout<K(!new), V>(equal: (K, K) -> bool, hash: K -> nat, entries: map<nat, Entry<K,
                                                     V>>, nodes: seq<nat>, key: K, k: K, i: nat)
    requires Congruent(equal, hash) && i < |nodes|
    requires forall j :: 0 <= j < |nodes| ==> nodes[j] in entries
    requires forall j, l :: 0 <= j < l < |nodes| ==> !equal(entries[nodes[j]].key, entries[nodes[l]].key)
    requires equal(entries[nodes[i]].key, key)
    ensures Search(equal, entries, nodes[..i] + nodes[i + 1..], k) == if equal(key, k) then None
      else Search(equal, entries, nodes, k)
    decreases i
  {
    var rest := nodes[..i] + nodes[i + 1..];
    if i == 0 {
      assert rest == nodes[1..];
      if equal(key, k) {
        assert forall j :: 0 <= j < |rest| ==> !equal(entries[rest[j]].key, k);
        SearchAt(equal, hash, entries, rest, k, |rest|);
      }
    } else {
      assert rest[0] == nodes[0] && rest[1..] == nodes[1..][..i - 1] + nodes[1..][i..];
      assert equal(key, k) ==> !equal(entries[nodes[0]].key, k);
      SearchWithout(equal, hash, entries, nodes[1..], key, k, i - 1);
    }
  }

  lemma {:induction false} SearchMisses<K, V>(equal: (K, K) -> bool, entries: map<nat, Entry<K, V>>, nodes: seq<nat>,
                                              key: K)
    requires Search(equal, entries, nodes, key) == None
    requires forall i :: 0 <= i < |nodes| ==> nodes[i] in entries
    ensures forall i :: 0 <= i < |nodes| ==> !equal(entries[nodes[i]].key, key)
  {
    if nodes != [] {
      SearchMisses(equal, entries, nodes[1..], key);
      assert forall i :: 1 <= i < |nodes| ==> nodes[i] == nodes[1..][i - 1];
    }
  }

  lemma {:induction false} SearchFrame<K, V>(equal: (K, K) -> bool, entries: map<nat, Entry<K, V>>, entries': map<nat,
                                             Entry<K, V>>, nodes: seq<nat>, key: K)
    requires forall i :: 0 <= i < |nodes| ==>
      nodes[i] in entries && nodes[i] in entries' && entries[nodes[i]] == entries'[nodes[i]]
    ensures Search(equal, entries, nodes, key) == Search(equal, entries', nodes, key)
  {
    if nodes != [] {
      SearchFrame(equal, entries, entries', nodes[1..], key);
    }
  }
}
