/** The chained hash table of libs/base/hash_table.hpp, which stands for a finite map. */
module HashTables {
  import opened Orders
  import opened Buckets
  import opened Sequences
  import opened Floats

  const DEFAULT_BUCKET_COUNT: nat := 8
  const REHASH_GROWTH_FACTOR: nat := 2

  /** The nodes are the entries of the map: one node for each key. */
  ghost function Stores<K, V>(S: set<Node<K, V>>, contents: map<K, V>): Check {
    if && KeysApart(S)
       && (forall n :: n in S ==> n.key in contents && contents[n.key] == n.value)
       && (forall k :: k in contents ==> exists n :: n in S && n.key == k)
    then Ok else Broken
  }

  datatype TableOp<K, V> = Insert(key: K, value: V) | Erase(key: K) | Clear | Rehash(count: nat)

  /** What an operation makes of a map; a key that is there keeps its value. */
  function Next<K(==), V>(before: map<K, V>, op: TableOp<K, V>): map<K, V> {
    match op
    case Insert(k, v) => if k in before then before else before[k := v]
    case Erase(k) => before - {k}
    case Clear => map[]
    case Rehash(_) => before
  }

  function Meaning<K(==), V>(ops: seq<TableOp<K, V>>): map<K, V> {
    if ops == [] then map[] else Next(Meaning(ops[..|ops| - 1]), ops[|ops| - 1])
  }

  /** What it makes of the number of buckets, at the default limit of one. */
  function NextLength<K(==), V>(before: map<K, V>, count: nat, op: TableOp<K, V>): (after: nat)
    requires count > 0
    ensures after >= count
  {
    match op
    case Insert(k, _) => if k !in before && Load(|before| + 1, count) > 1.0 then count * REHASH_GROWTH_FACTOR else count
    case Rehash(n) => if AtLeastDefault(n) > count then AtLeastDefault(n) else count
    case _ => count
  }

  function Lengths<K(==), V>(ops: seq<TableOp<K, V>>): (count: nat)
    ensures count >= DEFAULT_BUCKET_COUNT
  {
    if ops == [] then DEFAULT_BUCKET_COUNT
    else NextLength(Meaning(ops[..|ops| - 1]), Lengths(ops[..|ops| - 1]), ops[|ops| - 1])
  }

  function AtLeastDefault(count: nat): nat {
    if count < DEFAULT_BUCKET_COUNT then DEFAULT_BUCKET_COUNT else count
  }

  datatype Iterator<!K, !V> = Iterator(bucket: nat, node: Node?<K, V>)

  class HashTable<K(==), V> {
    var buckets: array<Node?<K, V>>
    var size: nat
    var maxLoad: real
    const hasher: K -> nat
    /** The chain in each bucket, all nodes, and the map they stand for. */
    ghost var chains: seq<seq<Node<K, V>>>
    ghost var S: set<Node<K, V>>
    ghost var contents: map<K, V>

    ghost predicate Valid()
      reads this, buckets, S
    {
      && size == |S| && Stores(S, contents).Ok?
      && Hung(Snapshot(S), buckets[..], chains).Ok? && Filed(chains, S, hasher).Ok?
    }

    constructor (hasher: K -> nat)
      ensures Valid() && contents == map[] && fresh(buckets) && S == {}
      ensures buckets.Length == DEFAULT_BUCKET_COUNT && maxLoad == 1.0 && this.hasher == hasher
    {
      this.hasher := hasher;
      size, maxLoad := 0, 1.0;
      chains := seq(8, _ => []);
      S, contents := {}, map[];
      buckets := new Node?<K, V>[8](_ => null);
      new;
      EmptyBuckets(Snapshot({}), buckets[..], chains, hasher);
    }

    function LoadFactor(): real
      reads this
      requires buckets.Length > 0
    {
      Load(size, buckets.Length)
    }

    /** Walks the bucket of a key. */
    method Find(key: K) returns (node: Node?<K, V>)
      requires Valid()
      ensures (node == null) <==> key !in contents
      ensures node != null ==> node in S && node.key == key && node.value == contents[key]
    {
      hide Chain, Hung, Filed, Stores;
      FiledShape(chains, S, hasher);
      HungShape(Snapshot(S), buckets[..], chains);
      var idx := hasher(key) % buckets.Length;
      ghost var s, j := chains[idx], 0;
      HungAt(Snapshot(S), buckets[..], chains, idx);
      FiledAt(chains, S, idx, hasher);
      var cur := buckets[idx];
      ChainStarts(Snapshot(S), s, cur);
      while cur != null
        invariant j <= |s| && cur == if j < |s| then s[j] else null
        invariant forall i :: 0 <= i < j ==> s[i].key != key
        decreases |s| - j
      {
        assert cur in s;
        if cur.key == key {
          StoresAt(S, contents, cur);
          return cur;
        }
        ChainAt(Snapshot(S), s, buckets[idx], j);
        cur := cur.next;
        j := j + 1;
      }
      node := null;
      NotStored(chains, S, contents, idx, key, hasher);
    }

    /** Where a key is in its bucket, and the node before it. */
    method FindInBucket(key: K, idx: nat) returns (cur: Node?<K, V>, prev: Node?<K, V>, ghost j: nat)
      requires Valid() && buckets.Length > 0 && idx == hasher(key) % buckets.Length
      ensures |chains| == buckets.Length
      ensures cur == null ==> key !in contents
      ensures cur != null ==> j < |chains[idx]| && cur == chains[idx][j] && cur in S && cur.key == key
      ensures cur != null ==> prev == if j == 0 then null else chains[idx][j - 1]
    {
      hide Chain, Hung, Filed, Stores;
      FiledShape(chains, S, hasher);
      HungShape(Snapshot(S), buckets[..], chains);
      ghost var s := chains[idx];
      HungAt(Snapshot(S), buckets[..], chains, idx);
      FiledAt(chains, S, idx, hasher);
      cur, prev, j := buckets[idx], null, 0;
      ChainStarts(Snapshot(S), s, cur);
      while cur != null
        invariant j <= |s| && cur == (if j < |s| then s[j] else null) && prev == if j == 0 then null else s[j - 1]
        invariant forall i :: 0 <= i < j ==> s[i].key != key
        decreases |s| - j
      {
        assert cur in s;
        if cur.key == key {
          return;
        }
        ChainAt(Snapshot(S), s, buckets[idx], j);
        prev := cur;
        cur := cur.next;
        j := j + 1;
      }
      NotStored(chains, S, contents, idx, key, hasher);
    }

    /** Erases by key, and says how many entries that were. */
    method Erase(key: K) returns (count: nat)
      requires Valid()
      modifies this`size, this`chains, this`S, this`contents, buckets, S
      ensures Valid() && contents == old(contents) - {key} && S <= old(S)
      ensures count == (if key in old(contents) then 1 else 0) && size + count == old(size)
    {
      hide Chain, Hung, Filed, Stores;
      FiledShape(chains, S, hasher);
      HungShape(Snapshot(S), buckets[..], chains);
      var idx := hasher(key) % buckets.Length;
      var cur, prev, j := FindInBucket(key, idx);
      if cur == null {
        assert contents - {key} == contents;
        return 0;
      }
      StoresAt(S, contents, cur);
      CutOut(idx, cur, prev, j);
      StoresLess(S, contents, cur);
      chains := chains[idx := chains[idx][..j] + chains[idx][j + 1..]];
      S := S - {cur};
      contents := contents - {key};
      size := size - 1;
      count := 1;
    }

    /** Relinks around a node. */
    method CutOut(idx: nat, cur: Node<K, V>, prev: Node?<K, V>, ghost j: nat)
      requires Hung(Snapshot(S), buckets[..], chains).Ok? && Filed(chains, S, hasher).Ok?
      requires idx < |chains| && j < |chains[idx]| && cur == chains[idx][j] && cur in S
      requires prev == if j == 0 then null else chains[idx][j - 1]
      modifies buckets, S
      ensures var fewer := chains[idx := chains[idx][..j] + chains[idx][j + 1..]];
              && Hung(Snapshot(S - {cur}), buckets[..], fewer).Ok? && Filed(fewer, S - {cur}, hasher).Ok?
    {
      hide Chain, Hung, Filed;
      ghost var m, heads := Snapshot(S), buckets[..];
      ghost var fewer := chains[idx := chains[idx][..j] + chains[idx][j + 1..]];
      FiledAt(chains, S, idx, hasher);
      HungShape(m, heads, chains);
      Removed(m, heads, chains, S, idx, j, hasher);
      if prev != null {
        assert prev in chains[idx];
        prev.next := cur.next;
        assert Snapshot(S) == m[prev := m[cur]];
      } else {
        buckets[idx] := cur.next;
        assert buckets[..] == heads[idx := m[cur]];
      }
      HungAgrees(Snapshot(S), Snapshot(S - {cur}), buckets[..], fewer, S - {cur}, hasher);
    }

    method Clear()
      requires Valid()
      modifies this`size, this`chains, this`S, this`contents, buckets
      ensures Valid() && contents == map[] && S == {} && size == 0
    {
      hide Chain, Hung, Filed;
      FiledShape(chains, S, hasher);
      HungShape(Snapshot(S), buckets[..], chains);
      for i := 0 to buckets.Length
        invariant forall k :: 0 <= k < i ==> buckets[k] == null
      {
        buckets[i] := null;
      }
      size := 0;
      chains := seq(buckets.Length, _ => []);
      S, contents := {}, map[];
      EmptyBuckets(Snapshot({}), buckets[..], chains, hasher);
    }

    /** A key that is there already keeps its value. The iterator has the bucket the key had before any rehash, and
        for a key that is there the first node of that bucket. */
    method Emplace(key: K, value: V) returns (it: Iterator<K, V>, inserted: bool)
      requires Valid()
      modifies this, buckets, S
      ensures Valid() && maxLoad == old(maxLoad)
      ensures inserted <==> key !in old(contents)
      ensures contents == if inserted then old(contents)[key := value] else old(contents)
      ensures size == old(size) + if inserted then 1 else 0
      ensures fresh(S - old(S)) && (buckets == old(buckets) || fresh(buckets))
      ensures 0 < old(buckets.Length)
      ensures buckets.Length == if inserted && Load(size, old(buckets.Length)) > maxLoad
                                then old(buckets.Length) * REHASH_GROWTH_FACTOR else old(buckets.Length)
      ensures it.bucket == hasher(key) % old(buckets.Length) && it.node != null && it.node in S
      ensures inserted ==> fresh(it.node) && it.node.key == key && it.node.value == value
      ensures buckets.Length == old(buckets.Length) ==> it.bucket < |chains| && Stands(it, 0)
    {
      hide Chain, Hung, Filed, Stores;
      FiledShape(chains, S, hasher);
      HungShape(Snapshot(S), buckets[..], chains);
      var idx := hasher(key) % buckets.Length;
      var found, _, _ := FindInBucket(key, idx);
      if found != null {
        HeadStands(idx, found);
        return Iterator(idx, buckets[idx]), false;
      }
      var node := Add(key, value);
      it, inserted := Iterator(idx, node), true;
      if LoadFactor() > maxLoad {
        Redistribute(buckets.Length * REHASH_GROWTH_FACTOR);
      }
    }

    /** The first node of a bucket that is not empty. */
    lemma HeadStands(idx: nat, found: Node<K, V>)
      requires Valid() && idx < |chains| == buckets.Length && found in chains[idx] && found in S
      ensures found.key in contents && buckets[idx] != null && buckets[idx] in S
              && Stands(Iterator(idx, buckets[idx]), 0)
    {
      hide Chain, Hung, Filed, Stores;
      StoresAt(S, contents, found);
      HeadOf(Snapshot(S), buckets[..], chains, idx);
      FiledAt(chains, S, idx, hasher);
      assert chains[idx][0] in chains[idx];
    }

    method Add(key: K, value: V) returns (node: Node<K, V>)
      requires Valid() && key !in contents
      modifies this`size, this`chains, this`S, this`contents, buckets
      ensures Valid() && contents == old(contents)[key := value] && S == old(S) + {node} && size == old(size) + 1
      ensures fresh(node) && node.key == key && node.value == value
      ensures 0 < |chains| == buckets.Length && Stands(Iterator(hasher(key) % |chains|, node), 0)
    {
      hide Chain, Hung, Filed, Stores;
      node := new Node(key, value);
      StoresMore(S, contents, node);
      PushFront(node, S);
      HungShape(Snapshot(S), buckets[..], chains);
      contents := contents[key := value];
      size := size + 1;
    }

    /** Hooks a node in at the front of its bucket. */
    method PushFront(node: Node<K, V>, ghost D: set<Node<K, V>>)
      requires Hung(Snapshot(D), buckets[..], chains).Ok? && Filed(chains, D, hasher).Ok? && node !in D
      modifies this`chains, this`S, buckets, node
      ensures Hung(Snapshot(D + {node}), buckets[..], chains).Ok?
      ensures Filed(chains, D + {node}, hasher).Ok?
      ensures S == D + {node} && |chains| == old(|chains|)
      ensures 0 < |chains| && [node] <= chains[Index(node, |chains|, hasher)]
    {
      hide Chain, Hung, Filed;
      FiledShape(chains, D, hasher);
      HungShape(Snapshot(D), buckets[..], chains);
      ghost var m, heads := Snapshot(D), buckets[..];
      Pushed(m, heads, chains, D, node, hasher);
      var idx := hasher(node.key) % buckets.Length;
      node.next := buckets[idx];
      buckets[idx] := node;
      assert buckets[..] == heads[idx := node];
      ghost var k := Snapshot(D + {node});
      assert k == m[node := heads[idx]];
      assert idx == Index(node, |chains|, hasher);
      chains := chains[idx := [node] + chains[idx]];
      S := D + {node};
      assert buckets[..] == heads[idx := node];
      assert Snapshot(D + {node}) == k;
    }

    /** Moves every node to its bucket among a new number of buckets. */
    method Redistribute(count: nat)
      requires Valid() && count > 0
      modifies this`buckets, this`chains, this`S, S
      ensures Valid() && S == old(S) && fresh(buckets) && buckets.Length == count
    {
      hide Chain, Hung, Filed, Stores;
      ghost var all, before, heads, m := S, chains, buckets[..], Snapshot(S);
      FiledShape(chains, S, hasher);
      HungShape(m, heads, chains);
      StartHanging(m, heads, before);
      var oldBuckets := buckets;
      Allocate(count);
      NoneBefore(all, |before|, hasher);
      for i := 0 to oldBuckets.Length
        invariant buckets.Length == count && fresh(buckets) && oldBuckets[..] == heads && size == old(size)
        invariant contents == old(contents)
        invariant Hung(Snapshot(S), buckets[..], chains).Ok? && Filed(chains, S, hasher).Ok?
        invariant S == FiledBefore(all, |before|, i, hasher)
        invariant Hanging(Snapshot(all), heads, before, i).Ok?
      {
        NextChain(Snapshot(all), heads, before, all, i, hasher);
        MoveChain(oldBuckets[i], before[i], heads, before, i, all);
      }
      AllBefore(all, |before|, hasher);
    }

    method Allocate(count: nat)
      requires count > 0
      modifies this`buckets, this`chains, this`S
      ensures fresh(buckets) && buckets.Length == count && S == {}
      ensures Hung(Snapshot(S), buckets[..], chains).Ok? && Filed(chains, S, hasher).Ok?
    {
      hide Chain, Hung, Filed;
      buckets := new Node?<K, V>[count](_ => null);
      chains, S := seq(count, _ => []), {};
      EmptyBuckets(Snapshot({}), buckets[..], chains, hasher);
    }

    /** rehash: never below the default, and only when that is called for. */
    method Rehash(count: nat)
      requires Valid()
      modifies this`buckets, this`chains, this`S, S
      ensures Valid() && S == old(S) && (buckets == old(buckets) || fresh(buckets))
      ensures 0 < old(buckets.Length)
      ensures var target := AtLeastDefault(count);
              buckets.Length == if Load(size, old(buckets.Length)) > maxLoad || target > old(buckets.Length)
                                then target else old(buckets.Length)
    {
      hide Chain, Hung, Filed, Stores;
      FiledShape(chains, S, hasher);
      HungShape(Snapshot(S), buckets[..], chains);
      var target := if count < DEFAULT_BUCKET_COUNT then DEFAULT_BUCKET_COUNT else count;
      if LoadFactor() > maxLoad || target > buckets.Length {
        Redistribute(target);
      }
    }

    // ----- iterators -----

    /** What an iterator at the j-th node of its bucket has still to visit; nothing when it is at the end. */
    ghost function Ahead(it: Iterator<K, V>, j: nat): seq<Node<K, V>>
      reads this
      requires it.bucket < |chains| ==> j <= |chains[it.bucket]|
    {
      if it.bucket >= |chains| then [] else chains[it.bucket][j..] + Flat(chains, it.bucket + 1)
    }

    /** The iterator stands at that node, or at the end. */
    ghost predicate Stands(it: Iterator<K, V>, j: nat)
      reads this, buckets
    {
      if it.bucket < |chains| then j < |chains[it.bucket]| && it.node == chains[it.bucket][j]
      else it == Iterator(buckets.Length, null)
    }

    /** From the head of a bucket, or from the end, on to the next bucket that is not empty. */
    method Settle(it0: Iterator<K, V>) returns (it: Iterator<K, V>)
      requires Valid() && it0.bucket <= buckets.Length
      requires it0.node == if it0.bucket < buckets.Length then buckets[it0.bucket] else null
      ensures it.bucket <= buckets.Length == |chains|
      ensures Stands(it, 0) && Ahead(it, 0) == Flat(chains, it0.bucket)
    {
      hide Chain, Hung, Filed, Stores;
      FiledShape(chains, S, hasher);
      HungShape(Snapshot(S), buckets[..], chains);
      it := it0;
      HeadOf(Snapshot(S), buckets[..], chains, it.bucket);
      while it.node == null && it.bucket != buckets.Length
        invariant it.bucket <= buckets.Length
        invariant it.node == if it.bucket < buckets.Length then buckets[it.bucket] else null
        invariant Flat(chains, it.bucket) == Flat(chains, it0.bucket)
        invariant it.bucket < |chains| ==> it.node == if chains[it.bucket] == [] then null else chains[it.bucket][0]
        decreases buckets.Length - it.bucket
      {
        assert chains[it.bucket] == [];
        it := Iterator(it.bucket + 1, null);
        if it.bucket != buckets.Length {
          it := Iterator(it.bucket, buckets[it.bucket]);
        }
        HeadOf(Snapshot(S), buckets[..], chains, it.bucket);
      }
      if it.bucket < |chains| { assert chains[it.bucket][0..] == chains[it.bucket]; }
    }

    method Begin() returns (it: Iterator<K, V>)
      requires Valid()
      ensures it.bucket <= buckets.Length == |chains| && Stands(it, 0) && Ahead(it, 0) == Flat(chains, 0)
    {
      hide Chain, Hung, Filed, Stores;
      FiledShape(chains, S, hasher);
      HungShape(Snapshot(S), buckets[..], chains);
      it := Settle(Iterator(0, buckets[0]));
    }

    /** ++: what was ahead, but for the node it stood at. */
    method Advance(it0: Iterator<K, V>, ghost j0: nat) returns (it: Iterator<K, V>, ghost j: nat)
      requires Valid() && it0.bucket < buckets.Length == |chains| && Stands(it0, j0)
      ensures it.bucket <= buckets.Length && Stands(it, j) && (it.bucket < |chains| ==> j <= |chains[it.bucket]|)
      ensures it0.node != null && Ahead(it0, j0) == [it0.node] + Ahead(it, j)
    {
      hide Chain, Hung, Filed, Stores;
      ghost var s := chains[it0.bucket];
      HungAt(Snapshot(S), buckets[..], chains, it0.bucket);
      ChainAt(Snapshot(S), s, buckets[it0.bucket], j0);
      assert s[j0..] == [s[j0]] + s[j0 + 1..];
      it, j := Iterator(it0.bucket, it0.node.next), j0 + 1;
      if it.node == null {
        assert s[j0 + 1..] == [];
        it := Iterator(it.bucket + 1, if it.bucket + 1 != buckets.Length then buckets[it.bucket + 1] else null);
        it := Settle(it);
        j := 0;
      }
    }

    /** A loop from begin to end meets every node once. */
    method Visit() returns (visited: seq<Node<K, V>>)
      requires Valid()
      ensures Distinct(visited) && forall n :: n in visited <==> n in S
    {
      hide Chain, Hung, Filed, Stores, Distinct, Flat, Ahead;
      visited := [];
      var it := Begin();
      ghost var j := 0;
      while it != Iterator(buckets.Length, null)
        invariant it.bucket <= buckets.Length == |chains| && Stands(it, j)
        invariant visited + Ahead(it, j) == Flat(chains, 0)
        decreases |Ahead(it, j)|
      {
        AheadAt(it, j);
        var node := it.node;
        it, j := Advance(it, j);
        NextVisited(visited, node, Ahead(it, j));
        visited := visited + [node];
      }
      AheadAt(it, j);
      assert visited + [] == visited;
      FlatAll(chains, S, hasher);
    }

    lemma AheadAt(it: Iterator<K, V>, j: nat)
      requires it.bucket <= buckets.Length == |chains| && Stands(it, j)
      ensures it.bucket < |chains| ==> it.node != null && Ahead(it, j) != [] && Ahead(it, j)[0] == it.node
      ensures it.bucket < |chains| ==> Ahead(it, j) == [it.node] + Ahead(it, j)[1..]
      ensures it.bucket == |chains| ==> Ahead(it, j) == []
    {
      hide Flat;
    }

    method Do(op: TableOp<K, V>)
      requires Valid() && maxLoad == 1.0 && (buckets.Length > 0 ==> Load(|contents|, buckets.Length) <= 1.0)
      modifies this, buckets, S
      ensures Valid() && maxLoad == 1.0 && 0 < old(buckets.Length) && contents == Next(old(contents), op)
      ensures buckets.Length == NextLength(old(contents), old(buckets.Length), op)
      ensures fresh(S - old(S)) && (buckets == old(buckets) || fresh(buckets))
    {
      hide Chain, Hung, Filed, Stores, Load;
      FiledShape(chains, S, hasher);
      HungShape(Snapshot(S), buckets[..], chains);
      StoresCount(S, contents);
      match op {
        case Insert(k, v) => var _, _ := Emplace(k, v);
        case Erase(k) => var _ := Erase(k);
        case Clear => Clear();
        case Rehash(n) => Rehash(n);
      }
    }

    /** Any operations one after the other: the table is the map they make, its size is the number of keys, and its
        buckets are as many as the operations call for. */
    static method Perform(hasher: K -> nat, ops: seq<TableOp<K, V>>) returns (table: HashTable<K, V>)
      ensures table.Valid() && table.contents == Meaning(ops) && table.size == |Meaning(ops)|
      ensures table.buckets.Length == Lengths(ops)
    {
      hide Chain, Hung, Filed, Stores;
      table := new HashTable(hasher);
      for i := 0 to |ops|
        invariant table.Valid() && fresh(table) && fresh(table.buckets) && fresh(table.S)
        invariant table.contents == Meaning(ops[..i]) && table.maxLoad == 1.0
        invariant table.buckets.Length == Lengths(ops[..i])
      {
        assert ops[..i + 1][..i] == ops[..i];
        LoadLaw(ops[..i]);
        table.Do(ops[i]);
      }
      assert ops[..|ops|] == ops;
      StoresCount(table.S, table.contents);
    }

    /** Moves the nodes of one old bucket; the buckets after it still hang. */
    method MoveChain(start: Node?<K, V>, ghost s: seq<Node<K, V>>, ghost heads: seq<Node?<K, V>>,
                     ghost before: seq<seq<Node<K, V>>>, ghost i: nat, ghost all: set<Node<K, V>>)
      requires Hung(Snapshot(S), buckets[..], chains).Ok? && Filed(chains, S, hasher).Ok?
      requires Chain(Snapshot(all), s, start).Ok? && Loose(s, before, S, i).Ok?
      requires Hanging(Snapshot(all), heads, before, i + 1).Ok?
      modifies this`chains, this`S, buckets, s
      ensures Hung(Snapshot(S), buckets[..], chains).Ok? && Filed(chains, S, hasher).Ok?
      ensures S == old(S) + set n | n in s
      ensures Hanging(Snapshot(all), heads, before, i + 1).Ok?
    {
      hide Chain, Hung, Filed, Hanging, Loose;
      var cur := start;
      ghost var rest := s;
      while cur != null
        invariant Hung(Snapshot(S), buckets[..], chains).Ok? && Filed(chains, S, hasher).Ok?
        invariant Chain(Snapshot(all), rest, cur).Ok? && Loose(rest, before, S, i).Ok?
        invariant Hanging(Snapshot(all), heads, before, i + 1).Ok?
        invariant (forall n :: n in rest ==> n in s) && S + (set n | n in rest) == old(S) + set n | n in s
        decreases |rest|
      {
        ghost var m := Snapshot(all);
        ChainStarts(m, rest, cur);
        ChainAt(m, rest, cur, 0);
        var next := cur.next;
        LooseNext(rest, before, S, i);
        assert cur == rest[0] && cur in rest;
        PushFront(cur, S);
        assert Snapshot(all) == m[cur := cur.next];
        ChainKeeps(m, rest[1..], next, cur, cur.next);
        HangingKeeps(m, heads, before, i + 1, cur, cur.next);
        assert rest == [cur] + rest[1..];
        rest := rest[1..];
        cur := next;
      }
      ChainStarts(Snapshot(all), rest, cur);
    }
  }

  lemma HeadOf<K, V>(m: Memory<K, V>, heads: seq<Node?<K, V>>, chains: seq<seq<Node<K, V>>>, i: nat)
    requires Hung(m, heads, chains).Ok?
    ensures i < |chains| == |heads| ==> heads[i] == if chains[i] == [] then null else chains[i][0]
  {
    if i < |chains| { assert Chain(m, chains[i], heads[i]).Ok?; }
  }

  lemma NextVisited<N>(visited: seq<N>, node: N, ahead: seq<N>)
    ensures visited + ([node] + ahead) == visited + [node] + ahead
  {
  }

  /** The buckets from i on hold their chains. */
  ghost function Hanging<K, V>(m: Memory<K, V>, heads: seq<Node?<K, V>>, chains: seq<seq<Node<K, V>>>, i: nat): Check {
    if |heads| == |chains| && forall k :: i <= k < |chains| ==> Chain(m, chains[k], heads[k]).Ok? then Ok else Broken
  }

  lemma StartHanging<K, V>(m: Memory<K, V>, heads: seq<Node?<K, V>>, chains: seq<seq<Node<K, V>>>)
    requires Hung(m, heads, chains).Ok?
    ensures Hanging(m, heads, chains, 0).Ok?
  {
  }

  lemma HangingKeeps<K, V>(m: Memory<K, V>, heads: seq<Node?<K, V>>, chains: seq<seq<Node<K, V>>>, i: nat,
                           x: Node<K, V>, y: Node?<K, V>)
    requires Hanging(m, heads, chains, i).Ok? && forall k :: i <= k < |chains| ==> x !in chains[k]
    ensures Hanging(m[x := y], heads, chains, i).Ok?
  {
    hide Chain;
    forall k | i <= k < |chains| ensures Chain(m[x := y], chains[k], heads[k]).Ok? {
      ChainKeeps(m, chains[k], heads[k], x, y);
    }
  }

  /** Nodes on their way: each once, in no bucket yet, and in no later chain. */
  ghost function Loose<K, V>(s: seq<Node<K, V>>, before: seq<seq<Node<K, V>>>, D: set<Node<K, V>>, i: nat): Check {
    if && Distinct(s) && (forall j :: 0 <= j < |s| ==> s[j] !in D)
       && (forall j, k :: 0 <= j < |s| && i < k < |before| ==> s[j] !in before[k])
    then Ok else Broken
  }

  lemma LooseNext<K, V>(s: seq<Node<K, V>>, before: seq<seq<Node<K, V>>>, D: set<Node<K, V>>, i: nat)
    requires Loose(s, before, D, i).Ok? && s != []
    ensures s[0] !in D && s[0] !in s[1..] && (forall k :: i + 1 <= k < |before| ==> s[0] !in before[k])
    ensures Loose(s[1..], before, D + {s[0]}, i).Ok?
  {
    var t := s[1..];
    assert forall j :: 0 <= j < |t| ==> t[j] == s[j + 1];
  }

  /** The nodes whose old bucket comes before i. */
  ghost function FiledBefore<K, V>(all: set<Node<K, V>>, count: nat, i: nat, hasher: K -> nat): set<Node<K, V>>
    requires count > 0
  {
    set n | n in all && Index(n, count, hasher) < i
  }

  lemma NoneBefore<K, V>(all: set<Node<K, V>>, count: nat, hasher: K -> nat)
    requires count > 0
    ensures FiledBefore(all, count, 0, hasher) == {}
  {
  }

  lemma AllBefore<K, V>(all: set<Node<K, V>>, count: nat, hasher: K -> nat)
    requires count > 0
    ensures FiledBefore(all, count, count, hasher) == all
  {
    hide Index;
    assert forall n :: n in all ==> Index(n, count, hasher) < count;
  }

  lemma NextChain<K, V>(m: Memory<K, V>, heads: seq<Node?<K, V>>, before: seq<seq<Node<K, V>>>, all: set<Node<K, V>>,
                        i: nat, hasher: K -> nat)
    requires Hanging(m, heads, before, i).Ok? && Filed(before, all, hasher).Ok? && i < |before|
    ensures i < |heads| && Chain(m, before[i], heads[i]).Ok? && Hanging(m, heads, before, i + 1).Ok?
    ensures Loose(before[i], before, FiledBefore(all, |before|, i, hasher), i).Ok?
    ensures FiledBefore(all, |before|, i + 1, hasher) == FiledBefore(all, |before|, i, hasher) + set n | n in before[i]
    ensures forall n :: n in before[i] ==> n in all
  {
    hide Index, Chain;
    FiledAt(before, all, i, hasher);
    forall j, k | 0 <= j < |before[i]| && i < k < |before| ensures before[i][j] !in before[k] {
      FiledAt(before, all, k, hasher);
      assert before[i][j] in before[i];
    }
    assert Distinct(before[i]);
  }

  lemma FiledShape<K, V>(chains: seq<seq<Node<K, V>>>, D: set<Node<K, V>>, hasher: K -> nat)
    requires Filed(chains, D, hasher).Ok?
    ensures |chains| > 0
  {
  }

  lemma HungShape<K, V>(m: Memory<K, V>, heads: seq<Node?<K, V>>, chains: seq<seq<Node<K, V>>>)
    requires Hung(m, heads, chains).Ok?
    ensures |heads| == |chains|
  {
  }

  lemma StoresAt<K, V>(S: set<Node<K, V>>, contents: map<K, V>, n: Node<K, V>)
    requires Stores(S, contents).Ok? && n in S
    ensures n.key in contents && contents[n.key] == n.value
  {
  }

  /** A key that is not in its bucket is nowhere. */
  lemma NotStored<K, V>(chains: seq<seq<Node<K, V>>>, S: set<Node<K, V>>, contents: map<K, V>, idx: nat, key: K,
                        hasher: K -> nat)
    requires Filed(chains, S, hasher).Ok? && Stores(S, contents).Ok? && |chains| > 0 && idx == hasher(key) % |chains|
    requires forall i :: 0 <= i < |chains[idx]| ==> chains[idx][i].key != key
    ensures key !in contents
  {
    forall n | n in S ensures n.key != key {
      assert n in chains[Index(n, |chains|, hasher)];
    }
  }

  lemma StoresLess<K, V>(S: set<Node<K, V>>, contents: map<K, V>, x: Node<K, V>)
    requires Stores(S, contents).Ok? && x in S
    ensures Stores(S - {x}, contents - {x.key}).Ok?
  {
    forall k | k in contents - {x.key} ensures exists n :: n in S - {x} && n.key == k {
      var n :| n in S && n.key == k;
      assert n in S - {x};
    }
  }

  lemma StoresMore<K, V>(S: set<Node<K, V>>, contents: map<K, V>, x: Node<K, V>)
    requires Stores(S, contents).Ok? && x !in S && x.key !in contents
    ensures Stores(S + {x}, contents[x.key := x.value]).Ok?
  {
    var more := contents[x.key := x.value];
    forall k | k in more ensures exists n :: n in S + {x} && n.key == k {
      if k == x.key {
        assert x in S + {x};
      } else {
        var n :| n in S && n.key == k;
        assert n in S + {x};
      }
    }
  }

  lemma {:induction false} StoresCount<K, V>(S: set<Node<K, V>>, contents: map<K, V>)
    requires Stores(S, contents).Ok?
    ensures |S| == |contents|
    decreases |S|
  {
    if S == {} {
      assert contents.Keys == {};
    } else {
      var x :| x in S;
      StoresAt(S, contents, x);
      StoresLess(S, contents, x);
      StoresCount(S - {x}, contents - {x.key});
      assert contents.Keys == (contents - {x.key}).Keys + {x.key};
      assert |contents.Keys| == |contents|;
      assert |(contents - {x.key}).Keys| == |contents - {x.key}|;
    }
  }

  // ----- the load -----

  /** After every run at the default limit the rounded size is at most the rounded number of buckets. */
  lemma {:induction false} LoadLaw<K, V>(ops: seq<TableOp<K, V>>)
    ensures Single(|Meaning(ops)| as real) <= Single(Lengths(ops) as real)
    ensures Load(|Meaning(ops)|, Lengths(ops)) <= 1.0
  {
    hide Single, Load;
    if ops == [] {
      SingleMonotone(0.0, 8.0);
    } else {
      var before, op := ops[..|ops| - 1], ops[|ops| - 1];
      LoadLaw(before);
      NextLoad(Meaning(before), Lengths(before), op);
    }
    LoadAboveOne(|Meaning(ops)|, Lengths(ops));
  }

  lemma NextLoad<K, V>(before: map<K, V>, count: nat, op: TableOp<K, V>)
    requires count > 0 && Single(|before| as real) <= Single(count as real)
    ensures Single(|Next(before, op)| as real) <= Single(NextLength(before, count, op) as real)
  {
    hide Single, Load;
    var after, n := NextLength(before, count, op), |before|;
    SingleMonotone(count as real, after as real);
    match op {
      case Insert(k, v) =>
        if k !in before {
          Grown(before, k, v);
          LoadAboveOne(n + 1, count);
          if n == 0 {
            SingleMonotone(1.0, after as real);
          } else if after != count {
            SingleTwice(n as real);
            SingleTwice(count as real);
            SingleMonotone((n + 1) as real, 2.0 * n as real);
            assert after as real == 2.0 * count as real;
          }
        }
      case Erase(k) =>
        Shrunk(before, k);
        SingleMonotone(|before - {k}| as real, n as real);
      case Clear =>
        SingleMonotone(0.0, after as real);
      case Rehash(_) =>
    }
  }

  lemma Grown<K, V>(m: map<K, V>, k: K, v: V)
    requires k !in m
    ensures |m[k := v]| == |m| + 1
  {
    assert m[k := v].Keys == m.Keys + {k};
    assert |m.Keys| == |m| && |m[k := v].Keys| == |m[k := v]|;
  }

  lemma Shrunk<K, V>(m: map<K, V>, k: K)
    ensures |m - {k}| <= |m|
  {
    if k in m {
      assert |(m - {k}).Keys| == |m - {k}| && |m.Keys| == |m|;
      assert m.Keys == (m - {k}).Keys + {k};
    } else {
      assert m - {k} == m;
    }
  }

  /** So there is never more than one node for a bucket while there are at most 2^24 nodes; and when there are more,
      the two counts are the same number to a float. */
  lemma OneForABucket<K, V>(ops: seq<TableOp<K, V>>)
    ensures |Meaning(ops)| <= TWO_24 ==> |Meaning(ops)| <= Lengths(ops)
    ensures |Meaning(ops)| > Lengths(ops) ==> Single(|Meaning(ops)| as real) == Single(Lengths(ops) as real)
  {
    hide Single;
    LoadLaw(ops);
    var size, count := |Meaning(ops)|, Lengths(ops);
    if size > count {
      SingleMonotone(count as real, size as real);
      if size <= TWO_24 {
        SingleWhole(size);
        SingleWhole(count);
      }
    }
  }

  /** Exactly when an insertion leaves one node for a bucket: there is room, or the load shows that there is none and
      the buckets double. */
  predicate Suffices(size: nat, count: nat) {
    size < count || Single((size + 1) as real) > Single(count as real)
  }

  lemma NextSuffices<K, V>(before: map<K, V>, count: nat, k: K, v: V)
    requires count > 0 && k !in before && Single(|before| as real) <= Single(count as real)
    ensures |Next(before, Insert(k, v))| <= NextLength(before, count, Insert(k, v)) <==> Suffices(|before|, count)
  {
    hide Single, Load;
    Grown(before, k, v);
    LoadAboveOne(|before| + 1, count);
    SinglePositive(count);
    SingleTwice(count as real);
    assert (2 * count) as real == 2.0 * count as real;
    if |before| >= 2 * count { SingleMonotone((2 * count) as real, |before| as real); }
  }

  lemma InsertSuffices<K, V>(ops: seq<TableOp<K, V>>, k: K, v: V)
    requires k !in Meaning(ops)
    ensures var more := ops + [Insert(k, v)];
            |Meaning(more)| <= Lengths(more) <==> Suffices(|Meaning(ops)|, Lengths(ops))
  {
    hide Single, Load, Suffices;
    assert (ops + [Insert(k, v)])[..|ops|] == ops;
    LoadLaw(ops);
    NextSuffices(Meaning(ops), Lengths(ops), k, v);
  }

  /** Insertions of keys that are there, and all other operations, leave one node for a bucket where there was. */
  lemma OthersSuffice<K, V>(before: map<K, V>, count: nat, op: TableOp<K, V>)
    requires 0 < count && |before| <= count && !(op.Insert? && op.key !in before)
    ensures |Next(before, op)| <= NextLength(before, count, op)
  {
    hide Load;
    if op.Erase? { Shrunk(before, op.key); }
  }

  /** The operation is not an insertion after which there are too few buckets. */
  predicate Keeps<K(==), V>(before: map<K, V>, count: nat, op: TableOp<K, V>) {
    op.Insert? && op.key !in before ==> Suffices(|before|, count)
  }

  /** All along a run there is at most one node for a bucket if and only if every insertion of a new key finds room,
      or a load that shows that there is none. */
  lemma {:induction false} OneForABucketIff<K, V>(ops: seq<TableOp<K, V>>)
    ensures (forall i :: 0 <= i <= |ops| ==> |Meaning(ops[..i])| <= Lengths(ops[..i]))
            <==> (forall i :: 0 <= i < |ops| ==> Keeps(Meaning(ops[..i]), Lengths(ops[..i]), ops[i]))
  {
    hide Single, Load, Suffices, Meaning, Lengths, Keeps;
    if ops == [] {
      NothingIn<K, V>();
      assert forall i :: 0 <= i <= |ops| ==> ops[..i] == [];
    } else {
      var last := |ops| - 1;
      var before := ops[..last];
      OneForABucketIff(before);
      assert forall i :: 0 <= i <= last ==> before[..i] == ops[..i];
      assert forall i :: 0 <= i < last ==> before[i] == ops[i];
      assert ops[..|ops|] == ops == before + [ops[last]];
      if |Meaning(before)| <= Lengths(before) { LastKeeps(before, ops[last]); }
      assert before[..last] == before;
    }
  }

  lemma NothingIn<K, V>()
    ensures |Meaning<K, V>([])| <= Lengths<K, V>([])
  {
  }

  lemma LastKeeps<K, V>(ops: seq<TableOp<K, V>>, op: TableOp<K, V>)
    requires |Meaning(ops)| <= Lengths(ops)
    ensures |Meaning(ops + [op])| <= Lengths(ops + [op]) <==> Keeps(Meaning(ops), Lengths(ops), op)
  {
    hide Single, Load, Suffices;
    assert (ops + [op])[..|ops|] == ops;
    if op.Insert? && op.key !in Meaning(ops) {
      InsertSuffices(ops, op.key, op.value);
    } else {
      OthersSuffice(Meaning(ops), Lengths(ops), op);
    }
  }

  // ----- a table with more nodes than buckets -----

  /** The keys 0, 1, ..., n - 1. */
  function Counting(n: nat): (ops: seq<TableOp<nat, nat>>) {
    seq(n, i => Insert(i, i))
  }

  /** The default times a power of two. */
  predicate Doubled(count: nat) {
    count == DEFAULT_BUCKET_COUNT || (count > 0 && count % 2 == 0 && Doubled(count / 2))
  }

  function Power(e: nat): (p: nat) {
    if e == 0 then DEFAULT_BUCKET_COUNT else 2 * Power(e - 1)
  }

  lemma {:induction false} DoubledBelow(count: nat, e: nat)
    requires Doubled(count) && count < 2 * Power(e)
    ensures count <= Power(e)
  {
    PowerLeast(e);
    if count > DEFAULT_BUCKET_COUNT {
      DoubledLeast(count / 2);
      if e > 0 { DoubledBelow(count / 2, e - 1); }
    }
  }

  lemma PowerLeast(e: nat)
    ensures Power(e) >= DEFAULT_BUCKET_COUNT
  {
  }

  lemma DoubledLeast(count: nat)
    requires Doubled(count)
    ensures count >= DEFAULT_BUCKET_COUNT
  {
  }

  lemma Power21()
    ensures Power(21) == TWO_24
  {
    assert Power(5) == 256;
    assert Power(10) == 8192;
    assert Power(15) == 262144;
    assert Power(20) == 8388608;
  }

  lemma {:induction false} Counted(n: nat)
    ensures forall k: nat :: k in Meaning(Counting(n)) <==> k < n
    ensures |Meaning(Counting(n))| == n
  {
    var ops := Counting(n);
    if n > 0 {
      assert ops[..n - 1] == Counting(n - 1);
      Counted(n - 1);
      Grown(Meaning(Counting(n - 1)), n - 1, n - 1);
    }
  }

  lemma {:induction false} CountedLength(n: nat)
    requires n <= TWO_24
    ensures Fits(n, Lengths(Counting(n)))
  {
    hide Fits;
    var ops := Counting(n);
    if n > 0 {
      assert ops[..n - 1] == Counting(n - 1);
      CountedLength(n - 1);
      Counted(n - 1);
      FitsNext(Meaning(Counting(n - 1)), Lengths(Counting(n - 1)), n);
    } else {
      FitsNone();
    }
  }

  /** As few buckets as n nodes can do with. */
  predicate Fits(n: nat, count: nat) {
    Doubled(count) && n <= count && (count == DEFAULT_BUCKET_COUNT || count < 2 * n)
  }

  lemma FitsNone()
    ensures Fits(0, DEFAULT_BUCKET_COUNT)
  {
  }

  lemma FitsNext(before: map<nat, nat>, count: nat, n: nat)
    requires 0 < n <= TWO_24 && Fits(n - 1, count) && count > 0 && |before| == n - 1 && n - 1 !in before
    ensures Fits(n, NextLength(before, count, Insert(n - 1, n - 1)))
  {
    hide Single, Load;
    LoadAboveOne(n, count);
    SingleWhole(n);
    FitsAll(n - 1, count);
    SingleWhole(count);
    assert (2 * count) / 2 == count;
  }

  lemma FitsAll(n: nat, count: nat)
    requires n <= TWO_24 && Fits(n, count)
    ensures count <= TWO_24
  {
    Power21();
    DoubledBelow(count, 21);
  }

  /** The first eight keys fit the first eight buckets; the ninth doubles them. */
  lemma NinthDoubles()
    ensures Lengths(Counting(8)) == 8 && Lengths(Counting(9)) == 16
  {
    hide Single, Load, Fits;
    CountedLength(8);
    FitsEight(Lengths(Counting(8)));
    Counted(8);
    assert Counting(9)[..8] == Counting(8);
    LoadAboveOne(9, 8);
    SingleWhole(9);
    SingleWhole(8);
  }

  lemma FitsEight(count: nat)
    requires Fits(8, count)
    ensures count == 8
  {
    if count != 8 {
      DoubledLeast(count / 2);
    }
  }

  /** 2^24 + 1 insertions leave 2^24 buckets. */
  lemma MoreThanBuckets()
    ensures |Meaning(Counting(TWO_24 + 1))| == TWO_24 + 1
    ensures Lengths(Counting(TWO_24 + 1)) == TWO_24
  {
    hide Single, Load, Fits;
    var ops := Counting(TWO_24 + 1);
    assert ops[..TWO_24] == Counting(TWO_24);
    Counted(TWO_24);
    Counted(TWO_24 + 1);
    CountedLength(TWO_24);
    FitsExactly(Lengths(Counting(TWO_24)));
    LoadAboveOne(TWO_24 + 1, TWO_24);
    FirstLost();
    SingleWhole(TWO_24);
  }

  lemma FitsExactly(count: nat)
    requires Fits(TWO_24, count)
    ensures count == TWO_24
  {
    FitsAll(TWO_24, count);
  }
}
