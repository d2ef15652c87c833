/** Chained buckets as values: the sequences of nodes that hang from an array of heads. */
module Buckets {
  import opened Orders
  import opened Sequences

  class Node<K, V> {
    const key: K
    const value: V
    var next: Node?<K, V>

    constructor (key: K, value: V)
      ensures this.key == key && this.value == value && next == null
    {
      this.key := key;
      this.value := value;
      next := null;
    }
  }

  type Memory<!K, !V> = map<Node<K, V>, Node?<K, V>>

  /** What the links of the nodes in S hold now. */
  ghost function Snapshot<K, V>(S: set<Node<K, V>>): Memory<K, V>
    reads S
  {
    // the guard repeats the domain, so that no value depends on anything outside S
    map n | n in S :: if n in S then n.next else null
  }

  /** The nodes met from start, to the last one, which has no successor. */
  ghost function Chain<K, V>(m: Memory<K, V>, s: seq<Node<K, V>>, start: Node?<K, V>): Check {
    if && start == (if s == [] then null else s[0])
       && (forall i :: 0 <= i < |s| ==> s[i] in m)
       && (forall i :: 0 < i < |s| ==> m[s[i - 1]] == s[i])
       && (s != [] ==> m[s[|s| - 1]] == null)
    then Ok else Broken
  }

  /** Every bucket holds the chain of its head. */
  ghost function Hung<K, V>(m: Memory<K, V>, heads: seq<Node?<K, V>>, chains: seq<seq<Node<K, V>>>): Check {
    if |heads| == |chains| && forall i :: 0 <= i < |heads| ==> Chain(m, chains[i], heads[i]).Ok? then Ok else Broken
  }

  function Index<K, V>(n: Node<K, V>, count: nat, hasher: K -> nat): (i: nat)
    requires count > 0
    ensures i < count
  {
    hasher(n.key) % count
  }

  /** The nodes of D, each once, in the bucket of its key. */
  ghost function Filed<K, V>(chains: seq<seq<Node<K, V>>>, D: set<Node<K, V>>, hasher: K -> nat): Check {
    if && |chains| > 0
       && (forall i, j :: 0 <= i < |chains| && 0 <= j < |chains[i]| ==>
             chains[i][j] in D && Index(chains[i][j], |chains|, hasher) == i)
       && (forall n :: n in D ==> n in chains[Index(n, |chains|, hasher)])
       && (forall i :: 0 <= i < |chains| ==> Distinct(chains[i]))
    then Ok else Broken
  }

  /** No two nodes have the same key. */
  ghost predicate KeysApart<K, V>(S: set<Node<K, V>>) {
    forall a, b :: a in S && b in S && a.key == b.key ==> a == b
  }

  lemma ChainKeeps<K, V>(m: Memory<K, V>, s: seq<Node<K, V>>, start: Node?<K, V>, x: Node<K, V>, y: Node?<K, V>)
    requires Chain(m, s, start).Ok? && x !in s
    ensures Chain(m[x := y], s, start).Ok?
  {
  }

  lemma ChainAt<K, V>(m: Memory<K, V>, s: seq<Node<K, V>>, start: Node?<K, V>, j: nat)
    requires Chain(m, s, start).Ok? && j < |s|
    ensures s[j] in m && Chain(m, s[j + 1..], m[s[j]]).Ok? && m[s[j]] == if j + 1 < |s| then s[j + 1] else null
  {
    var t := s[j + 1..];
    assert forall k :: 0 <= k < |t| ==> t[k] == s[j + 1 + k];
    assert j + 1 < |s| ==> m[s[j]] == s[j + 1];
  }

  lemma ChainStarts<K, V>(m: Memory<K, V>, s: seq<Node<K, V>>, start: Node?<K, V>)
    requires Chain(m, s, start).Ok?
    ensures start == (if s == [] then null else s[0]) && (s != [] ==> s[0] in m)
  {
  }

  lemma HungAt<K, V>(m: Memory<K, V>, heads: seq<Node?<K, V>>, chains: seq<seq<Node<K, V>>>, i: nat)
    requires Hung(m, heads, chains).Ok? && i < |heads|
    ensures |chains| == |heads| && Chain(m, chains[i], heads[i]).Ok?
  {
  }

  /** Only the links of the nodes in the buckets matter. */
  lemma HungAgrees<K, V>(m: Memory<K, V>, k: Memory<K, V>, heads: seq<Node?<K, V>>, chains: seq<seq<Node<K, V>>>,
                         D: set<Node<K, V>>, hasher: K -> nat)
    requires Hung(m, heads, chains).Ok? && Filed(chains, D, hasher).Ok?
    requires forall n :: n in D && n in m ==> n in k && k[n] == m[n]
    ensures Hung(k, heads, chains).Ok?
  {
    hide Index;
    forall i | 0 <= i < |chains| ensures Chain(k, chains[i], heads[i]).Ok? {
      assert Chain(m, chains[i], heads[i]).Ok?;
      assert forall j :: 0 <= j < |chains[i]| ==> chains[i][j] in D;
    }
  }

  // ----- adding at the front -----

  /** A node that is not there yet goes to the front of its bucket. */
  lemma Pushed<K, V>(m: Memory<K, V>, heads: seq<Node?<K, V>>, chains: seq<seq<Node<K, V>>>, D: set<Node<K, V>>,
                     x: Node<K, V>, hasher: K -> nat)
    requires Hung(m, heads, chains).Ok? && Filed(chains, D, hasher).Ok? && x !in D
    ensures var i := Index(x, |chains|, hasher);
            && i < |heads|
            && Hung(m[x := heads[i]], heads[i := x], chains[i := [x] + chains[i]]).Ok?
            && Filed(chains[i := [x] + chains[i]], D + {x}, hasher).Ok?
  {
    hide Chain;
    var i := Index(x, |chains|, hasher);
    var k, more, hung := m[x := heads[i]], chains[i := [x] + chains[i]], heads[i := x];
    forall j | 0 <= j < |chains| ensures Chain(k, more[j], hung[j]).Ok? {
      assert Chain(m, chains[j], heads[j]).Ok?;
      assert x !in chains[j];
      ChainKeeps(m, chains[j], heads[j], x, heads[i]);
      if j == i { ChainPushed(k, chains[i], heads[i], x); }
    }
    FiledPushed(chains, D, x, hasher);
  }

  lemma ChainPushed<K, V>(m: Memory<K, V>, s: seq<Node<K, V>>, start: Node?<K, V>, x: Node<K, V>)
    requires Chain(m, s, start).Ok? && x in m && m[x] == start
    ensures Chain(m, [x] + s, x).Ok?
  {
    var t := [x] + s;
    assert forall k :: 0 < k < |t| ==> t[k] == s[k - 1];
  }

  lemma FiledPushed<K, V>(chains: seq<seq<Node<K, V>>>, D: set<Node<K, V>>, x: Node<K, V>, hasher: K -> nat)
    requires Filed(chains, D, hasher).Ok? && x !in D
    ensures var i := Index(x, |chains|, hasher); Filed(chains[i := [x] + chains[i]], D + {x}, hasher).Ok?
  {
    hide Index;
    var i := Index(x, |chains|, hasher);
    var more := chains[i := [x] + chains[i]];
    assert forall n :: n in chains[i] ==> n in more[i];
    assert x == more[i][0];
    forall n | n in D + {x} ensures n in more[Index(n, |more|, hasher)] {
      if n in D { assert n in chains[Index(n, |chains|, hasher)]; }
    }
    forall j | 0 <= j < |more| ensures Distinct(more[j]) {
      assert Distinct(chains[j]);
      if j == i { assert forall l :: 0 <= l < |chains[i]| ==> chains[i][l] in D; }
    }
  }

  lemma EmptyBuckets<K, V>(m: Memory<K, V>, heads: seq<Node?<K, V>>, chains: seq<seq<Node<K, V>>>, hasher: K -> nat)
    requires |heads| == |chains| > 0 && forall i :: 0 <= i < |heads| ==> heads[i] == null && chains[i] == []
    ensures Hung(m, heads, chains).Ok? && Filed(chains, {}, hasher).Ok?
  {
  }

  // ----- taking out -----

  /** The j-th node of bucket i is cut out: its predecessor, or the head, gets its successor. */
  lemma Removed<K, V>(m: Memory<K, V>, heads: seq<Node?<K, V>>, chains: seq<seq<Node<K, V>>>, D: set<Node<K, V>>,
                      i: nat, j: nat, hasher: K -> nat)
    requires Hung(m, heads, chains).Ok? && Filed(chains, D, hasher).Ok? && i < |chains| && j < |chains[i]|
    ensures var s, x := chains[i], chains[i][j];
            var fewer := chains[i := s[..j] + s[j + 1..]];
            && x in m && x in D && i < |heads|
            && Filed(fewer, D - {x}, hasher).Ok?
            && (j == 0 ==> Hung(m, heads[i := m[x]], fewer).Ok?)
            && (j > 0 ==> Hung(m[s[j - 1] := m[x]], heads, fewer).Ok?)
  {
    hide Chain;
    var s, x := chains[i], chains[i][j];
    HungAt(m, heads, chains, i);
    ChainAt(m, s, heads[i], j);
    FiledRemoved(chains, D, i, j, hasher);
    if j == 0 {
      assert s[..0] + s[1..] == s[1..];
    } else {
      ChainRemoved(m, s, heads[i], j);
      forall k | 0 <= k < |chains| && k != i ensures Chain(m[s[j - 1] := m[x]], chains[k], heads[k]).Ok? {
        HungAt(m, heads, chains, k);
        assert s[j - 1] !in chains[k];
        ChainKeeps(m, chains[k], heads[k], s[j - 1], m[x]);
      }
    }
  }

  lemma ChainRemoved<K, V>(m: Memory<K, V>, s: seq<Node<K, V>>, start: Node?<K, V>, j: nat)
    requires Chain(m, s, start).Ok? && 0 < j < |s| && Distinct(s)
    ensures Chain(m[s[j - 1] := m[s[j]]], s[..j] + s[j + 1..], start).Ok?
  {
    var t, k := s[..j] + s[j + 1..], m[s[j - 1] := m[s[j]]];
    assert forall i :: 0 <= i < |t| ==> t[i] == if i < j then s[i] else s[i + 1];
    assert j + 1 < |s| ==> m[s[j]] == s[j + 1];
  }

  lemma FiledRemoved<K, V>(chains: seq<seq<Node<K, V>>>, D: set<Node<K, V>>, i: nat, j: nat, hasher: K -> nat)
    requires Filed(chains, D, hasher).Ok? && i < |chains| && j < |chains[i]|
    ensures Filed(chains[i := chains[i][..j] + chains[i][j + 1..]], D - {chains[i][j]}, hasher).Ok?
  {
    hide Index;
    var s, x := chains[i], chains[i][j];
    var t := s[..j] + s[j + 1..];
    var fewer := chains[i := t];
    assert forall k :: 0 <= k < |t| ==> t[k] == if k < j then s[k] else s[k + 1];
    assert Distinct(s) && Distinct(t);
    forall n | n in D - {x} ensures n in fewer[Index(n, |fewer|, hasher)] {
      var k := Index(n, |chains|, hasher);
      assert n in chains[k];
      if k == i {
        var l :| 0 <= l < |s| && s[l] == n;
        assert t[if l < j then l else l - 1] == n;
      }
    }
    forall k, l | 0 <= k < |fewer| && 0 <= l < |fewer[k]|
      ensures fewer[k][l] in D - {x} && Index(fewer[k][l], |fewer|, hasher) == k
    {
      if k == i { assert fewer[k][l] == s[if l < j then l else l + 1]; } else { assert fewer[k][l] == chains[k][l]; }
    }
  }

  // ----- all nodes in order -----

  /** The nodes of the buckets from i on. */
  ghost function Flat<K, V>(chains: seq<seq<Node<K, V>>>, i: nat): seq<Node<K, V>>
    requires i <= |chains|
    decreases |chains| - i
  {
    if i == |chains| then [] else chains[i] + Flat(chains, i + 1)
  }

  /** They are the filed nodes, each once. */
  lemma {:induction false} FlatOnce<K, V>(chains: seq<seq<Node<K, V>>>, D: set<Node<K, V>>, i: nat, hasher: K -> nat)
    requires Filed(chains, D, hasher).Ok? && i <= |chains|
    ensures Distinct(Flat(chains, i))
    ensures forall n :: n in Flat(chains, i) <==> n in D && Index(n, |chains|, hasher) >= i
    decreases |chains| - i
  {
    hide Index, Distinct;
    if i < |chains| {
      FlatOnce(chains, D, i + 1, hasher);
      FiledAt(chains, D, i, hasher);
      assert Distinct(chains[i]);
      DistinctConcat(chains[i], Flat(chains, i + 1));
    } else {
      IndexBounded(chains, D, hasher);
      NoneTwice<Node<K, V>>();
    }
  }

  lemma NoneTwice<N>()
    ensures Distinct<N>([])
  {
  }

  lemma DistinctConcat<N>(s: seq<N>, t: seq<N>)
    requires Distinct(s) && Distinct(t) && forall n :: n in s ==> n !in t
    ensures Distinct(s + t) && forall n :: n in s + t <==> n in s || n in t
  {
    var c := s + t;
    forall i, j | 0 <= i < j < |c| ensures c[i] != c[j] {
      if i < |s| <= j { assert s[i] in s && t[j - |s|] in t; }
    }
  }

  lemma FlatAll<K, V>(chains: seq<seq<Node<K, V>>>, D: set<Node<K, V>>, hasher: K -> nat)
    requires Filed(chains, D, hasher).Ok?
    ensures Distinct(Flat(chains, 0)) && forall n :: n in Flat(chains, 0) <==> n in D
  {
    FlatOnce(chains, D, 0, hasher);
  }

  lemma FiledAt<K, V>(chains: seq<seq<Node<K, V>>>, D: set<Node<K, V>>, i: nat, hasher: K -> nat)
    requires Filed(chains, D, hasher).Ok? && i < |chains|
    ensures forall n :: n in chains[i] <==> n in D && Index(n, |chains|, hasher) == i
  {
    hide Index;
  }

  lemma IndexBounded<K, V>(chains: seq<seq<Node<K, V>>>, D: set<Node<K, V>>, hasher: K -> nat)
    requires |chains| > 0
    ensures forall n :: n in D ==> Index(n, |chains|, hasher) < |chains|
  {
  }
}
