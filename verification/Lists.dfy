/** The sentinel ring of libs/base/list.hpp and its merge sort. */
module Lists {
  import opened Orders
  import opened Rings
  import opened Sequences

  /** A value with two links. The sort moves nodes, never values. */
  class Node<T(0)> {
    const value: T
    var prev: Node<T>
    var next: Node<T>

    /** Linked to itself where the source has null pointers: nothing follows them before it is linked. */
    constructor (v: T)
      ensures value == v && prev == this && next == this
    {
      value := v;
      prev := this;
      next := this;
    }

    /** Linked to a head both ways. */
    constructor At(v: T, head: Node<T>)
      ensures value == v && prev == head && next == head
    {
      value := v;
      prev := head;
      next := head;
    }
  }

  // ----- the sort, on sequences of nodes -----

  /** The earlier of the two first nodes goes first, and the one of b when neither compares less. */
  function Merge<T(0)>(a: seq<Node<T>>, b: seq<Node<T>>, less: (T, T) -> bool): (m: seq<Node<T>>)
    ensures |m| == |a| + |b|
  {
    if a == [] then b
    else if b == [] then a
    else if less(a[0].value, b[0].value) then [a[0]] + Merge(a[1..], b, less)
    else [b[0]] + Merge(a, b[1..], less)
  }

  function MergeSort<T(0)>(s: seq<Node<T>>, less: (T, T) -> bool): (m: seq<Node<T>>)
    ensures |m| == |s|
    decreases |s|
  {
    if |s| <= 1 then s
    else
      var half := (|s| + 1) / 2;
      Merge(MergeSort(s[..half], less), MergeSort(s[half..], less), less)
  }

  /** No node compares less than an earlier one. */
  predicate Sorted<T(0)>(s: seq<Node<T>>, less: (T, T) -> bool) {
    forall i, j :: 0 <= i < j < |s| ==> !less(s[j].value, s[i].value)
  }

  lemma {:induction false} MergePermutes<T(0)>(a: seq<Node<T>>, b: seq<Node<T>>, less: (T, T) -> bool)
    ensures multiset(Merge(a, b, less)) == multiset(a) + multiset(b)
  {
    if a != [] && b != [] {
      if less(a[0].value, b[0].value) {
        MergePermutes(a[1..], b, less);
        FirstCounts(a);
        FirstCounts(Merge(a, b, less));
      } else {
        MergePermutes(a, b[1..], less);
        FirstCounts(b);
        FirstCounts(Merge(a, b, less));
      }
    }
  }

  lemma FirstCounts<N>(s: seq<N>)
    requires s != []
    ensures multiset(s) == multiset{s[0]} + multiset(s[1..])
  {
    assert s == [s[0]] + s[1..];
  }

  lemma {:induction false} SortPermutes<T(0)>(s: seq<Node<T>>, less: (T, T) -> bool)
    ensures multiset(MergeSort(s, less)) == multiset(s)
    decreases |s|
  {
    hide Merge;
    if |s| > 1 {
      var half := (|s| + 1) / 2;
      var a, b := s[..half], s[half..];
      SortPermutes(a, less);
      SortPermutes(b, less);
      MergePermutes(MergeSort(a, less), MergeSort(b, less), less);
      assert s == a + b;
    }
  }

  /** Nothing in s compares less than v. */
  predicate NoneLess<T(0)>(s: seq<Node<T>>, v: T, less: (T, T) -> bool) {
    forall i :: 0 <= i < |s| ==> !less(s[i].value, v)
  }

  lemma {:induction false} MergeNoneLess<T(0)>(a: seq<Node<T>>, b: seq<Node<T>>, v: T, less: (T, T) -> bool)
    requires NoneLess(a, v, less) && NoneLess(b, v, less)
    ensures NoneLess(Merge(a, b, less), v, less)
  {
    if a != [] && b != [] {
      if less(a[0].value, b[0].value) {
        MergeNoneLess(a[1..], b, v, less);
      } else {
        MergeNoneLess(a, b[1..], v, less);
      }
    }
  }

  lemma {:induction false} MergeSorts<T(0, !new)>(a: seq<Node<T>>, b: seq<Node<T>>, less: (T, T) -> bool)
    requires StrictWeakOrder(less) && Sorted(a, less) && Sorted(b, less)
    ensures Sorted(Merge(a, b, less), less)
  {
    if a != [] && b != [] {
      if less(a[0].value, b[0].value) {
        MergeSorts(a[1..], b, less);
        MergeNoneLess(a[1..], b, a[0].value, less);
      } else {
        MergeSorts(a, b[1..], less);
        MergeNoneLess(a, b[1..], b[0].value, less);
      }
    }
  }

  lemma {:induction false} SortSorts<T(0, !new)>(s: seq<Node<T>>, less: (T, T) -> bool)
    requires StrictWeakOrder(less)
    ensures Sorted(MergeSort(s, less), less)
    decreases |s|
  {
    hide Merge, StrictWeakOrder, Sorted;
    if |s| > 1 {
      var half := (|s| + 1) / 2;
      SortSorts(s[..half], less);
      SortSorts(s[half..], less);
      MergeSorts(MergeSort(s[..half], less), MergeSort(s[half..], less), less);
    } else {
      ShortSorted(s, less);
    }
  }

  lemma ShortSorted<T(0)>(s: seq<Node<T>>, less: (T, T) -> bool)
    requires |s| <= 1
    ensures Sorted(s, less)
  {
  }

  /** The nodes of s with values equivalent to v, in order. */
  function Alike<T(0)>(s: seq<Node<T>>, v: T, less: (T, T) -> bool): seq<Node<T>> {
    if s == [] then []
    else (if Equivalent(less, s[0].value, v) then [s[0]] else []) + Alike(s[1..], v, less)
  }

  lemma {:induction false} AlikeConcat<T(0)>(s: seq<Node<T>>, t: seq<Node<T>>, v: T, less: (T, T) -> bool)
    ensures Alike(s + t, v, less) == Alike(s, v, less) + Alike(t, v, less)
  {
    hide Equivalent, Alike;
    if s == [] {
      assert s + t == t;
      NoneIn(v, less);
    } else {
      var x, rest := s[0], s[1..];
      assert s == [x] + rest && s + t == [x] + (rest + t);
      AlikeConcat(rest, t, v, less);
      AlikeFirst(x, rest, v, less);
      AlikeFirst(x, rest + t, v, less);
      Regroup(if Equivalent(less, x.value, v) then [x] else [], Alike(rest, v, less), Alike(t, v, less));
    }
  }

  lemma Regroup<N>(a: seq<N>, b: seq<N>, c: seq<N>)
    ensures (a + b) + c == a + (b + c)
  {
  }

  lemma AlikeFirst<T(0)>(x: Node<T>, s: seq<Node<T>>, v: T, less: (T, T) -> bool)
    ensures Alike([x] + s, v, less) == (if Equivalent(less, x.value, v) then [x] else []) + Alike(s, v, less)
  {
    assert ([x] + s)[1..] == s;
  }

  lemma {:induction false} NoneAlike<T(0, !new)>(s: seq<Node<T>>, u: T, v: T, less: (T, T) -> bool)
    requires StrictWeakOrder(less) && Equivalent(less, u, v) && (s != [] ==> less(u, s[0].value)) && Sorted(s, less)
    ensures Alike(s, v, less) == []
  {
    if s != [] {
      assert |s| > 1 ==> !less(s[1].value, s[0].value);
      NoneAlike(s[1..], u, v, less);
    }
  }

  lemma {:induction false} AlikeMerge<T(0, !new)>(a: seq<Node<T>>, b: seq<Node<T>>, v: T, less: (T, T) -> bool)
    requires StrictWeakOrder(less) && Sorted(a, less) && Sorted(b, less)
    ensures Alike(Merge(a, b, less), v, less) == Alike(b, v, less) + Alike(a, v, less)
  {
    hide StrictWeakOrder, Equivalent, Alike;
    if a == [] || b == [] {
      NoneIn(v, less);
    } else if less(a[0].value, b[0].value) {
      AlikeMerge(a[1..], b, v, less);
      AlikeFirst(a[0], Merge(a[1..], b, less), v, less);
      AlikeFirst(a[0], a[1..], v, less);
      assert a == [a[0]] + a[1..];
      if Equivalent(less, a[0].value, v) { NoneAlike(b, a[0].value, v, less); }
    } else {
      AlikeMerge(a, b[1..], v, less);
      AlikeFirst(b[0], Merge(a, b[1..], less), v, less);
      AlikeFirst(b[0], b[1..], v, less);
      assert b == [b[0]] + b[1..];
    }
  }

  lemma NoneIn<T(0)>(v: T, less: (T, T) -> bool)
    ensures Alike([], v, less) == []
  {
  }

  /** The opposite of a stable sort: equivalent values come out in exactly the reverse of the order they had. */
  lemma {:induction false} TiesReversed<T(0, !new)>(s: seq<Node<T>>, v: T, less: (T, T) -> bool)
    requires StrictWeakOrder(less)
    ensures Alike(MergeSort(s, less), v, less) == Reversed(Alike(s, v, less))
    decreases |s|
  {
    hide StrictWeakOrder, Merge, Sorted;
    if |s| > 1 {
      var half := (|s| + 1) / 2;
      var a, b := s[..half], s[half..];
      TiesReversed(a, v, less);
      TiesReversed(b, v, less);
      SortSorts(a, less);
      SortSorts(b, less);
      AlikeMerge(MergeSort(a, less), MergeSort(b, less), v, less);
      assert s == a + b;
      AlikeConcat(a, b, v, less);
      assert Reversed(Alike(a, v, less) + Alike(b, v, less))
             == Reversed(Alike(b, v, less)) + Reversed(Alike(a, v, less));
    } else {
      assert Alike(s, v, less) == [] || Alike(s, v, less) == s;
      assert Reversed(Alike(s, v, less)) == Alike(s, v, less);
    }
  }

  /** So the sort is stable for a value if and only if no two nodes are equivalent to it. */
  lemma StableIff<T(0, !new)>(s: seq<Node<T>>, v: T, less: (T, T) -> bool)
    requires StrictWeakOrder(less) && Distinct(s)
    ensures Alike(MergeSort(s, less), v, less) == Alike(s, v, less) <==> |Alike(s, v, less)| <= 1
  {
    hide StrictWeakOrder, MergeSort, Alike;
    TiesReversed(s, v, less);
    AlikeDistinct(s, v, less);
    var x := Alike(s, v, less);
    if |x| > 1 { assert Reversed(x)[0] == x[|x| - 1] != x[0]; }
  }

  lemma {:induction false} AlikeDistinct<T(0)>(s: seq<Node<T>>, v: T, less: (T, T) -> bool)
    requires Distinct(s)
    ensures Distinct(Alike(s, v, less)) && forall n :: n in Alike(s, v, less) ==> n in s
  {
    hide Equivalent;
    if s != [] {
      assert forall i :: 0 <= i < |s| - 1 ==> s[1..][i] == s[i + 1];
      AlikeDistinct(s[1..], v, less);
      DistinctFrom(s[0], Alike(s[1..], v, less));
      assert [] + Alike(s[1..], v, less) == Alike(s[1..], v, less);
    }
  }

  /** Two nodes with one value change places. */
  lemma Unstable<T(0, !new)>(a: Node<T>, b: Node<T>, less: (T, T) -> bool)
    requires StrictWeakOrder(less) && a.value == b.value
    ensures MergeSort([a, b], less) == [b, a]
  {
    assert [a, b][..1] == [a] && [a, b][1..] == [b];
    assert !less(a.value, b.value);
    assert [b][1..] == [] && [b] + [a] == [b, a];
    assert Merge([a], [b], less) == [b] + Merge([a], [b][1..], less);
  }

  /** The sorted nodes are the nodes: none comes twice if none did. */
  lemma SortKeepsNodes<T(0)>(s: seq<Node<T>>, less: (T, T) -> bool)
    ensures forall i :: 0 <= i < |s| ==> MergeSort(s, less)[i] in s && s[i] in MergeSort(s, less)
    ensures Distinct(s) ==> Distinct(MergeSort(s, less))
  {
    hide MergeSort;
    var t := MergeSort(s, less);
    SortPermutes(s, less);
    forall i | 0 <= i < |s| ensures t[i] in s && s[i] in t {
      assert t[i] in multiset(t) && s[i] in multiset(s);
    }
    if Distinct(s) {
      forall i | 0 <= i < |t| ensures multiset(t)[t[i]] <= 1 { CountDistinct(s, t[i]); }
      CountsDistinct(t);
    }
  }

  lemma {:induction false} CountDistinct<N>(s: seq<N>, n: N)
    requires Distinct(s)
    ensures multiset(s)[n] <= 1
  {
    if s != [] {
      var before, last := s[..|s| - 1], s[|s| - 1];
      CountDistinct(before, n);
      assert s == before + [last];
      if n == last { assert n !in before; }
    }
  }

  lemma CountsDistinct<N>(s: seq<N>)
    requires forall i :: 0 <= i < |s| ==> multiset(s)[s[i]] <= 1
    ensures Distinct(s)
  {
    forall i, j | 0 <= i < j < |s| ensures s[i] != s[j] {
      if s[i] == s[j] { TwiceCounts(s, i, j); }
    }
  }

  lemma TwiceCounts<N>(s: seq<N>, i: nat, j: nat)
    requires i < j < |s| && s[i] == s[j]
    ensures multiset(s)[s[i]] >= 2
  {
    assert s == s[..j] + s[j..];
    assert s[i] in s[..j] && s[j] in s[j..];
    assert s[i] == s[..j][i] && s[j] == s[j..][0];
  }

  // ----- the heap -----

  /** What the links of the nodes in S hold now. */
  ghost function Snapshot<T(0)>(S: set<Node<T>>): Memory<Node<T>>
    reads S
  {
    // the guards repeat the domain, so that no value depends on anything outside S
    map n | n in S :: Cell(if n in S then n.prev else n, if n in S then n.next else n)
  }

  class List<T(0, !new)> {
    const head: Node<T>
    var size: nat
    /** The nodes of the ring after the head, and all nodes of the ring. */
    ghost var nodes: seq<Node<T>>
    ghost var S: set<Node<T>>

    ghost predicate Valid()
      reads this, S
    {
      && size == |nodes| && S == {head} + AsSet(nodes)
      && Ring(Snapshot(S), head, nodes).Ok?
    }

    constructor (v: T)
      ensures Valid() && nodes == [] && fresh(head)
    {
      var h := new Node(v);
      head := h;
      size := 0;
      nodes := [];
      S := {h};
      new;
      assert [head] + [] + [head] == [head, head];
    }

    /** The last node of the first half, which is the longer one if they differ: one pointer goes twice as fast. */
    method Middle(start: Node<T>, ghost s: seq<Node<T>>, ghost S: set<Node<T>>) returns (slow: Node<T>)
      requires Chain(Snapshot(S), s, start, head).Ok? && |s| >= 2
      ensures slow == s[(|s| + 1) / 2 - 1]
    {
      hide Chain;
      slow := start;
      At(Snapshot(S), s, start, head, 0);
      At(Snapshot(S), s, start, head, 1);
      var fast := start.next;
      ghost var i := 0;
      while fast != head && fast.next != head
        invariant 2 * i + 1 <= |s| && slow == s[i]
        invariant fast == if 2 * i + 1 < |s| then s[2 * i + 1] else head
        invariant fast != head ==> fast.next == if 2 * i + 2 < |s| then s[2 * i + 2] else head
        decreases |s| - i
      {
        At(Snapshot(S), s, start, head, i);
        At(Snapshot(S), s, start, head, 2 * i + 2);
        slow := slow.next;
        fast := fast.next.next;
        i := i + 1;
        if 2 * i + 1 < |s| { At(Snapshot(S), s, start, head, 2 * i + 1); }
      }
      if 2 * i + 1 < |s| { At(Snapshot(S), s, start, head, 2 * i + 1); }
    }

    /** Cuts a chain in halves. */
    method Split(start: Node<T>, ghost s: seq<Node<T>>, ghost S: set<Node<T>>) returns (a: Node<T>, b: Node<T>)
      requires Chain(Snapshot(S), s, start, head).Ok? && |s| >= 2 && head in S
      modifies s
      ensures Chain(Snapshot(S), s[..(|s| + 1) / 2], a, head).Ok?
      ensures Chain(Snapshot(S), s[(|s| + 1) / 2..], b, head).Ok?
    {
      hide Chain;
      var slow := Middle(start, s, S);
      ghost var half := (|s| + 1) / 2;
      ghost var m := Snapshot(S);
      At(m, s, start, head, half - 1);
      At(m, s, start, head, half);
      Halves(m, s, start, head, half);
      b := slow.next;
      slow.next := head;
      b.prev := head;
      a := start;
      assert Snapshot(S) == Cut(m, s[half - 1], s[half], head);
    }

    /** Makes a follow tail, both ways. */
    method Link(tail: Node<T>, a: Node<T>, ghost S: set<Node<T>>)
      requires tail in S && a in S
      modifies tail`next, a`prev
      ensures Snapshot(S) == Joined(old(Snapshot(S)), tail, a)
    {
      tail.next := a;
      a.prev := tail;
    }

    /** Moves x, the first node of one chain, behind the tail of what has been merged. */
    method Append(tail: Node<T>, x: Node<T>, y: Node<T>,
                  ghost path: seq<Node<T>>, ghost rx: seq<Node<T>>, ghost ry: seq<Node<T>>, ghost S: set<Node<T>>)
      requires Zipped(Snapshot(S), path, rx, ry, x, y, head).Ok? && rx != [] && path != [] && tail == path[|path| - 1]
      modifies tail`next, x`prev
      ensures x == rx[0] && Zipped(Snapshot(S), path + [x], rx[1..], ry, x.next, y, head).Ok?
      ensures Chain(Snapshot(S), path + rx, path[0], head).Ok?
    {
      hide Chain, Distinct, Linked;
      ghost var m := Snapshot(S);
      Starts(m, path, rx, ry, x, y, head);
      Taken(m, path, rx, ry, x, y, head);
      Link(tail, x, S);
    }

    /** The last node of a chain, walking from one of its nodes. */
    method Last(from: Node<T>, ghost s: seq<Node<T>>, ghost i0: nat, ghost S: set<Node<T>>) returns (tail: Node<T>)
      requires i0 < |s| && Chain(Snapshot(S), s, s[0], head).Ok? && from == s[i0]
      ensures tail == s[|s| - 1]
    {
      hide Chain;
      tail := from;
      ghost var i := i0;
      At(Snapshot(S), s, s[0], head, i);
      while tail.next != head
        invariant i < |s| && tail == s[i] && tail.next == if i + 1 < |s| then s[i + 1] else head
        decreases |s| - i
      {
        At(Snapshot(S), s, s[0], head, i + 1);
        tail := tail.next;
        i := i + 1;
      }
      At(Snapshot(S), s, s[0], head, i);
    }

    /** Ends a chain at the head, which points back at its last node. */
    method Finish(tail: Node<T>, start: Node<T>, ghost s: seq<Node<T>>, ghost S: set<Node<T>>)
      requires Chain(Snapshot(S), s, start, head).Ok? && s != [] && tail == s[|s| - 1] && head in S
      modifies tail`next, head`prev
      ensures Chain(Snapshot(S), s, start, head).Ok? && head.prev == tail
      ensures forall n :: n in S && n != head ==> n.next == old(n.next) && n.prev == old(n.prev)
    {
      hide Chain, Distinct, Linked;
      ghost var m := Snapshot(S);
      ChainNodes(m, s, start, head);
      At(m, s, start, head, |s| - 1);
      tail.next := head;
      head.prev := tail;
      ChainAgrees(m, Snapshot(S), s, start, head);
    }

    /** Merges two chains behind a node of its own, up to where one of them ends, and hooks on the other one. */
    method Zip(result: Node<T>, a0: Node<T>, b0: Node<T>, less: (T, T) -> bool,
               ghost sa: seq<Node<T>>, ghost sb: seq<Node<T>>, ghost S: set<Node<T>>)
      returns (tail: Node<T>, ghost path: seq<Node<T>>, ghost rest: seq<Node<T>>)
      requires Zipped(Snapshot(S), [result], sa, sb, a0, b0, head).Ok? && sa != [] && sb != []
      modifies result`next, sa, sb
      ensures path != [] && path[0] == result && tail == path[|path| - 1]
      ensures path + rest == [result] + Merge(sa, sb, less)
      ensures Chain(Snapshot(S), path + rest, result, head).Ok?
    {
      hide Chain, Distinct, Linked, Zipped, Suffix, Merge;
      WholeSuffix(sa);
      WholeSuffix(sb);
      var a, b := a0, b0;
      tail := result;
      ghost var ra, rb := sa, sb;
      path := [result];
      while a != head && b != head
        invariant Zipped(Snapshot(S), path, ra, rb, a, b, head).Ok? && (ra != [] || rb != [])
        invariant path != [] && path[0] == result && tail == path[|path| - 1]
        invariant path + Merge(ra, rb, less) == [result] + Merge(sa, sb, less)
        invariant Suffix(ra, sa).Ok? && Suffix(rb, sb).Ok? && (tail == result || tail in sa || tail in sb)
        decreases |ra| + |rb|
      {
        Starts(Snapshot(S), path, ra, rb, a, b, head);
        MergeStep(path, ra, rb, less);
        SuffixStep(ra, sa);
        SuffixStep(rb, sb);
        if less(a.value, b.value) {
          Append(tail, a, b, path, ra, rb, S);
          path, ra := path + [a], ra[1..];
          tail := a;
          a := a.next;
        } else {
          ZippedSwaps(Snapshot(S), path, ra, rb, a, b, head);
          Append(tail, b, a, path, rb, ra, S);
          ZippedSwaps(Snapshot(S), path + [b], rb[1..], ra, b.next, a, head);
          path, rb := path + [b], rb[1..];
          tail := b;
          b := b.next;
        }
      }
      Starts(Snapshot(S), path, ra, rb, a, b, head);
      SuffixStep(ra, sa);
      SuffixStep(rb, sb);
      MergeEnds(ra, rb, less);
      var remainder := if a != head then a else b;
      if a != head {
        rest := ra;
        Append(tail, remainder, b, path, ra, rb, S);
      } else {
        rest := rb;
        ZippedSwaps(Snapshot(S), path, ra, rb, a, b, head);
        Append(tail, remainder, a, path, rb, ra, S);
      }
    }

    /** Merges two chains into one, and leaves the head pointing back at its last node. The first node is left pointing
        back at a node that is gone. */
    method SortedMerge(a: Node<T>, b: Node<T>, less: (T, T) -> bool,
                       ghost sa: seq<Node<T>>, ghost sb: seq<Node<T>>, ghost S: set<Node<T>>)
      returns (start: Node<T>)
      requires Chain(Snapshot(S), sa, a, head).Ok? && Chain(Snapshot(S), sb, b, head).Ok?
      requires sa != [] && sb != [] && Distinct(sa + sb) && head in S
      modifies sa, sb, head`prev
      ensures Chain(Snapshot(S), Merge(sa, sb, less), start, head).Ok?
    {
      hide Chain, Distinct, Linked, Zipped, Merge;
      var result := new Node.At(head.value, head);
      ghost var R := S + {result};
      ChainNodes(Snapshot(S), sa, a, head);
      ChainNodes(Snapshot(S), sb, b, head);
      ChainAgrees(Snapshot(S), Snapshot(R), sa, a, head);
      ChainAgrees(Snapshot(S), Snapshot(R), sb, b, head);
      ZipStarts(Snapshot(R), result, sa, sb, a, b, head);
      var tail, path, rest := Zip(result, a, b, less, sa, sb, R);
      assert [result] + Merge(sa, sb, less) == path + rest;
      assert ([result] + Merge(sa, sb, less))[|path| - 1] == tail;
      start := Detach(result, tail, less, sa, sb, |path| - 1, S);
    }

    /** Takes the merged chain off its first node, and ends it at the head. */
    method Detach(result: Node<T>, tail0: Node<T>, less: (T, T) -> bool,
                  ghost sa: seq<Node<T>>, ghost sb: seq<Node<T>>, ghost i: nat, ghost S: set<Node<T>>)
      returns (start: Node<T>)
      requires Chain(Snapshot(S + {result}), [result] + Merge(sa, sb, less), result, head).Ok? && sa != [] && head in S
      requires i <= |sa| + |sb| && tail0 == ([result] + Merge(sa, sb, less))[i]
      requires Within(sa, Snapshot(S)) && Within(sb, Snapshot(S))
      modifies sa, sb, head`prev
      ensures Chain(Snapshot(S), Merge(sa, sb, less), start, head).Ok?
    {
      hide Chain, Distinct, Merge;
      ghost var R, merged := S + {result}, Merge(sa, sb, less);
      Behind(Snapshot(R), Snapshot(S), result, head, sa, sb, less);
      var tail := Last(tail0, [result] + merged, i, R);
      assert tail == merged[|merged| - 1];
      start := result.next;
      Finish(tail, start, merged, S);
    }

    method SortChain(start: Node<T>, less: (T, T) -> bool, ghost s: seq<Node<T>>, ghost S: set<Node<T>>)
      returns (sorted: Node<T>)
      requires Chain(Snapshot(S), s, start, head).Ok? && head in S
      modifies s, head`prev
      ensures Chain(Snapshot(S), MergeSort(s, less), sorted, head).Ok?
      decreases |s|, 0
    {
      hide Chain, Distinct, Linked, Merge, MergeSort, Apart;
      ChainNodes(Snapshot(S), s, start, head);
      if s != [] { At(Snapshot(S), s, start, head, 0); }
      if start == head || start.next == head {
        ShortSort(s, less);
        return start;
      }
      ghost var sa, sb := s[..(|s| + 1) / 2], s[(|s| + 1) / 2..];
      HalvesSort(s, less);
      HalvesWithin(s, 0, (|s| + 1) / 2, less);
      HalvesWithin(s, (|s| + 1) / 2, |s|, less);
      assert s[0..(|s| + 1) / 2] == sa && s[(|s| + 1) / 2..|s|] == sb;
      var a, b := Split(start, s, S);
      a := SortBeside(a, less, sa, b, sb, S);
      b := SortBeside(b, less, sb, a, MergeSort(sa, less), S);
      sorted := SortedMerge(a, b, less, MergeSort(sa, less), MergeSort(sb, less), S);
    }

    /** Sorts one chain; another one stays as it is. */
    method SortBeside(start: Node<T>, less: (T, T) -> bool, ghost s: seq<Node<T>>,
                      ghost other: Node<T>, ghost t: seq<Node<T>>, ghost S: set<Node<T>>)
      returns (sorted: Node<T>)
      requires Chain(Snapshot(S), s, start, head).Ok? && Chain(Snapshot(S), t, other, head).Ok? && head in S
      requires Apart(s, t).Ok?
      modifies s, head`prev
      ensures Chain(Snapshot(S), MergeSort(s, less), sorted, head).Ok? && Chain(Snapshot(S), t, other, head).Ok?
      decreases |s|, 1
    {
      hide Chain, Distinct, Linked, MergeSort;
      ghost var m := Snapshot(S);
      ChainNodes(m, t, other, head);
      sorted := SortChain(start, less, s, S);
      ChainAgrees(m, Snapshot(S), t, other, head);
    }

    /** Makes a chain the ring of the head. */
    method CloseRing(start: Node<T>, ghost s: seq<Node<T>>, ghost S: set<Node<T>>)
      requires Chain(Snapshot(S), s, start, head).Ok? && s != [] && head in S
      modifies S
      ensures Ring(Snapshot(S), head, s).Ok?
    {
      hide Chain, Ring;
      ChainNodes(Snapshot(S), s, start, head);
      ghost var m := Snapshot(S);
      head.next := start;
      start.prev := head;
      Relinked(m, Snapshot(S), s, start, head);
      var tail := Last(start, s, 0, S);
      Finish(tail, start, s, S);
      Closed(Snapshot(S), head, s);
    }

    /** The same nodes, sorted, in one consistent ring. */
    method Sort(less: (T, T) -> bool)
      requires Valid()
      modifies this`nodes, S
      ensures Valid() && S == old(S) && nodes == MergeSort(old(nodes), less)
    {
      hide Chain, Ring, MergeSort, AsSet;
      if size <= 1 {
        ShortSort(nodes, less);
        return;
      }
      Members(head, nodes);
      SameNodes(nodes, less);
      Opened(Snapshot(S), head, nodes);
      var start := SortChain(head.next, less, nodes, S);
      CloseRing(start, MergeSort(nodes, less), S);
      nodes := MergeSort(nodes, less);
    }

    /** Exchanges the two links of every node, the head last. */
    method Reverse()
      requires Valid()
      modifies this`nodes, S
      ensures Valid() && S == old(S) && nodes == Reversed(old(nodes))
    {
      hide Ring, Chain, Reversed, AsSet, Mirrored;
      ReversedSame(nodes);
      if size <= 1 {
        return;
      }
      ghost var m := Snapshot(S);
      Opened(m, head, nodes);
      ChainNodes(m, nodes, head.next, head);
      Members(head, nodes);
      MirrorNodes(nodes, S);
      MirrorMore(m, AsSet(nodes), head);
      head.prev, head.next := head.next, head.prev;
      assert Snapshot(S) == Mirrored(m, S);
      RingMirrored(m, head, nodes, S);
      nodes := Reversed(nodes);
    }

    method MirrorNodes(ghost s: seq<Node<T>>, ghost S: set<Node<T>>)
      requires Ring(Snapshot(S), head, s).Ok? && S == {head} + AsSet(s)
      modifies S
      ensures Snapshot(S) == Mirrored(old(Snapshot(S)), AsSet(s)) && head.next == old(head.next)
              && head.prev == old(head.prev)
    {
      hide Ring, Chain, AsSet, Mirrored;
      ghost var m := Snapshot(S);
      Opened(m, head, s);
      ChainNodes(m, s, head.next, head);
      Members(head, s);
      var curr := head.next;
      ghost var i := 0;
      MirrorNone(m);
      assert s[..0] == [];
      while curr != head
        invariant i <= |s| && curr == (if i < |s| then s[i] else head)
        invariant Snapshot(S) == Mirrored(m, AsSet(s[..i]))
        invariant head.next == old(head.next) && head.prev == old(head.prev)
        decreases |s| - i
      {
        At(m, s, m[head].next, head, i);
        SwapLinks(curr, m, s, i, S);
        curr := curr.prev;
        i := i + 1;
      }
      assert s[..i] == s;
    }

    method SwapLinks(curr: Node<T>, ghost m: Memory<Node<T>>, ghost s: seq<Node<T>>, ghost i: nat,
                     ghost S: set<Node<T>>)
      requires i < |s| && curr == s[i] && curr in S && Distinct(s) && m.Keys == S
      requires Snapshot(S) == Mirrored(m, AsSet(s[..i]))
      modifies curr
      ensures Snapshot(S) == Mirrored(m, AsSet(s[..i + 1]))
      ensures curr.prev == m[curr].next
    {
      assert curr !in s[..i];
      assert s[..i + 1] == s[..i] + [curr];
      assert Snapshot(S)[curr] == m[curr];
      curr.prev, curr.next := curr.next, curr.prev;
    }

    /** The i-th node, and the head after the last one. */
    ghost function NodeAt(i: nat): Node<T>
      requires i <= |nodes|
      reads this
    {
      if i < |nodes| then nodes[i] else head
    }

    /** Counts the nodes from first up to last. */
    method CountBlock(first: Node<T>, last: Node<T>, ghost i: nat, ghost j: nat) returns (count: nat)
      requires Valid() && i <= j <= |nodes| && first == NodeAt(i) && last == NodeAt(j)
      ensures count == j - i
    {
      hide Ring, Chain, AsSet;
      Opened(Snapshot(S), head, nodes);
      ChainNodes(Snapshot(S), nodes, head.next, head);
      count := 0;
      var n := first;
      while n != last
        invariant count <= j - i && n == NodeAt(i + count)
        decreases j - i - count
      {
        At(Snapshot(S), nodes, head.next, head, i + count);
        n := n.next;
        count := count + 1;
      }
      NoneBetween(i + count, j);
    }

    /** Puts a block before pos. */
    method LinkBlockBefore(pos: Node<T>, first: Node<T>, end: Node<T>, ghost U: set<Node<T>>)
      requires {pos, first, end, pos.prev} <= U && pos.prev != end && first != pos
      modifies U
      ensures Snapshot(U) == old(Joined(Joined(Snapshot(U), pos.prev, first), end, pos))
    {
      first.prev := pos.prev;
      end.next := pos;
      pos.prev.next := first;
      pos.prev := end;
    }

    /** The writes of a block splice. */
    method Hook(pos: Node<T>, first: Node<T>, last: Node<T>, ghost U: set<Node<T>>)
      requires {pos, first, last, pos.prev, first.prev, last.prev} <= U
      requires pos.prev != first.prev && pos.prev != last.prev && first.prev != last.prev
      requires first != last && first != pos && last != pos
      modifies U
      ensures Snapshot(U) == old(Spliced(Snapshot(U), first.prev, last, pos.prev, first, last.prev, pos))
    {
      hide Joined;
      var end := last.prev;
      Link(first.prev, last, U);
      LinkBlockBefore(pos, first, end, U);
    }

    /** Moves the nodes from first up to last to before pos, out of another list or within this one; then pos is not
        one of them. */
    method Splice(pos: Node<T>, other: List<T>, first: Node<T>, last: Node<T>, ghost p: nat, ghost i: nat, ghost j: nat)
      requires Valid() && other.Valid() && (this != other ==> S !! other.S)
      requires p <= |nodes| && i <= j <= |other.nodes| && (this == other && i < j ==> p < i || j <= p)
      requires pos == NodeAt(p) && first == other.NodeAt(i) && last == other.NodeAt(j)
      modifies this, other, S, other.S
      ensures Valid() && other.Valid() && (this != other ==> S !! other.S) && S + other.S == old(S + other.S)
      ensures this != other ==> nodes == old(nodes[..p]) + old(other.nodes[i..j]) + old(nodes[p..])
      ensures this != other ==> other.nodes == old(other.nodes[..i]) + old(other.nodes[j..])
      ensures this == other ==> nodes == MovedWithin(old(nodes), p, i, j)
    {
      hide Ring, Spliced, AsSet;
      if this == other {
        SpliceWithin(pos, first, last, p, i, j);
      } else {
        SpliceFrom(pos, other, first, last, p, i, j);
      }
    }

    method SpliceWithin(pos: Node<T>, first: Node<T>, last: Node<T>, ghost p: nat, ghost i: nat, ghost j: nat)
      requires Valid() && p <= |nodes| && i <= j <= |nodes| && (i < j ==> p < i || j <= p)
      requires pos == NodeAt(p) && first == NodeAt(i) && last == NodeAt(j)
      modifies this, S
      ensures Valid() && S == old(S) && nodes == MovedWithin(old(nodes), p, i, j)
    {
      hide Ring, CanRehang, Rehung, AsSet, MovedWithin;
      if first == last {
        NoneBetween(i, j);
        NothingMoved(nodes, p, i);
        return;
      }
      var count := CountBlock(first, last, i, j);
      BlockMovedWithin(Snapshot(S), head, nodes, p, i, j);
      Rehang(pos, first, last, S);
      StillThere(nodes, p, i, j);
      size := size + count;
      size := size - count;
      nodes := MovedWithin(nodes, p, i, j);
    }

    /** The writes of a block splice within one ring. */
    method Rehang(pos: Node<T>, first: Node<T>, last: Node<T>, ghost U: set<Node<T>>)
      requires CanRehang(Snapshot(U), pos, first, last)
      modifies U
      ensures Snapshot(U) == Rehung(old(Snapshot(U)), pos, first, last)
    {
      hide Joined;
      var end := last.prev;
      Link(first.prev, last, U);
      LinkBlockBefore(pos, first, end, U);
    }

    method SpliceFrom(pos: Node<T>, other: List<T>, first: Node<T>, last: Node<T>, ghost p: nat, ghost i: nat,
                      ghost j: nat)
      requires Valid() && other.Valid() && this != other && S !! other.S
      requires p <= |nodes| && i <= j <= |other.nodes|
      requires pos == NodeAt(p) && first == other.NodeAt(i) && last == other.NodeAt(j)
      modifies this, other, S, other.S
      ensures Valid() && other.Valid() && S !! other.S && S + other.S == old(S + other.S)
      ensures nodes == old(nodes[..p]) + old(other.nodes[i..j]) + old(nodes[p..])
      ensures other.nodes == old(other.nodes[..i]) + old(other.nodes[j..])
    {
      hide Ring, Spliced, AsSet;
      ghost var U, m := S + other.S, Snapshot(S + other.S);
      ghost var a, b, c, d, e := nodes[..p], nodes[p..], other.nodes[..i], other.nodes[i..j], other.nodes[j..];
      assert nodes == a + b && other.nodes == c + d + e;
      if first == last {
        other.NoneBetween(i, j);
        assert a + d + b == a + b && c + d + e == c + e;
        return;
      }
      var count := other.CountBlock(first, last, i, j);
      MoveBlock(pos, first, last, a, b, other.head, c, d, e, S, other.S);
      SplicedSets(head, a, b, other.head, c, d, e);
      Renew(size + count, a + d + b);
      other.Renew(other.size - count, c + e);
    }

    /** The fields of a list whose ring has changed. */
    method Renew(n: nat, ghost s: seq<Node<T>>)
      requires n == |s| && Ring(Snapshot({head} + AsSet(s)), head, s).Ok?
      modifies this
      ensures Valid() && nodes == s && S == {head} + AsSet(s)
    {
      hide Ring, AsSet;
      nodes, S := s, {head} + AsSet(s);
      size := n;
    }

    /** The links of a block splice: both rings come out whole. */
    method MoveBlock(pos: Node<T>, first: Node<T>, last: Node<T>, ghost a: seq<Node<T>>, ghost b: seq<Node<T>>,
                     ghost h2: Node<T>, ghost c: seq<Node<T>>, ghost d: seq<Node<T>>, ghost e: seq<Node<T>>,
                     ghost S1: set<Node<T>>, ghost S2: set<Node<T>>)
      requires Ring(Snapshot(S1), head, a + b).Ok? && Ring(Snapshot(S2), h2, c + d + e).Ok? && d != []
      requires S1 == {head} + AsSet(a + b) && S2 == {h2} + AsSet(c + d + e) && S1 !! S2
      requires pos == (b + [head])[0] && first == d[0] && last == (e + [h2])[0]
      modifies S1, S2
      ensures Ring(Snapshot({head} + AsSet(a + d + b)), head, a + d + b).Ok?
      ensures Ring(Snapshot({h2} + AsSet(c + e)), h2, c + e).Ok?
      ensures Distinct([h2] + c + d + e)
    {
      hide Ring, Spliced, AsSet, Distinct, Restricted;
      BlockMoved(Snapshot(S1), Snapshot(S2), Snapshot(S1 + S2), head, a, b, h2, c, d, e);
      Hook(pos, first, last, S1 + S2);
      Narrowed({head} + AsSet(a + d + b), S1 + S2);
      Narrowed({h2} + AsSet(c + e), S1 + S2);
    }

    lemma NoneBetween(i: nat, j: nat)
      requires Valid() && i <= j <= |nodes| && NodeAt(i) == NodeAt(j)
      ensures i == j
    {
      hide Chain, Ring, AsSet;
      Opened(Snapshot(S), head, nodes);
      ChainNodes(Snapshot(S), nodes, head.next, head);
    }
  }

  /** The nodes when those from i up to j have been moved to before p. */
  function MovedWithin<N>(nodes: seq<N>, p: nat, i: nat, j: nat): seq<N>
    requires p <= |nodes| && i <= j <= |nodes|
  {
    if p < i then nodes[..p] + nodes[i..j] + nodes[p..i] + nodes[j..]
    else if j < p then nodes[..i] + nodes[j..p] + nodes[i..j] + nodes[p..]
    else nodes
  }

  lemma NothingMoved<N>(nodes: seq<N>, p: nat, i: nat)
    requires p <= |nodes| && i <= |nodes|
    ensures MovedWithin(nodes, p, i, i) == nodes
  {
    assert nodes[i..i] == [];
    if p < i {
      assert nodes == nodes[..p] + nodes[p..i] + nodes[i..];
    } else if i < p {
      assert nodes == nodes[..i] + nodes[i..p] + nodes[p..];
    }
  }

  lemma StillThere<N>(nodes: seq<N>, p: nat, i: nat, j: nat)
    requires p <= |nodes| && i <= j <= |nodes|
    ensures AsSet(MovedWithin(nodes, p, i, j)) == AsSet(nodes) && |MovedWithin(nodes, p, i, j)| == |nodes|
  {
    hide AsSet;
    if p < i {
      FourSets(nodes[..p], nodes[p..i], nodes[i..j], nodes[j..]);
      assert nodes == nodes[..p] + nodes[p..i] + nodes[i..j] + nodes[j..];
    } else if j < p {
      FourSets(nodes[..i], nodes[i..j], nodes[j..p], nodes[p..]);
      assert nodes == nodes[..i] + nodes[i..j] + nodes[j..p] + nodes[p..];
    }
  }

  lemma FourSets<N>(a: seq<N>, b: seq<N>, c: seq<N>, d: seq<N>)
    ensures AsSet(a + b + c + d) == AsSet(a + c + b + d)
  {
    hide AsSet;
    SetsAdd(a + b + c, d);
    SetsAdd(a + b, c);
    SetsAdd(a, b);
    SetsAdd(a + c + b, d);
    SetsAdd(a + c, b);
    SetsAdd(a, c);
  }

  ghost predicate CanRehang<N>(m: Memory<N>, pos: N, first: N, last: N) {
    && {first, last, pos} <= m.Keys && {m[first].prev, m[last].prev} <= m.Keys
    && var cut := Joined(m, m[first].prev, last);
       cut[pos].prev in m.Keys && cut[pos].prev != m[last].prev && first != pos
  }

  /** The block from first up to last is cut out, and linked before what is then before pos. */
  ghost function Rehung<N>(m: Memory<N>, pos: N, first: N, last: N): Memory<N>
    requires CanRehang(m, pos, first, last)
  {
    var cut := Joined(m, m[first].prev, last);
    Joined(Joined(cut, cut[pos].prev, first), m[last].prev, pos)
  }

  /** The writes of a block splice within one ring: a block that moves ends before or behind the nodes that were on
      its other side, and one put before its own end stays where it is. */
  lemma BlockMovedWithin<N>(m: Memory<N>, h: N, nodes: seq<N>, p: nat, i: nat, j: nat)
    requires Ring(m, h, nodes).Ok? && p <= |nodes| && i < j <= |nodes| && (p < i || j <= p)
    ensures var first, last := nodes[i], (nodes + [h])[j];
            var pos := (nodes + [h])[p];
            CanRehang(m, pos, first, last) && Ring(Rehung(m, pos, first, last), h, MovedWithin(nodes, p, i, j)).Ok?
  {
    hide Ring, CanRehang, Rehung;
    if p < i {
      MovedBack(m, h, nodes[..p], nodes[p..i], nodes[i..j], nodes[j..], nodes);
    } else if j < p {
      MovedOn(m, h, nodes[..i], nodes[i..j], nodes[j..p], nodes[p..], nodes);
    } else {
      PutBack(m, h, nodes, i, j);
    }
  }

  lemma MovedBack<N>(m: Memory<N>, h: N, a: seq<N>, s: seq<N>, t: seq<N>, v: seq<N>, nodes: seq<N>)
    requires Ring(m, h, nodes).Ok? && nodes == a + s + t + v && s != [] && t != []
    ensures var last := (v + [h])[0];
            CanRehang(m, s[0], t[0], last) && Ring(Rehung(m, s[0], t[0], last), h, a + t + s + v).Ok?
  {
    hide Ring, Joined, Pairs;
    Corners(m, h, a, s, t, v);
    var w, u := [h] + a, v + [h];
    var x, y, z := w[|w| - 1], t[|t| - 1], s[|s| - 1];
    JoinedElsewhere(m, z, u[0], s[0]);
    RingExchanged(m, Spliced(m, z, u[0], x, t[0], y, s[0]), h, a, s, t, v);
  }

  lemma MovedOn<N>(m: Memory<N>, h: N, a: seq<N>, s: seq<N>, t: seq<N>, v: seq<N>, nodes: seq<N>)
    requires Ring(m, h, nodes).Ok? && nodes == a + s + t + v && s != [] && t != []
    ensures var pos := (v + [h])[0];
            CanRehang(m, pos, s[0], t[0]) && Ring(Rehung(m, pos, s[0], t[0]), h, a + t + s + v).Ok?
  {
    hide Ring, Joined, Pairs;
    Corners(m, h, a, s, t, v);
    var w, u := [h] + a, v + [h];
    var x, y, z := w[|w| - 1], t[|t| - 1], s[|s| - 1];
    JoinedElsewhere(m, x, t[0], u[0]);
    RingExchanged(m, Spliced(m, x, t[0], y, s[0], z, u[0]), h, a, s, t, v);
  }

  /** The nodes on both sides of the three cuts. */
  lemma Corners<N>(m: Memory<N>, h: N, a: seq<N>, s: seq<N>, t: seq<N>, v: seq<N>)
    requires Ring(m, h, a + s + t + v).Ok? && s != [] && t != []
    ensures var w, u := [h] + a, v + [h];
            var x, y, z := w[|w| - 1], t[|t| - 1], s[|s| - 1];
            && {x, y, z, s[0], t[0], u[0]} <= m.Keys && m[s[0]].prev == x && m[t[0]].prev == z && m[u[0]].prev == y
            && x != y && y != z && x != z && s[0] != t[0] && s[0] != u[0] && t[0] != u[0]
  {
    hide Distinct, Pairs;
    var w, u := [h] + a, v + [h];
    assert [h] + (a + s + t + v) + [h] == w + s + t + u && [h] + (a + s + t + v) == w + s + t + v;
    PairsSplit(m, w + s + t, u);
    PairsSplit(m, w + s, t);
    PairsSplit(m, w, s);
    EndsWithin(m, w);
    EndsWithin(m, s);
    EndsWithin(m, t);
    EndsWithin(m, u);
    QuartersKnown(w, s, t, v);
    QuartersClear(w, s, t, v);
  }

  lemma JoinedElsewhere<N>(m: Memory<N>, x: N, y: N, n: N)
    requires x in m && y in m && n in m && n != y
    ensures Joined(m, x, y)[n].prev == m[n].prev
  {
  }

  lemma PutBack<N>(m: Memory<N>, h: N, nodes: seq<N>, i: nat, j: nat)
    requires Ring(m, h, nodes).Ok? && i < j <= |nodes|
    ensures var first, last := nodes[i], (nodes + [h])[j];
            CanRehang(m, last, first, last) && Rehung(m, last, first, last) == m
  {
    hide Joined;
    var c := [h] + nodes + [h];
    assert forall k :: 0 <= k <= |nodes| ==> c[k] == ([h] + nodes)[k];
    assert c[i + 1] == nodes[i] && c[j + 1] == (nodes + [h])[j];
    assert c[j + 1] == if j < |nodes| then c[j + 1] else c[0];
    JoinedBack(m, c[i], c[i + 1], c[j], c[j + 1]);
  }

  lemma JoinedBack<N>(m: Memory<N>, x: N, first: N, end: N, last: N)
    requires {x, first, end, last} <= m.Keys && x != end && first != last
    requires m[x].next == first && m[first].prev == x && m[end].next == last && m[last].prev == end
    ensures Joined(m, x, last)[last].prev == x && Joined(Joined(Joined(m, x, last), x, first), end, last) == m
  {
  }

  /** What a block splice finds and leaves, with the two rings in memories of their own. */
  lemma BlockMoved<T(0)>(m1: Memory<Node<T>>, m2: Memory<Node<T>>, m: Memory<Node<T>>,
                         h1: Node<T>, a: seq<Node<T>>, b: seq<Node<T>>,
                         h2: Node<T>, c: seq<Node<T>>, d: seq<Node<T>>, e: seq<Node<T>>)
    requires Ring(m1, h1, a + b).Ok? && Ring(m2, h2, c + d + e).Ok? && d != []
    requires m1.Keys == {h1} + AsSet(a + b) && m2.Keys == {h2} + AsSet(c + d + e) && m1.Keys !! m2.Keys
    requires m.Keys == m1.Keys + m2.Keys && (forall n :: n in m1 ==> m[n] == m1[n])
             && (forall n :: n in m2 ==> m[n] == m2[n])
    ensures var first, end := d[0], d[|d| - 1];
            var pos, last := (b + [h1])[0], (e + [h2])[0];
            && {pos, first, last} <= m.Keys && {m[pos].prev, m[first].prev, m[last].prev} <= m.Keys
            && m[pos].prev != m[first].prev && m[pos].prev != m[last].prev && m[first].prev != m[last].prev
            && first != last && first != pos && last != pos
            && var k := Spliced(m, m[first].prev, last, m[pos].prev, first, m[last].prev, pos);
               var k1 := {h1} + AsSet(a + d + b);
               var k2 := {h2} + AsSet(c + e);
            && k1 + k2 == m.Keys && Distinct([h2] + c + d + e)
            && Ring(Restricted(k, k1), h1, a + d + b).Ok? && Ring(Restricted(k, k2), h2, c + e).Ok?
  {
    hide Ring, Spliced, AsSet, Distinct;
    var w1, w2 := [h1] + a, [h2] + c;
    RingAgrees(m1, m, h1, a + b);
    RingAgrees(m2, m, h2, c + d + e);
    SetsOf(h1, a + b);
    SetsOf(h2, c + d + e);
    assert [h1] + (a + b) == [h1] + a + b && [h2] + (c + d + e) == [h2] + c + d + e;
    assert Disjoint([h1] + a + b, [h2] + c + d + e);
    RingsSpliced(m, h1, a, b, h2, c, d, e);
    var k := Spliced(m, w2[|w2| - 1], (e + [h2])[0], w1[|w1| - 1], d[0], d[|d| - 1], (b + [h1])[0]);
    SplicedSets(h1, a, b, h2, c, d, e);
    RingAgrees(k, Restricted(k, {h1} + AsSet(a + d + b)), h1, a + d + b);
    RingAgrees(k, Restricted(k, {h2} + AsSet(c + e)), h2, c + e);
  }

  lemma RingAgrees<N>(m: Memory<N>, k: Memory<N>, head: N, s: seq<N>)
    requires Ring(m, head, s).Ok? && forall n :: n in {head} + AsSet(s) && n in m ==> n in k && k[n] == m[n]
    ensures Ring(k, head, s).Ok?
  {
  }

  lemma SetsOf<N>(head: N, s: seq<N>)
    ensures forall i :: 0 <= i < |[head] + s| ==> ([head] + s)[i] in {head} + AsSet(s)
  {
  }

  lemma SetsAdd<N>(s: seq<N>, t: seq<N>)
    ensures AsSet(s + t) == AsSet(s) + AsSet(t)
  {
    var c := s + t;
    forall n ensures n in c <==> n in s || n in t {
      if n in s { var i :| 0 <= i < |s| && s[i] == n; assert c[i] == n; }
      if n in t { var i :| 0 <= i < |t| && t[i] == n; assert c[|s| + i] == n; }
      if n in c { var i :| 0 <= i < |c| && c[i] == n; }
    }
  }

  lemma DistinctSets<N>(s: seq<N>, t: seq<N>)
    requires Distinct(s + t)
    ensures Distinct(s) && Distinct(t) && AsSet(s) !! AsSet(t)
  {
    DistinctParts(s, t);
  }

  lemma SplicedSets<N>(h1: N, a: seq<N>, b: seq<N>, h2: N, c: seq<N>, d: seq<N>, e: seq<N>)
    requires {h1} + AsSet(a + b) !! {h2} + AsSet(c + d + e) && Distinct([h2] + c + d + e)
    ensures {h1} + AsSet(a + d + b) !! {h2} + AsSet(c + e)
    ensures ({h1} + AsSet(a + d + b)) + ({h2} + AsSet(c + e)) == ({h1} + AsSet(a + b)) + ({h2} + AsSet(c + d + e))
  {
    hide AsSet, Distinct;
    DistinctSets([h2] + c + d, e);
    DistinctSets([h2] + c, d);
    SetsAdd([h2] + c, d);
    SetsAdd([h2], c);
    assert AsSet([h2]) == {h2} by { OneSet(h2); }
    SetsAdd(a, b);
    SetsAdd(c, e);
    SetsAdd(c + d, e);
    SetsAdd(c, d);
    SetsAdd(a + d, b);
    SetsAdd(a, d);
  }

  lemma OneSet<N>(x: N)
    ensures AsSet([x]) == {x}
  {
  }

  lemma Narrowed<T(0)>(part: set<Node<T>>, S: set<Node<T>>)
    requires part <= S
    ensures Snapshot(part) == Restricted(Snapshot(S), part)
  {
  }

  ghost function Restricted<N>(m: Memory<N>, S: set<N>): Memory<N> { map n | n in S && n in m :: m[n] }

  lemma Members<N>(head: N, s: seq<N>)
    ensures head in {head} + AsSet(s) && (forall i :: 0 <= i < |s| ==> s[i] in AsSet(s))
    ensures head !in s ==> head !in AsSet(s)
  {
  }

  lemma ReversedSame<N>(s: seq<N>)
    ensures AsSet(Reversed(s)) == AsSet(s) && (|s| <= 1 ==> Reversed(s) == s)
  {
    hide Reversed;
    var r := Reversed(s);
    forall n | n in s ensures n in r {
      var i :| 0 <= i < |s| && s[i] == n;
      assert r[|s| - 1 - i] == n;
    }
    forall n | n in r ensures n in s {
      var i :| 0 <= i < |r| && r[i] == n;
      assert s[|s| - 1 - i] == n;
    }
  }

  lemma MirrorNone<N>(m: Memory<N>)
    ensures Mirrored(m, AsSet([])) == m
  {
  }

  lemma MirrorMore<N>(m: Memory<N>, done: set<N>, x: N)
    requires x in m && x !in done
    ensures Mirrored(m, {x} + done) == Mirrored(m, done)[x := Cell(m[x].next, m[x].prev)]
  {
  }

  /** The links of the head and the way back from the first node do not belong to the chain. */
  lemma Relinked<T(0)>(m: Memory<Node<T>>, k: Memory<Node<T>>, s: seq<Node<T>>, start: Node<T>, head: Node<T>)
    requires Chain(m, s, start, head).Ok? && s != [] && m.Keys == k.Keys
    requires forall n :: n in m && n != head ==> k[n].next == m[n].next && (n != start ==> k[n].prev == m[n].prev)
    ensures Chain(k, s, start, head).Ok?
  {
  }

  lemma SameNodes<T(0)>(s: seq<Node<T>>, less: (T, T) -> bool)
    ensures AsSet(MergeSort(s, less)) == AsSet(s)
  {
    hide MergeSort;
    var t := MergeSort(s, less);
    SortKeepsNodes(s, less);
    forall n ensures n in s <==> n in t {
      if n in s { var i :| 0 <= i < |s| && s[i] == n; }
      if n in t { var i :| 0 <= i < |t| && t[i] == n; }
    }
  }

  lemma ShortSort<T(0)>(s: seq<Node<T>>, less: (T, T) -> bool)
    requires |s| <= 1
    ensures MergeSort(s, less) == s
  {
  }

  /** No node is in both. */
  ghost function Apart<N>(s: seq<N>, t: seq<N>): Check {
    if forall j :: 0 <= j < |t| ==> t[j] !in s then Ok else Broken
  }

  /** The two halves share no node, sorted or not. */
  lemma HalvesSort<T(0)>(s: seq<Node<T>>, less: (T, T) -> bool)
    requires Distinct(s) && |s| >= 2
    ensures var sa, sb := s[..(|s| + 1) / 2], s[(|s| + 1) / 2..];
            var ta, tb := MergeSort(sa, less), MergeSort(sb, less);
            && MergeSort(s, less) == Merge(ta, tb, less) && ta != [] && tb != [] && Distinct(ta + tb)
            && Apart(sa, sb).Ok? && Apart(sb, ta).Ok?
  {
    hide Merge, MergeSort, Distinct, Apart;
    var half := (|s| + 1) / 2;
    Unfolded(s, less);
    DistinctHalves(s, half);
    SortKeepsNodes(s[..half], less);
    SortKeepsNodes(s[half..], less);
    DistinctJoin(MergeSort(s[..half], less), MergeSort(s[half..], less), s[..half], s[half..]);
  }

  /** Sorting a half brings in no other node. */
  lemma HalvesWithin<T(0)>(s: seq<Node<T>>, lo: nat, hi: nat, less: (T, T) -> bool)
    requires lo <= hi <= |s|
    ensures forall i :: 0 <= i < hi - lo ==> s[lo..hi][i] in s && MergeSort(s[lo..hi], less)[i] in s
  {
    hide MergeSort;
    SortKeepsNodes(s[lo..hi], less);
    PartMembers(MergeSort(s[lo..hi], less), s, lo, hi);
  }

  lemma Unfolded<T(0)>(s: seq<Node<T>>, less: (T, T) -> bool)
    requires |s| >= 2
    ensures MergeSort(s, less)
            == Merge(MergeSort(s[..(|s| + 1) / 2], less), MergeSort(s[(|s| + 1) / 2..], less), less)
  {
  }

  /** What is in a part of s is in s. */
  lemma PartMembers<N>(t: seq<N>, s: seq<N>, lo: nat, hi: nat)
    requires lo <= hi <= |s| && forall i :: 0 <= i < |t| ==> t[i] in s[lo..hi]
    ensures forall i :: 0 <= i < |t| ==> t[i] in s
  {
    forall i | 0 <= i < |t| ensures t[i] in s {
      var part := s[lo..hi];
      assert t[i] in part;
      var j :| 0 <= j < |part| && part[j] == t[i];
      assert s[lo + j] == part[j];
    }
  }

  lemma DistinctHalves<N>(s: seq<N>, half: nat)
    requires Distinct(s) && half <= |s|
    ensures Distinct(s[..half]) && Distinct(s[half..])
    ensures forall i, j :: 0 <= i < half && 0 <= j < |s| - half ==> s[..half][i] != s[half..][j]
  {
  }

  lemma DistinctJoin<N>(ta: seq<N>, tb: seq<N>, sa: seq<N>, sb: seq<N>)
    requires Distinct(ta) && Distinct(tb)
    requires (forall i :: 0 <= i < |ta| ==> ta[i] in sa) && (forall j :: 0 <= j < |tb| ==> tb[j] in sb)
    requires forall i, j :: 0 <= i < |sa| && 0 <= j < |sb| ==> sa[i] != sb[j]
    ensures Distinct(ta + tb) && Apart(sb, ta).Ok? && Apart(sa, sb).Ok?
  {
    forall i, j | 0 <= i < |ta| && 0 <= j < |tb| ensures ta[i] != tb[j] {
      assert ta[i] in sa && tb[j] in sb;
    }
  }

  /** The merged nodes behind a first node that is to go. */
  lemma Behind<T(0)>(m: Memory<Node<T>>, k: Memory<Node<T>>, result: Node<T>, head: Node<T>,
                     sa: seq<Node<T>>, sb: seq<Node<T>>, less: (T, T) -> bool)
    requires var merged := Merge(sa, sb, less); Chain(m, [result] + merged, result, head).Ok? && merged != []
    requires k.Keys <= m.Keys && (forall n :: n in k ==> m[n] == k[n]) && Within(sa, k) && Within(sb, k)
    ensures var merged := Merge(sa, sb, less);
            var whole := [result] + merged;
            var last := merged[|merged| - 1];
            && whole[|whole| - 1] == last && (last in sa || last in sb)
            && result in m && Chain(k, merged, m[result].next, head).Ok?
  {
    hide Chain, Merge;
    var merged := Merge(sa, sb, less);
    ChainRest(m, result, merged, head);
    MergeNodes(sa, sb, less);
    ChainNodes(m, merged, m[result].next, head);
    ChainAgrees(m, k, merged, m[result].next, head);
  }

  lemma {:induction false} MergeNodes<T(0)>(a: seq<Node<T>>, b: seq<Node<T>>, less: (T, T) -> bool)
    ensures forall i :: 0 <= i < |a| + |b| ==> Merge(a, b, less)[i] in a || Merge(a, b, less)[i] in b
  {
    MergePermutes(a, b, less);
    var m := Merge(a, b, less);
    forall i | 0 <= i < |m| ensures m[i] in a || m[i] in b {
      assert m[i] in multiset(m);
    }
  }

  ghost function Suffix<N>(r: seq<N>, s: seq<N>): Check {
    if |r| <= |s| && r == s[|s| - |r|..] then Ok else Broken
  }

  lemma SuffixStep<N>(r: seq<N>, s: seq<N>)
    requires Suffix(r, s).Ok?
    ensures r != [] ==> r[0] in s && Suffix(r[1..], s).Ok?
  {
  }

  lemma WholeSuffix<N>(s: seq<N>)
    ensures Suffix(s, s).Ok?
  {
  }

  lemma MergeEnds<T(0)>(a: seq<Node<T>>, b: seq<Node<T>>, less: (T, T) -> bool)
    ensures a == [] ==> Merge(a, b, less) == b
    ensures b == [] ==> Merge(a, b, less) == a
  {
  }

  lemma MergeStep<T(0)>(path: seq<Node<T>>, ra: seq<Node<T>>, rb: seq<Node<T>>, less: (T, T) -> bool)
    requires ra != [] && rb != []
    ensures path + Merge(ra, rb, less)
            == if less(ra[0].value, rb[0].value) then path + [ra[0]] + Merge(ra[1..], rb, less)
               else path + [rb[0]] + Merge(ra, rb[1..], less)
  {
  }
}
