/** Doubly linked nodes as values: what two links of each node make of a sequence of nodes. */
module Rings {
  import opened Orders
  import opened Sequences

  datatype Cell<N> = Cell(prev: N, next: N)

  type Memory<N> = map<N, Cell<N>>

  function AsSet<N(==)>(s: seq<N>): set<N> { set n | n in s }

  ghost predicate Within<N>(s: seq<N>, m: Memory<N>) {
    forall i :: 0 <= i < |s| ==> s[i] in m
  }

  ghost predicate Pairs<N>(m: Memory<N>, s: seq<N>) {
    && Within(s, m)
    && forall i :: 0 < i < |s| ==> m[s[i - 1]].next == s[i] && m[s[i]].prev == s[i - 1]
  }

  /** Consecutive nodes point at each other. */
  ghost function Linked<N>(m: Memory<N>, s: seq<N>): Check {
    if Pairs(m, s) then Ok else Broken
  }

  /** The nodes met from start until end, linked among themselves; what the first has before it is not said. */
  ghost function Chain<N>(m: Memory<N>, s: seq<N>, start: N, end: N): Check {
    if && Linked(m, s).Ok? && end !in s && Distinct(s)
       && start == (if s == [] then end else s[0])
       && (s != [] ==> m[s[|s| - 1]].next == end)
    then Ok else Broken
  }

  /** The head and the nodes after it, in one ring: a closed walk. */
  ghost function Ring<N>(m: Memory<N>, head: N, s: seq<N>): Check {
    if Linked(m, [head] + s + [head]).Ok? && Distinct([head] + s) then Ok else Broken
  }

  /** The memory after y has been made to follow x, both ways. */
  ghost function Joined<N>(m: Memory<N>, x: N, y: N): (k: Memory<N>)
    requires x in m && y in m
    ensures k.Keys == m.Keys
  {
    var half := m[x := Cell(m[x].prev, y)];
    half[y := Cell(x, half[y].next)]
  }

  ghost predicate Agree<N>(m: Memory<N>, k: Memory<N>, s: seq<N>) {
    forall i :: 0 <= i < |s| ==> s[i] in m && s[i] in k && m[s[i]] == k[s[i]]
  }

  lemma ChainAgrees<N>(m: Memory<N>, k: Memory<N>, s: seq<N>, start: N, end: N)
    requires Chain(m, s, start, end).Ok? && Agree(m, k, s)
    ensures Chain(k, s, start, end).Ok?
  {
  }

  /** What a chain says of one of its nodes. */
  lemma At<N>(m: Memory<N>, s: seq<N>, start: N, end: N, i: nat)
    requires Chain(m, s, start, end).Ok? && i < |s|
    ensures s[i] in m && m[s[i]].next == (if i + 1 < |s| then s[i + 1] else end) && s[i] != end
    ensures (i + 1 < |s| ==> s[i + 1] != end) && (s[0] == start)
  {
  }

  lemma ChainNodes<N>(m: Memory<N>, s: seq<N>, start: N, end: N)
    requires Chain(m, s, start, end).Ok?
    ensures Within(s, m) && end !in s && Distinct(s)
    ensures start == (if s == [] then end else s[0])
  {
  }

  lemma ChainRest<N>(m: Memory<N>, start: N, s: seq<N>, end: N)
    requires Chain(m, [start] + s, start, end).Ok?
    ensures start in m && Chain(m, s, m[start].next, end).Ok?
  {
    var c := [start] + s;
    assert forall i :: 0 <= i < |s| ==> s[i] == c[i + 1];
  }

  // ----- cutting -----

  lemma Halves<N>(m: Memory<N>, s: seq<N>, start: N, end: N, half: nat)
    requires Chain(m, s, start, end).Ok? && 0 < half < |s| && end in m
    ensures var k := Cut(m, s[half - 1], s[half], end);
            Chain(k, s[..half], start, end).Ok? && Chain(k, s[half..], s[half], end).Ok?
  {
    var k := Cut(m, s[half - 1], s[half], end);
    assert forall i :: 0 <= i < |s| && i != half - 1 ==> k[s[i]].next == m[s[i]].next;
    assert forall i :: 0 <= i < |s| && i != half ==> k[s[i]].prev == m[s[i]].prev;
  }

  /** The memory after the end of a chain has been put between x and y; the end itself is not touched. */
  ghost function Cut<N>(m: Memory<N>, x: N, y: N, end: N): Memory<N>
    requires x in m && y in m
  {
    var half := m[x := Cell(m[x].prev, end)];
    half[y := Cell(end, half[y].next)]
  }

  // ----- merging -----

  /** What has been merged, and the two chains still to be merged. */
  ghost function Zipped<N>(m: Memory<N>, path: seq<N>, ra: seq<N>, rb: seq<N>, a: N, b: N, end: N): Check {
    if && Linked(m, path).Ok? && Chain(m, ra, a, end).Ok? && Chain(m, rb, b, end).Ok?
       && Distinct(path + ra + rb) && end !in path
    then Ok else Broken
  }

  lemma ZipStarts<N>(m: Memory<N>, result: N, sa: seq<N>, sb: seq<N>, a: N, b: N, end: N)
    requires Chain(m, sa, a, end).Ok? && Chain(m, sb, b, end).Ok? && Distinct(sa + sb)
    requires result in m && result !in sa && result !in sb && result != end
    ensures Zipped(m, [result], sa, sb, a, b, end).Ok?
  {
    hide Chain;
    DistinctFrom(result, sa + sb);
    assert [result] + (sa + sb) == [result] + sa + sb;
  }

  /** The two chains start where the walk stands, at their end when they are used up. */
  lemma Starts<N>(m: Memory<N>, path: seq<N>, ra: seq<N>, rb: seq<N>, a: N, b: N, end: N)
    requires Zipped(m, path, ra, rb, a, b, end).Ok?
    ensures a == (if ra == [] then end else ra[0]) && b == (if rb == [] then end else rb[0])
    ensures (ra != [] ==> a != end && a in m) && (rb != [] ==> b != end && b in m)
    ensures path != [] ==> path[|path| - 1] in m
  {
  }

  lemma ZippedSwaps<N>(m: Memory<N>, path: seq<N>, ra: seq<N>, rb: seq<N>, a: N, b: N, end: N)
    requires Zipped(m, path, ra, rb, a, b, end).Ok?
    ensures Zipped(m, path, rb, ra, b, a, end).Ok?
  {
    hide Linked, Chain, Distinct;
    DistinctSwaps(path, ra, rb);
  }

  lemma DistinctSwaps<N>(p: seq<N>, q: seq<N>, r: seq<N>)
    requires Distinct(p + q + r)
    ensures Distinct(p + r + q)
  {
    var s, t := p + q + r, p + r + q;
    forall i, j | 0 <= i < j < |t| ensures t[i] != t[j] {
      var k := if i < |p| then i else if i < |p| + |r| then i + |q| else i - |r|;
      var l := if j < |p| then j else if j < |p| + |r| then j + |q| else j - |r|;
      assert s[k] == t[i] && s[l] == t[j] && k != l;
    }
  }

  /** Where the two nodes of a new link do not occur. */
  lemma Parts<N>(path: seq<N>, ra: seq<N>, rb: seq<N>)
    requires Distinct(path + ra + rb) && path != [] && ra != []
    ensures forall i :: 0 <= i < |path| ==> path[i] != ra[0] && (i < |path| - 1 ==> path[i] != path[|path| - 1])
    ensures forall i :: 0 <= i < |ra| ==> ra[i] != path[|path| - 1] && (i > 0 ==> ra[i] != ra[0])
    ensures forall i :: 0 <= i < |rb| ==> rb[i] != path[|path| - 1] && rb[i] != ra[0]
  {
    var all := path + ra + rb;
    assert all[|path| - 1] == path[|path| - 1] && all[|path|] == ra[0];
    assert forall k :: 0 <= k < |path| ==> all[k] == path[k];
    assert forall k :: 0 <= k < |ra| ==> all[|path| + k] == ra[k];
    assert forall k :: 0 <= k < |rb| ==> all[|path| + |ra| + k] == rb[k];
  }

  /** Moving the first node of ra to the end of the path; or all of ra, when rb is used up. */
  lemma Taken<N>(m: Memory<N>, path: seq<N>, ra: seq<N>, rb: seq<N>, a: N, b: N, end: N)
    requires Zipped(m, path, ra, rb, a, b, end).Ok? && path != [] && ra != []
    ensures var k := Joined(m, path[|path| - 1], ra[0]);
            && path[|path| - 1] != ra[0]
            && Zipped(k, path + [ra[0]], ra[1..], rb, m[a].next, b, end).Ok?
            && Chain(k, path + ra, path[0], end).Ok?
  {
    hide Distinct;
    var tail := path[|path| - 1];
    var k := Joined(m, tail, ra[0]);
    Parts(path, ra, rb);
    assert Pairs(k, path) && Pairs(k, ra) && Pairs(k, rb);
    PairsJoin(k, path, ra);
    Regrouped(path, ra, rb);
  }

  lemma PairsJoin<N>(m: Memory<N>, s: seq<N>, t: seq<N>)
    requires Pairs(m, s) && Pairs(m, t) && s != [] && t != []
    requires m[s[|s| - 1]].next == t[0] && m[t[0]].prev == s[|s| - 1]
    ensures Pairs(m, s + t) && Pairs(m, s + [t[0]]) && Pairs(m, t[1..])
  {
  }

  lemma Regrouped<N>(path: seq<N>, ra: seq<N>, rb: seq<N>)
    requires Distinct(path + ra + rb) && ra != []
    ensures Distinct(path + [ra[0]] + ra[1..] + rb) && Distinct(path + ra) && Distinct(ra[1..])
  {
    assert path + [ra[0]] + ra[1..] + rb == path + ra + rb;
    assert forall i :: 0 <= i < |path + ra| ==> (path + ra)[i] == (path + ra + rb)[i];
    assert forall i :: 0 <= i < |ra| ==> ra[i] == (path + ra + rb)[|path| + i];
  }

  // ----- rings and chains -----

  lemma Opened<N>(m: Memory<N>, head: N, s: seq<N>)
    requires Ring(m, head, s).Ok?
    ensures head in m && Chain(m, s, m[head].next, head).Ok?
    ensures m[head].prev == if s == [] then head else s[|s| - 1]
  {
    var c := [head] + s + [head];
    assert c[0] == head && c[|s| + 1] == head;
    assert forall i :: 0 <= i < |s| ==> s[i] == c[i + 1] == ([head] + s)[i + 1];
    assert ([head] + s)[0] == head;
  }

  lemma Closed<N>(m: Memory<N>, head: N, s: seq<N>)
    requires Chain(m, s, if s == [] then head else s[0], head).Ok? && head in m
    requires m[head].next == if s == [] then head else s[0]
    requires m[head].prev == if s == [] then head else s[|s| - 1]
    requires s != [] ==> m[s[0]].prev == head
    ensures Ring(m, head, s).Ok?
  {
    hide Pairs;
    OnePairs(m, head);
    if s == [] {
      PairsJoin(m, [head], [head]);
      assert [head] + s + [head] == [head] + [head];
    } else {
      PairsJoin(m, [head], s);
      PairsJoin(m, [head] + s, [head]);
    }
    DistinctFrom(head, s);
  }

  lemma OnePairs<N>(m: Memory<N>, x: N)
    requires x in m
    ensures Pairs(m, [x])
  {
  }

  lemma DistinctFrom<N>(x: N, s: seq<N>)
    requires Distinct(s) && x !in s
    ensures Distinct([x] + s)
  {
    var c := [x] + s;
    assert forall i :: 0 < i < |c| ==> c[i] == s[i - 1];
  }

  // ----- rearranging rings -----

  /** Neither the link out of x nor the link into y is one along s. */
  ghost predicate Clear<N>(s: seq<N>, x: N, y: N) {
    && (forall i :: 0 <= i < |s| - 1 ==> s[i] != x)
    && (forall i :: 0 < i < |s| ==> s[i] != y)
  }

  lemma JoinKeeps<N>(m: Memory<N>, s: seq<N>, x: N, y: N)
    requires Pairs(m, s) && Clear(s, x, y) && x in m && y in m
    ensures Pairs(Joined(m, x, y), s)
  {
  }

  /** Pulls the block d out of one ring and puts it between a and b in another one: three new links. */
  ghost function Spliced<N>(m: Memory<N>, x2: N, last: N, x1: N, first: N, end: N, pos: N): Memory<N>
    requires {x2, last, x1, first, end, pos} <= m.Keys
  {
    Joined(Joined(Joined(m, x2, last), x1, first), end, pos)
  }

  /** A stretch that the three new links leave alone. */
  lemma SpliceKeeps<N>(m: Memory<N>, s: seq<N>, x2: N, last: N, x1: N, first: N, end: N, pos: N)
    requires Pairs(m, s) && {x2, last, x1, first, end, pos} <= m.Keys
    requires Clear(s, x2, last) && Clear(s, x1, first) && Clear(s, end, pos)
    ensures Pairs(Spliced(m, x2, last, x1, first, end, pos), s)
  {
    hide Pairs, Joined, Clear;
    JoinKeeps(m, s, x2, last);
    JoinKeeps(Joined(m, x2, last), s, x1, first);
    JoinKeeps(Joined(Joined(m, x2, last), x1, first), s, end, pos);
  }

  lemma PairsSplit<N>(m: Memory<N>, s: seq<N>, t: seq<N>)
    requires Pairs(m, s + t)
    ensures Pairs(m, s) && Pairs(m, t)
    ensures s != [] && t != [] ==> m[s[|s| - 1]].next == t[0] && m[t[0]].prev == s[|s| - 1]
  {
    var c := s + t;
    assert forall i :: 0 <= i < |s| ==> c[i] == s[i];
    assert forall i :: 0 <= i < |t| ==> c[|s| + i] == t[i];
    if s != [] && t != [] { assert c[|s| - 1] == s[|s| - 1] && c[|s|] == t[0]; }
  }

  lemma SplicedLinks<N>(m: Memory<N>, x2: N, last: N, x1: N, first: N, end: N, pos: N)
    requires {x2, last, x1, first, end, pos} <= m.Keys
    requires x1 != x2 && x1 != end && x2 != end && first != last && first != pos && last != pos
    ensures var k := Spliced(m, x2, last, x1, first, end, pos);
            && k.Keys == m.Keys && k[x2].next == last && k[last].prev == x2
            && k[x1].next == first && k[first].prev == x1 && k[end].next == pos && k[pos].prev == end
  {
  }

  /** No node is in both. */
  ghost predicate Disjoint<N>(s: seq<N>, t: seq<N>) {
    forall i, j :: 0 <= i < |s| && 0 <= j < |t| ==> s[i] != t[j]
  }

  lemma {:induction false} DistinctParts<N>(s: seq<N>, t: seq<N>)
    ensures Distinct(s + t) <==> Distinct(s) && Distinct(t) && Disjoint(s, t)
  {
    var c := s + t;
    assert forall i :: 0 <= i < |s| ==> c[i] == s[i];
    assert forall i :: 0 <= i < |t| ==> c[|s| + i] == t[i];
  }

  lemma DisjointParts<N>(s: seq<N>, t: seq<N>, u: seq<N>)
    ensures Disjoint(s + t, u) <==> Disjoint(s, u) && Disjoint(t, u)
    ensures Disjoint(u, s + t) <==> Disjoint(u, s) && Disjoint(u, t)
  {
    var c := s + t;
    assert forall i :: 0 <= i < |s| ==> c[i] == s[i];
    assert forall i :: 0 <= i < |t| ==> c[|s| + i] == t[i];
  }

  /** The stretches of the two rings share no node. */
  ghost function Stretches<N>(w1: seq<N>, b: seq<N>, w2: seq<N>, d: seq<N>, e: seq<N>): Check {
    if && Distinct(w1) && Distinct(b) && Distinct(w2) && Distinct(d) && Distinct(e)
       && Disjoint(w1, b) && Disjoint(w1, w2) && Disjoint(w1, d) && Disjoint(w1, e)
       && Disjoint(b, w2) && Disjoint(b, d) && Disjoint(b, e)
       && Disjoint(w2, d) && Disjoint(w2, e) && Disjoint(d, e)
    then Ok else Broken
  }

  lemma StretchesKnown<N>(w1: seq<N>, b: seq<N>, w2: seq<N>, d: seq<N>, e: seq<N>)
    requires Distinct(w1 + b) && Distinct(w2 + d + e) && Disjoint(w1 + b, w2 + d + e)
    ensures Stretches(w1, b, w2, d, e).Ok? && Distinct(w1 + d + b) && Distinct(w2 + e)
  {
    hide Distinct, Disjoint;
    DistinctParts(w1, b);
    DistinctParts(w2 + d, e);
    DistinctParts(w2, d);
    DisjointParts(w2, d, e);
    DisjointParts(w2 + d, e, w1 + b);
    DisjointParts(w2, d, w1 + b);
    DisjointParts(w1, b, w2);
    DisjointParts(w1, b, d);
    DisjointParts(w1, b, e);
    DisjointSwaps(b, d);
    DistinctParts(w1, d);
    DisjointParts(w1, d, b);
    DistinctParts(w1 + d, b);
    DistinctParts(w2, e);
  }

  lemma DisjointSwaps<N>(s: seq<N>, t: seq<N>)
    ensures Disjoint(s, t) <==> Disjoint(t, s)
  {
  }

  /** None of the five stretches uses a link that is redirected. */
  lemma StretchesClear<N>(w1: seq<N>, b: seq<N>, w2: seq<N>, d: seq<N>, e: seq<N>)
    requires Stretches(w1, b, w2, d, e).Ok? && w1 != [] && w2 != [] && d != []
    ensures var v1, v2 := b + [w1[0]], e + [w2[0]];
            var x1, x2, end := w1[|w1| - 1], w2[|w2| - 1], d[|d| - 1];
            && x1 != x2 && x1 != end && x2 != end && d[0] != v2[0] && d[0] != v1[0] && v2[0] != v1[0]
            && Clear(w1, x2, v2[0]) && Clear(w1, x1, d[0]) && Clear(w1, end, v1[0])
            && Clear(w2, x2, v2[0]) && Clear(w2, x1, d[0]) && Clear(w2, end, v1[0])
  {
  }

  lemma StretchesClearToo<N>(w1: seq<N>, b: seq<N>, w2: seq<N>, d: seq<N>, e: seq<N>)
    requires Stretches(w1, b, w2, d, e).Ok? && w1 != [] && w2 != [] && d != []
    ensures var v1, v2 := b + [w1[0]], e + [w2[0]];
            var x1, x2, end := w1[|w1| - 1], w2[|w2| - 1], d[|d| - 1];
            && Clear(v1, x2, v2[0]) && Clear(v1, x1, d[0]) && Clear(v1, end, v1[0])
            && Clear(v2, x2, v2[0]) && Clear(v2, x1, d[0]) && Clear(v2, end, v1[0])
            && Clear(d, x2, v2[0]) && Clear(d, x1, d[0]) && Clear(d, end, v1[0])
  {
  }

  /** A block d between c and e of one ring goes between a and b of the other. */
  lemma RingsSpliced<N>(m: Memory<N>, h1: N, a: seq<N>, b: seq<N>, h2: N, c: seq<N>, d: seq<N>, e: seq<N>)
    requires Ring(m, h1, a + b).Ok? && Ring(m, h2, c + d + e).Ok? && d != []
    requires Disjoint([h1] + a + b, [h2] + c + d + e)
    ensures var w1, v1, w2, v2 := [h1] + a, b + [h1], [h2] + c, e + [h2];
            var x1, pos, x2, last := w1[|w1| - 1], v1[0], w2[|w2| - 1], v2[0];
            && {x2, last, x1, d[0], d[|d| - 1], pos} <= m.Keys
            && m[pos].prev == x1 && m[d[0]].prev == x2 && m[last].prev == d[|d| - 1]
            && x1 != x2 && x1 != d[|d| - 1] && x2 != d[|d| - 1] && d[0] != last && d[0] != pos && last != pos
            && Distinct([h2] + c + d + e)
            && Ring(Spliced(m, x2, last, x1, d[0], d[|d| - 1], pos), h1, a + d + b).Ok?
            && Ring(Spliced(m, x2, last, x1, d[0], d[|d| - 1], pos), h2, c + e).Ok?
  {
    hide Pairs, Spliced, Joined, Clear, Distinct, Disjoint, Stretches;
    var w1, v1, w2, v2 := [h1] + a, b + [h1], [h2] + c, e + [h2];
    assert [h1] + (a + b) + [h1] == w1 + v1 && [h1] + (a + b) == w1 + b;
    assert [h2] + (c + d + e) + [h2] == (w2 + d) + v2 && [h2] + (c + d + e) == w2 + d + e;
    PairsSplit(m, w1, v1);
    PairsSplit(m, w2 + d, v2);
    PairsSplit(m, w2, d);
    StretchesKnown(w1, b, w2, d, e);
    StretchesClear(w1, b, w2, d, e);
    Rejoined(m, w1, b, w2, d, e);
    assert [h1] + (a + d + b) + [h1] == w1 + d + v1 && [h1] + (a + d + b) == w1 + d + b;
    assert [h2] + (c + e) + [h2] == w2 + v2 && [h2] + (c + e) == w2 + e;
  }

  lemma Rejoined<N>(m: Memory<N>, w1: seq<N>, b: seq<N>, w2: seq<N>, d: seq<N>, e: seq<N>)
    requires Stretches(w1, b, w2, d, e).Ok? && w1 != [] && w2 != [] && d != []
    requires Pairs(m, w1) && Pairs(m, b + [w1[0]]) && Pairs(m, w2) && Pairs(m, d) && Pairs(m, e + [w2[0]])
    ensures var v1, v2 := b + [w1[0]], e + [w2[0]];
            var x1, x2, end := w1[|w1| - 1], w2[|w2| - 1], d[|d| - 1];
            && {x2, v2[0], x1, d[0], end, v1[0]} <= m.Keys
            && Pairs(Spliced(m, x2, v2[0], x1, d[0], end, v1[0]), w1 + d + v1)
            && Pairs(Spliced(m, x2, v2[0], x1, d[0], end, v1[0]), w2 + v2)
  {
    hide Pairs, Spliced, Clear, Stretches;
    var v1, v2 := b + [w1[0]], e + [w2[0]];
    var x1, x2, end := w1[|w1| - 1], w2[|w2| - 1], d[|d| - 1];
    EndsWithin(m, w1);
    EndsWithin(m, w2);
    EndsWithin(m, d);
    EndsWithin(m, v1);
    EndsWithin(m, v2);
    StretchesClear(w1, b, w2, d, e);
    StretchesClearToo(w1, b, w2, d, e);
    SpliceKeeps(m, w1, x2, v2[0], x1, d[0], end, v1[0]);
    SpliceKeeps(m, w2, x2, v2[0], x1, d[0], end, v1[0]);
    SpliceKeeps(m, d, x2, v2[0], x1, d[0], end, v1[0]);
    SpliceKeeps(m, v1, x2, v2[0], x1, d[0], end, v1[0]);
    SpliceKeeps(m, v2, x2, v2[0], x1, d[0], end, v1[0]);
    SplicedLinks(m, x2, v2[0], x1, d[0], end, v1[0]);
    var k := Spliced(m, x2, v2[0], x1, d[0], end, v1[0]);
    PairsJoin(k, w1, d);
    PairsJoin(k, w1 + d, v1);
    PairsJoin(k, w2, v2);
  }

  // ----- a block moved within its own ring -----

  /** The four stretches of a ring share no node. */
  ghost function Quarters<N>(w: seq<N>, s: seq<N>, t: seq<N>, v: seq<N>): Check {
    if && Distinct(w) && Distinct(s) && Distinct(t) && Distinct(v)
       && Disjoint(w, s) && Disjoint(w, t) && Disjoint(w, v) && Disjoint(s, t) && Disjoint(s, v) && Disjoint(t, v)
    then Ok else Broken
  }

  lemma QuartersKnown<N>(w: seq<N>, s: seq<N>, t: seq<N>, v: seq<N>)
    requires Distinct(w + s + t + v)
    ensures Quarters(w, s, t, v).Ok? && Distinct(w + t + s + v)
  {
    hide Distinct, Disjoint;
    DistinctParts(w + s + t, v);
    DistinctParts(w + s, t);
    DistinctParts(w, s);
    DisjointParts(w + s, t, v);
    DisjointParts(w, s, v);
    DisjointParts(w, s, t);
    DisjointSwaps(s, t);
    DistinctParts(w, t);
    DisjointParts(w, t, s);
    DistinctParts(w + t, s);
    DisjointParts(w, t, v);
    DisjointParts(w + t, s, v);
    DistinctParts(w + t + s, v);
  }

  /** Neither of the three new links of an exchange of s and t is one along the stretch. */
  ghost predicate Untouched<N>(x: seq<N>, w: seq<N>, s: seq<N>, t: seq<N>, v: seq<N>)
    requires w != [] && s != [] && t != [] && v != []
  {
    Clear(x, w[|w| - 1], t[0]) && Clear(x, t[|t| - 1], s[0]) && Clear(x, s[|s| - 1], v[0])
  }

  lemma QuartersClear<N>(w: seq<N>, s: seq<N>, t: seq<N>, v: seq<N>)
    requires Quarters(w, s, t, v).Ok? && w != [] && s != [] && t != []
    ensures var u := v + [w[0]];
            && Untouched(w, w, s, t, u) && Untouched(s, w, s, t, u) && Untouched(t, w, s, t, u)
            && Untouched(u, w, s, t, u)
            && w[|w| - 1] != s[|s| - 1] && w[|w| - 1] != t[|t| - 1] && s[|s| - 1] != t[|t| - 1]
            && s[0] != t[0] && s[0] != u[0] && t[0] != u[0]
  {
  }

  /** The memory after the stretches s and t have been exchanged, whichever of them was moved. */
  ghost predicate Exchanged<N>(m: Memory<N>, k: Memory<N>, w: seq<N>, s: seq<N>, t: seq<N>, v: seq<N>)
    requires w != [] && s != [] && t != [] && v != []
  {
    var x, y, z := w[|w| - 1], t[|t| - 1], s[|s| - 1];
    && {x, y, z, t[0], s[0], v[0]} <= m.Keys
    && (k == Spliced(m, z, v[0], x, t[0], y, s[0]) || k == Spliced(m, x, t[0], y, s[0], z, v[0]))
  }

  lemma ExchangeKeeps<N>(m: Memory<N>, k: Memory<N>, x: seq<N>, w: seq<N>, s: seq<N>, t: seq<N>, v: seq<N>)
    requires w != [] && s != [] && t != [] && v != [] && Exchanged(m, k, w, s, t, v)
    requires Pairs(m, x) && Untouched(x, w, s, t, v)
    ensures Pairs(k, x)
  {
    hide Pairs, Spliced, Clear;
    var l, y, z := w[|w| - 1], t[|t| - 1], s[|s| - 1];
    SpliceKeeps(m, x, z, v[0], l, t[0], y, s[0]);
    SpliceKeeps(m, x, l, t[0], y, s[0], z, v[0]);
  }

  /** Exchanging two stretches that lie side by side leaves one ring. */
  lemma RingExchanged<N>(m: Memory<N>, k: Memory<N>, h: N, a: seq<N>, s: seq<N>, t: seq<N>, v: seq<N>)
    requires Ring(m, h, a + s + t + v).Ok? && s != [] && t != []
    requires Exchanged(m, k, [h] + a, s, t, v + [h])
    ensures Ring(k, h, a + t + s + v).Ok?
  {
    hide Pairs, Spliced, Distinct, Disjoint, Quarters, Exchanged, Untouched;
    var w, u := [h] + a, v + [h];
    assert [h] + (a + s + t + v) + [h] == w + s + t + u && [h] + (a + s + t + v) == w + s + t + v;
    PairsSplit(m, w + s + t, u);
    PairsSplit(m, w + s, t);
    PairsSplit(m, w, s);
    QuartersKnown(w, s, t, v);
    QuartersClear(w, s, t, v);
    ExchangeKeeps(m, k, w, w, s, t, u);
    ExchangeKeeps(m, k, s, w, s, t, u);
    ExchangeKeeps(m, k, t, w, s, t, u);
    ExchangeKeeps(m, k, u, w, s, t, u);
    ExchangeLinks(m, k, w, s, t, u);
    PairsJoin(k, w, t);
    PairsJoin(k, w + t, s);
    PairsJoin(k, w + t + s, u);
    assert [h] + (a + t + s + v) + [h] == w + t + s + u && [h] + (a + t + s + v) == w + t + s + v;
  }

  lemma ExchangeLinks<N>(m: Memory<N>, k: Memory<N>, w: seq<N>, s: seq<N>, t: seq<N>, v: seq<N>)
    requires w != [] && s != [] && t != [] && v != [] && Exchanged(m, k, w, s, t, v)
    requires w[|w| - 1] != s[|s| - 1] && w[|w| - 1] != t[|t| - 1] && s[|s| - 1] != t[|t| - 1]
    requires s[0] != t[0] && s[0] != v[0] && t[0] != v[0]
    ensures w[|w| - 1] in k && t[|t| - 1] in k && s[|s| - 1] in k && t[0] in k && s[0] in k && v[0] in k
    ensures k[w[|w| - 1]].next == t[0] && k[t[0]].prev == w[|w| - 1]
    ensures k[t[|t| - 1]].next == s[0] && k[s[0]].prev == t[|t| - 1]
    ensures k[s[|s| - 1]].next == v[0] && k[v[0]].prev == s[|s| - 1]
  {
    hide Spliced;
    var x, y, z := w[|w| - 1], t[|t| - 1], s[|s| - 1];
    SplicedLinks(m, z, v[0], x, t[0], y, s[0]);
    SplicedLinks(m, x, t[0], y, s[0], z, v[0]);
  }

  // ----- ends -----

  lemma EndsWithin<N>(m: Memory<N>, s: seq<N>)
    requires Pairs(m, s) && s != []
    ensures s[0] in m && s[|s| - 1] in m
  {
  }

  /** The two links of each node in done exchanged. */
  ghost function Mirrored<N>(m: Memory<N>, done: set<N>): Memory<N> {
    map n | n in m :: if n in done then Cell(m[n].next, m[n].prev) else m[n]
  }

  lemma RingMirrored<N>(m: Memory<N>, head: N, s: seq<N>, done: set<N>)
    requires Ring(m, head, s).Ok? && head in done && forall i :: 0 <= i < |s| ==> s[i] in done
    ensures Ring(Mirrored(m, done), head, Reversed(s)).Ok?
  {
    hide Distinct, Reversed, Pairs, Mirrored;
    var c, r := [head] + s + [head], [head] + Reversed(s) + [head];
    ClosedReversed(head, s, done);
    PairsMirrored(m, c, r, done);
    DistinctReversed(head, s);
  }

  lemma ClosedReversed<N>(head: N, s: seq<N>, done: set<N>)
    requires head in done && forall i :: 0 <= i < |s| ==> s[i] in done
    ensures var c, r := [head] + s + [head], [head] + Reversed(s) + [head];
            && |r| == |c| && (forall i :: 0 <= i < |r| ==> r[i] == c[|c| - 1 - i])
            && (forall i :: 0 <= i < |c| ==> c[i] in done)
  {
    hide Reversed;
  }

  lemma PairsMirrored<N>(m: Memory<N>, c: seq<N>, r: seq<N>, done: set<N>)
    requires Pairs(m, c) && |r| == |c| && (forall i :: 0 <= i < |r| ==> r[i] == c[|c| - 1 - i])
    requires forall i :: 0 <= i < |c| ==> c[i] in done
    ensures Pairs(Mirrored(m, done), r)
  {
    var k := Mirrored(m, done);
    assert forall i :: 0 <= i < |c| ==> c[i] in m;
    forall i | 0 < i < |r| ensures k[r[i - 1]].next == r[i] && k[r[i]].prev == r[i - 1] {
      var j := |c| - i;
      assert r[i - 1] == c[j] && r[i] == c[j - 1];
    }
  }

  lemma DistinctReversed<N>(head: N, s: seq<N>)
    requires Distinct([head] + s)
    ensures Distinct([head] + Reversed(s))
  {
    var c, r := [head] + s, [head] + Reversed(s);
    forall i, j | 0 <= i < j < |r| ensures r[i] != r[j] {
      assert c[if i == 0 then 0 else |r| - i] == r[i] && c[|r| - j] == r[j];
    }
  }
}
