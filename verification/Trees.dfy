/** Binary trees and one-hole contexts ("zippers"), on values.
    The pointer code of libs/base/rbtree.hpp is proved against these: a pointer into a tree is a
    context together with the subtree that hangs in its hole. */
module Trees {
  import Sequences

  datatype Tree<V> = Leaf | Branch(left: Tree<V>, node: V, black: bool, right: Tree<V>)

  /** A tree with one subtree cut out; `up` is what surrounds the parent of the hole. */
  datatype Context<V> =
    | Top
    | InLeft(up: Context<V>, node: V, black: bool, right: Tree<V>)
    | InRight(left: Tree<V>, node: V, black: bool, up: Context<V>)

  function Plug<V>(c: Context<V>, t: Tree<V>): Tree<V> {
    match c
    case Top => t
    case InLeft(up, n, b, r) => Plug(up, Branch(t, n, b, r))
    case InRight(l, n, b, up) => Plug(up, Branch(l, n, b, t))
  }

  /** The context `inner`, itself hanging in the hole of `outer`. */
  function Append<V>(inner: Context<V>, outer: Context<V>): Context<V> {
    match inner
    case Top => outer
    case InLeft(up, n, b, r) => InLeft(Append(up, outer), n, b, r)
    case InRight(l, n, b, up) => InRight(l, n, b, Append(up, outer))
  }

  // ----- contents -----

  function Inorder<V>(t: Tree<V>): seq<V> {
    match t
    case Leaf => []
    case Branch(l, n, _, r) => Inorder(l) + [n] + Inorder(r)
  }

  /** What comes before, and after, the hole in order. */
  function Before<V>(c: Context<V>): seq<V> {
    match c
    case Top => []
    case InLeft(up, _, _, _) => Before(up)
    case InRight(l, n, _, up) => Before(up) + Inorder(l) + [n]
  }

  function After<V>(c: Context<V>): seq<V> {
    match c
    case Top => []
    case InLeft(up, n, _, r) => [n] + Inorder(r) + After(up)
    case InRight(_, _, _, up) => After(up)
  }

  lemma Regroup<V>(a: seq<V>, l: seq<V>, m: seq<V>, r: seq<V>, z: seq<V>)
    ensures a + (l + m + r) + z == a + l + (m + r + z) == (a + l + m) + r + z
  {
  }

  lemma {:induction false} PlugInorder<V>(c: Context<V>, t: Tree<V>)
    ensures Inorder(Plug(c, t)) == Before(c) + Inorder(t) + After(c)
  {
    match c
    case Top =>
    case InLeft(up, n, b, r) =>
      PlugInorder(up, Branch(t, n, b, r));
      Regroup(Before(up), Inorder(t), [n], Inorder(r), After(up));
    case InRight(l, n, b, up) =>
      PlugInorder(up, Branch(l, n, b, t));
      Regroup(Before(up), Inorder(l), [n], Inorder(t), After(up));
  }

  lemma {:induction false} AppendPlug<V>(inner: Context<V>, outer: Context<V>, t: Tree<V>)
    ensures Plug(Append(inner, outer), t) == Plug(outer, Plug(inner, t))
  {
    match inner
    case Top =>
    case InLeft(up, n, b, r) => AppendPlug(up, outer, Branch(t, n, b, r));
    case InRight(l, n, b, up) => AppendPlug(up, outer, Branch(l, n, b, t));
  }

  ghost function Elems<V>(t: Tree<V>): set<V> {
    match t
    case Leaf => {}
    case Branch(l, n, _, r) => Elems(l) + {n} + Elems(r)
  }

  ghost function Around<V>(c: Context<V>): set<V> {
    match c
    case Top => {}
    case InLeft(up, n, _, r) => {n} + Elems(r) + Around(up)
    case InRight(l, n, _, up) => Elems(l) + {n} + Around(up)
  }

  lemma {:induction false} InorderElems<V>(t: Tree<V>)
    ensures forall i :: 0 <= i < |Inorder(t)| ==> Inorder(t)[i] in Elems(t)
  {
    match t
    case Leaf =>
    case Branch(l, _, _, r) => InorderElems(l); InorderElems(r);
  }

  lemma {:induction false} ElemInorder<V>(t: Tree<V>, v: V)
    requires v in Elems(t)
    ensures v in Inorder(t)
  {
    var Branch(l, n, _, r) := t;
    if v in Elems(l) { ElemInorder(l, v); } else if v in Elems(r) { ElemInorder(r, v); }
  }

  lemma {:induction false} PlugElems<V>(c: Context<V>, t: Tree<V>)
    ensures Elems(Plug(c, t)) == Around(c) + Elems(t)
  {
    match c
    case Top =>
    case InLeft(up, n, b, r) => PlugElems(up, Branch(t, n, b, r));
    case InRight(l, n, b, up) => PlugElems(up, Branch(l, n, b, t));
  }

  /** No node occurs twice. */
  ghost predicate Distinct<V>(t: Tree<V>) {
    match t
    case Leaf => true
    case Branch(l, n, _, r) =>
      Distinct(l) && Distinct(r) && n !in Elems(l) && n !in Elems(r) && Elems(l) !! Elems(r)
  }

  lemma JoinDistinct<V>(a: seq<V>, n: V, b: seq<V>)
    requires Sequences.Distinct(a) && Sequences.Distinct(b) && n !in a && n !in b
    requires forall i, j :: 0 <= i < |a| && 0 <= j < |b| ==> a[i] != b[j]
    ensures Sequences.Distinct(a + [n] + b)
  {
    var s := a + [n] + b;
    forall i, j | 0 <= i < j < |s| ensures s[i] != s[j] {
      assert i < |a| ==> s[i] in a;
      assert j > |a| ==> s[j] in b;
    }
  }

  lemma {:induction false} InorderDistinct<V>(t: Tree<V>)
    requires Distinct(t)
    ensures Sequences.Distinct(Inorder(t))
  {
    match t
    case Leaf =>
    case Branch(l, n, _, r) =>
      InorderDistinct(l);
      InorderDistinct(r);
      InorderElems(l);
      InorderElems(r);
      forall i, j | 0 <= i < |Inorder(l)| && 0 <= j < |Inorder(r)| ensures Inorder(l)[i] != Inorder(r)[j] {
        assert Inorder(l)[i] in Elems(l) && Inorder(r)[j] in Elems(r);
      }
      assert n !in Inorder(l) && n !in Inorder(r);
      JoinDistinct(Inorder(l), n, Inorder(r));
  }

  ghost predicate DistinctAround<V>(c: Context<V>) {
    match c
    case Top => true
    case InLeft(up, n, _, r) =>
      DistinctAround(up) && Distinct(r) && n !in Elems(r) && n !in Around(up) && Elems(r) !! Around(up)
    case InRight(l, n, _, up) =>
      DistinctAround(up) && Distinct(l) && n !in Elems(l) && n !in Around(up) && Elems(l) !! Around(up)
  }

  /** Where a node sits: the context that has its subtree in the hole. */
  lemma {:induction false} Focus<V>(t: Tree<V>, n: V) returns (c: Context<V>, sub: Tree<V>)
    requires n in Elems(t)
    ensures Plug(c, sub) == t && sub.Branch? && sub.node == n
  {
    var Branch(l, m, b, r) := t;
    if m == n {
      c, sub := Top, t;
    } else if n in Elems(l) {
      var d;
      d, sub := Focus(l, n);
      c := Append(d, InLeft(Top, m, b, r));
      AppendPlug(d, InLeft(Top, m, b, r), sub);
    } else {
      var d;
      d, sub := Focus(r, n);
      c := Append(d, InRight(l, m, b, Top));
      AppendPlug(d, InRight(l, m, b, Top), sub);
    }
  }

  // ----- the red-black conditions -----

  predicate Black<V>(t: Tree<V>) { t.Leaf? || t.black }

  predicate BlackAbove<V>(c: Context<V>) { c.Top? || c.black }

  function Weight(black: bool): nat { if black then 1 else 0 }

  /** Black nodes on the leftmost path; on every path, when `Even` holds. */
  function BlackHeight<V>(t: Tree<V>): nat {
    match t
    case Leaf => 0
    case Branch(l, _, b, _) => BlackHeight(l) + Weight(b)
  }

  /** Equal black heights everywhere. */
  predicate Even<V>(t: Tree<V>) {
    match t
    case Leaf => true
    case Branch(l, _, _, r) => Even(l) && Even(r) && BlackHeight(l) == BlackHeight(r)
  }

  /** No red node has a red child. */
  predicate NoRedRed<V>(t: Tree<V>) {
    match t
    case Leaf => true
    case Branch(l, _, b, r) => NoRedRed(l) && NoRedRed(r) && (!b ==> Black(l) && Black(r))
  }

  /** Equal black heights, if the hole is filled with black height h. */
  predicate EvenAround<V>(c: Context<V>, h: nat) {
    match c
    case Top => true
    case InLeft(up, _, b, r) => Even(r) && BlackHeight(r) == h && EvenAround(up, h + Weight(b))
    case InRight(l, _, b, up) => Even(l) && BlackHeight(l) == h && EvenAround(up, h + Weight(b))
  }

  /** No red-red edge outside the hole; the edge into the hole is not looked at. */
  predicate NoRedRedAround<V>(c: Context<V>) {
    match c
    case Top => true
    case InLeft(up, _, b, r) => NoRedRed(r) && NoRedRedAround(up) && (!b ==> Black(r) && BlackAbove(up))
    case InRight(l, _, b, up) => NoRedRed(l) && NoRedRedAround(up) && (!b ==> Black(l) && BlackAbove(up))
  }

  /** The root, if it is part of the context, is black. */
  predicate BlackRoot<V>(c: Context<V>) {
    match c
    case Top => true
    case InLeft(up, _, b, _) => if up.Top? then b else BlackRoot(up)
    case InRight(_, _, b, up) => if up.Top? then b else BlackRoot(up)
  }

  predicate RedBlack<V>(t: Tree<V>) { Even(t) && NoRedRed(t) && Black(t) }

  lemma {:induction false} PlugEven<V>(c: Context<V>, t: Tree<V>)
    ensures Even(Plug(c, t)) <==> Even(t) && EvenAround(c, BlackHeight(t))
  {
    match c
    case Top =>
    case InLeft(up, n, b, r) => PlugEven(up, Branch(t, n, b, r));
    case InRight(l, n, b, up) => PlugEven(up, Branch(l, n, b, t));
  }

  lemma {:induction false} PlugNoRedRed<V>(c: Context<V>, t: Tree<V>)
    ensures NoRedRed(Plug(c, t)) <==> NoRedRed(t) && NoRedRedAround(c) && (Black(t) || BlackAbove(c))
  {
    match c
    case Top =>
    case InLeft(up, n, b, r) => PlugNoRedRed(up, Branch(t, n, b, r));
    case InRight(l, n, b, up) => PlugNoRedRed(up, Branch(l, n, b, t));
  }

  lemma {:induction false} PlugBlackRoot<V>(c: Context<V>, t: Tree<V>)
    ensures Black(Plug(c, t)) <==> if c.Top? then Black(t) else BlackRoot(c)
  {
    match c
    case Top =>
    case InLeft(up, n, b, r) => PlugBlackRoot(up, Branch(t, n, b, r));
    case InRight(l, n, b, up) => PlugBlackRoot(up, Branch(l, n, b, t));
  }

  /** What the context and the subtree must do, each for its part, for the whole to be red-black. */
  predicate Fitting<V>(c: Context<V>, t: Tree<V>) {
    && Even(t) && EvenAround(c, BlackHeight(t))
    && NoRedRed(t) && NoRedRedAround(c) && (Black(t) || BlackAbove(c))
    && (if c.Top? then Black(t) else BlackRoot(c))
  }

  lemma PlugRedBlack<V>(c: Context<V>, t: Tree<V>)
    ensures RedBlack(Plug(c, t)) <==> Fitting(c, t)
  {
    PlugEven(c, t);
    PlugNoRedRed(c, t);
    PlugBlackRoot(c, t);
  }

  // ----- height -----

  function Height<V>(t: Tree<V>): nat {
    match t
    case Leaf => 0
    case Branch(l, _, _, r) => 1 + if Height(l) < Height(r) then Height(r) else Height(l)
  }

  lemma HeightDrops<V>(t: Tree<V>)
    requires t.Branch?
    ensures Height(t.left) < Height(t) && Height(t.right) < Height(t)
  {
  }

  function Pow2(n: nat): (p: nat)
    ensures p >= 1
  {
    if n == 0 then 1 else 2 * Pow2(n - 1)
  }

  lemma {:induction false} Pow2Add(m: nat, n: nat)
    ensures Pow2(m + n) == Pow2(m) * Pow2(n)
  {
    if m != 0 { Pow2Add(m - 1, n); }
  }

  lemma {:induction false} Pow2Monotone(m: nat, n: nat)
    requires m <= n
    ensures Pow2(m) <= Pow2(n)
  {
    if m < n { Pow2Monotone(m, n - 1); }
  }

  lemma {:induction false} HeightByBlackHeight<V>(t: Tree<V>)
    requires Even(t) && NoRedRed(t)
    ensures Height(t) <= 2 * BlackHeight(t) + (if Black(t) then 0 else 1)
  {
    match t
    case Leaf =>
    case Branch(l, _, _, r) => HeightByBlackHeight(l); HeightByBlackHeight(r);
  }

  lemma {:induction false} SizeByBlackHeight<V>(t: Tree<V>)
    requires Even(t)
    ensures Pow2(BlackHeight(t)) <= |Inorder(t)| + 1
  {
    match t
    case Leaf =>
    case Branch(l, _, b, r) => SizeByBlackHeight(l); SizeByBlackHeight(r);
  }

  lemma Squares(a: nat, b: nat)
    requires a <= b
    ensures a * a <= b * b
  {
    assert a * a <= a * b <= b * b;
  }

  /** Height at most 2 log2(n + 1), said without logarithms: 2^height <= (n + 1)^2. */
  lemma HeightIsLogarithmic<V>(t: Tree<V>)
    requires RedBlack(t)
    ensures Pow2(Height(t)) <= (|Inorder(t)| + 1) * (|Inorder(t)| + 1)
  {
    var h := BlackHeight(t);
    HeightByBlackHeight(t);
    SizeByBlackHeight(t);
    Pow2Monotone(Height(t), h + h);
    Pow2Add(h, h);
    Squares(Pow2(h), |Inorder(t)| + 1);
  }

  /** So few turns that 2^turns is at most the square of n + 1: two for each doubling of the size. */
  predicate Few(turns: nat, n: nat) {
    Pow2(turns) <= (n + 1) * (n + 1)
  }

  lemma FewTurns<V>(t: Tree<V>, turns: nat)
    requires RedBlack(t) && turns <= Height(t)
    ensures Few(turns, |Inorder(t)|)
  {
    HeightIsLogarithmic(t);
    Pow2Monotone(turns, Height(t));
  }
}
