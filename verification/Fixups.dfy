/** The arithmetic of the red-black fixups, on contexts and subtrees: what holds while a tree is
    one step away from red-black, and that every step of the loops keeps it. */
module Fixups {
  import opened Trees
  import opened Layout
  import opened Orders

  function Depth<V>(c: Context<V>): nat {
    if c.Top? then 0 else 1 + Depth(c.up)
  }

  /** The hole moved to the sibling, with t left behind in the old hole. */
  function OtherSide<V>(c: Context<V>, t: Tree<V>): Context<V>
    requires !c.Top?
  {
    if c.InLeft? then InRight(t, c.node, c.black, c.up) else InLeft(c.up, c.node, c.black, t)
  }

  /** The children of t as holes of their own. */
  function IntoLeft<V>(c: Context<V>, t: Tree<V>): Context<V>
    requires t.Branch?
  {
    InLeft(c, t.node, t.black, t.right)
  }

  function IntoRight<V>(c: Context<V>, t: Tree<V>): Context<V>
    requires t.Branch?
  {
    InRight(t.left, t.node, t.black, c)
  }

  lemma Sideways<V>(m: Memory<V>, c: Context<V>, t: Tree<V>, nil: V)
    requires !c.Top?
    ensures At(m, c, t, nil).Ok? <==> At(m, OtherSide(c, t), Sibling(c), nil).Ok?
  {
    Raised(m, c, t, nil);
    Raised(m, OtherSide(c, t), Sibling(c), nil);
  }

  /** What the pointers around the point of view read. */
  lemma View<V>(m: Memory<V>, c: Context<V>, t: Tree<V>, nil: V)
    requires At(m, c, t, nil).Ok?
    ensures Root(t, nil) in m && m[Root(t, nil)].black == Black(t) && (Root(t, nil) == nil <==> t.Leaf?)
    ensures t.Branch? ==> m[t.node] == Cell(Root(t.left, nil), Root(t.right, nil), Above(c, nil), t.black)
    ensures t.Branch? ==> (Root(t.left, nil) == nil <==> t.left.Leaf?) && (Root(t.right, nil) == nil <==> t.right.Leaf?)
    ensures nil in m && m[nil].black && Above(c, nil) in m && (Above(c, nil) == nil <==> c.Top?)
    ensures m[Above(c, nil)].black == BlackAbove(c) && Holds(m, c, Root(t, nil), nil)
    ensures !c.Top? ==> m[c.node].parent == Above(c.up, nil)
    ensures !c.Top? && (t.Branch? || Sibling(c).Branch?) ==> (m[c.node].left == Root(t, nil) <==> c.InLeft?)
    ensures !c.Top? && (t.Branch? || Sibling(c).Branch?) ==> (m[c.node].right == Root(t, nil) <==> c.InRight?)
    ensures !c.Top? ==> m[c.node].left in m && m[c.node].right in m && m[c.node].parent in m
  {
    if !c.Top? {
      Sideways(m, c, t, nil);
      Raised(m, c, t, nil);
    }
  }

  lemma SameInorder<V>(c: Context<V>, t: Tree<V>, t': Tree<V>)
    requires Inorder(t) == Inorder(t')
    ensures Inorder(Plug(c, t)) == Inorder(Plug(c, t'))
  {
    PlugInorder(c, t);
    PlugInorder(c, t');
  }

  lemma RotatedLeftInorder<V>(t: Tree<V>)
    requires t.Branch? && t.right.Branch?
    ensures Inorder(RotatedLeft(t)) == Inorder(t)
  {
    var a, b, d := Inorder(t.left), Inorder(t.right.left), Inorder(t.right.right);
    assert (a + [t.node] + b) + [t.right.node] + d == a + [t.node] + (b + [t.right.node] + d);
  }

  lemma RotatedRightInorder<V>(t: Tree<V>)
    requires t.Branch? && t.left.Branch?
    ensures Inorder(RotatedRight(t)) == Inorder(t)
  {
    RotatedLeftInorder(RotatedRight(t));
  }

  // ----- painting a node together with its parent -----

  function PaintedPair<V>(c: Context<V>, t: Tree<V>, black: bool, blackAbove: bool): Tree<V>
    requires t.Branch? && !c.Top?
  {
    Painted(Raise(c, Painted(t, black)), blackAbove)
  }

  lemma Parent<V>(m: Memory<V>, c: Context<V>, t: Tree<V>, nil: V)
    requires At(m, c, t, nil).Ok? && t.Branch? && !c.Top?
    ensures t.node in m && m[t.node].parent == c.node && c.node in m && t.node != c.node
    ensures m[c.node].parent == Above(c.up, nil)
  {
    Raised(m, c, t, nil);
  }

  lemma ColouredTwice<V>(m: Memory<V>, m': Memory<V>, n: V, p: V, black: bool, blackAbove: bool)
    requires n in m && p in m && n != p && m'.Keys == m.Keys
    requires m'[n] == m[n].(black := black) && m'[p] == m[p].(black := blackAbove)
    requires Agree(m, m', m.Keys - {n, p})
    ensures m' == Coloured(Coloured(m, n, black), p, blackAbove)
  {
  }

  lemma PaintedPairAt<V>(m: Memory<V>, m': Memory<V>, c: Context<V>, t: Tree<V>, black: bool, blackAbove: bool, nil: V)
    requires At(m, c, t, nil).Ok? && t.Branch? && !c.Top? && t.node in m && c.node in m
    requires m' == Coloured(Coloured(m, t.node, black), c.node, blackAbove)
    ensures At(m', c.up, PaintedPair(c, t, black, blackAbove), nil).Ok?
  {
    PaintedAt(m, c, t, black, nil);
    var m1 := Coloured(m, t.node, black);
    Raised(m1, c, Painted(t, black), nil);
    PaintedAt(m1, c.up, Raise(c, Painted(t, black)), blackAbove, nil);
  }

  // ----- insertion -----

  /** Red-black but for the red root of t, which may have a red parent or be the root of the tree. */
  predicate TooRed<V>(c: Context<V>, t: Tree<V>) {
    && t.Branch? && !t.black && Even(t) && NoRedRed(t)
    && EvenAround(c, BlackHeight(t)) && NoRedRedAround(c) && BlackRoot(c)
  }

  /** A new red leaf leaves the black heights alone. */
  lemma LeafFits<V>(c: Context<V>, z: V)
    requires RedBlack(Plug(c, Leaf))
    ensures TooRed(c, Branch(Leaf, z, false, Leaf))
  {
    PlugRedBlack(c, Leaf);
  }

  lemma RedParent<V>(c: Context<V>, t: Tree<V>)
    requires TooRed(c, t) && !BlackAbove(c)
    ensures !c.up.Top? && c.up.black && Black(Sibling(c))
  {
  }

  /** A red uncle: parent and uncle turn black, the grandparent red. */
  function Recoloured<V>(c: Context<V>, t: Tree<V>): Tree<V>
    requires !c.Top? && !c.up.Top? && Sibling(c.up).Branch?
  {
    Painted(Raise(OtherSide(c.up, Painted(Raise(c, t), true)), Painted(Sibling(c.up), true)), false)
  }

  lemma RecolouredApart<V>(m: Memory<V>, c: Context<V>, t: Tree<V>, nil: V)
    requires At(m, c, t, nil).Ok? && !c.Top? && !c.up.Top? && Sibling(c.up).Branch?
    ensures t.Branch? ==> t.node in m && m[t.node].parent == c.node
    ensures c.node in m && m[c.node].parent == c.up.node
    ensures c.node in m && Sibling(c.up).node in m && c.up.node in m
    ensures c.node != Sibling(c.up).node && c.node != c.up.node && c.up.node != Sibling(c.up).node
  {
    Raised(m, c, t, nil);
    Raised(m, c.up, Raise(c, t), nil);
  }

  lemma ColouredThrice<V>(m: Memory<V>, m': Memory<V>, p: V, u: V, g: V)
    requires p in m && u in m && g in m && p != u && p != g && u != g && m'.Keys == m.Keys
    requires m'[p] == m[p].(black := true) && m'[u] == m[u].(black := true) && m'[g] == m[g].(black := false)
    requires Agree(m, m', m.Keys - {p, u, g})
    ensures m' == Coloured(Coloured(Coloured(m, p, true), u, true), g, false)
  {
  }

  lemma RecolouredAt<V>(m: Memory<V>, m': Memory<V>, c: Context<V>, t: Tree<V>, nil: V)
    requires At(m, c, t, nil).Ok? && !c.Top? && !c.up.Top? && Sibling(c.up).Branch?
    requires c.node in m && Sibling(c.up).node in m && c.up.node in m
    requires m' == Coloured(Coloured(Coloured(m, c.node, true), Sibling(c.up).node, true), c.up.node, false)
    ensures At(m', c.up.up, Recoloured(c, t), nil).Ok?
  {
    var p, u := Painted(Raise(c, t), true), Painted(Sibling(c.up), true);
    Raised(m, c, t, nil);
    PaintedAt(m, c.up, Raise(c, t), true, nil);
    var m1 := Coloured(m, c.node, true);
    Sideways(m1, c.up, p, nil);
    PaintedAt(m1, OtherSide(c.up, p), Sibling(c.up), true, nil);
    var m2 := Coloured(m1, u.node, true);
    Raised(m2, OtherSide(c.up, p), u, nil);
    PaintedAt(m2, c.up.up, Raise(OtherSide(c.up, p), u), false, nil);
  }

  lemma RecolouredInorder<V>(c: Context<V>, t: Tree<V>)
    requires !c.Top? && !c.up.Top? && Sibling(c.up).Branch?
    ensures Inorder(Plug(c.up.up, Recoloured(c, t))) == Inorder(Plug(c, t))
  {
    SameInorder(c.up.up, Recoloured(c, t), Raise(c.up, Raise(c, t)));
  }

  /** Before the final rotation: parent black, grandparent red. */
  function Exchanged<V>(c: Context<V>, t: Tree<V>): Tree<V>
    requires !c.Top? && !c.up.Top?
  {
    PaintedPair(c.up, Raise(c, t), true, false)
  }

  lemma RecolouredTooRed<V>(c: Context<V>, t: Tree<V>)
    requires TooRed(c, t) && !BlackAbove(c) && !Black(Sibling(c.up))
    ensures !c.up.Top? && TooRed(c.up.up, Recoloured(c, t))
  {
    assert BlackRoot(c.up) && NoRedRedAround(c.up) && EvenAround(c.up, BlackHeight(Raise(c, t)));
  }

  /** A black uncle on the far side: after the rotation nothing is left to do. */
  lemma OuterTurned<V>(c: Context<V>, t: Tree<V>)
    requires TooRed(c, t) && !BlackAbove(c) && !c.up.Top? && Black(Sibling(c.up)) && c.InLeft? == c.up.InLeft?
    ensures var g := Exchanged(c, t);
      if c.InLeft? then
        var r := RotatedRight(g); r.left == t && TooRed(IntoLeft(c.up.up, r), t) && r.black
      else
        var r := RotatedLeft(g); r.right == t && TooRed(IntoRight(c.up.up, r), t) && r.black
  {
    assert BlackRoot(c.up) && NoRedRedAround(c.up) && EvenAround(c.up, BlackHeight(Raise(c, t)));
  }

  /** A black uncle on the near side: a rotation makes it the far side. */
  lemma InnerTurned<V>(c: Context<V>, t: Tree<V>)
    requires TooRed(c, t) && !BlackAbove(c) && !c.up.Top? && Black(Sibling(c.up)) && c.InLeft? != c.up.InLeft?
    ensures var p := Raise(c, t);
      if c.InRight? then
        var r := RotatedLeft(p); TooRed(IntoLeft(c.up, r), r.left) && !r.black
      else
        var r := RotatedRight(p); TooRed(IntoRight(c.up, r), r.right) && !r.black
  {
    assert BlackRoot(c.up) && NoRedRedAround(c.up) && EvenAround(c.up, BlackHeight(Raise(c, t)));
  }

  lemma RootBlackened<V>(c: Context<V>, t: Tree<V>)
    requires TooRed(c, t) && BlackAbove(c)
    ensures if c.Top? then RedBlack(Painted(t, true)) else RedBlack(Plug(c, t))
  {
    PlugRedBlack(c, t);
  }

  // ----- erasure -----

  /** Red-black but for the subtree t being one black short; if its root is red, painting that black
      repairs everything, so what is below it does not matter. At the top nothing is missing. */
  predicate TooShort<V>(c: Context<V>, t: Tree<V>) {
    && Even(t) && (t.Branch? ==> NoRedRed(t.left) && NoRedRed(t.right) && (t.black ==> NoRedRed(t)))
    && EvenAround(c, BlackHeight(t) + 1) && NoRedRedAround(c) && BlackRoot(c)
  }

  lemma NotShort<V>(t: Tree<V>)
    requires RedBlack(t)
    ensures TooShort(Top, t)
  {
  }

  /** The child of the sibling that is next to the hole, and the one that is not. */
  function Near<V>(c: Context<V>): Tree<V>
    requires !c.Top? && Sibling(c).Branch?
  {
    if c.InLeft? then Sibling(c).left else Sibling(c).right
  }

  function Far<V>(c: Context<V>): Tree<V>
    requires !c.Top? && Sibling(c).Branch?
  {
    if c.InLeft? then Sibling(c).right else Sibling(c).left
  }

  function WithSibling<V>(c: Context<V>, s: Tree<V>): Context<V>
    requires !c.Top?
  {
    if c.InLeft? then c.(right := s) else c.(left := s)
  }

  lemma HasSibling<V>(c: Context<V>, t: Tree<V>)
    requires TooShort(c, t) && !c.Top?
    ensures Sibling(c).Branch?
    ensures !Black(Sibling(c)) ==> c.black && Near(c).Branch? && Black(Near(c))
  {
  }

  /** The sentinel's parent field tells whether the point of view is the root. */
  lemma RootOf<V>(m: Memory<V>, c: Context<V>, t: Tree<V>, nil: V)
    requires At(m, c, t, nil).Ok?
    ensures nil in m && Root(t, nil) in m && m[Root(t, nil)].black == Black(t)
    ensures m[nil].parent == Root(t, nil) <==> c.Top?
  {
    View(m, c, t, nil);
    Refocused(m, c, t, nil);
    var w := Plug(c, t);
    View(m, Top, w, nil);
    PlugRoot(c, t);
    PlugElems(c, t);
  }

  lemma {:induction false} PlugRoot<V>(c: Context<V>, t: Tree<V>)
    ensures c.Top? || (Plug(c, t).Branch? && Plug(c, t).node in Around(c))
  {
    if !c.Top? { PlugRoot(c.up, Raise(c, t)); }
  }

  /** The sibling and its children, as the pointers read. */
  lemma Children<V>(m: Memory<V>, c: Context<V>, t: Tree<V>, nil: V)
    requires At(m, c, t, nil).Ok? && !c.Top? && Sibling(c).Branch?
    ensures At(m, OtherSide(c, t), Sibling(c), nil).Ok?
    ensures Sibling(c).node in m && c.node in m
    ensures var w := m[Sibling(c).node];
      && w.left in m && m[w.left].black == Black(Sibling(c).left)
      && w.right in m && m[w.right].black == Black(Sibling(c).right)
  {
    var d, s := OtherSide(c, t), Sibling(c);
    Sideways(m, c, t, nil);
    View(m, d, s, nil);
    Raised(m, IntoLeft(d, s), s.left, nil);
    Raised(m, IntoRight(d, s), s.right, nil);
    View(m, IntoLeft(d, s), s.left, nil);
    View(m, IntoRight(d, s), s.right, nil);
  }

  /** A red sibling: the rotation brings a black one. */
  lemma SiblingTurned<V>(c: Context<V>, t: Tree<V>)
    requires TooShort(c, t) && !c.Top? && Sibling(c).Branch? && !Sibling(c).black
    ensures var p := Painted(Raise(c, t), false);
      if c.InLeft? then
        var r := RotatedLeft(p.(right := Painted(p.right, true)));
        TooShort(IntoLeft(IntoLeft(c.up, r), r.left), t) && !r.left.black && r.left.left == t
        && r.left.right.Branch? && r.left.right.black
      else
        var r := RotatedRight(p.(left := Painted(p.left, true)));
        TooShort(IntoRight(IntoRight(c.up, r), r.right), t) && !r.right.black && r.right.right == t
        && r.right.left.Branch? && r.right.left.black
  {
    var w := Sibling(c);
    assert Even(w) && NoRedRed(w) && Even(Near(c)) && NoRedRed(Near(c)) && Even(Far(c)) && NoRedRed(Far(c));
    assert BlackRoot(c.up);
  }

  /** A black sibling without red children turns red, and the hole moves up. */
  lemma SiblingPainted<V>(c: Context<V>, t: Tree<V>)
    requires TooShort(c, t) && !c.Top? && Sibling(c).Branch? && Sibling(c).black
    requires Black(t) && Black(Near(c)) && Black(Far(c))
    ensures TooShort(c.up, Raise(WithSibling(c, Painted(Sibling(c), false)), t))
  {
    var w := Sibling(c);
    assert Even(w) && NoRedRed(w) && Even(Near(c)) && NoRedRed(Near(c)) && Even(Far(c)) && NoRedRed(Far(c));
  }

  /** The sibling's only red child is near: a rotation makes it far. */
  lemma NearTurned<V>(c: Context<V>, t: Tree<V>)
    requires TooShort(c, t) && !c.Top? && Sibling(c).Branch? && Sibling(c).black
    requires !Black(Near(c)) && Black(Far(c))
    ensures var w := Sibling(c);
      if c.InLeft? then
        var r := RotatedRight(Painted(w.(left := Painted(w.left, true)), false));
        TooShort(WithSibling(c, r), t) && r.black && !Black(r.right)
      else
        var r := RotatedLeft(Painted(w.(right := Painted(w.right, true)), false));
        TooShort(WithSibling(c, r), t) && r.black && !Black(r.left)
  {
    var w := Sibling(c);
    assert Even(w) && NoRedRed(w) && Even(Near(c)) && NoRedRed(Near(c)) && Even(Far(c)) && NoRedRed(Far(c));
    var n := Near(c);
    assert Even(n.left) && NoRedRed(n.left) && Even(n.right) && NoRedRed(n.right);
    if c.InLeft? {
      var r := RotatedRight(Painted(w.(left := Painted(w.left, true)), false));
      assert Even(r.right) && NoRedRed(r.right) && BlackHeight(r.left) == BlackHeight(r.right);
      assert Even(r) && NoRedRed(r) && BlackHeight(r) == BlackHeight(w);
    } else {
      var r := RotatedLeft(Painted(w.(right := Painted(w.right, true)), false));
      assert Even(r.left) && NoRedRed(r.left) && BlackHeight(r.left) == BlackHeight(r.right);
      assert Even(r) && NoRedRed(r) && BlackHeight(r) == BlackHeight(w);
    }
  }

  /** The sibling's far child is red: one more rotation and the whole tree is red-black. */
  lemma FarTurned<V>(c: Context<V>, t: Tree<V>)
    requires TooShort(c, t) && !c.Top? && Sibling(c).Branch? && Sibling(c).black && Black(t) && !Black(Far(c))
    ensures var p := Painted(Raise(c, t), true);
      if c.InLeft? then
        RedBlack(Plug(c.up, RotatedLeft(
                          p.(right := p.right.(black := c.black, right := Painted(p.right.right, true))))))
      else
        RedBlack(Plug(c.up, RotatedRight(p.(left := p.left.(black := c.black, left := Painted(p.left.left, true))))))
  {
    var w := Sibling(c);
    assert Even(w) && NoRedRed(w) && Even(Near(c)) && NoRedRed(Near(c)) && Even(Far(c)) && NoRedRed(Far(c));
    var f := Far(c);
    assert Even(f.left) && NoRedRed(f.left) && Even(f.right) && NoRedRed(f.right);
    var p := Painted(Raise(c, t), true);
    if c.InLeft? {
      var r := RotatedLeft(p.(right := p.right.(black := c.black, right := Painted(p.right.right, true))));
      assert Even(r.left) && Even(r.right) && NoRedRed(r.left) && NoRedRed(r.right);
      assert BlackHeight(r.left) == BlackHeight(r.right) == BlackHeight(w);
      PlugRedBlack(c.up, r);
    } else {
      var r := RotatedRight(p.(left := p.left.(black := c.black, left := Painted(p.left.left, true))));
      assert Even(r.left) && Even(r.right) && NoRedRed(r.left) && NoRedRed(r.right);
      assert BlackHeight(r.left) == BlackHeight(r.right) == BlackHeight(w);
      PlugRedBlack(c.up, r);
    }
  }

  lemma Repaired<V>(c: Context<V>, t: Tree<V>)
    requires TooShort(c, t) && (c.Top? || !Black(t))
    ensures RedBlack(Plug(c, if t.Leaf? then t else Painted(t, true)))
  {
    PlugRedBlack(c, if t.Leaf? then t else Painted(t, true));
  }

  // ----- taking a node out -----

  lemma OnlyChildFits<V>(c: Context<V>, t: Tree<V>, s: Tree<V>)
    requires Fitting(c, t) && t.Branch?
    requires (t.left.Leaf? && s == t.right) || (t.right.Leaf? && s == t.left)
    ensures if t.black then TooShort(c, s) else Fitting(c, s)
  {
    assert BlackHeight(s) == 0 && BlackHeight(t) == Weight(t.black);
    assert Even(s) && NoRedRed(s);
  }

  lemma SingleRemoved<V>(c: Context<V>, t: Tree<V>, s: Tree<V>)
    requires RedBlack(Plug(c, t)) && t.Branch?
    requires (t.left.Leaf? && s == t.right) || (t.right.Leaf? && s == t.left)
    ensures if t.black then TooShort(c, s) else RedBlack(Plug(c, s))
  {
    PlugRedBlack(c, t);
    OnlyChildFits(c, t, s);
    PlugRedBlack(c, s);
  }

  /** Every step of the context goes left. */
  predicate LeftSpine<V>(c: Context<V>) {
    c.Top? || (c.InLeft? && LeftSpine(c.up))
  }

  lemma {:induction false} SpineBefore<V>(c: Context<V>)
    requires LeftSpine(c)
    ensures Before(c) == []
  {
    if !c.Top? { SpineBefore(c.up); }
  }

  /** Which node sits at the bottom of the outer context makes no difference to the colours. */
  lemma {:induction false} Relabelled<V>(d: Context<V>, l: Tree<V>, z: V, y: V, black: bool, c: Context<V>, h: nat)
    ensures var a, b := Append(d, InRight(l, z, black, c)), Append(d, InRight(l, y, black, c));
      && EvenAround(a, h) == EvenAround(b, h) && NoRedRedAround(a) == NoRedRedAround(b)
      && BlackRoot(a) == BlackRoot(b) && BlackAbove(a) == BlackAbove(b) && !a.Top? && !b.Top?
  {
    if !d.Top? { Relabelled(d.up, l, z, y, black, c, h + Weight(d.black)); }
  }

  /** The minimum y of the right subtree takes the place and the colour of the root z. */
  lemma MinimumRemoved<V>(c: Context<V>, t: Tree<V>, d: Context<V>, s: Tree<V>)
    requires RedBlack(Plug(c, t)) && t.Branch? && t.right == Plug(d, s) && s.Branch? && s.left.Leaf?
    ensures var c' := Append(d, InRight(t.left, s.node, t.black, c));
      if s.black then TooShort(c', s.right) else RedBlack(Plug(c', s.right))
  {
    var a := Append(d, InRight(t.left, t.node, t.black, c));
    var b := Append(d, InRight(t.left, s.node, t.black, c));
    AppendPlug(d, InRight(t.left, t.node, t.black, c), s);
    SingleRemoved(a, s, s.right);
    if s.black {
      Relabelled(d, t.left, t.node, s.node, t.black, c, BlackHeight(s.right) + 1);
    } else {
      Relabelled(d, t.left, t.node, s.node, t.black, c, BlackHeight(s.right));
      PlugRedBlack(a, s.right);
      PlugRedBlack(b, s.right);
    }
  }

  /** Where the minimum s.node of the right subtree hangs: directly below the root, or further down. */
  lemma MinimumParent<V>(m: Memory<V>, c: Context<V>, t: Tree<V>, d: Context<V>, s: Tree<V>, nil: V)
    requires t.Branch? && s.Branch? && t.right == Plug(d, s) && At(m, Append(d, IntoRight(c, t)), s, nil).Ok?
    ensures s.node in m
            && m[s.node] == Cell(Root(s.left, nil), Root(s.right, nil), if d.Top? then t.node else d.node, s.black)
    ensures !d.Top? ==> d.node != t.node && Plug(d, s.right).Branch?
    ensures s.right.Branch? ==> s.right.node in m && m[s.right.node].parent == s.node
    ensures Root(s.right, nil) in m && (Root(s.right, nil) == nil <==> s.right.Leaf?)
  {
    var o := Append(d, IntoRight(c, t));
    View(m, o, s, nil);
    Raised(m, IntoRight(o, s), s.right, nil);
    View(m, IntoRight(o, s), s.right, nil);
    if !d.Top? {
      Refocus(m, d, IntoRight(c, t), s, nil);
      Raised(m, IntoRight(c, t), t.right, nil);
      PlugElems(d, s);
      PlugRoot(d, s.right);
    }
  }

  lemma Regrouped<V>(b: seq<V>, l: seq<V>, z: seq<V>, r: seq<V>, a: seq<V>)
    ensures b + (l + z + r) + a == b + l + z + (r + a)
    ensures (b + l + z) + r + a == b + l + z + (r + a)
  {
  }

  lemma SingleSplit<V>(c: Context<V>, t: Tree<V>)
    requires t.Branch?
    ensures Inorder(Plug(c, t)) == Before(c) + Inorder(t.left) + [t.node] + (Inorder(t.right) + After(c))
  {
    PlugInorder(c, t);
    Regrouped(Before(c), Inorder(t.left), [t.node], Inorder(t.right), After(c));
  }

  /** Inorder(t) without its root z, when z has at most one child. */
  lemma SingleInorder<V>(c: Context<V>, t: Tree<V>, s: Tree<V>)
    requires t.Branch? && ((t.left.Leaf? && s == t.right) || (t.right.Leaf? && s == t.left))
    ensures Inorder(Plug(c, t)) == Before(c) + Inorder(t.left) + [t.node] + (Inorder(t.right) + After(c))
    ensures Inorder(Plug(c, s)) == Before(c) + Inorder(t.left) + (Inorder(t.right) + After(c))
  {
    PlugInorder(c, t);
    PlugInorder(c, s);
    Regrouped(Before(c), Inorder(t.left), [t.node], Inorder(t.right), After(c));
    Regrouped(Before(c), Inorder(t.left), [], Inorder(t.right), After(c));
    if t.left.Leaf? {
      assert Before(c) + [] == Before(c);
    } else {
      assert [] + After(c) == After(c);
    }
  }

  /** The same when the minimum of the right subtree moves up. */
  lemma MinimumInorder<V>(c: Context<V>, t: Tree<V>, d: Context<V>, s: Tree<V>)
    requires t.Branch? && t.right == Plug(d, s) && s.Branch? && s.left.Leaf? && LeftSpine(d)
    ensures Inorder(Plug(c, t)) == Before(c) + Inorder(t.left) + [t.node] + (Inorder(t.right) + After(c))
    ensures Inorder(Plug(Append(d, InRight(t.left, s.node, t.black, c)), s.right))
         == Before(c) + Inorder(t.left) + (Inorder(t.right) + After(c))
  {
    hide Append, Inorder, Before, After, Plug;
    SingleSplit(c, t);
    MinimumRaised(c, t, d, s);
  }

  lemma MinimumRaised<V>(c: Context<V>, t: Tree<V>, d: Context<V>, s: Tree<V>)
    requires t.Branch? && t.right == Plug(d, s) && s.Branch? && s.left.Leaf? && LeftSpine(d)
    ensures Inorder(Plug(Append(d, InRight(t.left, s.node, t.black, c)), s.right))
         == Before(c) + Inorder(t.left) + (Inorder(t.right) + After(c))
  {
    hide Append, Inorder, Before, After;
    var rest := Plug(d, s.right);
    var t' := Branch(t.left, s.node, t.black, rest);
    SingleSplit(c, t');
    MinimumTail(d, s);
    AppendPlug(d, InRight(t.left, s.node, t.black, c), s.right);
    Inserted(Inorder(Plug(c, t')), Before(c) + Inorder(t.left), [s.node], Inorder(rest), After(c), Inorder(t.right));
  }

  lemma Inserted<V>(x: seq<V>, b: seq<V>, y: seq<V>, r: seq<V>, a: seq<V>, t: seq<V>)
    requires x == b + y + (r + a) && t == y + r
    ensures x == b + (t + a)
  {
  }

  lemma Brackets<V>(b: seq<V>, y: seq<V>, r: seq<V>, a: seq<V>)
    ensures b + y + (r + a) == b + ((y + r) + a)
  {
  }

  lemma MinimumTail<V>(d: Context<V>, s: Tree<V>)
    requires s.Branch? && s.left.Leaf? && LeftSpine(d)
    ensures Inorder(Plug(d, s)) == [s.node] + Inorder(Plug(d, s.right))
  {
    PlugInorder(d, s);
    PlugInorder(d, s.right);
    SpineBefore(d);
    assert Inorder(s) == [s.node] + Inorder(s.right);
    Brackets([], [s.node], Inorder(s.right), After(d));
  }
}
