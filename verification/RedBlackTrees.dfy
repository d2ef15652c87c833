/** The red-black tree of libs/base/rbtree.hpp: nodes with parent links around a sentinel header, changed in place
    and each time matched with the tree they stand for. */
module RedBlackTrees {
  import opened Trees
  import opened Layout
  import opened Fixups
  import opened Orders
  import Sequences

  class Node<T(0)> {
    const value: T
    var parent: Node<T>
    var left: Node<T>
    var right: Node<T>
    var isBlack: bool

    /** The header of an empty tree: black, with every link to itself. */
    constructor Header()
      ensures parent == this && left == this && right == this && isBlack
    {
      parent := this;
      left := this;
      right := this;
      isBlack := true;
    }

    method SetLinks(l: Node<T>, r: Node<T>, p: Node<T>)
      modifies `left, `right, `parent
      ensures left == l && right == r && parent == p
    {
      left, right, parent := l, r, p;
    }

    /** A fresh red node without neighbours. */
    constructor (v: T, nil: Node<T>)
      ensures value == v && parent == nil && left == nil && right == nil && !isBlack
    {
      value := v;
      parent := nil;
      left := nil;
      right := nil;
      isBlack := false;
    }
  }

  /** What the fields of the nodes in S hold now. */
  ghost function Snapshot<T(0)>(S: set<Node<T>>): Memory<Node<T>>
    reads S
  {
    // the guards repeat the domain, so that no value depends on anything outside S
    map n | n in S :: Cell(if n in S then n.left else n, if n in S then n.right else n,
                           if n in S then n.parent else n, n in S && n.isBlack)
  }

  lemma SnapshotWithin<T(0)>(part: set<Node<T>>, S: set<Node<T>>)
    requires part <= S
    ensures Agree(Snapshot(part), Snapshot(S), part) && Agree(Snapshot(S), Snapshot(part), part)
  {
  }

  /** Increasing: every node compares less than every later one. */
  ghost predicate Increasing<T(0)>(s: seq<Node<T>>, less: (T, T) -> bool) {
    forall i, j :: 0 <= i < j < |s| ==> less(s[i].value, s[j].value)
  }

  ghost function Sorted<T(0)>(s: seq<Node<T>>, less: (T, T) -> bool): Check {
    if Increasing(s, less) then Ok else Broken
  }

  ghost predicate AllLess<T(0)>(s: seq<Node<T>>, v: T, less: (T, T) -> bool) {
    forall i :: 0 <= i < |s| ==> less(s[i].value, v)
  }

  ghost predicate AllGreater<T(0)>(s: seq<Node<T>>, v: T, less: (T, T) -> bool) {
    forall i :: 0 <= i < |s| ==> less(v, s[i].value)
  }

  class RedBlackTree<T(0, !new)> {
    const nil: Node<T>
    var size: nat
    var less: (T, T) -> bool
    /** The tree that the nodes form. */
    ghost var tree: Tree<Node<T>>
    /** The nodes of the tree and the header. */
    ghost var nodes: set<Node<T>>

    /** The contents: the nodes in order. */
    ghost function Contents(): seq<Node<T>>
      reads this
    {
      Inorder(tree)
    }

    /** The nodes form a red-black search tree. */
    ghost predicate Searchable()
      reads this, nodes
    {
      && At(Snapshot(nodes), Top, tree, nil).Ok? && RedBlack(tree)
      && StrictWeakOrder(less) && Sorted(Contents(), less).Ok?
    }

    /** Whether t is a red-black search tree of n nodes. */
    static ghost function Consistent(t: Tree<Node<T>>, n: nat, less: (T, T) -> bool): Check {
      if RedBlack(t) && StrictWeakOrder(less) && Sorted(Inorder(t), less).Ok? && n == |Inorder(t)| then Ok else Broken
    }

    /** And the header knows their number and the extremes. */
    ghost predicate Valid()
      reads this, nodes
    {
      && Searchable() && size == |Contents()|
      && nil.left == First(Contents(), nil) && nil.right == Last(Contents(), nil)
    }

    static function First(s: seq<Node<T>>, nil: Node<T>): Node<T> { if s == [] then nil else s[0] }

    static function Last(s: seq<Node<T>>, nil: Node<T>): Node<T> { if s == [] then nil else s[|s| - 1] }

    constructor (less: (T, T) -> bool)
      requires StrictWeakOrder(less)
      ensures Valid() && Contents() == [] && this.less == less && fresh(nil)
    {
      nil := new Node<T>.Header();
      size := 0;
      this.less := less;
      tree := Leaf;
      nodes := {nil};
    }

    lemma NodesAre()
      requires Searchable()
      ensures nodes == Elems(tree) + {nil} && nil !in Elems(tree)
    {
      KeysOf(Snapshot(nodes), tree, nil);
      assert Snapshot(nodes).Keys == nodes;
    }

    // ----- the ends -----

    method Minimum(n0: Node<T>, ghost S: set<Node<T>>, ghost c: Context<Node<T>>, ghost t: Tree<Node<T>>)
      returns (n: Node<T>, ghost d: Context<Node<T>>, ghost s: Tree<Node<T>>)
      requires At(Snapshot(S), c, t, nil).Ok? && t.Branch? && n0 == t.node
      ensures Plug(d, s) == t && LeftSpine(d) && s.Branch? && s.left.Leaf? && n == s.node
      ensures At(Snapshot(S), Append(d, c), s, nil).Ok? && n in S
      ensures n == Inorder(t)[0]
    {
      hide At;
      n, d, s := n0, Top, t;
      View(Snapshot(S), c, t, nil);
      while n.left != nil
        invariant Plug(d, s) == t && LeftSpine(d) && s.Branch? && n == s.node && n in S
        invariant At(Snapshot(S), Append(d, c), s, nil).Ok?
        invariant n.left == Root(s.left, nil) && (n.left == nil <==> s.left.Leaf?)
        decreases s
      {
        Raised(Snapshot(S), IntoLeft(Append(d, c), s), s.left, nil);
        View(Snapshot(S), IntoLeft(Append(d, c), s), s.left, nil);
        n, d, s := n.left, IntoLeft(d, s), s.left;
      }
      PlugInorder(d, s);
      SpineBefore(d);
    }

    method Maximum(n0: Node<T>, ghost S: set<Node<T>>, ghost c: Context<Node<T>>, ghost t: Tree<Node<T>>)
      returns (n: Node<T>)
      requires At(Snapshot(S), c, t, nil).Ok? && t.Branch? && n0 == t.node
      ensures n in S && n == Inorder(t)[|Inorder(t)| - 1]
    {
      hide At;
      n := n0;
      ghost var d, s := c, t;
      View(Snapshot(S), c, t, nil);
      while n.right != nil
        invariant s.Branch? && n == s.node && n in S && At(Snapshot(S), d, s, nil).Ok?
        invariant n.right == Root(s.right, nil) && (n.right == nil <==> s.right.Leaf?)
        invariant Inorder(s) != [] && Inorder(t)[|Inorder(t)| - 1] == Inorder(s)[|Inorder(s)| - 1]
        decreases s
      {
        Raised(Snapshot(S), IntoRight(d, s), s.right, nil);
        View(Snapshot(S), IntoRight(d, s), s.right, nil);
        assert Inorder(s.right) != [];
        n, d, s := n.right, IntoRight(d, s), s.right;
      }
    }

    method UpdateExtremes()
      requires At(Snapshot(nodes), Top, tree, nil).Ok?
      modifies nil`left, nil`right
      ensures At(Snapshot(nodes), Top, tree, nil).Ok?
      ensures nil.left == First(Contents(), nil) && nil.right == Last(Contents(), nil)
    {
      hide At;
      ghost var S := nodes;
      ghost var m := Snapshot(S);
      View(m, Top, tree, nil);
      var r := nil.parent;
      if r == nil {
        nil.left := nil;
        nil.right := nil;
      } else {
        var first, _, _ := Minimum(r, S, Top, tree);
        var last := Maximum(r, S, Top, tree);
        nil.left := first;
        nil.right := last;
      }
      HeaderKept(m, Snapshot(S), tree, nil);
    }

    /** The assignments of a left rotation, field by field. */
    method TurnLeft(x: Node<T>)
      requires nil !in {x, x.right} && x.right != x
      requires x.right.left !in {x, x.right} && x.parent !in {x, x.right}
      requires x.parent == nil || x.parent != x.right.left
      modifies x, x.right, x.parent, {x.right.left} - {nil}
      ensures var y := old(x.right); var b := old(x.right.left); var p := old(x.parent);
        && x.left == old(x.left) && x.right == b && x.parent == y && x.isBlack == old(x.isBlack)
        && y.left == x && y.right == old(y.right) && y.parent == p && y.isBlack == old(y.isBlack)
        && (b != nil ==>
              b.left == old(b.left) && b.right == old(b.right) && b.parent == x && b.isBlack == old(b.isBlack))
        && (p != nil ==> p.left == (if old(p.left) == x then y else old(p.left)))
        && (p != nil ==> p.right == (if old(p.left) == x then old(p.right) else y))
        && (p != nil ==> p.parent == old(p.parent) && p.isBlack == old(p.isBlack))
        && (p == nil ==> nil.parent == y && nil.isBlack == old(nil.isBlack))
    {
      var y := x.right;
      x.right := y.left;
      if y.left != nil {
        y.left.parent := x;
      }
      y.parent := x.parent;
      if x.parent == nil {
        nil.parent := y;
      } else if x == x.parent.left {
        x.parent.left := y;
      } else {
        x.parent.right := y;
      }
      y.left := x;
      x.parent := y;
    }

    method LeftRotate(x: Node<T>, ghost S: set<Node<T>>, ghost c: Context<Node<T>>, ghost t: Tree<Node<T>>)
      requires At(Snapshot(S), c, t, nil).Ok? && t.Branch? && t.node == x && t.right.Branch?
      modifies S
      ensures At(Snapshot(S), c, RotatedLeft(t), nil).Ok?
      ensures Inorder(Plug(c, RotatedLeft(t))) == Inorder(Plug(c, t))
    {
      ghost var m := Snapshot(S);
      LeftNeighbours(m, c, t, nil);
      TurnLeft(x);
      RotatedLeftAt(m, Snapshot(S), c, t, nil);
      RotatedLeftInorder(t);
      SameInorder(c, RotatedLeft(t), t);
    }

    /** The assignments of a right rotation, field by field. */
    method TurnRight(x: Node<T>)
      requires nil !in {x, x.left} && x.left != x
      requires x.left.right !in {x, x.left} && x.parent !in {x, x.left}
      requires x.parent == nil || x.parent != x.left.right
      modifies x, x.left, x.parent, {x.left.right} - {nil}
      ensures var y := old(x.left); var b := old(x.left.right); var p := old(x.parent);
        && x.right == old(x.right) && x.left == b && x.parent == y && x.isBlack == old(x.isBlack)
        && y.right == x && y.left == old(y.left) && y.parent == p && y.isBlack == old(y.isBlack)
        && (b != nil ==>
              b.left == old(b.left) && b.right == old(b.right) && b.parent == x && b.isBlack == old(b.isBlack))
        && (p != nil ==> p.right == (if old(p.right) == x then y else old(p.right)))
        && (p != nil ==> p.left == (if old(p.right) == x then old(p.left) else y))
        && (p != nil ==> p.parent == old(p.parent) && p.isBlack == old(p.isBlack))
        && (p == nil ==> nil.parent == y && nil.isBlack == old(nil.isBlack))
    {
      var y := x.left;
      x.left := y.right;
      if y.right != nil {
        y.right.parent := x;
      }
      y.parent := x.parent;
      if x.parent == nil {
        nil.parent := y;
      } else if x == x.parent.right {
        x.parent.right := y;
      } else {
        x.parent.left := y;
      }
      y.right := x;
      x.parent := y;
    }

    method RightRotate(x: Node<T>, ghost S: set<Node<T>>, ghost c: Context<Node<T>>, ghost t: Tree<Node<T>>)
      requires At(Snapshot(S), c, t, nil).Ok? && t.Branch? && t.node == x && t.left.Branch?
      modifies S
      ensures At(Snapshot(S), c, RotatedRight(t), nil).Ok?
      ensures Inorder(Plug(c, RotatedRight(t))) == Inorder(Plug(c, t))
    {
      ghost var m := Snapshot(S);
      RightNeighbours(m, c, t, nil);
      TurnRight(x);
      RotatedRightAt(m, Snapshot(S), c, t, nil);
      RotatedRightInorder(t);
      SameInorder(c, RotatedRight(t), t);
    }

    method Paint(n: Node<T>, black: bool, ghost S: set<Node<T>>, ghost c: Context<Node<T>>, ghost t: Tree<Node<T>>)
      requires At(Snapshot(S), c, t, nil).Ok? && t.Branch? && t.node == n
      modifies n`isBlack
      ensures At(Snapshot(S), c, Painted(t, black), nil).Ok?
      ensures Inorder(Plug(c, Painted(t, black))) == Inorder(Plug(c, t))
    {
      hide At;
      ghost var m := Snapshot(S);
      View(m, c, t, nil);
      n.isBlack := black;
      assert Snapshot(S) == Coloured(m, n, black);
      PaintedAt(m, c, t, black, nil);
      SameInorder(c, Painted(t, black), t);
    }

    /** Parent and uncle y of z turn black, the grandparent red, and z moves up to the grandparent. */
    method Recolour(z: Node<T>, y: Node<T>) returns (z': Node<T>)
      requires z.parent != y && z.parent != z.parent.parent && z.parent.parent != y
      modifies z.parent`isBlack, y`isBlack, z.parent.parent`isBlack
      ensures z' == z.parent.parent
      ensures z.parent.isBlack && y.isBlack && !z'.isBlack
    {
      z.parent.isBlack := true;
      y.isBlack := true;
      z.parent.parent.isBlack := false;
      z' := z.parent.parent;
    }

    method RecolourUncle(z: Node<T>, y: Node<T>, ghost S: set<Node<T>>, ghost c: Context<Node<T>>,
                         ghost t: Tree<Node<T>>)
      returns (z': Node<T>)
      requires At(Snapshot(S), c, t, nil).Ok? && t.Branch? && t.node == z
      requires !c.Top? && !c.up.Top? && Sibling(c.up).Branch? && y == Sibling(c.up).node
      modifies S
      ensures At(Snapshot(S), c.up.up, Recoloured(c, t), nil).Ok? && z' == c.up.node
      ensures Inorder(Plug(c.up.up, Recoloured(c, t))) == Inorder(Plug(c, t))
    {
      ghost var m := Snapshot(S);
      RecolouredApart(m, c, t, nil);
      assert z in S && c.node in S && c.up.node in S && y in S && z.parent == c.node && c.node.parent == c.up.node;
      z' := Recolour(z, y);
      ColouredThrice(m, Snapshot(S), c.node, y, c.up.node);
      RecolouredAt(m, Snapshot(S), c, t, nil);
      RecolouredInorder(c, t);
    }

    /** A node n and its parent p get new colours. */
    method SetColours(n: Node<T>, black: bool, p: Node<T>, blackAbove: bool)
      requires n != p
      modifies n`isBlack, p`isBlack
      ensures n.isBlack == black && p.isBlack == blackAbove
    {
      n.isBlack := black;
      p.isBlack := blackAbove;
    }

    method PaintPair(n: Node<T>, black: bool, p: Node<T>, blackAbove: bool,
                     ghost S: set<Node<T>>, ghost c: Context<Node<T>>, ghost t: Tree<Node<T>>)
      requires At(Snapshot(S), c, t, nil).Ok? && t.Branch? && t.node == n && !c.Top? && c.node == p
      modifies S`isBlack
      ensures At(Snapshot(S), c.up, PaintedPair(c, t, black, blackAbove), nil).Ok?
      ensures Inorder(Plug(c.up, PaintedPair(c, t, black, blackAbove))) == Inorder(Plug(c, t))
    {
      ghost var m := Snapshot(S);
      Parent(m, c, t, nil);
      SetColours(n, black, p, blackAbove);
      ColouredTwice(m, Snapshot(S), n, p, black, blackAbove);
      PaintedPairAt(m, Snapshot(S), c, t, black, blackAbove, nil);
      SameInorder(c.up, PaintedPair(c, t, black, blackAbove), Raise(c, t));
    }

    /** The parent of z turns black and its grandparent red. */
    method Exchange(z: Node<T>, ghost S: set<Node<T>>, ghost c: Context<Node<T>>, ghost t: Tree<Node<T>>)
      requires At(Snapshot(S), c, t, nil).Ok? && t.Branch? && t.node == z && !c.Top? && !c.up.Top?
      modifies S`isBlack
      ensures At(Snapshot(S), c.up.up, Exchanged(c, t), nil).Ok? && z.parent == c.node && c.node.parent == c.up.node
      ensures Inorder(Plug(c.up.up, Exchanged(c, t))) == Inorder(Plug(c, t))
    {
      ghost var m := Snapshot(S);
      Parent(m, c, t, nil);
      Raised(m, c, t, nil);
      Parent(m, c.up, Raise(c, t), nil);
      assert z in S && c.node in S && z.parent == c.node && c.node.parent == c.up.node;
      PaintPair(z.parent, true, z.parent.parent, false, S, c.up, Raise(c, t));
    }

    method InsertStepLeft(z: Node<T>, ghost S: set<Node<T>>, ghost c: Context<Node<T>>, ghost t: Tree<Node<T>>)
      returns (z': Node<T>, ghost c': Context<Node<T>>, ghost t': Tree<Node<T>>)
      requires At(Snapshot(S), c, t, nil).Ok? && TooRed(c, t) && t.node == z && !BlackAbove(c)
      requires c.up.InLeft?
      modifies S
      ensures At(Snapshot(S), c', t', nil).Ok? && TooRed(c', t') && t'.node == z'
      ensures Inorder(Plug(c', t')) == Inorder(Plug(c, t))
      ensures BlackAbove(c') || Depth(c') < Depth(c)
    {
      hide At, Inorder, Even, NoRedRed, EvenAround, NoRedRedAround;
      ghost var m := Snapshot(S);
      c', t', z' := c, t, z;
      RedParent(c, t);
      Parent(m, c, t, nil);
      Raised(m, c, t, nil);
      Parent(m, c.up, Raise(c, t), nil);
      Sideways(m, c.up, Raise(c, t), nil);
      View(m, OtherSide(c.up, Raise(c, t)), Sibling(c.up), nil);
      View(m, c.up, Raise(c, t), nil);
      assert z in S && c.node in S && c.up.node in S;
      var y := z.parent.parent.right;
      assert y == Root(Sibling(c.up), nil) && y in S;
      if !y.isBlack {
        RecolouredTooRed(c, t);
        z' := RecolourUncle(z, y, S, c, t);
        c', t' := c.up.up, Recoloured(c, t);
      } else {
        View(m, c, t, nil);
        if z == z.parent.right {
          assert c.InRight?;
          InnerTurned(c, t);
          z' := z.parent;
          LeftRotate(z', S, c.up, Raise(c, t));
          ghost var r := RotatedLeft(Raise(c, t));
          c', t' := IntoLeft(c.up, r), r.left;
          Raised(Snapshot(S), c', t', nil);
        }
        Exchange(z', S, c', t');
        OuterTurned(c', t');
        ghost var g := Exchanged(c', t');
        RightRotate(z'.parent.parent, S, c'.up.up, g);
        c' := IntoLeft(c.up.up, RotatedRight(g));
        Raised(Snapshot(S), c', t', nil);
      }
    }

    method InsertStepRight(z: Node<T>, ghost S: set<Node<T>>, ghost c: Context<Node<T>>, ghost t: Tree<Node<T>>)
      returns (z': Node<T>, ghost c': Context<Node<T>>, ghost t': Tree<Node<T>>)
      requires At(Snapshot(S), c, t, nil).Ok? && TooRed(c, t) && t.node == z && !BlackAbove(c)
      requires c.up.InRight?
      modifies S
      ensures At(Snapshot(S), c', t', nil).Ok? && TooRed(c', t') && t'.node == z'
      ensures Inorder(Plug(c', t')) == Inorder(Plug(c, t))
      ensures BlackAbove(c') || Depth(c') < Depth(c)
    {
      hide At, Inorder, Even, NoRedRed, EvenAround, NoRedRedAround;
      ghost var m := Snapshot(S);
      c', t', z' := c, t, z;
      RedParent(c, t);
      Parent(m, c, t, nil);
      Raised(m, c, t, nil);
      Parent(m, c.up, Raise(c, t), nil);
      Sideways(m, c.up, Raise(c, t), nil);
      View(m, OtherSide(c.up, Raise(c, t)), Sibling(c.up), nil);
      View(m, c.up, Raise(c, t), nil);
      assert z in S && c.node in S && c.up.node in S;
      var y := z.parent.parent.left;
      assert y == Root(Sibling(c.up), nil) && y in S;
      if !y.isBlack {
        RecolouredTooRed(c, t);
        z' := RecolourUncle(z, y, S, c, t);
        c', t' := c.up.up, Recoloured(c, t);
      } else {
        View(m, c, t, nil);
        if z == z.parent.left {
          assert c.InLeft?;
          InnerTurned(c, t);
          z' := z.parent;
          RightRotate(z', S, c.up, Raise(c, t));
          ghost var r := RotatedRight(Raise(c, t));
          c', t' := IntoRight(c.up, r), r.right;
          Raised(Snapshot(S), c', t', nil);
        }
        Exchange(z', S, c', t');
        OuterTurned(c', t');
        ghost var g := Exchanged(c', t');
        LeftRotate(z'.parent.parent, S, c'.up.up, g);
        c' := IntoRight(c.up.up, RotatedLeft(g));
        Raised(Snapshot(S), c', t', nil);
      }
    }

    method InsertFixup(z0: Node<T>, ghost S: set<Node<T>>, ghost c0: Context<Node<T>>, ghost t0: Tree<Node<T>>)
      returns (ghost whole: Tree<Node<T>>)
      requires At(Snapshot(S), c0, t0, nil).Ok? && TooRed(c0, t0) && t0.node == z0
      modifies S
      ensures At(Snapshot(S), Top, whole, nil).Ok? && RedBlack(whole)
      ensures Inorder(whole) == Inorder(Plug(c0, t0))
    {
      var z := z0;
      ghost var c, t := c0, t0;
      View(Snapshot(S), c, t, nil);
      while !z.parent.isBlack
        invariant At(Snapshot(S), c, t, nil).Ok? && TooRed(c, t) && t.node == z
        invariant Inorder(Plug(c, t)) == Inorder(Plug(c0, t0))
        invariant z in S && z.parent == Above(c, nil) && z.parent.isBlack == BlackAbove(c)
        decreases !BlackAbove(c), Depth(c)
      {
        RedParent(c, t);
        Raised(Snapshot(S), c, t, nil);
        View(Snapshot(S), c.up, Raise(c, t), nil);
        if z.parent == z.parent.parent.left {
          z, c, t := InsertStepLeft(z, S, c, t);
        } else {
          z, c, t := InsertStepRight(z, S, c, t);
        }
        View(Snapshot(S), c, t, nil);
      }
      RootBlackened(c, t);
      Refocused(Snapshot(S), c, t, nil);
      whole := Plug(c, t);
      View(Snapshot(S), Top, whole, nil);
      BlackenRoot(S, whole);
      whole := Painted(whole, true);
    }

    method BlackenRoot(ghost S: set<Node<T>>, ghost t: Tree<Node<T>>)
      requires At(Snapshot(S), Top, t, nil).Ok? && t.Branch?
      modifies S
      ensures At(Snapshot(S), Top, Painted(t, true), nil).Ok? && Inorder(Painted(t, true)) == Inorder(t)
    {
      View(Snapshot(S), Top, t, nil);
      assert nil in S;
      Paint(nil.parent, true, S, Top, t);
    }

    /** Left side, red sibling w: one rotation, and the sibling is black. */
    method TurnSiblingLeft(p: Node<T>, w: Node<T>, ghost S: set<Node<T>>, ghost c: Context<Node<T>>,
                           ghost t: Tree<Node<T>>)
      returns (w': Node<T>, ghost c': Context<Node<T>>)
      requires At(Snapshot(S), c, t, nil).Ok? && TooShort(c, t) && c.InLeft? && p == c.node
      requires Sibling(c).Branch? && !Sibling(c).black && w == Sibling(c).node
      modifies S
      ensures At(Snapshot(S), c', t, nil).Ok? && TooShort(c', t) && c'.InLeft? && c'.node == p && !c'.black
      ensures Sibling(c').Branch? && Sibling(c').black && w' == Sibling(c').node
      ensures Inorder(Plug(c', t)) == Inorder(Plug(c, t))
    {
      HasSibling(c, t);
      SiblingTurned(c, t);
      Sideways(Snapshot(S), c, t, nil);
      PaintPair(w, true, p, false, S, OtherSide(c, t), Sibling(c));
      ghost var q := PaintedPair(OtherSide(c, t), Sibling(c), true, false);
      LeftRotate(p, S, c.up, q);
      ghost var r := RotatedLeft(q);
      c' := IntoLeft(IntoLeft(c.up, r), r.left);
      Raised(Snapshot(S), IntoLeft(c.up, r), r.left, nil);
      Raised(Snapshot(S), c', t, nil);
      View(Snapshot(S), c', t, nil);
      assert p in S;
      w' := p.right;
    }

    /** Left side, black sibling whose far child is black: one rotation, and the far child is red. */
    method TurnNearLeft(p: Node<T>, w: Node<T>, ghost S: set<Node<T>>, ghost c: Context<Node<T>>,
                        ghost t: Tree<Node<T>>)
      returns (w': Node<T>, ghost c': Context<Node<T>>)
      requires At(Snapshot(S), c, t, nil).Ok? && TooShort(c, t) && c.InLeft? && p == c.node
      requires Sibling(c).Branch? && Sibling(c).black && w == Sibling(c).node && !Black(Near(c)) && Black(Far(c))
      modifies S
      ensures At(Snapshot(S), c', t, nil).Ok? && TooShort(c', t) && c'.InLeft? && c'.node == p
      ensures Sibling(c').Branch? && Sibling(c').black && w' == Sibling(c').node && !Black(Far(c'))
      ensures Inorder(Plug(c', t)) == Inorder(Plug(c, t))
    {
      NearTurned(c, t);
      ghost var d, s := OtherSide(c, t), Sibling(c);
      Sideways(Snapshot(S), c, t, nil);
      View(Snapshot(S), d, s, nil);
      Raised(Snapshot(S), IntoLeft(d, s), s.left, nil);
      assert w in S;
      PaintPair(w.left, true, w, false, S, IntoLeft(d, s), s.left);
      ghost var q := PaintedPair(IntoLeft(d, s), s.left, true, false);
      RightRotate(w, S, d, q);
      c' := WithSibling(c, RotatedRight(q));
      Sideways(Snapshot(S), c', t, nil);
      View(Snapshot(S), c', t, nil);
      assert p in S;
      w' := p.right;
    }

    /** Left side, black sibling whose far child is red: one last rotation. */
    method TurnFarLeft(p: Node<T>, w: Node<T>, ghost S: set<Node<T>>, ghost c: Context<Node<T>>, ghost t: Tree<Node<T>>)
      returns (ghost whole: Tree<Node<T>>)
      requires At(Snapshot(S), c, t, nil).Ok? && TooShort(c, t) && c.InLeft? && p == c.node && Black(t)
      requires Sibling(c).Branch? && Sibling(c).black && w == Sibling(c).node && !Black(Far(c))
      modifies S
      ensures At(Snapshot(S), Top, whole, nil).Ok? && RedBlack(whole)
      ensures Inorder(whole) == Inorder(Plug(c, t))
    {
      FarTurned(c, t);
      Sideways(Snapshot(S), c, t, nil);
      View(Snapshot(S), c, t, nil);
      assert p in S && p.isBlack == c.black;
      PaintPair(w, p.isBlack, p, true, S, OtherSide(c, t), Sibling(c));
      ghost var q := PaintedPair(OtherSide(c, t), Sibling(c), c.black, true);
      ghost var d := IntoRight(c.up, q);
      Raised(Snapshot(S), d, q.right, nil);
      View(Snapshot(S), d, q.right, nil);
      Raised(Snapshot(S), IntoRight(d, q.right), q.right.right, nil);
      assert w in S;
      Paint(w.right, true, S, IntoRight(d, q.right), q.right.right);
      ghost var s := Raise(IntoRight(d, q.right), Painted(q.right.right, true));
      Raised(Snapshot(S), IntoRight(d, q.right), Painted(q.right.right, true), nil);
      Raised(Snapshot(S), d, s, nil);
      LeftRotate(p, S, c.up, Raise(d, s));
      whole := Plug(c.up, RotatedLeft(Raise(d, s)));
      Refocused(Snapshot(S), c.up, RotatedLeft(Raise(d, s)), nil);
    }

    /** Right side, red sibling w: one rotation, and the sibling is black. */
    method TurnSiblingRight(p: Node<T>, w: Node<T>, ghost S: set<Node<T>>, ghost c: Context<Node<T>>,
                            ghost t: Tree<Node<T>>)
      returns (w': Node<T>, ghost c': Context<Node<T>>)
      requires At(Snapshot(S), c, t, nil).Ok? && TooShort(c, t) && c.InRight? && p == c.node
      requires Sibling(c).Branch? && !Sibling(c).black && w == Sibling(c).node
      modifies S
      ensures At(Snapshot(S), c', t, nil).Ok? && TooShort(c', t) && c'.InRight? && c'.node == p && !c'.black
      ensures Sibling(c').Branch? && Sibling(c').black && w' == Sibling(c').node
      ensures Inorder(Plug(c', t)) == Inorder(Plug(c, t))
    {
      HasSibling(c, t);
      SiblingTurned(c, t);
      Sideways(Snapshot(S), c, t, nil);
      PaintPair(w, true, p, false, S, OtherSide(c, t), Sibling(c));
      ghost var q := PaintedPair(OtherSide(c, t), Sibling(c), true, false);
      RightRotate(p, S, c.up, q);
      ghost var r := RotatedRight(q);
      c' := IntoRight(IntoRight(c.up, r), r.right);
      Raised(Snapshot(S), IntoRight(c.up, r), r.right, nil);
      Raised(Snapshot(S), c', t, nil);
      View(Snapshot(S), c', t, nil);
      assert p in S;
      w' := p.left;
    }

    /** Right side, black sibling whose far child is black: one rotation, and the far child is red. */
    method TurnNearRight(p: Node<T>, w: Node<T>, ghost S: set<Node<T>>, ghost c: Context<Node<T>>,
                         ghost t: Tree<Node<T>>)
      returns (w': Node<T>, ghost c': Context<Node<T>>)
      requires At(Snapshot(S), c, t, nil).Ok? && TooShort(c, t) && c.InRight? && p == c.node
      requires Sibling(c).Branch? && Sibling(c).black && w == Sibling(c).node && !Black(Near(c)) && Black(Far(c))
      modifies S
      ensures At(Snapshot(S), c', t, nil).Ok? && TooShort(c', t) && c'.InRight? && c'.node == p
      ensures Sibling(c').Branch? && Sibling(c').black && w' == Sibling(c').node && !Black(Far(c'))
      ensures Inorder(Plug(c', t)) == Inorder(Plug(c, t))
    {
      NearTurned(c, t);
      ghost var d, s := OtherSide(c, t), Sibling(c);
      Sideways(Snapshot(S), c, t, nil);
      View(Snapshot(S), d, s, nil);
      Raised(Snapshot(S), IntoRight(d, s), s.right, nil);
      assert w in S;
      PaintPair(w.right, true, w, false, S, IntoRight(d, s), s.right);
      ghost var q := PaintedPair(IntoRight(d, s), s.right, true, false);
      LeftRotate(w, S, d, q);
      c' := WithSibling(c, RotatedLeft(q));
      Sideways(Snapshot(S), c', t, nil);
      View(Snapshot(S), c', t, nil);
      assert p in S;
      w' := p.left;
    }

    /** Right side, black sibling whose far child is red: one last rotation. */
    method TurnFarRight(p: Node<T>, w: Node<T>, ghost S: set<Node<T>>, ghost c: Context<Node<T>>,
                        ghost t: Tree<Node<T>>)
      returns (ghost whole: Tree<Node<T>>)
      requires At(Snapshot(S), c, t, nil).Ok? && TooShort(c, t) && c.InRight? && p == c.node && Black(t)
      requires Sibling(c).Branch? && Sibling(c).black && w == Sibling(c).node && !Black(Far(c))
      modifies S
      ensures At(Snapshot(S), Top, whole, nil).Ok? && RedBlack(whole)
      ensures Inorder(whole) == Inorder(Plug(c, t))
    {
      FarTurned(c, t);
      Sideways(Snapshot(S), c, t, nil);
      View(Snapshot(S), c, t, nil);
      assert p in S && p.isBlack == c.black;
      PaintPair(w, p.isBlack, p, true, S, OtherSide(c, t), Sibling(c));
      ghost var q := PaintedPair(OtherSide(c, t), Sibling(c), c.black, true);
      ghost var d := IntoLeft(c.up, q);
      Raised(Snapshot(S), d, q.left, nil);
      View(Snapshot(S), d, q.left, nil);
      Raised(Snapshot(S), IntoLeft(d, q.left), q.left.left, nil);
      assert w in S;
      Paint(w.left, true, S, IntoLeft(d, q.left), q.left.left);
      ghost var s := Raise(IntoLeft(d, q.left), Painted(q.left.left, true));
      Raised(Snapshot(S), IntoLeft(d, q.left), Painted(q.left.left, true), nil);
      Raised(Snapshot(S), d, s, nil);
      RightRotate(p, S, c.up, Raise(d, s));
      whole := Plug(c.up, RotatedRight(Raise(d, s)));
      Refocused(Snapshot(S), c.up, RotatedRight(Raise(d, s)), nil);
    }

    /** A black sibling with black children turns red, and the hole moves up to the parent. */
    method PaintSibling(p: Node<T>, w: Node<T>, ghost S: set<Node<T>>, ghost c: Context<Node<T>>,
                        ghost t: Tree<Node<T>>)
      returns (x': Node<T>, xParent': Node<T>, ghost t': Tree<Node<T>>)
      requires At(Snapshot(S), c, t, nil).Ok? && TooShort(c, t) && !c.Top? && p == c.node && Black(t)
      requires Sibling(c).Branch? && Sibling(c).black && w == Sibling(c).node && Black(Near(c)) && Black(Far(c))
      modifies S
      ensures At(Snapshot(S), c.up, t', nil).Ok? && TooShort(c.up, t') && x' == p == Root(t', nil)
      ensures xParent' == Above(c.up, nil) && x' != nil && Black(t') == c.black
      ensures Inorder(Plug(c.up, t')) == Inorder(Plug(c, t))
    {
      ghost var d, s := OtherSide(c, t), Sibling(c);
      Sideways(Snapshot(S), c, t, nil);
      Paint(w, false, S, d, s);
      SiblingPainted(c, t);
      Raised(Snapshot(S), d, Painted(s, false), nil);
      t' := Raise(d, Painted(s, false));
      View(Snapshot(S), c.up, t', nil);
      assert p in S;
      x', xParent' := p, p.parent;
    }

    method EraseStepLeft(x: Node<T>, p: Node<T>, ghost S: set<Node<T>>, ghost c: Context<Node<T>>,
                         ghost t: Tree<Node<T>>)
      returns (x': Node<T>, xParent': Node<T>, ghost c': Context<Node<T>>, ghost t': Tree<Node<T>>)
      requires At(Snapshot(S), c, t, nil).Ok? && TooShort(c, t) && c.InLeft? && p == c.node && Black(t)
      modifies S
      ensures At(Snapshot(S), c', t', nil).Ok? && TooShort(c', t') && x' == Root(t', nil)
      ensures x' == nil && !c'.Top? ==> xParent' == c'.node
      ensures c'.Top? || !Black(t') || Depth(c') < Depth(c)
      ensures Inorder(Plug(c', t')) == Inorder(Plug(c, t))
    {
      hide At, Inorder, TooShort, RedBlack;
      c' := c;
      HasSibling(c, t);
      View(Snapshot(S), c, t, nil);
      Sideways(Snapshot(S), c, t, nil);
      View(Snapshot(S), OtherSide(c, t), Sibling(c), nil);
      assert p in S;
      var w := p.right;
      assert w in S;
      if !w.isBlack {
        w, c' := TurnSiblingLeft(p, w, S, c, t);
      }
      ghost var d, s := OtherSide(c', t), Sibling(c');
      Children(Snapshot(S), c', t, nil);
      assert w in S && p in S && w.left in S && w.right in S;
      if w.left.isBlack && w.right.isBlack {
        x', xParent', t' := PaintSibling(p, w, S, c', t);
        c' := c'.up;
      } else {
        if w.right.isBlack {
          w, c' := TurnNearLeft(p, w, S, c', t);
        }
        t' := TurnFarLeft(p, w, S, c', t);
        c' := Top;
        NotShort(t');
        View(Snapshot(S), Top, t', nil);
        assert nil in S;
        x', xParent' := nil.parent, nil;
      }
    }

    method EraseStepRight(x: Node<T>, p: Node<T>, ghost S: set<Node<T>>, ghost c: Context<Node<T>>,
                          ghost t: Tree<Node<T>>)
      returns (x': Node<T>, xParent': Node<T>, ghost c': Context<Node<T>>, ghost t': Tree<Node<T>>)
      requires At(Snapshot(S), c, t, nil).Ok? && TooShort(c, t) && c.InRight? && p == c.node && Black(t)
      modifies S
      ensures At(Snapshot(S), c', t', nil).Ok? && TooShort(c', t') && x' == Root(t', nil)
      ensures x' == nil && !c'.Top? ==> xParent' == c'.node
      ensures c'.Top? || !Black(t') || Depth(c') < Depth(c)
      ensures Inorder(Plug(c', t')) == Inorder(Plug(c, t))
    {
      hide At, Inorder, TooShort, RedBlack;
      c' := c;
      HasSibling(c, t);
      View(Snapshot(S), c, t, nil);
      Sideways(Snapshot(S), c, t, nil);
      View(Snapshot(S), OtherSide(c, t), Sibling(c), nil);
      assert p in S;
      var w := p.left;
      assert w in S;
      if !w.isBlack {
        w, c' := TurnSiblingRight(p, w, S, c, t);
      }
      ghost var d, s := OtherSide(c', t), Sibling(c');
      Children(Snapshot(S), c', t, nil);
      assert w in S && p in S && w.right in S && w.left in S;
      if w.right.isBlack && w.left.isBlack {
        x', xParent', t' := PaintSibling(p, w, S, c', t);
        c' := c'.up;
      } else {
        if w.left.isBlack {
          w, c' := TurnNearRight(p, w, S, c', t);
        }
        t' := TurnFarRight(p, w, S, c', t);
        c' := Top;
        NotShort(t');
        View(Snapshot(S), Top, t', nil);
        assert nil in S;
        x', xParent' := nil.parent, nil;
      }
    }

    method EraseFixup(x0: Node<T>, xParent0: Node<T>, ghost S: set<Node<T>>, ghost c0: Context<Node<T>>,
                      ghost t0: Tree<Node<T>>)
      returns (ghost whole: Tree<Node<T>>)
      requires At(Snapshot(S), c0, t0, nil).Ok? && TooShort(c0, t0) && x0 == Root(t0, nil)
      requires x0 == nil && !c0.Top? ==> xParent0 == c0.node
      modifies S
      ensures At(Snapshot(S), Top, whole, nil).Ok? && RedBlack(whole)
      ensures Inorder(whole) == Inorder(Plug(c0, t0))
    {
      var x, xParent := x0, xParent0;
      ghost var c, t := c0, t0;
      RootOf(Snapshot(S), c, t, nil);
      while x != nil.parent && x.isBlack
        invariant At(Snapshot(S), c, t, nil).Ok? && TooShort(c, t) && x == Root(t, nil)
        invariant x == nil && !c.Top? ==> xParent == c.node
        invariant nil in S && x in S && x.isBlack == Black(t) && (x == nil.parent <==> c.Top?)
        invariant Inorder(Plug(c, t)) == Inorder(Plug(c0, t0))
        decreases if c.Top? || !Black(t) then 0 else 1 + Depth(c)
      {
        View(Snapshot(S), c, t, nil);
        HasSibling(c, t);
        var p := if x == nil then xParent else x.parent;
        assert p == c.node && p in S;
        if x == p.left {
          x, xParent, c, t := EraseStepLeft(x, p, S, c, t);
        } else {
          x, xParent, c, t := EraseStepRight(x, p, S, c, t);
        }
        RootOf(Snapshot(S), c, t, nil);
      }
      Repaired(c, t);
      if x != nil {
        Paint(x, true, S, c, t);
        t := Painted(t, true);
      }
      Refocused(Snapshot(S), c, t, nil);
      whole := Plug(c, t);
    }

    // ----- erasing -----

    /** Whatever points down to u points to v instead, and v is told so. */
    method Transplant(u: Node<T>, v: Node<T>)
      requires u !in {nil, v} && (u.parent != v || v == nil)
      modifies u.parent, {v} - {nil}
      ensures var p := old(u.parent);
        && (p != nil ==> p.left == (if old(p.left) == u then v else old(p.left)))
        && (p != nil ==> p.right == (if old(p.left) == u then old(p.right) else v))
        && (p != nil ==> p.parent == old(p.parent) && p.isBlack == old(p.isBlack))
        && (p == nil ==> nil.parent == v && nil.isBlack == old(nil.isBlack))
        && (v != nil ==>
              v.parent == p && v.left == old(v.left) && v.right == old(v.right) && v.isBlack == old(v.isBlack))
    {
      if u.parent == nil {
        nil.parent := v;
      } else if u == u.parent.left {
        u.parent.left := v;
      } else {
        u.parent.right := v;
      }
      if v != nil {
        v.parent := u.parent;
      }
    }

    /** Takes u, which has no other child than v, out of the tree. */
    method Unlink(u: Node<T>, v: Node<T>, ghost S: set<Node<T>>, ghost c: Context<Node<T>>, ghost t: Tree<Node<T>>,
                  ghost s: Tree<Node<T>>)
      requires At(Snapshot(S), c, t, nil).Ok? && t.Branch? && u == t.node && v == Root(s, nil)
      requires (t.left.Leaf? && s == t.right) || (t.right.Leaf? && s == t.left)
      modifies S
      ensures At(Snapshot(S - {u}), c, s, nil).Ok?
      ensures u in S && u.left == old(u.left) && u.right == old(u.right) && u.isBlack == old(u.isBlack)
    {
      ghost var m := Snapshot(S);
      UnlinkView(m, c, t, s, nil);
      Transplant(u, v);
      TransplantedAt(m, Snapshot(S - {u}), c, t, s, nil);
    }

    /** y takes over the place, the left subtree and the colour of z. */
    method TakePlace(z: Node<T>, y: Node<T>)
      requires z !in {nil, y} && y != nil && z.left !in {nil, z, y} && z.parent !in {z, y, z.left}
      modifies y, z.left, z.parent
      ensures var p := z.parent; var l := z.left;
        && p == old(z.parent) && l == old(z.left)
        && y.left == l && y.right == old(y.right) && y.parent == p && y.isBlack == old(z.isBlack)
        && l.left == old(z.left.left) && l.right == old(z.left.right) && l.parent == y
        && l.isBlack == old(z.left.isBlack)
        && (p != nil ==> p.left == (if old(z.parent.left) == z then y else old(z.parent.left)))
        && (p != nil ==> p.right == (if old(z.parent.left) == z then old(z.parent.right) else y))
        && (p != nil ==> p.parent == old(z.parent.parent) && p.isBlack == old(z.parent.isBlack))
        && (p == nil ==> nil.parent == y && nil.isBlack == old(nil.isBlack))
    {
      Transplant(z, y);
      y.left := z.left;
      y.left.parent := y;
      y.isBlack := z.isBlack;
    }

    /** z has two children, and y, its right child, has no left child. */
    method HoistChild(z: Node<T>, y: Node<T>, ghost S: set<Node<T>>, ghost c: Context<Node<T>>, ghost t: Tree<Node<T>>)
      requires At(Snapshot(S), c, t, nil).Ok? && t.Branch? && z == t.node && t.left.Branch?
      requires t.right.Branch? && t.right.node == y && t.right.left.Leaf?
      modifies S
      ensures At(Snapshot(S - {z}), c, Branch(t.left, y, t.black, t.right.right), nil).Ok? && z in S
    {
      ghost var m := Snapshot(S);
      TwoChildren(m, c, t, nil);
      assert z in S && y in S && t.left.node in S && nil in S && Above(c, nil) in S;
      TakePlace(z, y);
      HoistedAt(m, Snapshot(S - {z}), c, t, nil);
    }

    /** z has two children, and y has been taken out from further down. */
    method Substitute(z: Node<T>, y: Node<T>, ghost S: set<Node<T>>, ghost c: Context<Node<T>>, ghost t: Tree<Node<T>>)
      requires At(Snapshot(S), c, t, nil).Ok? && t.Branch? && z == t.node && t.left.Branch? && t.right.Branch?
      requires y !in S
      modifies S, y
      ensures At(Snapshot(S - {z} + {y}), c, t.(node := y), nil).Ok? && z in S
    {
      ghost var m := Snapshot(S);
      TwoChildren(m, c, t, nil);
      assert z in S && t.right.node in S && t.left.node in S && nil in S && Above(c, nil) in S;
      AdoptRight(z, y);
      TakePlace(z, y);
      SubstitutedAt(m, Snapshot(S - {z} + {y}), c, t, y, nil);
    }

    method AdoptRight(z: Node<T>, y: Node<T>)
      requires z.right !in {z, y}
      modifies y`right, z.right`parent
      ensures y.right == z.right && y.right.parent == y
    {
      y.right := z.right;
      y.right.parent := y;
    }

    // ----- the public operations -----

    /** Search for val: either its node, or the hole where it belongs. */
    method Descend(val: T, ghost m: Memory<Node<T>>)
      returns (y: Node<T>, x: Node<T>, ghost c: Context<Node<T>>, ghost t: Tree<Node<T>>, ghost turns: nat)
      requires Searchable() && m == Snapshot(nodes)
      ensures At(m, c, t, nil).Ok? && Plug(c, t) == tree && y == Above(c, nil) && x == Root(t, nil)
      ensures AllLess(Before(c), val, less) && AllGreater(After(c), val, less)
      ensures x == nil <==> t.Leaf?
      ensures x == nil ==> Absent(Contents(), val, less).Ok?
      ensures x != nil ==> x in Contents() && Equivalent(less, val, x.value)
      ensures turns <= Height(tree)
    {
      hide At, RedBlack, StrictWeakOrder, Height;
      y, x := nil, nil.parent;
      c, t, turns := Top, tree, 0;
      View(m, c, t, nil);
      while x != nil
        invariant At(m, c, t, nil).Ok? && Plug(c, t) == tree && y == Above(c, nil) && x == Root(t, nil)
        invariant AllLess(Before(c), val, less) && AllGreater(After(c), val, less)
        invariant (x == nil <==> t.Leaf?) && turns + Height(t) <= Height(tree)
        decreases t
      {
        HeightDrops(t);
        turns := turns + 1;
        View(m, c, t, nil);
        PlugInorder(c, t);
        Halves(Contents(), Before(c), Inorder(t.left), t.node, Inorder(t.right), After(c), less);
        if less(val, x.value) {
          Raised(m, IntoLeft(c, t), t.left, nil);
          SpreadGreater(t.node, Inorder(t.right), After(c), val, less);
          y, x, c, t := x, x.left, IntoLeft(c, t), t.left;
        } else if less(x.value, val) {
          Raised(m, IntoRight(c, t), t.right, nil);
          SpreadLess(Before(c), Inorder(t.left), t.node, val, less);
          y, x, c, t := x, x.right, IntoRight(c, t), t.right;
        } else {
          assert Contents()[|Before(c)| + |Inorder(t.left)|] == x;
          return;
        }
        View(m, c, t, nil);
      }
      PlugInorder(c, t);
      assert Contents() == Before(c) + After(c);
      NoneEquivalent(Before(c), After(c), val, less);
    }

    method Find(val: T) returns (n: Node<T>, ghost turns: nat)
      requires Valid()
      ensures n != nil ==> n in Contents() && Equivalent(less, val, n.value)
      ensures n == nil ==> Absent(Contents(), val, less).Ok?
      ensures turns <= Height(tree) && Few(turns, |Contents()|)
    {
      hide RedBlack, Few, Height;
      var y;
      ghost var c, t;
      y, n, c, t, turns := Descend(val, Snapshot(nodes));
      FewTurns(tree, turns);
    }

    method Link(z: Node<T>, y: Node<T>, val: T)
      requires z != y && z != nil
      modifies z`parent, y
      ensures z.parent == y
      ensures y == nil ==> nil.parent == z && nil.isBlack == old(nil.isBlack)
      ensures y != nil ==> y.parent == old(y.parent) && y.isBlack == old(y.isBlack)
      ensures y != nil && less(val, y.value) ==> y.left == z && y.right == old(y.right)
      ensures y != nil && !less(val, y.value) ==> y.right == z && y.left == old(y.left)
    {
      z.parent := y;
      if y == nil {
        nil.parent := z;
      } else if less(val, y.value) {
        y.left := z;
      } else {
        y.right := z;
      }
    }

    /** Hangs the new red node z below y. */
    method Attach(z: Node<T>, y: Node<T>, val: T, ghost S: set<Node<T>>, ghost c: Context<Node<T>>)
      requires At(Snapshot(S), c, Leaf, nil).Ok? && z !in S && y == Above(c, nil)
      requires z.left == nil && z.right == nil && !z.isBlack
      requires !c.Top? ==> (c.InLeft? <==> less(val, c.node.value))
      modifies S, z
      ensures At(Snapshot(S + {z}), c, Branch(Leaf, z, false, Leaf), nil).Ok?
    {
      ghost var m := Snapshot(S);
      View(m, c, Leaf, nil);
      assert y in S && nil in S;
      Link(z, y, val);
      AttachedAt(m, Snapshot(S + {z}), c, z, nil);
    }

    /** A node for val in the empty hole below y, and the tree repaired. */
    method Graft(y: Node<T>, val: T, ghost S: set<Node<T>>, ghost c: Context<Node<T>>)
      returns (z: Node<T>, ghost whole: Tree<Node<T>>)
      requires At(Snapshot(S), c, Leaf, nil).Ok? && RedBlack(Plug(c, Leaf)) && y == Above(c, nil)
      requires !c.Top? ==> (c.InLeft? <==> less(val, c.node.value))
      modifies S
      ensures fresh(z) && z.value == val
      ensures At(Snapshot(S + {z}), Top, whole, nil).Ok? && RedBlack(whole)
      ensures Inorder(whole) == Before(c) + [z] + After(c) && Elems(whole) + {nil} == S + {z}
    {
      hide At;
      z := new Node(val, nil);
      Attach(z, y, val, S, c);
      LeafFits(c, z);
      PlugInorder(c, Branch(Leaf, z, false, Leaf));
      whole := InsertFixup(z, S + {z}, c, Branch(Leaf, z, false, Leaf));
      KeysOf(Snapshot(S + {z}), whole, nil);
    }

    /** The node for val hangs in the tree, which is repaired; only the header's outer links may be out of date. */
    method Hang(y: Node<T>, val: T, ghost c: Context<Node<T>>) returns (n: Node<T>)
      requires Searchable() && At(Snapshot(nodes), c, Leaf, nil).Ok? && Plug(c, Leaf) == tree && y == Above(c, nil)
      requires AllLess(Before(c), val, less) && AllGreater(After(c), val, less)
      modifies this`size, this`tree, this`nodes, nodes
      ensures fresh(n) && n.value == val && nodes == old(nodes) + {n} && size == old(size) + 1
      ensures Searchable() && old(Contents()) == Before(c) + After(c) && Contents() == Before(c) + [n] + After(c)
    {
      hide At, RedBlack, StrictWeakOrder, AllLess, AllGreater, Sorted, Plug, Before, After, Inorder, Elems, Linked;
      PlugInorder(c, Leaf);
      NodeIn(Leaf);
      ghost var b, a, lt := Before(c), After(c), less;
      assert Contents() == b + a;
      ParentSide(c, val, lt);
      n, tree := Graft(y, val, nodes, c);
      nodes := nodes + {n};
      IncreasingInsert(b, n, a, lt);
      size := size + 1;
    }

    method Insert(val: T) returns (n: Node<T>, inserted: bool, ghost at: nat, ghost turns: nat)
      requires Valid()
      modifies this`size, this`tree, this`nodes, nodes
      ensures Valid()
      ensures inserted ==> Absent(old(Contents()), val, less).Ok? && fresh(n) && n.value == val
      ensures inserted ==> at <= |old(Contents())|
                           && Contents() == old(Contents()[..at]) + [n] + old(Contents()[at..])
      ensures !inserted ==> tree == old(tree) && n in old(Contents()) && Equivalent(less, val, n.value)
      ensures nodes == old(nodes) + (if inserted then {n} else {})
      ensures turns <= Height(old(tree)) && Few(turns, |old(Contents())|)
    {
      hide At, RedBlack, StrictWeakOrder, AllLess, AllGreater, Sorted, Absent, Equivalent, Plug, Before, After, Inorder,
           Elems, Linked, Height, Few;
      var y, x;
      ghost var c, t;
      y, x, c, t, turns := Descend(val, Snapshot(nodes));
      FewTurns(tree, turns);
      if x != nil {
        return x, false, 0, turns;
      }
      NodesAre();
      n := Hang(y, val, c);
      inserted, at := true, |Before(c)|;
      UpdateExtremes();
    }

    /** The right child of y is told what it knows already. */
    method TellChild(x: Node<T>, y: Node<T>)
      requires x != nil ==> x.parent == y
      modifies {x} - {nil}
      ensures x.parent == old(x.parent) && x.left == old(x.left) && x.right == old(x.right)
              && x.isBlack == old(x.isBlack)
    {
      if x != nil {
        x.parent := y;
      }
    }

    /** y is the right child of z. */
    method LiftChild(z: Node<T>, y: Node<T>, ghost S: set<Node<T>>, ghost c: Context<Node<T>>, ghost t: Tree<Node<T>>)
      requires At(Snapshot(S), c, t, nil).Ok? && t.Branch? && z == t.node && t.left.Branch?
      requires t.right.Branch? && t.right.node == y && t.right.left.Leaf? && y in S
      requires y.right in S && y.right == Root(t.right.right, nil) && (y.right != nil ==> y.right.parent == y)
      modifies S
      ensures z in S && At(Snapshot(S - {z}), InRight(t.left, y, t.black, c), t.right.right, nil).Ok?
    {
      hide At;
      ghost var m := Snapshot(S);
      TellChild(y.right, y);
      assert Snapshot(S) == m;
      HoistChild(z, y, S, c, t);
      Raised(Snapshot(S - {z}), InRight(t.left, y, t.black, c), t.right.right, nil);
    }

    /** y is the minimum below the right child of z. */
    method LiftDeep(z: Node<T>, y: Node<T>, ghost S: set<Node<T>>, ghost c: Context<Node<T>>, ghost t: Tree<Node<T>>,
                    ghost d: Context<Node<T>>, ghost s: Tree<Node<T>>)
      requires t.Branch? && At(Snapshot(S), Append(d, IntoRight(c, t)), s, nil).Ok? && z == t.node && t.left.Branch?
      requires t.right == Plug(d, s) && s.Branch? && s.left.Leaf? && y == s.node && y in S
               && y.right == Root(s.right, nil)
      requires Plug(d, s.right).Branch?
      modifies S
      ensures z in S && At(Snapshot(S - {z}), Append(d, InRight(t.left, y, t.black, c)), s.right, nil).Ok?
    {
      hide At, Plug, Append;
      ghost var rest := Plug(d, s.right);
      Unlink(y, y.right, S, Append(d, IntoRight(c, t)), s, s.right);
      Refocus(Snapshot(S - {y}), d, IntoRight(c, t), s.right, nil);
      Raised(Snapshot(S - {y}), IntoRight(c, t), rest, nil);
      Substitute(z, y, S - {y}, c, t.(right := rest));
      assert S - {y} - {z} + {y} == S - {z};
      Raised(Snapshot(S - {z}), InRight(t.left, y, t.black, c), rest, nil);
      Refocus(Snapshot(S - {z}), d, InRight(t.left, y, t.black, c), s.right, nil);
    }

    /** z has two children. The minimum y of the right subtree comes to sit in z's place; the hole it
        leaves, with x in it, is where the repair starts. */
    method LiftMinimum(z: Node<T>, ghost S: set<Node<T>>, ghost c: Context<Node<T>>, ghost t: Tree<Node<T>>)
      returns (x: Node<T>, xParent: Node<T>, yBlack: bool, ghost c': Context<Node<T>>, ghost t': Tree<Node<T>>)
      requires At(Snapshot(S), c, t, nil).Ok? && t.Branch? && z == t.node && t.left.Branch? && t.right.Branch?
      requires RedBlack(Plug(c, t))
      modifies S
      ensures z in S && At(Snapshot(S - {z}), c', t', nil).Ok? && x == Root(t', nil)
      ensures x == nil && !c'.Top? ==> xParent == c'.node
      ensures if yBlack then TooShort(c', t') else RedBlack(Plug(c', t'))
      ensures Inorder(Plug(c, t)) == Before(c) + Inorder(t.left) + [z] + (Inorder(t.right) + After(c))
      ensures Inorder(Plug(c', t')) == Before(c) + Inorder(t.left) + (Inorder(t.right) + After(c))
    {
      hide RedBlack, TooShort, At, Inorder, Before, After, LeftSpine;
      View(Snapshot(S), c, t, nil);
      Raised(Snapshot(S), IntoRight(c, t), t.right, nil);
      assert z in S;
      var y;
      ghost var d, s;
      y, d, s := Minimum(z.right, S, IntoRight(c, t), t.right);
      MinimumRemoved(c, t, d, s);
      MinimumInorder(c, t, d, s);
      MinimumParent(Snapshot(S), c, t, d, s, nil);
      x, xParent, yBlack := y.right, y.parent, y.isBlack;
      c', t' := Append(d, InRight(t.left, y, t.black, c)), s.right;
      if y.parent == z {
        xParent := y;
        LiftChild(z, y, S, c, t);
      } else {
        LiftDeep(z, y, S, c, t, d, s);
      }
    }

    /** Takes z out of the pointer structure and repairs the colours. */
    method Excise(z: Node<T>, ghost S: set<Node<T>>, ghost c: Context<Node<T>>, ghost t: Tree<Node<T>>)
      returns (ghost whole: Tree<Node<T>>)
      requires At(Snapshot(S), c, t, nil).Ok? && t.Branch? && z == t.node && RedBlack(Plug(c, t))
      modifies S
      ensures z in S && At(Snapshot(S - {z}), Top, whole, nil).Ok? && RedBlack(whole)
      ensures Inorder(Plug(c, t)) == Before(c) + Inorder(t.left) + [z] + (Inorder(t.right) + After(c))
      ensures Inorder(whole) == Before(c) + Inorder(t.left) + (Inorder(t.right) + After(c))
    {
      hide At, RedBlack, TooShort, Inorder, Before, After, Plug;
      View(Snapshot(S), c, t, nil);
      Raised(Snapshot(S), IntoLeft(c, t), t.left, nil);
      Raised(Snapshot(S), IntoRight(c, t), t.right, nil);
      View(Snapshot(S), IntoLeft(c, t), t.left, nil);
      View(Snapshot(S), IntoRight(c, t), t.right, nil);
      assert z in S;
      var x, xParent, yBlack := nil, nil, z.isBlack;
      ghost var c', t' := c, t;
      if z.left == nil {
        x, xParent := z.right, z.parent;
        t' := t.right;
        SingleRemoved(c, t, t');
        SingleInorder(c, t, t');
        Unlink(z, z.right, S, c, t, t');
      } else if z.right == nil {
        x, xParent := z.left, z.parent;
        t' := t.left;
        SingleRemoved(c, t, t');
        SingleInorder(c, t, t');
        Unlink(z, z.left, S, c, t, t');
      } else {
        x, xParent, yBlack, c', t' := LiftMinimum(z, S, c, t);
      }
      if yBlack {
        whole := EraseFixup(x, xParent, S - {z}, c', t');
      } else {
        whole := Plug(c', t');
        Refocused(Snapshot(S - {z}), c', t', nil);
      }
    }

    /** The node z leaves the tree, which is repaired; only the header's outer links may be out of date. */
    method TakeOut(z: Node<T>) returns (ghost at: nat)
      requires Searchable() && z in Elems(tree) && size > 0
      modifies this`size, this`tree, this`nodes, nodes
      ensures Searchable() && size == old(size) - 1 && nodes == old(nodes) - {z}
      ensures at < |old(Contents())| && old(Contents())[at] == z
      ensures Contents() == old(Contents())[..at] + old(Contents())[at + 1..]
    {
      hide At, RedBlack, Sorted, StrictWeakOrder, Before, After, Plug, Inorder, Linked, Elems;
      NodesAre();
      ghost var c, t := Focus(tree, z);
      Refocused(Snapshot(nodes), c, t, nil);
      ghost var b, a := Before(c) + Inorder(t.left), Inorder(t.right) + After(c);
      ghost var was := Contents();
      tree := Excise(z, nodes, c, t);
      nodes := nodes - {z};
      assert was == b + [z] + a && was[..|b|] == b && was[|b| + 1..] == a && Contents() == b + a;
      SortedWithout(b, z, a, less);
      size, at := size - 1, |b|;
    }

    /** Removes the node z; all others keep their identity and their order. */
    method EraseNode(z: Node<T>) returns (ghost at: nat)
      requires Valid() && z in Elems(tree)
      modifies this`size, this`tree, this`nodes, nodes
      ensures Valid() && at < |old(Contents())| && old(Contents())[at] == z
      ensures Contents() == old(Contents())[..at] + old(Contents())[at + 1..]
      ensures nodes == old(nodes) - {z}
    {
      hide At, RedBlack, Sorted, StrictWeakOrder, Inorder, Elems;
      NodesAre();
      ElemInorder(tree, z);
      at := TakeOut(z);
      UpdateExtremes();
    }

    // ----- walking -----

    /** Climbs from the subtree at n until it comes out of a left branch. */
    method ClimbRight(n0: Node<T>, ghost m: Memory<Node<T>>, ghost c0: Context<Node<T>>, ghost t0: Tree<Node<T>>)
      returns (p: Node<T>)
      requires m == Snapshot(nodes) && At(m, c0, t0, nil).Ok? && t0.Branch? && n0 == t0.node
      ensures p == First(After(c0), nil)
    {
      hide At;
      var n := n0;
      ghost var c, t := c0, t0;
      View(m, c, t, nil);
      p := n.parent;
      while p != nil && n == p.right
        invariant At(m, c, t, nil).Ok? && t.Branch? && n == t.node && p == Above(c, nil) && (p == nil <==> c.Top?)
        invariant After(c) == After(c0)
        decreases c
      {
        View(m, c, t, nil);
        Raised(m, c, t, nil);
        View(m, c.up, Raise(c, t), nil);
        n, p := p, p.parent;
        c, t := c.up, Raise(c, t);
      }
      View(m, c, t, nil);
    }

    /** Climbs from the subtree at n until it comes out of a right branch. */
    method ClimbLeft(n0: Node<T>, ghost m: Memory<Node<T>>, ghost c0: Context<Node<T>>, ghost t0: Tree<Node<T>>)
      returns (p: Node<T>)
      requires m == Snapshot(nodes) && At(m, c0, t0, nil).Ok? && t0.Branch? && n0 == t0.node
      ensures p == Last(Before(c0), nil)
    {
      hide At;
      var n := n0;
      ghost var c, t := c0, t0;
      View(m, c, t, nil);
      p := n.parent;
      while p != nil && n == p.left
        invariant At(m, c, t, nil).Ok? && t.Branch? && n == t.node && p == Above(c, nil) && (p == nil <==> c.Top?)
        invariant Before(c) == Before(c0)
        decreases c
      {
        View(m, c, t, nil);
        Raised(m, c, t, nil);
        View(m, c.up, Raise(c, t), nil);
        n, p := p, p.parent;
        c, t := c.up, Raise(c, t);
      }
      View(m, c, t, nil);
    }

    /** The next node in order: nil after the last one, and after nil. */
    method Successor(n: Node<T>) returns (next: Node<T>, ghost at: nat)
      requires Valid() && n in nodes
      ensures n == nil ==> next == nil && at == |Contents()|
      ensures n != nil ==> at < |Contents()| && Contents()[at] == n && next == First(Contents()[at + 1..], nil)
    {
      hide At, Sorted, StrictWeakOrder;
      NodesAre();
      if n == nil {
        return nil, |Contents()|;
      }
      ghost var c, t := Focus(tree, n);
      ghost var m := Snapshot(nodes);
      Refocused(m, c, t, nil);
      SingleSplit(c, t);
      at := |Before(c) + Inorder(t.left)|;
      assert Contents()[at + 1..] == Inorder(t.right) + After(c);
      View(m, c, t, nil);
      Raised(m, IntoRight(c, t), t.right, nil);
      View(m, IntoRight(c, t), t.right, nil);
      if n.right != nil {
        var first, _, _ := Minimum(n.right, nodes, IntoRight(c, t), t.right);
        next := first;
        assert (Inorder(t.right) + After(c))[0] == Inorder(t.right)[0];
      } else {
        next := ClimbRight(n, m, c, t);
        assert Inorder(t.right) + After(c) == After(c);
      }
    }

    /** The previous node in order: the last one before nil, and nil before the first one. */
    method Predecessor(n: Node<T>) returns (prev: Node<T>, ghost at: nat)
      requires Valid() && n in nodes
      ensures n == nil ==> at == |Contents()|
      ensures n != nil ==> at < |Contents()| && Contents()[at] == n
      ensures prev == Last(Contents()[..at], nil)
    {
      hide At, Sorted, StrictWeakOrder;
      ghost var m := Snapshot(nodes);
      NodesAre();
      View(m, Top, tree, nil);
      if n == nil {
        at := |Contents()|;
        assert Contents()[..at] == Contents();
        prev := nil.parent;
        if prev != nil {
          prev := Maximum(prev, nodes, Top, tree);
        }
        return;
      }
      ghost var c, t := Focus(tree, n);
      Refocused(m, c, t, nil);
      SingleSplit(c, t);
      at := |Before(c) + Inorder(t.left)|;
      assert Contents()[..at] == Before(c) + Inorder(t.left);
      View(m, c, t, nil);
      Raised(m, IntoLeft(c, t), t.left, nil);
      View(m, IntoLeft(c, t), t.left, nil);
      if n.left != nil {
        prev := Maximum(n.left, nodes, IntoLeft(c, t), t.left);
        assert Last(Before(c) + Inorder(t.left), nil) == Last(Inorder(t.left), nil);
      } else {
        prev := ClimbLeft(n, m, c, t);
        assert Before(c) + Inorder(t.left) == Before(c);
      }
    }

    /** From begin to end by ++. */
    method WalkForward() returns (visited: seq<Node<T>>)
      requires Valid()
      ensures visited == Contents()
    {
      hide At, Sorted, StrictWeakOrder;
      NodesAre();
      NoRepeats();
      visited := [];
      var it := nil.left;
      while it != nil
        invariant Valid() && |visited| <= |Contents()| && visited == Contents()[..|visited|]
        invariant it == First(Contents()[|visited|..], nil)
        invariant |visited| < |Contents()| ==> it != nil && it in nodes
        decreases |Contents()| - |visited|
      {
        ghost var k := |visited|;
        assert k < |Contents()| && it == Contents()[k] && it in nodes;
        visited := visited + [it];
        ghost var at;
        it, at := Successor(it);
        assert at == k;
      }
    }

    /** And back from end to begin by --. */
    method WalkBackward() returns (visited: seq<Node<T>>)
      requires Valid()
      ensures visited == Contents()
    {
      hide At, Sorted, StrictWeakOrder;
      NodesAre();
      NoRepeats();
      visited := [];
      var it;
      ghost var at;
      it, at := Predecessor(nil);
      while it != nil
        invariant Valid() && |visited| <= |Contents()| && visited == Contents()[|Contents()| - |visited|..]
        invariant it == Last(Contents()[..|Contents()| - |visited|], nil)
        invariant |visited| < |Contents()| ==> it != nil && it in nodes
        decreases |Contents()| - |visited|
      {
        ghost var k := |Contents()| - |visited| - 1;
        assert 0 <= k && it == Contents()[k] && it in nodes;
        assert Contents()[k..] == [Contents()[k]] + Contents()[k + 1..];
        visited := [it] + visited;
        it, at := Predecessor(it);
        assert at == k;
      }
    }

    /** No node occurs twice, and none is nil. */
    lemma NoRepeats()
      requires Valid()
      ensures Sequences.Distinct(Contents())
      ensures forall i :: 0 <= i < |Contents()| ==> Contents()[i] in nodes && Contents()[i] != nil
    {
      NodesAre();
      InorderElems(tree);
      InorderDistinct(tree);
    }

    /** erase(iterator): returns the node that was next, wherever the rebalancing has put it. */
    method EraseAt(z: Node<T>) returns (next: Node<T>, ghost at: nat)
      requires Valid() && z in nodes
      modifies this`size, this`tree, this`nodes, nodes
      ensures Valid()
      ensures z == nil ==> next == nil && tree == old(tree) && nodes == old(nodes)
      ensures z != nil ==> at < |old(Contents())| && old(Contents())[at] == z
                           && Contents() == old(Contents())[..at] + old(Contents())[at + 1..]
                           && next == First(Contents()[at..], nil)
    {
      hide At, RedBlack, Sorted, StrictWeakOrder, Inorder;
      NodesAre();
      if z == nil {
        return nil, 0;
      }
      ghost var s := Contents();
      NoRepeats();
      ghost var k;
      next, k := Successor(z);
      at := EraseNode(z);
      assert at == k && Contents()[at..] == s[at + 1..];
    }

    /** erase(value). */
    method EraseValue(val: T) returns (count: nat, ghost at: nat)
      requires Valid()
      modifies this`size, this`tree, this`nodes, nodes
      ensures Valid() && count <= 1
      ensures count == 0 ==> tree == old(tree) && Absent(old(Contents()), val, less).Ok?
      ensures count == 1 ==> at < |old(Contents())| && Equivalent(less, val, old(Contents())[at].value)
                             && Contents() == old(Contents())[..at] + old(Contents())[at + 1..]
    {
      hide At, RedBlack, Sorted, StrictWeakOrder, Inorder, Equivalent, Absent;
      var z, _ := Find(val);
      if z == nil {
        return 0, 0;
      }
      NodesAre();
      NoRepeats();
      at := EraseNode(z);
      count := 1;
    }

    /** The first node that is not less than val: everything before it is less, nothing from it on is. */
    method LowerBound(val: T) returns (res: Node<T>, ghost at: nat, ghost turns: nat)
      requires Valid()
      ensures at <= |Contents()| && res == First(Contents()[at..], nil)
      ensures AllLess(Contents()[..at], val, less) && NoneLess(Contents()[at..], val, less)
      ensures turns <= Height(tree) && Few(turns, |Contents()|)
    {
      hide At, RedBlack, StrictWeakOrder, Sorted, AllLess, AllGreater, NoneLess, NoneGreater, Few, Height, Linked;
      ghost var m, c, t := Snapshot(nodes), Top, tree;
      var n := nil.parent;
      res, turns := nil, 0;
      View(m, c, t, nil);
      EmptyFences(Before(c), val, less);
      while n != nil
        invariant At(m, c, t, nil).Ok? && Plug(c, t) == tree && n == Root(t, nil) && (n == nil <==> t.Leaf?)
        invariant AllLess(Before(c), val, less) && NoneLess(After(c), val, less)
        invariant res == First(After(c), nil) && turns + Height(t) <= Height(tree)
        decreases t
      {
        HeightDrops(t);
        turns := turns + 1;
        View(m, c, t, nil);
        PlugInorder(c, t);
        Halves(Contents(), Before(c), Inorder(t.left), t.node, Inorder(t.right), After(c), less);
        if !less(n.value, val) {
          Raised(m, IntoLeft(c, t), t.left, nil);
          SpreadNoneLess(t.node, Inorder(t.right), After(c), val, less);
          n, res, c, t := n.left, n, IntoLeft(c, t), t.left;
        } else {
          Raised(m, IntoRight(c, t), t.right, nil);
          SpreadLess(Before(c), Inorder(t.left), t.node, val, less);
          n, c, t := n.right, IntoRight(c, t), t.right;
        }
        View(m, c, t, nil);
      }
      FewTurns(tree, turns);
      PlugInorder(c, t);
      at := |Before(c)|;
      assert Contents() == Before(c) + After(c) && Contents()[..at] == Before(c) && Contents()[at..] == After(c);
    }

    /** The first node that val is less than. */
    method UpperBound(val: T) returns (res: Node<T>, ghost at: nat, ghost turns: nat)
      requires Valid()
      ensures at <= |Contents()| && res == First(Contents()[at..], nil)
      ensures NoneGreater(Contents()[..at], val, less) && AllGreater(Contents()[at..], val, less)
      ensures turns <= Height(tree) && Few(turns, |Contents()|)
    {
      hide At, RedBlack, StrictWeakOrder, Sorted, AllLess, AllGreater, NoneLess, NoneGreater, Few, Height, Linked;
      ghost var m, c, t := Snapshot(nodes), Top, tree;
      var n := nil.parent;
      res, turns := nil, 0;
      View(m, c, t, nil);
      EmptyFences(Before(c), val, less);
      while n != nil
        invariant At(m, c, t, nil).Ok? && Plug(c, t) == tree && n == Root(t, nil) && (n == nil <==> t.Leaf?)
        invariant NoneGreater(Before(c), val, less) && AllGreater(After(c), val, less)
        invariant res == First(After(c), nil) && turns + Height(t) <= Height(tree)
        decreases t
      {
        HeightDrops(t);
        turns := turns + 1;
        View(m, c, t, nil);
        PlugInorder(c, t);
        Halves(Contents(), Before(c), Inorder(t.left), t.node, Inorder(t.right), After(c), less);
        if less(val, n.value) {
          Raised(m, IntoLeft(c, t), t.left, nil);
          SpreadGreater(t.node, Inorder(t.right), After(c), val, less);
          n, res, c, t := n.left, n, IntoLeft(c, t), t.left;
        } else {
          Raised(m, IntoRight(c, t), t.right, nil);
          SpreadNoneGreater(Before(c), Inorder(t.left), t.node, val, less);
          n, c, t := n.right, IntoRight(c, t), t.right;
        }
        View(m, c, t, nil);
      }
      FewTurns(tree, turns);
      PlugInorder(c, t);
      at := |Before(c)|;
      assert Contents() == Before(c) + After(c) && Contents()[..at] == Before(c) && Contents()[at..] == After(c);
    }

    // ----- swap -----

    /** In the subtree at n, every pointer to one sentinel becomes a pointer to the other. */
    static method RelinkNil(n: Node<T>, oldNil: Node<T>, newNil: Node<T>, ghost S: set<Node<T>>,
                            ghost t: Tree<Node<T>>, ghost p: Node<T>)
      requires Tied(Snapshot(S), t, p, oldNil).Ok? && n == Root(t, oldNil) && S == Elems(t)
      requires oldNil !in S && newNil !in S
      modifies S
      ensures Tied(Snapshot(S), t, if p == oldNil then newNil else p, newNil).Ok?
      decreases t, 1
    {
      if n == oldNil {
        TiedParts(Snapshot(S), t, p, oldNil);
        TiedLeaf(Snapshot(S), t, if p == oldNil then newNil else p, newNil);
        return;
      }
      hide Tied, Elems;
      ghost var L, R := Elems(t.left), Elems(t.right);
      TiedParts(Snapshot(S), t, p, oldNil);
      SnapshotWithin(L, S);
      SnapshotWithin(R, S);
      TiedKept(Snapshot(S), Snapshot(L), t.left, n, oldNil);
      TiedKept(Snapshot(S), Snapshot(R), t.right, n, oldNil);
      var left, right := RelinkChildren(n, oldNil, newNil, L, R, t);
      Join(n, left, right, if n.parent == oldNil then newNil else n.parent, newNil, S, L, R, t);
    }

    static method RelinkChildren(n: Node<T>, oldNil: Node<T>, newNil: Node<T>,
                                 ghost L: set<Node<T>>, ghost R: set<Node<T>>, ghost t: Tree<Node<T>>)
      returns (left: Node<T>, right: Node<T>)
      requires t.Branch? && n == t.node && n != oldNil && n !in L && n !in R && L == Elems(t.left)
               && R == Elems(t.right) && L !! R
      requires Tied(Snapshot(L), t.left, n, oldNil).Ok? && Tied(Snapshot(R), t.right, n, oldNil).Ok?
      requires n.left == Root(t.left, oldNil) && n.right == Root(t.right, oldNil)
      requires oldNil !in L && newNil !in L && oldNil !in R && newNil !in R
      modifies L, R
      ensures Tied(Snapshot(L), t.left, n, newNil).Ok? && Tied(Snapshot(R), t.right, n, newNil).Ok?
      ensures left == Root(t.left, newNil) && right == Root(t.right, newNil)
      ensures n.left == old(n.left) && n.right == old(n.right) && n.parent == old(n.parent)
              && n.isBlack == old(n.isBlack)
      decreases t, 0
    {
      hide Tied, Elems;
      ghost var mR := Snapshot(R);
      left := RelinkBelow(n.left, oldNil, newNil, L, t.left, n);
      assert Snapshot(R) == mR;
      ghost var mL := Snapshot(L);
      right := RelinkBelow(n.right, oldNil, newNil, R, t.right, n);
      assert Snapshot(L) == mL;
    }

    /** n gets its links, and is the root of its two subtrees again. */
    static method Join(n: Node<T>, l: Node<T>, r: Node<T>, p: Node<T>, nil: Node<T>,
                       ghost S: set<Node<T>>, ghost L: set<Node<T>>, ghost R: set<Node<T>>, ghost t: Tree<Node<T>>)
      requires t.Branch? && n == t.node && S == L + {n} + R && n !in L && n !in R && L !! R && n != nil
      requires L == Elems(t.left) && R == Elems(t.right) && n.isBlack == t.black
      requires l == Root(t.left, nil) && r == Root(t.right, nil)
      requires Tied(Snapshot(L), t.left, n, nil).Ok? && Tied(Snapshot(R), t.right, n, nil).Ok?
      modifies n`left, n`right, n`parent
      ensures Tied(Snapshot(S), t, p, nil).Ok?
    {
      hide Tied, Elems;
      ghost var mL, mR := Snapshot(L), Snapshot(R);
      n.SetLinks(l, r, p);
      assert Snapshot(L) == mL && Snapshot(R) == mR;
      SnapshotWithin(L, S);
      SnapshotWithin(R, S);
      TiedJoined(Snapshot(S), mL, mR, t, p, nil);
    }

    /** A child pointer: nil is exchanged, a subtree is relinked. */
    static method RelinkBelow(n: Node<T>, oldNil: Node<T>, newNil: Node<T>, ghost S: set<Node<T>>,
                              ghost t: Tree<Node<T>>, ghost p: Node<T>)
      returns (n': Node<T>)
      requires Tied(Snapshot(S), t, p, oldNil).Ok? && n == Root(t, oldNil) && S == Elems(t) && p != oldNil
      requires oldNil !in S && newNil !in S
      modifies S
      ensures Tied(Snapshot(S), t, p, newNil).Ok? && n' == Root(t, newNil)
      decreases t, 2
    {
      hide Tied;
      TiedParts(Snapshot(S), t, p, oldNil);
      if n == oldNil {
        TiedLeaf(Snapshot(S), t, p, newNil);
        n' := newNil;
      } else {
        RelinkNil(n, oldNil, newNil, S, t, p);
        n' := n;
      }
    }

    /** An empty tree ends in its own header. */
    method AdoptNothing(ghost t: Tree<Node<T>>)
      requires t.Leaf? && nil.isBlack
      modifies nil`parent, nil`left, nil`right
      ensures At(Snapshot(Elems(t) + {nil}), Top, t, nil).Ok? && nil.left == nil && nil.right == nil
    {
      hide At, Tied;
      nil.parent := nil;
      nil.left := nil;
      nil.right := nil;
      ghost var m := Snapshot(Elems(t) + {nil});
      assert m.Keys == Elems(t) + {nil};
      TiedLeaf(m, t, nil, nil);
      TiedAt(m, t, nil);
    }

    /** The tree at r ends in this header from now on. */
    method AdoptRoot(r: Node<T>, oldNil: Node<T>, ghost t: Tree<Node<T>>, ghost S: set<Node<T>>)
      requires Tied(Snapshot(S), t, oldNil, oldNil).Ok? && S == Elems(t) && nil.parent == r == Root(t, oldNil)
      requires nil !in S && oldNil !in S && oldNil != nil && nil.isBlack && t.Branch?
      modifies S
      ensures At(Snapshot(S + {nil}), Top, t, nil).Ok?
    {
      hide At, Tied, Elems;
      RelinkNil(r, oldNil, nil, S, t, oldNil);
      ghost var m := Snapshot(S + {nil});
      assert m.Keys == S + {nil};
      SnapshotWithin(S, S + {nil});
      TiedKept(Snapshot(S), m, t, nil, nil);
      TiedAt(m, t, nil);
    }

    /** The header of this tree has been given the root of t, which still ends in oldNil. */
    method Adopt(ghost t: Tree<Node<T>>, oldNil: Node<T>, ghost S: set<Node<T>>)
      requires Tied(Snapshot(S), t, oldNil, oldNil).Ok? && S == Elems(t) && nil.parent == Root(t, oldNil)
      requires nil !in S && oldNil != nil && nil.isBlack && Consistent(t, size, less).Ok?
      modifies this`tree, this`nodes, nil`parent, nil`left, nil`right, S
      ensures Valid() && tree == t && nodes == S + {nil}
    {
      hide Tied, At, RedBlack, StrictWeakOrder, Sorted, Elems;
      TiedParts(Snapshot(S), t, oldNil, oldNil);
      TiedSentinel(Snapshot(S), t, oldNil, oldNil);
      NodeIn(t);
      var r := nil.parent;
      tree, nodes := t, S + {nil};
      if r == oldNil {
        AdoptNothing(t);
        assert Contents() == [];
      } else if r != nil {
        AdoptRoot(r, oldNil, t, S);
        UpdateExtremes();
      }
    }

    lemma NodeIn(t: Tree<Node<T>>)
      ensures t.Branch? ==> t.node in Elems(t)
      ensures t.Leaf? ==> Inorder(t) == []
    {
    }

    method SwapHeaders(other: RedBlackTree<T>, ghost S: set<Node<T>>, ghost O: set<Node<T>>)
      requires this != other && nil != other.nil
      requires nil !in S && nil !in O && other.nil !in S && other.nil !in O
      modifies this`size, this`less, nil`parent, nil`left, nil`right
      modifies other`size, other`less, other.nil`parent, other.nil`left, other.nil`right
      ensures nil.parent == old(other.nil.parent) && other.nil.parent == old(nil.parent)
      ensures size == old(other.size) && other.size == old(size)
      ensures less == old(other.less) && other.less == old(less)
      ensures Snapshot(S) == old(Snapshot(S)) && Snapshot(O) == old(Snapshot(O))
    {
      nil.parent, other.nil.parent := other.nil.parent, nil.parent;
      nil.left, other.nil.left := other.nil.left, nil.left;
      nil.right, other.nil.right := other.nil.right, nil.right;
      size, other.size := other.size, size;
      less, other.less := other.less, less;
    }

    /** What a valid tree hands over to another header. */
    lemma Portable(S: set<Node<T>>)
      requires Valid() && S == Elems(tree)
      ensures Tied(Snapshot(S), tree, nil, nil).Ok? && nil.parent == Root(tree, nil) && nil.isBlack
      ensures nodes == S + {nil} && nil !in S && Consistent(tree, size, less).Ok?
    {
      NodesAre();
      AtTied(Snapshot(nodes), tree, nil);
      SnapshotWithin(S, nodes);
      TiedKept(Snapshot(nodes), Snapshot(S), tree, nil, nil);
    }

    method Swap(other: RedBlackTree<T>)
      requires Valid() && other.Valid() && (this != other ==> nodes !! other.nodes)
      modifies this`size, this`less, this`tree, this`nodes, nodes
      modifies other`size, other`less, other`tree, other`nodes, other.nodes
      ensures Valid() && other.Valid() && (this != other ==> nodes !! other.nodes)
      ensures tree == old(other.tree) && other.tree == old(tree)
      ensures size == old(other.size) && other.size == old(size)
      ensures less == old(other.less) && other.less == old(less)
    {
      hide Tied, At, RedBlack, StrictWeakOrder, Sorted, Elems, Inorder, Consistent;
      if this == other {
        return;
      }
      ghost var mine, yours, S, O := tree, other.tree, Elems(tree), Elems(other.tree);
      Portable(S);
      other.Portable(O);
      SwapHeaders(other, S, O);
      AdoptBoth(other, mine, yours, S, O);
    }

    /** The headers have been exchanged; each tree still ends in the sentinel it came from. */
    method AdoptBoth(other: RedBlackTree<T>, ghost mine: Tree<Node<T>>, ghost yours: Tree<Node<T>>,
                     ghost S: set<Node<T>>, ghost O: set<Node<T>>)
      requires this != other && nil != other.nil && S == Elems(mine) && O == Elems(yours) && S !! O
      requires nil !in S && nil !in O && other.nil !in S && other.nil !in O
      requires Tied(Snapshot(O), yours, other.nil, other.nil).Ok? && nil.parent == Root(yours, other.nil) && nil.isBlack
      requires Tied(Snapshot(S), mine, nil, nil).Ok? && other.nil.parent == Root(mine, nil) && other.nil.isBlack
      requires Consistent(yours, size, less).Ok? && Consistent(mine, other.size, other.less).Ok?
      modifies this`tree, this`nodes, nil`parent, nil`left, nil`right, O
      modifies other`tree, other`nodes, other.nil`parent, other.nil`left, other.nil`right, S
      ensures Valid() && tree == yours && nodes == O + {nil}
      ensures other.Valid() && other.tree == mine && other.nodes == S + {other.nil}
    {
      hide Tied, At, Elems, Consistent;
      hide Whole;
      ghost var atS := Snapshot(S);
      Adopt(yours, other.nil, O);
      assert Snapshot(S) == atS;
      ToWhole();
      other.Adopt(mine, nil, S);
      FromWhole();
    }

    /** Valid, as one fact. */
    ghost function Whole(): Check
      reads this, nodes
    {
      if Valid() then Ok else Broken
    }

    lemma ToWhole()
      requires Valid()
      ensures Whole().Ok?
    {
    }

    lemma FromWhole()
      requires Whole().Ok?
      ensures Valid()
    {
    }
  }

  /** Around the root n of a subtree, the left half is less and the right half greater. */
  lemma Halves<T(0)>(s: seq<Node<T>>, b: seq<Node<T>>, l: seq<Node<T>>, n: Node<T>, r: seq<Node<T>>, a: seq<Node<T>>,
                     less: (T, T) -> bool)
    requires s == b + (l + [n] + r) + a && Sorted(s, less).Ok?
    ensures AllLess(l, n.value, less) && AllGreater(r, n.value, less)
  {
    forall i | 0 <= i < |l| ensures less(l[i].value, n.value) {
      assert s[|b| + i] == l[i] && s[|b| + |l|] == n;
    }
    forall i | 0 <= i < |r| ensures less(n.value, r[i].value) {
      assert s[|b| + |l| + 1 + i] == r[i] && s[|b| + |l|] == n;
    }
  }

  lemma SpreadGreater<T(0, !new)>(n: Node<T>, r: seq<Node<T>>, a: seq<Node<T>>, v: T, less: (T, T) -> bool)
    requires StrictWeakOrder(less) && less(v, n.value) && AllGreater(r, n.value, less) && AllGreater(a, v, less)
    ensures AllGreater([n] + r + a, v, less)
  {
  }

  lemma SpreadLess<T(0, !new)>(b: seq<Node<T>>, l: seq<Node<T>>, n: Node<T>, v: T, less: (T, T) -> bool)
    requires StrictWeakOrder(less) && less(n.value, v) && AllLess(l, n.value, less) && AllLess(b, v, less)
    ensures AllLess(b + l + [n], v, less)
  {
  }

  /** No node has a value equivalent to v. */
  ghost predicate AllApart<T(0)>(s: seq<Node<T>>, v: T, less: (T, T) -> bool) {
    forall i :: 0 <= i < |s| ==> !Equivalent(less, v, s[i].value)
  }

  ghost function Absent<T(0)>(s: seq<Node<T>>, v: T, less: (T, T) -> bool): Check {
    if AllApart(s, v, less) then Ok else Broken
  }

  lemma NoneEquivalent<T(0, !new)>(b: seq<Node<T>>, a: seq<Node<T>>, v: T, less: (T, T) -> bool)
    requires StrictWeakOrder(less) && AllLess(b, v, less) && AllGreater(a, v, less)
    ensures AllApart(b + a, v, less)
  {
  }

  lemma IncreasingInsert<T(0, !new)>(b: seq<Node<T>>, n: Node<T>, a: seq<Node<T>>, less: (T, T) -> bool)
    requires StrictWeakOrder(less) && AllLess(b, n.value, less) && AllGreater(a, n.value, less)
             && Sorted(b + a, less).Ok?
    ensures Sorted(b + [n] + a, less).Ok?
  {
    var s := b + a;
    assert forall i :: 0 <= i < |b| ==> s[i] == b[i];
    assert forall i :: 0 <= i < |a| ==> s[|b| + i] == a[i];
  }

  lemma ParentSide<T(0, !new)>(c: Context<Node<T>>, v: T, less: (T, T) -> bool)
    requires StrictWeakOrder(less) && AllLess(Before(c), v, less) && AllGreater(After(c), v, less)
    ensures !c.Top? ==> (c.InLeft? <==> less(v, c.node.value))
  {
    if c.InLeft? {
      assert After(c)[0] == c.node;
    } else if c.InRight? {
      assert Before(c)[|Before(c)| - 1] == c.node;
    }
  }

  lemma SortedWithout<T(0)>(b: seq<Node<T>>, n: Node<T>, a: seq<Node<T>>, less: (T, T) -> bool)
    requires Sorted(b + [n] + a, less).Ok?
    ensures Sorted(b + a, less).Ok?
  {
    var s := b + [n] + a;
    assert forall i :: 0 <= i < |b| ==> s[i] == b[i];
    assert forall i :: 0 <= i < |a| ==> s[|b| + 1 + i] == a[i];
  }

  ghost predicate NoneLess<T(0)>(s: seq<Node<T>>, v: T, less: (T, T) -> bool) {
    forall i :: 0 <= i < |s| ==> !less(s[i].value, v)
  }

  ghost predicate NoneGreater<T(0)>(s: seq<Node<T>>, v: T, less: (T, T) -> bool) {
    forall i :: 0 <= i < |s| ==> !less(v, s[i].value)
  }

  lemma SpreadNoneLess<T(0, !new)>(n: Node<T>, r: seq<Node<T>>, a: seq<Node<T>>, v: T, less: (T, T) -> bool)
    requires StrictWeakOrder(less) && !less(n.value, v) && AllGreater(r, n.value, less) && NoneLess(a, v, less)
    ensures NoneLess([n] + r + a, v, less)
  {
  }

  lemma SpreadNoneGreater<T(0, !new)>(b: seq<Node<T>>, l: seq<Node<T>>, n: Node<T>, v: T, less: (T, T) -> bool)
    requires StrictWeakOrder(less) && !less(v, n.value) && AllLess(l, n.value, less) && NoneGreater(b, v, less)
    ensures NoneGreater(b + l + [n], v, less)
  {
  }

  lemma EmptyFences<T(0)>(s: seq<Node<T>>, v: T, less: (T, T) -> bool)
    requires s == []
    ensures AllLess(s, v, less) && AllGreater(s, v, less) && NoneLess(s, v, less) && NoneGreater(s, v, less)
  {
  }

  /** What a lower bound cuts off: it is the least element not less than the probe, and the elements not less are
      exactly those from it on. */
  lemma LowerBoundIsLeast<T(0, !new)>(s: seq<Node<T>>, at: nat, val: T, less: (T, T) -> bool)
    requires Increasing(s, less) && at <= |s| && AllLess(s[..at], val, less) && NoneLess(s[at..], val, less)
    ensures forall i :: 0 <= i < |s| ==> (less(s[i].value, val) <==> i < at)
    ensures at < |s| ==> forall i :: 0 <= i < |s| && !less(s[i].value, val) && i != at ==> less(s[at].value, s[i].value)
  {
    forall i | 0 <= i < |s| ensures less(s[i].value, val) <==> i < at {
      if i < at { assert s[..at][i] == s[i]; } else { assert s[at..][i - at] == s[i]; }
    }
  }

  /** The same of an upper bound: the least element greater than the probe; between the two bounds are the
      elements equivalent to it. */
  lemma UpperBoundIsLeast<T(0, !new)>(s: seq<Node<T>>, low: nat, at: nat, val: T, less: (T, T) -> bool)
    requires StrictWeakOrder(less) && Increasing(s, less) && low <= |s| && at <= |s|
    requires AllLess(s[..low], val, less) && NoneLess(s[low..], val, less)
    requires NoneGreater(s[..at], val, less) && AllGreater(s[at..], val, less)
    ensures low <= at && forall i :: 0 <= i < |s| ==> (less(val, s[i].value) <==> i >= at)
    ensures forall i :: 0 <= i < |s| ==> (Equivalent(less, val, s[i].value) <==> low <= i < at)
    ensures at < |s| ==> forall i :: 0 <= i < |s| && less(val, s[i].value) && i != at ==> less(s[at].value, s[i].value)
  {
    LowerBoundIsLeast(s, low, val, less);
    assert forall x, y :: less(x, y) ==> !less(y, x);
    forall i | 0 <= i < |s| ensures less(val, s[i].value) <==> i >= at {
      if i < at { assert s[..at][i] == s[i]; } else { assert s[at..][i - at] == s[i]; }
    }
    if low > 0 { assert less(s[low - 1].value, val); }
  }
}
