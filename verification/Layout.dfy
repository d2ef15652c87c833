/** How a tree lies in memory: for every node the fields it holds. `nil` is the sentinel, which is
    also the header of the tree: its parent field is the root.

    V is the type of pointers. Everything here is about values; the methods that write the fields
    are in RedBlackTrees. */
module Layout {
  import opened Trees
  import opened Orders

  /** What the fields of a node hold. */
  datatype Cell<V> = Cell(left: V, right: V, parent: V, black: bool)

  type Memory<V(==)> = map<V, Cell<V>>

  /** The pointer to a subtree. */
  function Root<V>(t: Tree<V>, nil: V): V {
    if t.Leaf? then nil else t.node
  }

  /** The pointer to what is above a hole. */
  function Above<V>(c: Context<V>, nil: V): V {
    if c.Top? then nil else c.node
  }

  /** The subtree on the other side of the hole's parent. */
  function Sibling<V>(c: Context<V>): Tree<V>
    requires !c.Top?
  {
    if c.InLeft? then c.right else c.left
  }

  /** The nodes of t carry its links and colours, with `parent` above its root. */
  ghost predicate Linked<V>(m: Memory<V>, t: Tree<V>, parent: V, nil: V) {
    t.Branch? ==>
      && t.node in m && m[t.node] == Cell(Root(t.left, nil), Root(t.right, nil), parent, t.black)
      && Linked(m, t.left, t.node, nil) && Linked(m, t.right, t.node, nil)
  }

  /** The node above a hole, with `child` in the hole. */
  ghost predicate Holds<V>(m: Memory<V>, c: Context<V>, child: V, nil: V) {
    && Above(c, nil) in m
    && match c
       case Top => m[nil].parent == child
       case InLeft(up, n, b, r) => m[n] == Cell(child, Root(r, nil), Above(up, nil), b)
       case InRight(l, n, b, up) => m[n] == Cell(Root(l, nil), child, Above(up, nil), b)
  }

  /** The nodes around a hole carry the context's links and colours, with `child` in the hole. */
  ghost predicate LinkedAround<V>(m: Memory<V>, c: Context<V>, child: V, nil: V) {
    && Holds(m, c, child, nil)
    && (!c.Top? ==> Linked(m, Sibling(c), c.node, nil) && LinkedAround(m, c.up, c.node, nil))
  }

  /** No node of Plug(c, t), nor the sentinel, is used twice. */
  ghost predicate Apart<V>(c: Context<V>, t: Tree<V>, nil: V) {
    && Distinct(t) && DistinctAround(c) && Elems(t) !! Around(c)
    && nil !in Elems(t) && nil !in Around(c)
  }

  /** Whether the memory holds exactly Plug(c, t) and the black sentinel. */
  ghost function At<V>(m: Memory<V>, c: Context<V>, t: Tree<V>, nil: V): Check {
    if && Apart(c, t, nil) && m.Keys == Elems(t) + Around(c) + {nil} && m[nil].black
       && Linked(m, t, Above(c, nil), nil) && LinkedAround(m, c, Root(t, nil), nil)
    then Ok else Broken
  }

  // ----- moving the point of view: the memory described stays the same -----

  /** One step up: the subtree in the hole together with the parent of the hole. */
  function Raise<V>(c: Context<V>, t: Tree<V>): Tree<V>
    requires !c.Top?
  {
    if c.InLeft? then Branch(t, c.node, c.black, c.right) else Branch(c.left, c.node, c.black, t)
  }

  lemma Raised<V>(m: Memory<V>, c: Context<V>, t: Tree<V>, nil: V)
    requires !c.Top?
    ensures At(m, c, t, nil).Ok? <==> At(m, c.up, Raise(c, t), nil).Ok?
  {
  }

  lemma {:induction false} Refocus<V>(m: Memory<V>, inner: Context<V>, outer: Context<V>, t: Tree<V>, nil: V)
    ensures At(m, Append(inner, outer), t, nil).Ok? <==> At(m, outer, Plug(inner, t), nil).Ok?
  {
    match inner
    case Top =>
    case InLeft(up, n, b, r) =>
      Raised(m, InLeft(Append(up, outer), n, b, r), t, nil);
      Refocus(m, up, outer, Branch(t, n, b, r), nil);
    case InRight(l, n, b, up) =>
      Raised(m, InRight(l, n, b, Append(up, outer)), t, nil);
      Refocus(m, up, outer, Branch(l, n, b, t), nil);
  }

  lemma KeysOf<V>(m: Memory<V>, t: Tree<V>, nil: V)
    requires At(m, Top, t, nil).Ok?
    ensures m.Keys == Elems(t) + {nil} && nil !in Elems(t)
  {
  }

  lemma {:induction false} AppendTop<V>(c: Context<V>)
    ensures Append(c, Top) == c
  {
    match c
    case Top =>
    case InLeft(up, n, b, r) => AppendTop(up);
    case InRight(l, n, b, up) => AppendTop(up);
  }

  lemma Refocused<V>(m: Memory<V>, c: Context<V>, t: Tree<V>, nil: V)
    ensures At(m, c, t, nil).Ok? <==> At(m, Top, Plug(c, t), nil).Ok?
  {
    AppendTop(c);
    Refocus(m, c, Top, t, nil);
  }

  // ----- what a change of memory leaves alone -----

  /** The memories agree on S. */
  ghost predicate Agree<V>(m: Memory<V>, m': Memory<V>, S: set<V>) {
    forall n :: n in S && n in m ==> n in m' && m'[n] == m[n]
  }

  lemma {:induction false} LinkedKept<V>(m: Memory<V>, m': Memory<V>, t: Tree<V>, parent: V, nil: V)
    requires Linked(m, t, parent, nil) && Agree(m, m', Elems(t))
    ensures Linked(m', t, parent, nil)
  {
    if t.Branch? {
      LinkedKept(m, m', t.left, t.node, nil);
      LinkedKept(m, m', t.right, t.node, nil);
    }
  }

  lemma {:induction false} AroundKept<V>(m: Memory<V>, m': Memory<V>, c: Context<V>, child: V, nil: V)
    requires LinkedAround(m, c, child, nil) && Agree(m, m', Around(c) + {nil})
    ensures LinkedAround(m', c, child, nil)
  {
    if !c.Top? {
      LinkedKept(m, m', Sibling(c), c.node, nil);
      AroundKept(m, m', c.up, c.node, nil);
    }
  }

  /** Just the root of t, if there is one. */
  function TopNode<V>(t: Tree<V>): set<V> { if t.Branch? then {t.node} else {} }

  /** The root of t, if there is one, is told of a new parent q. */
  ghost predicate Told<V>(m: Memory<V>, m': Memory<V>, t: Tree<V>, q: V) {
    t.Branch? ==> t.node in m && t.node in m' && m'[t.node] == m[t.node].(parent := q)
  }

  lemma Reparented<V>(m: Memory<V>, m': Memory<V>, t: Tree<V>, p: V, q: V, nil: V)
    requires Linked(m, t, p, nil) && Distinct(t)
    requires Told(m, m', t, q) && Agree(m, m', Elems(t) - TopNode(t))
    ensures Linked(m', t, q, nil)
  {
    if t.Branch? {
      LinkedKept(m, m', t.left, t.node, nil);
      LinkedKept(m, m', t.right, t.node, nil);
    }
  }

  /** The pointer into the hole goes from u to v. */
  lemma Redirected<V>(m: Memory<V>, m': Memory<V>, c: Context<V>, u: V, v: V, nil: V)
    requires LinkedAround(m, c, u, nil) && DistinctAround(c) && nil !in Around(c)
    requires Holds(m', c, v, nil) && Agree(m, m', Around(c) + {nil} - {Above(c, nil)})
    ensures LinkedAround(m', c, v, nil)
  {
    if !c.Top? {
      LinkedKept(m, m', Sibling(c), c.node, nil);
      AroundKept(m, m', c.up, c.node, nil);
    }
  }

  /** The header's own left and right fields are no part of the tree. */
  lemma HeaderKept<V>(m: Memory<V>, m': Memory<V>, t: Tree<V>, nil: V)
    requires At(m, Top, t, nil).Ok? && m'.Keys == m.Keys && Agree(m, m', m.Keys - {nil})
    requires m'[nil].parent == m[nil].parent && m'[nil].black == m[nil].black
    ensures At(m', Top, t, nil).Ok?
  {
    LinkedKept(m, m', t, nil, nil);
  }

  // ----- rotations -----

  function RotatedLeft<V>(t: Tree<V>): Tree<V>
    requires t.Branch? && t.right.Branch?
  {
    Branch(Branch(t.left, t.node, t.black, t.right.left), t.right.node, t.right.black, t.right.right)
  }

  lemma RotatedLeftApart<V>(c: Context<V>, t: Tree<V>, nil: V)
    requires t.Branch? && t.right.Branch?
    requires Apart(c, t, nil)
    ensures Elems(RotatedLeft(t)) == Elems(t) && Apart(c, RotatedLeft(t), nil)
  {
    assert Distinct(t.right);
    assert Distinct(RotatedLeft(t).left);
  }

  /** The four pointers involved are four different ones, unless they are nil. */
  lemma LeftNeighbours<V>(m: Memory<V>, c: Context<V>, t: Tree<V>, nil: V)
    requires At(m, c, t, nil).Ok? && t.Branch? && t.right.Branch?
    ensures t.node in m && m[t.node] == Cell(Root(t.left, nil), t.right.node, Above(c, nil), t.black)
    ensures t.right.node in m
            && m[t.right.node] == Cell(Root(t.right.left, nil), Root(t.right.right, nil), t.node, t.right.black)
    ensures nil !in {t.node, t.right.node} && t.node != t.right.node
    ensures t.right.left.Branch? ==> t.right.left.node in m && t.right.left.node !in {nil, t.node, t.right.node}
    ensures Holds(m, c, t.node, nil)
    ensures !c.Top? ==> c.node !in {nil, t.node, t.right.node, Root(t.right.left, nil)}
    ensures c.InRight? ==> Root(c.left, nil) != t.node
  {
    assert Distinct(t.right) && Linked(m, t.right, t.node, nil) && Linked(m, t.right.left, t.right.node, nil);
    assert TopNode(t.right.left) <= Elems(t.right.left) <= Elems(t.right) <= Elems(t);
  }

  lemma RotatedLeftLinked<V>(m: Memory<V>, m': Memory<V>, t: Tree<V>, p: V, q: V, nil: V)
    requires Linked(m, t, p, nil) && Distinct(t) && t.Branch? && t.right.Branch? && Elems(t) <= m'.Keys
    requires m'[t.node] == Cell(Root(t.left, nil), Root(t.right.left, nil), t.right.node, t.black)
    requires m'[t.right.node] == Cell(t.node, Root(t.right.right, nil), q, t.right.black)
    requires Told(m, m', t.right.left, t.node)
    requires Agree(m, m', Elems(t) - {t.node, t.right.node} - TopNode(t.right.left))
    ensures Linked(m', RotatedLeft(t), q, nil)
  {
    var s := t.right;
    assert Linked(m, s, t.node, nil) && Distinct(s);
    LinkedKept(m, m', t.left, t.node, nil);
    LinkedKept(m, m', s.right, s.node, nil);
    Reparented(m, m', s.left, s.node, t.node, nil);
    assert Linked(m', RotatedLeft(t).left, s.node, nil);
  }

  /** The subtree in the hole is exchanged for t'. */
  lemma Replaced<V>(m: Memory<V>, m': Memory<V>, c: Context<V>, t: Tree<V>, t': Tree<V>, nil: V)
    requires At(m, c, t, nil).Ok? && Apart(c, t', nil) && m'.Keys == Elems(t') + Around(c) + {nil}
    requires Linked(m', t', Above(c, nil), nil) && Holds(m', c, Root(t', nil), nil) && m'[nil].black
    requires Agree(m, m', Around(c) + {nil} - {Above(c, nil)})
    ensures At(m', c, t', nil).Ok?
  {
    Redirected(m, m', c, Root(t, nil), Root(t', nil), nil);
  }

  lemma RotatedLeftAt<V>(m: Memory<V>, m': Memory<V>, c: Context<V>, t: Tree<V>, nil: V)
    requires At(m, c, t, nil).Ok? && t.Branch? && t.right.Branch? && m'.Keys == m.Keys
    requires m'[t.node] == Cell(Root(t.left, nil), Root(t.right.left, nil), t.right.node, t.black)
    requires m'[t.right.node] == Cell(t.node, Root(t.right.right, nil), Above(c, nil), t.right.black)
    requires Told(m, m', t.right.left, t.node)
    requires Holds(m', c, t.right.node, nil) && m'[nil].black
    requires Agree(m, m', m.Keys - {t.node, t.right.node, Above(c, nil)} - TopNode(t.right.left))
    ensures At(m', c, RotatedLeft(t), nil).Ok?
  {
    RotatedLeftApart(c, t, nil);
    assert TopNode(t.right.left) <= Elems(t.right.left) <= Elems(t.right) <= Elems(t);
    RotatedLeftLinked(m, m', t, Above(c, nil), Above(c, nil), nil);
    Replaced(m, m', c, t, RotatedLeft(t), nil);
  }

  function RotatedRight<V>(t: Tree<V>): Tree<V>
    requires t.Branch? && t.left.Branch?
  {
    Branch(t.left.left, t.left.node, t.left.black, Branch(t.left.right, t.node, t.black, t.right))
  }

  lemma RotatedRightApart<V>(c: Context<V>, t: Tree<V>, nil: V)
    requires t.Branch? && t.left.Branch?
    requires Apart(c, t, nil)
    ensures Elems(RotatedRight(t)) == Elems(t) && Apart(c, RotatedRight(t), nil)
  {
    assert Distinct(t.left);
    assert Distinct(RotatedRight(t).right);
  }

  lemma RightNeighbours<V>(m: Memory<V>, c: Context<V>, t: Tree<V>, nil: V)
    requires At(m, c, t, nil).Ok? && t.Branch? && t.left.Branch?
    ensures t.node in m && m[t.node] == Cell(t.left.node, Root(t.right, nil), Above(c, nil), t.black)
    ensures t.left.node in m
            && m[t.left.node] == Cell(Root(t.left.left, nil), Root(t.left.right, nil), t.node, t.left.black)
    ensures nil !in {t.node, t.left.node} && t.node != t.left.node
    ensures t.left.right.Branch? ==> t.left.right.node in m && t.left.right.node !in {nil, t.node, t.left.node}
    ensures Holds(m, c, t.node, nil)
    ensures !c.Top? ==> c.node !in {nil, t.node, t.left.node, Root(t.left.right, nil)}
    ensures c.InLeft? ==> Root(c.right, nil) != t.node
  {
    assert Distinct(t.left) && Linked(m, t.left, t.node, nil) && Linked(m, t.left.right, t.left.node, nil);
    assert TopNode(t.left.right) <= Elems(t.left.right) <= Elems(t.left) <= Elems(t);
  }

  lemma RotatedRightLinked<V>(m: Memory<V>, m': Memory<V>, t: Tree<V>, p: V, q: V, nil: V)
    requires Linked(m, t, p, nil) && Distinct(t) && t.Branch? && t.left.Branch? && Elems(t) <= m'.Keys
    requires m'[t.node] == Cell(Root(t.left.right, nil), Root(t.right, nil), t.left.node, t.black)
    requires m'[t.left.node] == Cell(Root(t.left.left, nil), t.node, q, t.left.black)
    requires Told(m, m', t.left.right, t.node)
    requires Agree(m, m', Elems(t) - {t.node, t.left.node} - TopNode(t.left.right))
    ensures Linked(m', RotatedRight(t), q, nil)
  {
    var s := t.left;
    assert Linked(m, s, t.node, nil) && Distinct(s);
    LinkedKept(m, m', t.right, t.node, nil);
    LinkedKept(m, m', s.left, s.node, nil);
    Reparented(m, m', s.right, s.node, t.node, nil);
    assert Linked(m', RotatedRight(t).right, s.node, nil);
  }

  lemma RotatedRightAt<V>(m: Memory<V>, m': Memory<V>, c: Context<V>, t: Tree<V>, nil: V)
    requires At(m, c, t, nil).Ok? && t.Branch? && t.left.Branch? && m'.Keys == m.Keys
    requires m'[t.node] == Cell(Root(t.left.right, nil), Root(t.right, nil), t.left.node, t.black)
    requires m'[t.left.node] == Cell(Root(t.left.left, nil), t.node, Above(c, nil), t.left.black)
    requires Told(m, m', t.left.right, t.node)
    requires Holds(m', c, t.left.node, nil) && m'[nil].black
    requires Agree(m, m', m.Keys - {t.node, t.left.node, Above(c, nil)} - TopNode(t.left.right))
    ensures At(m', c, RotatedRight(t), nil).Ok?
  {
    RotatedRightApart(c, t, nil);
    assert TopNode(t.left.right) <= Elems(t.left.right) <= Elems(t.left) <= Elems(t);
    RotatedRightLinked(m, m', t, Above(c, nil), Above(c, nil), nil);
    Replaced(m, m', c, t, RotatedRight(t), nil);
  }

  // ----- single changes -----

  function Painted<V>(t: Tree<V>, black: bool): Tree<V>
    requires t.Branch?
  {
    t.(black := black)
  }

  function Coloured<V>(m: Memory<V>, n: V, black: bool): Memory<V>
    requires n in m
  {
    m[n := m[n].(black := black)]
  }

  lemma PaintedAt<V>(m: Memory<V>, c: Context<V>, t: Tree<V>, black: bool, nil: V)
    requires At(m, c, t, nil).Ok? && t.Branch?
    ensures t.node in m && At(Coloured(m, t.node, black), c, Painted(t, black), nil).Ok?
  {
    var m' := Coloured(m, t.node, black);
    LinkedKept(m, m', t.left, t.node, nil);
    LinkedKept(m, m', t.right, t.node, nil);
    Replaced(m, m', c, t, Painted(t, black), nil);
  }

  /** A new red leaf z in an empty hole. */
  lemma AttachedAt<V>(m: Memory<V>, m': Memory<V>, c: Context<V>, z: V, nil: V)
    requires At(m, c, Leaf, nil).Ok? && z !in m && m'.Keys == m.Keys + {z}
    requires m'[z] == Cell(nil, nil, Above(c, nil), false)
    requires Holds(m', c, z, nil) && m'[nil].black && Agree(m, m', m.Keys - {Above(c, nil)})
    ensures At(m', c, Branch(Leaf, z, false, Leaf), nil).Ok?
  {
    Replaced(m, m', c, Leaf, Branch(Leaf, z, false, Leaf), nil);
  }

  lemma UnlinkView<V>(m: Memory<V>, c: Context<V>, t: Tree<V>, s: Tree<V>, nil: V)
    requires At(m, c, t, nil).Ok? && t.Branch?
    requires (t.left.Leaf? && s == t.right) || (t.right.Leaf? && s == t.left)
    ensures t.node in m && m[t.node] == Cell(Root(t.left, nil), Root(t.right, nil), Above(c, nil), t.black)
    ensures nil in m && t.node !in {nil, Above(c, nil), Root(s, nil)} && Holds(m, c, t.node, nil)
    ensures s.Branch? ==> s.node in m && s.node !in {nil, t.node, Above(c, nil)}
    ensures c.Top? <==> Above(c, nil) == nil
    ensures c.InRight? ==> Root(c.left, nil) != t.node
  {
    assert TopNode(s) <= Elems(s) <= Elems(t);
    assert s.Branch? ==> Linked(m, s, t.node, nil);
  }

  /** The node of t goes, and its only child s takes its place. */
  lemma TransplantedAt<V>(m: Memory<V>, m': Memory<V>, c: Context<V>, t: Tree<V>, s: Tree<V>, nil: V)
    requires At(m, c, t, nil).Ok? && t.Branch? && ((t.left.Leaf? && s == t.right) || (t.right.Leaf? && s == t.left))
    requires m'.Keys == m.Keys - {t.node} && Told(m, m', s, Above(c, nil))
    requires Holds(m', c, Root(s, nil), nil) && m'[nil].black
    requires Agree(m - {t.node}, m', m.Keys - {Above(c, nil)} - TopNode(s))
    ensures At(m', c, s, nil).Ok?
  {
    assert TopNode(s) <= Elems(s) <= Elems(t);
    Reparented(m, m', s, t.node, Above(c, nil), nil);
    Replaced(m, m', c, t, s, nil);
  }

  lemma TwoChildren<V>(m: Memory<V>, c: Context<V>, t: Tree<V>, nil: V)
    requires At(m, c, t, nil).Ok? && t.Branch? && t.left.Branch? && t.right.Branch?
    ensures t.node in m && m[t.node] == Cell(t.left.node, t.right.node, Above(c, nil), t.black)
    ensures t.left.node in m && t.right.node in m && nil in m && Above(c, nil) in m
    ensures m[t.right.node] == Cell(Root(t.right.left, nil), Root(t.right.right, nil), t.node, t.right.black)
    ensures nil !in {t.node, t.left.node, t.right.node} && t.node !in {t.left.node, t.right.node}
            && t.left.node != t.right.node
    ensures Above(c, nil) !in {t.node, t.left.node, t.right.node} && (c.Top? <==> Above(c, nil) == nil)
    ensures Holds(m, c, t.node, nil) && (c.InRight? ==> Root(c.left, nil) != t.node)
  {
    assert Linked(m, t.right, t.node, nil);
    assert t.left.node in Elems(t.left) && t.right.node in Elems(t.right);
  }

  /** A loose node y takes the place and the colour of the node of t. */
  lemma SubstitutedAt<V>(m: Memory<V>, m': Memory<V>, c: Context<V>, t: Tree<V>, y: V, nil: V)
    requires At(m, c, t, nil).Ok? && t.Branch? && y !in m && m'.Keys == m.Keys - {t.node} + {y}
    requires m'[y] == m[t.node] && Told(m, m', t.left, y) && Told(m, m', t.right, y)
    requires Holds(m', c, y, nil) && m'[nil].black
    requires Agree(m - {t.node}, m', m.Keys - {Above(c, nil)} - TopNode(t.left) - TopNode(t.right))
    ensures At(m', c, Branch(t.left, y, t.black, t.right), nil).Ok?
  {
    hide Linked, Distinct;
    var t' := Branch(t.left, y, t.black, t.right);
    SubstitutedKeys(m, m', c, t, y, nil);
    SubstitutedAgrees(m, m', c, t, nil);
    SubstitutedApart(m, c, t, y, nil);
    SubstitutedLinked(m, m', c, t, y, nil);
    Replaced(m, m', c, t, t', nil);
  }

  /** What the memory keeps when y comes in for the node of t. */
  lemma SubstitutedKeys<V>(m: Memory<V>, m': Memory<V>, c: Context<V>, t: Tree<V>, y: V, nil: V)
    requires At(m, c, t, nil).Ok? && t.Branch? && m'.Keys == m.Keys - {t.node} + {y}
    ensures m'.Keys == Elems(Branch(t.left, y, t.black, t.right)) + Around(c) + {nil}
  {
    hide Linked, LinkedAround;
  }

  lemma SubstitutedAgrees<V>(m: Memory<V>, m': Memory<V>, c: Context<V>, t: Tree<V>, nil: V)
    requires At(m, c, t, nil).Ok? && t.Branch?
    requires Agree(m - {t.node}, m', m.Keys - {Above(c, nil)} - TopNode(t.left) - TopNode(t.right))
    ensures Agree(m, m', Around(c) + {nil} - {Above(c, nil)})
    ensures Agree(m, m', Elems(t.left) - TopNode(t.left)) && Agree(m, m', Elems(t.right) - TopNode(t.right))
  {
    hide Linked, LinkedAround;
    assert TopNode(t.left) <= Elems(t.left) && TopNode(t.right) <= Elems(t.right);
    AboveAround(c, nil);
  }

  lemma AboveAround<V>(c: Context<V>, nil: V)
    ensures Above(c, nil) in Around(c) + {nil}
  {
  }

  lemma SubstitutedLinked<V>(m: Memory<V>, m': Memory<V>, c: Context<V>, t: Tree<V>, y: V, nil: V)
    requires At(m, c, t, nil).Ok? && t.Branch? && y in m' && m'[y] == m[t.node]
    requires Told(m, m', t.left, y) && Told(m, m', t.right, y)
    requires Agree(m, m', Elems(t.left) - TopNode(t.left)) && Agree(m, m', Elems(t.right) - TopNode(t.right))
    ensures Linked(m', Branch(t.left, y, t.black, t.right), Above(c, nil), nil)
  {
    Reparented(m, m', t.left, t.node, y, nil);
    Reparented(m, m', t.right, t.node, y, nil);
  }

  lemma SubstitutedApart<V>(m: Memory<V>, c: Context<V>, t: Tree<V>, y: V, nil: V)
    requires At(m, c, t, nil).Ok? && t.Branch? && y !in m
    ensures Apart(c, Branch(t.left, y, t.black, t.right), nil)
  {
  }

  /** The same, when y is the right child of t, without a left child, and brings its own right subtree. */
  lemma HoistedAt<V>(m: Memory<V>, m': Memory<V>, c: Context<V>, t: Tree<V>, nil: V)
    requires At(m, c, t, nil).Ok? && t.Branch? && t.right.Branch? && t.right.left.Leaf? && m'.Keys == m.Keys - {t.node}
    requires m'[t.right.node] == Cell(Root(t.left, nil), Root(t.right.right, nil), Above(c, nil), t.black)
    requires Told(m, m', t.left, t.right.node)
    requires Holds(m', c, t.right.node, nil) && m'[nil].black
    requires Agree(m - {t.node, t.right.node}, m', m.Keys - {Above(c, nil)} - TopNode(t.left))
    ensures At(m', c, Branch(t.left, t.right.node, t.black, t.right.right), nil).Ok?
  {
    hide Linked, Distinct;
    HoistedKeys(m, m', c, t, nil);
    HoistedApart(m, c, t, nil);
    HoistedLinked(m, m', c, t, nil);
    Replaced(m, m', c, t, Branch(t.left, t.right.node, t.black, t.right.right), nil);
  }

  lemma HoistedKeys<V>(m: Memory<V>, m': Memory<V>, c: Context<V>, t: Tree<V>, nil: V)
    requires At(m, c, t, nil).Ok? && t.Branch? && t.right.Branch? && t.right.left.Leaf? && m'.Keys == m.Keys - {t.node}
    requires Agree(m - {t.node, t.right.node}, m', m.Keys - {Above(c, nil)} - TopNode(t.left))
    ensures m'.Keys == Elems(Branch(t.left, t.right.node, t.black, t.right.right)) + Around(c) + {nil}
    ensures Agree(m, m', Around(c) + {nil} - {Above(c, nil)})
    ensures Agree(m, m', Elems(t.left) - TopNode(t.left)) && Agree(m, m', Elems(t.right.right))
  {
    hide Linked, LinkedAround;
    assert Distinct(t.right) && Elems(t.right) == {t.right.node} + Elems(t.right.right);
    assert TopNode(t.left) <= Elems(t.left);
    AboveAround(c, nil);
  }

  lemma HoistedApart<V>(m: Memory<V>, c: Context<V>, t: Tree<V>, nil: V)
    requires At(m, c, t, nil).Ok? && t.Branch? && t.right.Branch? && t.right.left.Leaf?
    ensures Apart(c, Branch(t.left, t.right.node, t.black, t.right.right), nil)
  {
    hide Linked, LinkedAround;
    assert Distinct(t.right) && Elems(t.right) == {t.right.node} + Elems(t.right.right);
  }

  lemma HoistedLinked<V>(m: Memory<V>, m': Memory<V>, c: Context<V>, t: Tree<V>, nil: V)
    requires At(m, c, t, nil).Ok? && t.Branch? && t.right.Branch? && t.right.node in m'
    requires m'[t.right.node] == Cell(Root(t.left, nil), Root(t.right.right, nil), Above(c, nil), t.black)
    requires Told(m, m', t.left, t.right.node)
    requires Agree(m, m', Elems(t.left) - TopNode(t.left)) && Agree(m, m', Elems(t.right.right))
    ensures Linked(m', Branch(t.left, t.right.node, t.black, t.right.right), Above(c, nil), nil)
  {
    assert Linked(m, t.right, t.node, nil);
    Reparented(m, m', t.left, t.node, t.right.node, nil);
    LinkedKept(m, m', t.right.right, t.right.node, nil);
  }

  // ----- subtrees on their own -----

  /** Whether the memory holds the subtree t below p, each node once. */
  ghost function Tied<V>(m: Memory<V>, t: Tree<V>, p: V, nil: V): Check {
    if Linked(m, t, p, nil) && Distinct(t) && nil !in Elems(t) then Ok else Broken
  }

  lemma TiedParts<V>(m: Memory<V>, t: Tree<V>, p: V, nil: V)
    requires Tied(m, t, p, nil).Ok?
    ensures t.Leaf? <==> Root(t, nil) == nil
    ensures t.Branch? ==> t.node in m && m[t.node] == Cell(Root(t.left, nil), Root(t.right, nil), p, t.black)
    ensures t.Branch? ==> Tied(m, t.left, t.node, nil).Ok? && Tied(m, t.right, t.node, nil).Ok?
    ensures t.Branch? ==> Elems(t) == Elems(t.left) + {t.node} + Elems(t.right) && Elems(t.left) !! Elems(t.right)
    ensures t.Branch? ==> t.node !in Elems(t.left) && t.node !in Elems(t.right)
    ensures t.Branch? ==> (t.left.Leaf? <==> Root(t.left, nil) == nil) && (t.right.Leaf? <==> Root(t.right, nil) == nil)
  {
  }

  lemma TiedKept<V>(m: Memory<V>, m': Memory<V>, t: Tree<V>, p: V, nil: V)
    requires Tied(m, t, p, nil).Ok? && Agree(m, m', Elems(t))
    ensures Tied(m', t, p, nil).Ok?
  {
    LinkedKept(m, m', t, p, nil);
  }

  lemma TiedLeaf<V>(m: Memory<V>, t: Tree<V>, p: V, nil: V)
    requires t.Leaf?
    ensures Tied(m, t, p, nil).Ok?
  {
  }

  /** Two tied subtrees and a node above them. */
  lemma TiedJoined<V>(m: Memory<V>, l: Memory<V>, r: Memory<V>, t: Tree<V>, p: V, nil: V)
    requires t.Branch? && t.node in m && m[t.node] == Cell(Root(t.left, nil), Root(t.right, nil), p, t.black)
    requires Tied(l, t.left, t.node, nil).Ok? && Tied(r, t.right, t.node, nil).Ok?
    requires Agree(l, m, Elems(t.left)) && Agree(r, m, Elems(t.right))
    requires t.node != nil && t.node !in Elems(t.left) && t.node !in Elems(t.right) && Elems(t.left) !! Elems(t.right)
    ensures Tied(m, t, p, nil).Ok?
  {
    LinkedKept(l, m, t.left, t.node, nil);
    LinkedKept(r, m, t.right, t.node, nil);
  }

  lemma TiedSentinel<V>(m: Memory<V>, t: Tree<V>, p: V, nil: V)
    requires Tied(m, t, p, nil).Ok?
    ensures nil !in Elems(t)
  {
  }

  /** A tied tree together with a header that points to it, and back. */
  lemma TiedAt<V>(m: Memory<V>, t: Tree<V>, nil: V)
    requires Tied(m, t, nil, nil).Ok? && m.Keys == Elems(t) + {nil} && m[nil].parent == Root(t, nil) && m[nil].black
    ensures At(m, Top, t, nil).Ok?
  {
  }

  lemma AtTied<V>(m: Memory<V>, t: Tree<V>, nil: V)
    requires At(m, Top, t, nil).Ok?
    ensures Tied(m, t, nil, nil).Ok? && nil in m && m[nil].parent == Root(t, nil) && m[nil].black
  {
  }
}
