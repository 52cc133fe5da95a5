/** Agreement between the pointer fields of the tree nodes and their picture.

    A Store is a snapshot of the fields of all nodes of one tree.  Focus says
    that a snapshot is exactly the tree Plug(p, t), seen from the hole of p.
    The lemmas say what each pointer or colour update of src/common/tree.h does
    to the picture.
  */
module RbLinks {
  import opened RbShape

  datatype Rec = Rec(left: Node?, right: Node?, parent: Node?, red: bool, key: int)
  type Store = map<Node, Rec>

  ghost predicate Linked(m: Store, t: Tree, q: Node?) {
    match t
    case Leaf => true
    case Branch(l, n, k, c, r) =>
      && n in m && m[n] == Rec(Root(l), Root(r), q, c, k)
      && Linked(m, l, n)
      && Linked(m, r, n)
  }

  ghost predicate LinkedPath(m: Store, p: Path, child: Node?, root: Node?) {
    match p
    case Top => root == child
    case InLeft(n, k, c, r, up) =>
      && n in m && m[n] == Rec(child, Root(r), Parent(up), c, k)
      && Linked(m, r, n)
      && LinkedPath(m, up, n, root)
    case InRight(l, n, k, c, up) =>
      && n in m && m[n] == Rec(Root(l), child, Parent(up), c, k)
      && Linked(m, l, n)
      && LinkedPath(m, up, n, root)
  }

  ghost predicate Focus(m: Store, root: Node?, p: Path, t: Tree) {
    && Fresh(t) && FreshPath(p) && Nodes(t) !! PathNodes(p)
    && m.Keys == Nodes(t) + PathNodes(p)
    && Linked(m, t, Parent(p))
    && LinkedPath(m, p, Root(t), root)
  }

  ghost predicate Same(m: Store, m': Store, s: set<Node>) {
    forall n :: n in s && n in m ==> n in m' && m'[n] == m[n]
  }

  lemma {:induction false} LinkedFrame(m: Store, m': Store, t: Tree, q: Node?)
    requires Linked(m, t, q) && Same(m, m', Nodes(t))
    ensures Linked(m', t, q)
  {
    if t.Branch? {
      LinkedFrame(m, m', t.left, t.elem);
      LinkedFrame(m, m', t.right, t.elem);
    }
  }

  lemma {:induction false} PathFrame(m: Store, m': Store, p: Path, child: Node?, root: Node?)
    requires LinkedPath(m, p, child, root) && Same(m, m', PathNodes(p))
    ensures LinkedPath(m', p, child, root)
  {
    match p
    case Top =>
    case InLeft(n, _, _, r, up) =>
      LinkedFrame(m, m', r, n);
      PathFrame(m, m', up, n, root);
    case InRight(l, n, _, _, up) =>
      LinkedFrame(m, m', l, n);
      PathFrame(m, m', up, n, root);
  }

  /** Looking at the same nodes from a place deeper in the tree. */
  lemma {:induction false} Zoom(m: Store, root: Node?, p: Path, inner: Path, s: Tree)
    ensures Focus(m, root, p, Plug(inner, s)) <==> Focus(m, root, Append(inner, p), s)
    decreases inner
  {
    match inner
    case Top =>
    case InLeft(n, k, c, r, up) =>
      Zoom(m, root, p, up, Branch(s, n, k, c, r));
      OneUp(m, root, Append(inner, p), s);
    case InRight(l, n, k, c, up) =>
      Zoom(m, root, p, up, Branch(l, n, k, c, s));
      OneUp(m, root, Append(inner, p), s);
  }

  ghost function Step(p: Path, t: Tree): Tree
    requires !p.Top?
  {
    if p.InLeft? then Branch(t, p.elem, p.key, p.red, p.right)
    else Branch(p.left, p.elem, p.key, p.red, t)
  }

  lemma OneUp(m: Store, root: Node?, p: Path, t: Tree)
    requires !p.Top?
    ensures Focus(m, root, p, t) <==> Focus(m, root, p.up, Step(p, t))
  {
    assert Nodes(Step(p, t)) + PathNodes(p.up) == Nodes(t) + PathNodes(p);
    assert Fresh(t) && FreshPath(p) && Nodes(t) !! PathNodes(p)
      <==> Fresh(Step(p, t)) && FreshPath(p.up) && Nodes(Step(p, t)) !! PathNodes(p.up);
  }

  lemma UnwindTo(m: Store, root: Node?, q: Path, inner: Path, s: Tree)
    requires !q.Top?
    ensures Focus(m, root, q.up, Step(q, Plug(inner, s))) <==> Focus(m, root, Append(inner, q), s)
  {
    Zoom(m, root, q, inner, s);
    OneUp(m, root, q, Plug(inner, s));
  }

  // ----- single updates -----------------------------------------------------------

  ghost function WithParent(m: Store, n: Node?, q: Node?): (r: Store)
    ensures r.Keys == m.Keys
  {
    if n == null || n !in m then m else m[n := m[n].(parent := q)]
  }

  ghost function WithChild(m: Store, q: Node?, was: Node?, now: Node?): (r: Store)
    ensures r.Keys == m.Keys
  {
    if q == null || q !in m then m
    else if m[q].left == was then m[q := m[q].(left := now)]
    else m[q := m[q].(right := now)]
  }

  ghost function WithRed(m: Store, n: Node, c: bool): (r: Store)
    requires n in m
    ensures r.Keys == m.Keys
  {
    m[n := m[n].(red := c)]
  }

  ghost function NewRoot(root: Node?, q: Node?, now: Node?): Node? {
    if q == null then now else root
  }

  lemma Reparented(m: Store, t: Tree, was: Node?, q: Node?)
    requires Linked(m, t, was) && Fresh(t)
    ensures Linked(WithParent(m, Root(t), q), t, q)
  {
    if t.Branch? {
      var m' := WithParent(m, Root(t), q);
      LinkedFrame(m, m', t.left, t.elem);
      LinkedFrame(m, m', t.right, t.elem);
    }
  }

  lemma Redirected(m: Store, p: Path, was: Node, now: Node?, root: Node?)
    requires LinkedPath(m, p, was, root) && FreshPath(p) && was !in PathNodes(p)
    ensures LinkedPath(WithChild(m, Parent(p), was, now), p, now, NewRoot(root, Parent(p), now))
  {
    var m' := WithChild(m, Parent(p), was, now);
    match p
    case Top =>
    case InLeft(n, _, _, r, up) =>
      LinkedFrame(m, m', r, n);
      PathFrame(m, m', up, n, root);
    case InRight(l, n, _, _, up) =>
      LinkedFrame(m, m', l, n);
      PathFrame(m, m', up, n, root);
  }

  ghost function Painted(t: Tree, c: bool): (r: Tree)
    requires t.Branch?
    ensures Flat(r) == Flat(t) && Nodes(r) == Nodes(t)
  {
    t.(red := c)
  }

  lemma PaintedFocus(m: Store, root: Node?, p: Path, t: Tree, c: bool)
    requires Focus(m, root, p, t) && t.Branch?
    ensures Focus(WithRed(m, t.elem, c), root, p, Painted(t, c))
  {
    var m' := WithRed(m, t.elem, c);
    LinkedFrame(m, m', t.left, t.elem);
    LinkedFrame(m, m', t.right, t.elem);
    PathFrame(m, m', p, t.elem, root);
  }

  lemma PaintedLeft(m: Store, root: Node?, p: Path, t: Tree, c: bool)
    requires Focus(m, root, p, t) && t.Branch? && t.left.Branch?
    ensures Focus(WithRed(m, t.left.elem, c), root, p, t.(left := Painted(t.left, c)))
  {
    var q := InLeft(t.elem, t.key, t.red, t.right, p);
    OneUp(m, root, q, t.left);
    PaintedFocus(m, root, q, t.left, c);
    OneUp(WithRed(m, t.left.elem, c), root, q, Painted(t.left, c));
  }

  lemma PaintedRight(m: Store, root: Node?, p: Path, t: Tree, c: bool)
    requires Focus(m, root, p, t) && t.Branch? && t.right.Branch?
    ensures Focus(WithRed(m, t.right.elem, c), root, p, t.(right := Painted(t.right, c)))
  {
    var q := InRight(t.left, t.elem, t.key, t.red, p);
    OneUp(m, root, q, t.right);
    PaintedFocus(m, root, q, t.right, c);
    OneUp(WithRed(m, t.right.elem, c), root, q, Painted(t.right, c));
  }

  /** Both children, in either order, and then the root. */
  lemma AllPainted(m: Store, root: Node?, p: Path, t: Tree, a: Node, b: Node, c: bool, d: bool)
    requires Focus(m, root, p, t) && t.Branch? && t.left.Branch? && t.right.Branch?
    requires (a == t.left.elem && b == t.right.elem) || (a == t.right.elem && b == t.left.elem)
    ensures a in m && b in m && t.elem in m
    ensures Focus(WithRed(WithRed(WithRed(m, a, c), b, c), t.elem, d), root, p,
                  Branch(Painted(t.left, c), t.elem, t.key, d, Painted(t.right, c)))
  {
    if a == t.left.elem {
      PaintedLeft(m, root, p, t, c);
      PaintedRight(WithRed(m, a, c), root, p, t.(left := Painted(t.left, c)), c);
    } else {
      PaintedRight(m, root, p, t, c);
      PaintedLeft(WithRed(m, a, c), root, p, t.(right := Painted(t.right, c)), c);
    }
    PaintedFocus(WithRed(WithRed(m, a, c), b, c), root, p,
                 Branch(Painted(t.left, c), t.elem, t.key, t.red, Painted(t.right, c)), d);
  }

  // ----- rotations ------------------------------------------------------------------

  ghost function LeftRotated(t: Tree): (r: Tree)
    requires t.Branch? && t.right.Branch?
    ensures Nodes(r) == Nodes(t) && Flat(r) == Flat(t)
  {
    var y := t.right;
    Branch(Branch(t.left, t.elem, t.key, t.red, y.left), y.elem, y.key, y.red, y.right)
  }

  ghost function RightRotated(t: Tree): (r: Tree)
    requires t.Branch? && t.left.Branch?
    ensures Nodes(r) == Nodes(t) && Flat(r) == Flat(t)
  {
    var y := t.left;
    Branch(y.left, y.elem, y.key, y.red, Branch(y.right, t.elem, t.key, t.red, t.right))
  }

  /** RB_ROTATE_LEFT at x, whose right child is y. */
  ghost function LeftTurned(m: Store, x: Node, y: Node): (r: Store)
    requires x in m && y in m
    ensures r.Keys == m.Keys
  {
    var b := m[y].left;
    var m0 := m[x := m[x].(right := b)];
    var m1 := WithParent(m0, b, x);
    var m2 := m1[y := m1[y].(parent := m1[x].parent)];
    var m3 := WithChild(m2, m2[x].parent, x, y);
    var m4 := m3[y := m3[y].(left := x)];
    m4[x := m4[x].(parent := y)]
  }

  /** RB_ROTATE_RIGHT at x, whose left child is y. */
  ghost function RightTurned(m: Store, x: Node, y: Node): (r: Store)
    requires x in m && y in m
    ensures r.Keys == m.Keys
  {
    var b := m[y].right;
    var m0 := m[x := m[x].(left := b)];
    var m1 := WithParent(m0, b, x);
    var m2 := m1[y := m1[y].(parent := m1[x].parent)];
    var m3 := WithChild(m2, m2[x].parent, x, y);
    var m4 := m3[y := m3[y].(right := x)];
    m4[x := m4[x].(parent := y)]
  }

  /** What the six updates of a rotation leave in the store.  a is the outer
      subtree of x, b the one that moves from y to x, c the outer one of y. */
  ghost predicate Turned(m: Store, m': Store, x: Node, y: Node, p: Path, a: Tree, b: Tree, c: Tree) {
    && Same(m, m', Nodes(a)) && Same(m, m', Nodes(c))
    && Linked(m', b, x)
    && x in m' && y in m' && m'[x].parent == y && m'[y].parent == Parent(p)
  }

  lemma LeftTurnedParts(m: Store, root: Node?, p: Path, t: Tree)
    requires Focus(m, root, p, t) && t.Branch? && t.right.Branch?
    ensures var x, y := t.elem, t.right.elem;
      var m' := LeftTurned(m, x, y);
      && Turned(m, m', x, y, p, t.left, t.right.left, t.right.right)
      && m'[x] == m[x].(right := Root(t.right.left), parent := y)
      && m'[y] == m[y].(left := x, parent := Parent(p))
  {
    var x, y, q := t.elem, t.right.elem, Parent(p);
    var b := t.right.left;
    assert Linked(m, t.right, x) && Fresh(t.right);
    var m0 := m[x := m[x].(right := Root(b))];
    LinkedFrame(m, m0, b, y);
    Reparented(m0, b, y, x);
    var m1 := WithParent(m0, Root(b), x);
    LinkedFrame(m1, LeftTurned(m, x, y), b, x);
  }

  lemma LeftTurnedPath(m: Store, root: Node?, p: Path, t: Tree)
    requires Focus(m, root, p, t) && t.Branch? && t.right.Branch?
    ensures LinkedPath(LeftTurned(m, t.elem, t.right.elem), p, t.right.elem, NewRoot(root, Parent(p), t.right.elem))
  {
    var x, y, q := t.elem, t.right.elem, Parent(p);
    var b := t.right.left;
    assert Linked(m, t.right, x) && Fresh(t.right);
    var m1 := WithParent(m[x := m[x].(right := Root(b))], Root(b), x);
    var m2 := m1[y := m1[y].(parent := q)];
    PathFrame(m, m2, p, x, root);
    Redirected(m2, p, x, y, root);
    PathFrame(WithChild(m2, q, x, y), LeftTurned(m, x, y), p, y, NewRoot(root, q, y));
  }

  lemma LeftTurnedFocus(m: Store, root: Node?, p: Path, t: Tree)
    requires Focus(m, root, p, t) && t.Branch? && t.right.Branch?
    ensures Focus(LeftTurned(m, t.elem, t.right.elem), NewRoot(root, Parent(p), t.right.elem), p, LeftRotated(t))
  {
    assert Linked(m, t.right, t.elem) && Fresh(t.right);
    var m' := LeftTurned(m, t.elem, t.right.elem);
    LeftTurnedParts(m, root, p, t);
    LeftTurnedPath(m, root, p, t);
    LinkedFrame(m, m', t.left, t.elem);
    LinkedFrame(m, m', t.right.right, t.right.elem);
    assert Linked(m', LeftRotated(t).left, t.right.elem);
  }

  lemma RightTurnedParts(m: Store, root: Node?, p: Path, t: Tree)
    requires Focus(m, root, p, t) && t.Branch? && t.left.Branch?
    ensures var x, y := t.elem, t.left.elem;
      var m' := RightTurned(m, x, y);
      && Turned(m, m', x, y, p, t.right, t.left.right, t.left.left)
      && m'[x] == m[x].(left := Root(t.left.right), parent := y)
      && m'[y] == m[y].(right := x, parent := Parent(p))
  {
    var x, y, q := t.elem, t.left.elem, Parent(p);
    var b := t.left.right;
    assert Linked(m, t.left, x) && Fresh(t.left);
    var m0 := m[x := m[x].(left := Root(b))];
    LinkedFrame(m, m0, b, y);
    Reparented(m0, b, y, x);
    var m1 := WithParent(m0, Root(b), x);
    LinkedFrame(m1, RightTurned(m, x, y), b, x);
  }

  lemma RightTurnedPath(m: Store, root: Node?, p: Path, t: Tree)
    requires Focus(m, root, p, t) && t.Branch? && t.left.Branch?
    ensures LinkedPath(RightTurned(m, t.elem, t.left.elem), p, t.left.elem, NewRoot(root, Parent(p), t.left.elem))
  {
    var x, y, q := t.elem, t.left.elem, Parent(p);
    var b := t.left.right;
    assert Linked(m, t.left, x) && Fresh(t.left);
    var m1 := WithParent(m[x := m[x].(left := Root(b))], Root(b), x);
    var m2 := m1[y := m1[y].(parent := q)];
    PathFrame(m, m2, p, x, root);
    Redirected(m2, p, x, y, root);
    PathFrame(WithChild(m2, q, x, y), RightTurned(m, x, y), p, y, NewRoot(root, q, y));
  }

  lemma RightTurnedFocus(m: Store, root: Node?, p: Path, t: Tree)
    requires Focus(m, root, p, t) && t.Branch? && t.left.Branch?
    ensures Focus(RightTurned(m, t.elem, t.left.elem), NewRoot(root, Parent(p), t.left.elem), p, RightRotated(t))
  {
    assert Linked(m, t.left, t.elem) && Fresh(t.left);
    var m' := RightTurned(m, t.elem, t.left.elem);
    RightTurnedParts(m, root, p, t);
    RightTurnedPath(m, root, p, t);
    LinkedFrame(m, m', t.right, t.elem);
    LinkedFrame(m, m', t.left.left, t.left.elem);
    assert Linked(m', RightRotated(t).right, t.left.elem);
  }

  // ----- adding and cutting out one node -----------------------------------------------

  ghost function Hung(m: Store, p: Path, n: Node): (r: Store)
    requires !p.Top? ==> p.elem in m
    ensures r.Keys == m.Keys
  {
    match p
    case Top => m
    case InLeft(q, _, _, _, _) => m[q := m[q].(left := n)]
    case InRight(_, q, _, _, _) => m[q := m[q].(right := n)]
  }

  /** RB_SET and the assignment of the parent's child pointer in RB_INSERT. */
  lemma AttachedFocus(m: Store, root: Node?, p: Path, n: Node, k: int)
    requires Focus(m, root, p, Leaf) && n !in m
    ensures Focus(Hung(m[n := Rec(null, null, Parent(p), true, k)], p, n), NewRoot(root, Parent(p), n), p,
                  Branch(Leaf, n, k, true, Leaf))
  {
    var m' := Hung(m[n := Rec(null, null, Parent(p), true, k)], p, n);
    match p
    case Top =>
    case InLeft(q, _, _, r, up) =>
      LinkedFrame(m, m', r, q);
      PathFrame(m, m', up, q, root);
    case InRight(l, q, _, _, up) =>
      LinkedFrame(m, m', l, q);
      PathFrame(m, m', up, q, root);
  }

  ghost function Spliced(m: Store, q: Node?, o: Node, c: Node?): (r: Store) {
    WithChild(WithParent(m, c, q), q, o, c) - {o}
  }

  lemma SplicedTree(m: Store, c: Tree, q: Node?, o: Node)
    requires Linked(m, c, o) && Fresh(c) && o !in Nodes(c) && (q != null ==> q !in Nodes(c))
    ensures Linked(Spliced(m, q, o, Root(c)), c, q)
  {
    Reparented(m, c, o, q);
    LinkedFrame(WithParent(m, Root(c), q), Spliced(m, q, o, Root(c)), c, q);
  }

  lemma SplicedPath(m: Store, root: Node?, p: Path, o: Node, c: Node?)
    requires LinkedPath(m, p, o, root) && FreshPath(p) && o !in PathNodes(p) && (c != null ==> c !in PathNodes(p))
    ensures LinkedPath(Spliced(m, Parent(p), o, c), p, c, NewRoot(root, Parent(p), c))
  {
    var q := Parent(p);
    var m1 := WithParent(m, c, q);
    PathFrame(m, m1, p, o, root);
    Redirected(m1, p, o, c, root);
    PathFrame(WithChild(m1, q, o, c), Spliced(m, q, o, c), p, c, NewRoot(root, q, c));
  }

  /** A node with at most one child gives its place to that child c. */
  lemma SplicedFocus(m: Store, root: Node?, p: Path, t: Tree, c: Tree)
    requires Focus(m, root, p, t) && t.Branch?
    requires (t.left.Leaf? && c == t.right) || (t.right.Leaf? && c == t.left)
    ensures Focus(Spliced(m, Parent(p), t.elem, Root(c)), NewRoot(root, Parent(p), Root(c)), p, c)
  {
    SplicedTree(m, c, Parent(p), t.elem);
    SplicedPath(m, root, p, t.elem, Root(c));
  }

  /** The successor n takes the place, links and colour of the node of t. */
  ghost function Replaced(m: Store, q: Node?, o: Node, n: Node, k: int): (r: Store)
    requires o in m
  {
    var m1 := m[n := m[o].(key := k)];
    var m2 := WithChild(m1, q, o, n);
    WithParent(WithParent(m2, m[o].left, n), m[o].right, n)
  }

  lemma ReplacedFocus(m: Store, root: Node?, p: Path, t: Tree, n: Node, k: int)
    requires Focus(m, root, p, t) && t.Branch? && n !in m
    ensures Focus(Replaced(m, Parent(p), t.elem, n, k) - {t.elem}, NewRoot(root, Parent(p), n), p,
                  Branch(t.left, n, k, t.red, t.right))
  {
    ReplacedPath(m, root, p, t, n, k);
    ReplacedTree(m, root, p, t, n, k);
  }

  lemma ReplacedPath(m: Store, root: Node?, p: Path, t: Tree, n: Node, k: int)
    requires Focus(m, root, p, t) && t.Branch? && n !in m
    ensures LinkedPath(Replaced(m, Parent(p), t.elem, n, k) - {t.elem}, p, n, NewRoot(root, Parent(p), n))
  {
    var q, o := Parent(p), t.elem;
    var m1 := m[n := m[o].(key := k)];
    PathFrame(m, m1, p, o, root);
    Redirected(m1, p, o, n, root);
    PathFrame(WithChild(m1, q, o, n), Replaced(m, q, o, n, k) - {o}, p, n, NewRoot(root, q, n));
  }

  lemma ReplacedTree(m: Store, root: Node?, p: Path, t: Tree, n: Node, k: int)
    requires Focus(m, root, p, t) && t.Branch? && n !in m
    ensures Linked(Replaced(m, Parent(p), t.elem, n, k) - {t.elem}, Branch(t.left, n, k, t.red, t.right), Parent(p))
  {
    var q, o := Parent(p), t.elem;
    var m2 := WithChild(m[n := m[o].(key := k)], q, o, n);
    LinkedFrame(m, m2, t.left, o);
    LinkedFrame(m, m2, t.right, o);
    ReplacedChildren(m2, t, n);
    var m4 := Replaced(m, q, o, n, k);
    LinkedFrame(m4, m4 - {o}, t.left, n);
    LinkedFrame(m4, m4 - {o}, t.right, n);
  }

  lemma ReplacedChildren(m: Store, t: Tree, n: Node)
    requires t.Branch? && Fresh(t) && Linked(m, t.left, t.elem) && Linked(m, t.right, t.elem)
    ensures var m' := WithParent(WithParent(m, Root(t.left), n), Root(t.right), n);
      Linked(m', t.left, n) && Linked(m', t.right, n)
  {
    var m1 := WithParent(m, Root(t.left), n);
    Reparented(m, t.left, t.elem, n);
    LinkedFrame(m, m1, t.right, t.elem);
    Reparented(m1, t.right, t.elem, n);
    LinkedFrame(m1, WithParent(m1, Root(t.right), n), t.left, n);
  }
}
