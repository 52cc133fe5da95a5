/** Why the colour fix-up loops of src/common/tree.h restore the balance.

    Climbing and Sinking are the loop invariants of RB_INSERT_COLOR and
    RB_REMOVE_COLOR; each lemma is one branch of a loop body.
  */
module RbBalance {
  import opened RbShape
  import opened RbLinks

  /** t is a red node of black height h, wrong at most against its parent. */
  ghost predicate Climbing(p: Path, t: Tree, h: nat) {
    IsRed(t) && Balanced(t, h) && Expects(p, h)
  }

  ghost predicate RedBlack(t: Tree) {
    !IsRed(t) && exists h :: Balanced(t, h)
  }

  lemma BlackRoot(t: Tree, h: nat)
    requires t.Branch? && Balanced(t, h)
    ensures RedBlack(Painted(t, false))
  {
    assert Balanced(Painted(t, false), if t.red then h + 1 else h);
  }

  lemma {:induction false} NonEmpty(p: Path, t: Tree)
    requires t.Branch?
    ensures Plug(p, t).Branch?
    decreases p
  {
    if !p.Top? { NonEmpty(p.up, Step(p, t)); }
  }

  lemma Whole(m: Store, root: Node?, p: Path, t: Tree)
    ensures Focus(m, root, p, t) <==> Focus(m, root, Top, Plug(p, t))
  {
    Zoom(m, root, Top, p, t);
    assert Append(p, Top) == p by { AppendTop(p); }
  }

  lemma {:induction false} AppendTop(p: Path)
    ensures Append(p, Top) == p
  {
    if !p.Top? { AppendTop(p.up); }
  }

  ghost function Recolored(T: Tree): (r: Tree)
    requires T.Branch? && T.left.Branch? && T.right.Branch?
    ensures Flat(r) == Flat(T)
  {
    Branch(Painted(T.left, false), T.elem, T.key, true, Painted(T.right, false))
  }

  /** Two red children of a black node: the blackness moves below it. */
  lemma ClimbRecolored(p: Path, t: Tree, h: nat)
    requires Climbing(p, t, h) && TopRed(p)
    requires IsRed(if p.up.InLeft? then p.up.right else p.up.left)
    ensures var g := p.up;
      var T := Recolored(Step(g, Step(p, t)));
      Climbing(g.up, T, h + 1) && Depth(g.up) < Depth(p) && Flat(Plug(g.up, T)) == Flat(Plug(p, t))
  {
    var g := p.up;
    var T := Recolored(Step(g, Step(p, t)));
    assert Expects(g, h) && Expects(g.up, h + 1);
    assert Balanced(T.left, h + 1) && Balanced(T.right, h + 1);
    FlatPlug(g.up, T);
    FlatPlug(g.up, Step(g, Step(p, t)));
  }

  ghost function LiftedLeft(T: Tree): (r: Tree)
    requires T.Branch? && T.left.Branch?
    ensures Flat(r) == Flat(T)
  {
    RightRotated(Painted(T.(left := Painted(T.left, false)), true))
  }

  /** After the lift, the lower red node sits under a black parent. */
  lemma ClimbLiftedLeft(p: Path, t: Tree, h: nat, P: Tree) returns (p': Path, t': Tree)
    requires Climbing(p, t, h) && TopRed(p) && p.up.InLeft? && !IsRed(p.up.right)
    requires P == if p.InLeft? then Step(p, t) else LeftRotated(Step(p, t))
    ensures !p'.Top? && p'.up == p.up.up && Step(p', t') == LiftedLeft(Step(p.up, P))
    ensures Climbing(p', t', h) && Depth(p') < Depth(p)
    ensures t'.elem == if p.InLeft? then t.elem else p.elem
    ensures Flat(Plug(p', t')) == Flat(Plug(p, t))
  {
    var g, up := p.up, p.up.up;
    t' := P.left;
    p' := InLeft(P.elem, P.key, false, Branch(P.right, g.elem, g.key, true, g.right), up);
    assert Expects(g, h) && Expects(up, h + 1);
    assert Balanced(Branch(P.right, g.elem, g.key, true, g.right), h);
    FlatPlug(up, Step(p', t'));
    FlatPlug(up, Step(g, Step(p, t)));
  }

  ghost function LiftedRight(T: Tree): (r: Tree)
    requires T.Branch? && T.right.Branch?
    ensures Flat(r) == Flat(T)
  {
    LeftRotated(Painted(T.(right := Painted(T.right, false)), true))
  }

  /** After the lift, the lower red node sits under a black parent. */
  lemma ClimbLiftedRight(p: Path, t: Tree, h: nat, P: Tree) returns (p': Path, t': Tree)
    requires Climbing(p, t, h) && TopRed(p) && p.up.InRight? && !IsRed(p.up.left)
    requires P == if p.InRight? then Step(p, t) else RightRotated(Step(p, t))
    ensures !p'.Top? && p'.up == p.up.up && Step(p', t') == LiftedRight(Step(p.up, P))
    ensures Climbing(p', t', h) && Depth(p') < Depth(p)
    ensures t'.elem == if p.InRight? then t.elem else p.elem
    ensures Flat(Plug(p', t')) == Flat(Plug(p, t))
  {
    var g, up := p.up, p.up.up;
    t' := P.right;
    p' := InRight(Branch(g.left, g.elem, g.key, true, P.left), P.elem, P.key, false, up);
    assert Expects(g, h) && Expects(up, h + 1);
    assert Balanced(Branch(g.left, g.elem, g.key, true, P.left), h);
    FlatPlug(up, Step(p', t'));
    FlatPlug(up, Step(g, Step(p, t)));
  }

  // ----- balance after a removal ------------------------------------------------------

  /** t is one black node short of what p expects. */
  ghost predicate Sinking(p: Path, t: Tree, h: nat) {
    NearlyBalanced(t, h) && Expects(p, h + 1)
  }

  ghost predicate Restored(p: Path, t: Tree, h: nat) {
    t.Branch? && Balanced(t, h) && Expects(p, h) && !(IsRed(t) && TopRed(p))
  }

  lemma {:induction false} PathRoot(m: Store, p: Path, child: Node?, root: Node?)
    requires LinkedPath(m, p, child, root) && !p.Top?
    ensures root != null && root in PathNodes(p)
  {
    assert LinkedPath(m, p.up, p.elem, root);
    if !p.up.Top? {
      PathRoot(m, p.up, p.elem, root);
    }
  }

  lemma RootPlace(m: Store, root: Node?, p: Path, t: Tree)
    requires Focus(m, root, p, t)
    ensures root == Root(t) <==> p.Top?
  {
    if !p.Top? {
      PathRoot(m, p, Root(t), root);
    }
  }

  lemma ShortSide(m: Store, root: Node?, p: Path, t: Tree, h: nat)
    requires Focus(m, root, p, t) && Sinking(p, t, h) && !p.Top?
    ensures p.InLeft? <==> m[p.elem].left == Root(t)
  {
  }

  lemma SinkDone(p: Path, t: Tree, h: nat)
    requires Sinking(p, t, h) && (IsRed(t) || p.Top?)
    ensures RedBlack(Plug(p, if t.Branch? then Painted(t, false) else t))
  {
    if IsRed(t) {
      assert Balanced(Painted(t, false), h + 1);
      var H := PlugBalanced(p, Painted(t, false), h + 1);
    } else {
      assert Balanced(t, h);
    }
  }

  /** The sibling that the fix-up dereferences is never NULL. */
  lemma SiblingExistsLeft(p: Path, t: Tree, h: nat)
    requires Sinking(p, t, h) && p.InLeft?
    ensures p.right.Branch?
    ensures IsRed(p.right) ==> p.right.left.Branch?
  {
    assert Balanced(p.right, h + 1);
    if IsRed(p.right) {
      assert Balanced(p.right.left, h + 1);
    }
  }

  lemma SinkRotatedLeft(p: Path, t: Tree, h: nat) returns (p': Path)
    requires Sinking(p, t, h) && !IsRed(t) && p.InLeft? && IsRed(p.right)
    ensures p'.InLeft? && p'.elem == p.elem && p'.red && !IsRed(p'.right) && Sinking(p', t, h)
    ensures p'.up.InLeft? && p'.up.up == p.up && Step(p'.up, Step(p', t)) == LiftedRight(Step(p, t))
    ensures Flat(Plug(p', t)) == Flat(Plug(p, t))
  {
    var S := p.right;
    assert Balanced(S.left, h + 1) && Balanced(S.right, h + 1) && Expects(p.up, h + 2);
    var o := InLeft(S.elem, S.key, false, S.right, p.up);
    assert Expects(o, h + 1);
    p' := InLeft(p.elem, p.key, true, S.left, o);
    FlatPlug(p.up, Step(p, t));
    FlatPlug(p.up, Step(o, Step(p', t)));
  }

  lemma SinkPushedLeft(p: Path, t: Tree, h: nat) returns (h': nat)
    requires Sinking(p, t, h) && !IsRed(t) && p.InLeft? && !IsRed(p.right) && p.right.Branch?
    requires !IsRed(p.right.left) && !IsRed(p.right.right)
    ensures var t' := Branch(t, p.elem, p.key, p.red, Painted(p.right, true));
      Sinking(p.up, t', h') && Flat(Plug(p.up, t')) == Flat(Plug(p, t))
  {
    var t' := Branch(t, p.elem, p.key, p.red, Painted(p.right, true));
    assert Balanced(t, h) && Balanced(Painted(p.right, true), h);
    h' := if p.red then h else h + 1;
    FlatPlug(p.up, Step(p, t));
    FlatPlug(p.up, t');
  }

  /** After the inner rotation the far nephew is the red one. */
  lemma SinkTurnedLeft(p: Path, t: Tree, h: nat)
    requires Sinking(p, t, h) && p.InLeft? && p.right.Branch? && !p.right.red
    requires IsRed(p.right.left) && !IsRed(p.right.right)
    ensures var S := LiftedLeft(p.right);
      Balanced(S, h + 1) && !IsRed(S) && IsRed(S.right)
  {
    var o := p.right;
    var S := LiftedLeft(o);
    assert Balanced(o.left, h) && Balanced(o.left.left, h) && Balanced(o.left.right, h);
    assert Balanced(S.right, h);
  }

  ghost function DyedLeft(T: Tree): Tree
    requires T.Branch? && T.right.Branch? && T.right.right.Branch?
  {
    var S := T.right;
    Branch(T.left, T.elem, T.key, false, Branch(S.left, S.elem, S.key, T.red, Painted(S.right, false)))
  }

  lemma DyeLeftFocus(m: Store, root: Node?, up: Path, T: Tree)
    requires Focus(m, root, up, T) && T.Branch? && T.right.Branch? && T.right.right.Branch?
    ensures var S := T.right;
      && T.elem in m && S.elem in m && S.right.elem in m
      && Focus(WithRed(WithRed(WithRed(m, S.elem, T.red), T.elem, false), S.right.elem, false), root, up,
               DyedLeft(T))
  {
    var S, S1 := T.right, Painted(T.right, T.red);
    var m1 := WithRed(m, S.elem, T.red);
    PaintedRight(m, root, up, T, T.red);
    PaintedFocus(m1, root, up, T.(right := S1), false);
    var m2 := WithRed(m1, T.elem, false);
    var q := InRight(T.left, T.elem, T.key, false, up);
    OneUp(m2, root, q, S1);
    PaintedRight(m2, root, q, S1, false);
    OneUp(WithRed(m2, S.right.elem, false), root, q, S1.(right := Painted(S.right, false)));
  }

  ghost function SettledLeft(T: Tree): (r: Tree)
    requires T.Branch? && T.right.Branch? && T.right.right.Branch?
    ensures Flat(r) == Flat(T)
  {
    LeftRotated(DyedLeft(T))
  }

  lemma SinkSettledLeft(p: Path, t: Tree, h: nat, S: Tree) returns (h': nat)
    requires Sinking(p, t, h) && !IsRed(t) && p.InLeft?
    requires Flat(S) == Flat(p.right) && Balanced(S, h + 1) && S.Branch? && !S.red && IsRed(S.right)
    ensures var T := SettledLeft(Branch(t, p.elem, p.key, p.red, S));
      Restored(p.up, T, h') && Flat(Plug(p.up, T)) == Flat(Plug(p, t))
  {
    var T0 := Branch(t, p.elem, p.key, p.red, S);
    var T := SettledLeft(T0);
    assert Balanced(t, h) && Balanced(S.left, h) && Balanced(S.right, h);
    assert Balanced(T.left, h + 1) && Balanced(T.right, h + 1);
    h' := if p.red then h + 1 else h + 2;
    FlatPlug(p.up, Step(p, t));
    FlatPlug(p.up, T);
  }

  /** The sibling that the fix-up dereferences is never NULL. */
  lemma SiblingExistsRight(p: Path, t: Tree, h: nat)
    requires Sinking(p, t, h) && p.InRight?
    ensures p.left.Branch?
    ensures IsRed(p.left) ==> p.left.right.Branch?
  {
    assert Balanced(p.left, h + 1);
    if IsRed(p.left) {
      assert Balanced(p.left.right, h + 1);
    }
  }

  lemma SinkRotatedRight(p: Path, t: Tree, h: nat) returns (p': Path)
    requires Sinking(p, t, h) && !IsRed(t) && p.InRight? && IsRed(p.left)
    ensures p'.InRight? && p'.elem == p.elem && p'.red && !IsRed(p'.left) && Sinking(p', t, h)
    ensures p'.up.InRight? && p'.up.up == p.up && Step(p'.up, Step(p', t)) == LiftedLeft(Step(p, t))
    ensures Flat(Plug(p', t)) == Flat(Plug(p, t))
  {
    var S := p.left;
    assert Balanced(S.right, h + 1) && Balanced(S.left, h + 1) && Expects(p.up, h + 2);
    var o := InRight(S.left, S.elem, S.key, false, p.up);
    assert Expects(o, h + 1);
    p' := InRight(S.right, p.elem, p.key, true, o);
    FlatPlug(p.up, Step(p, t));
    FlatPlug(p.up, Step(o, Step(p', t)));
  }

  lemma SinkPushedRight(p: Path, t: Tree, h: nat) returns (h': nat)
    requires Sinking(p, t, h) && !IsRed(t) && p.InRight? && !IsRed(p.left) && p.left.Branch?
    requires !IsRed(p.left.left) && !IsRed(p.left.right)
    ensures var t' := Branch(Painted(p.left, true), p.elem, p.key, p.red, t);
      Sinking(p.up, t', h') && Flat(Plug(p.up, t')) == Flat(Plug(p, t))
  {
    var t' := Branch(Painted(p.left, true), p.elem, p.key, p.red, t);
    assert Balanced(t, h) && Balanced(Painted(p.left, true), h);
    h' := if p.red then h else h + 1;
    FlatPlug(p.up, Step(p, t));
    FlatPlug(p.up, t');
  }

  /** After the inner rotation the far nephew is the red one. */
  lemma SinkTurnedRight(p: Path, t: Tree, h: nat)
    requires Sinking(p, t, h) && p.InRight? && p.left.Branch? && !p.left.red
    requires IsRed(p.left.right) && !IsRed(p.left.left)
    ensures var S := LiftedRight(p.left);
      Balanced(S, h + 1) && !IsRed(S) && IsRed(S.left)
  {
    var o := p.left;
    var S := LiftedRight(o);
    assert Balanced(o.right, h) && Balanced(o.right.left, h) && Balanced(o.right.right, h);
    assert Balanced(S.left, h);
  }

  ghost function DyedRight(T: Tree): Tree
    requires T.Branch? && T.left.Branch? && T.left.left.Branch?
  {
    var S := T.left;
    Branch(Branch(Painted(S.left, false), S.elem, S.key, T.red, S.right), T.elem, T.key, false, T.right)
  }

  lemma DyeRightFocus(m: Store, root: Node?, up: Path, T: Tree)
    requires Focus(m, root, up, T) && T.Branch? && T.left.Branch? && T.left.left.Branch?
    ensures var S := T.left;
      && T.elem in m && S.elem in m && S.left.elem in m
      && Focus(WithRed(WithRed(WithRed(m, S.elem, T.red), T.elem, false), S.left.elem, false), root, up,
               DyedRight(T))
  {
    var S, S1 := T.left, Painted(T.left, T.red);
    var m1 := WithRed(m, S.elem, T.red);
    PaintedLeft(m, root, up, T, T.red);
    PaintedFocus(m1, root, up, T.(left := S1), false);
    var m2 := WithRed(m1, T.elem, false);
    var q := InLeft(T.elem, T.key, false, T.right, up);
    OneUp(m2, root, q, S1);
    PaintedLeft(m2, root, q, S1, false);
    OneUp(WithRed(m2, S.left.elem, false), root, q, S1.(left := Painted(S.left, false)));
  }

  ghost function SettledRight(T: Tree): (r: Tree)
    requires T.Branch? && T.left.Branch? && T.left.left.Branch?
    ensures Flat(r) == Flat(T)
  {
    RightRotated(DyedRight(T))
  }

  lemma SinkSettledRight(p: Path, t: Tree, h: nat, S: Tree) returns (h': nat)
    requires Sinking(p, t, h) && !IsRed(t) && p.InRight?
    requires Flat(S) == Flat(p.left) && Balanced(S, h + 1) && S.Branch? && !S.red && IsRed(S.left)
    ensures var T := SettledRight(Branch(S, p.elem, p.key, p.red, t));
      Restored(p.up, T, h') && Flat(Plug(p.up, T)) == Flat(Plug(p, t))
  {
    var T0 := Branch(S, p.elem, p.key, p.red, t);
    var T := SettledRight(T0);
    assert Balanced(t, h) && Balanced(S.left, h) && Balanced(S.right, h);
    assert Balanced(T.left, h + 1) && Balanced(T.right, h + 1);
    h' := if p.red then h + 1 else h + 2;
    FlatPlug(p.up, Step(p, t));
    FlatPlug(p.up, T);
  }

  // ----- walking down, adding a leaf ----------------------------------------------------

  lemma OrderAround(a: seq<Entry>, l: seq<Entry>, e: Entry, r: seq<Entry>, b: seq<Entry>)
    requires Increasing(a + (l + [e] + r) + b)
    ensures AllBelow(l, e.key) && AllAbove(r, e.key)
  {
    var s, j := a + (l + [e] + r) + b, |a| + |l|;
    assert s[j] == e;
    assert forall i :: 0 <= i < |l| ==> l[i] == s[|a| + i];
    assert forall i :: 0 <= i < |r| ==> r[i] == s[j + 1 + i];
  }

  lemma KeyOrder(p: Path, t: Tree)
    requires t.Branch? && Increasing(Flat(Plug(p, t)))
    ensures AllBelow(Flat(t.left), t.key) && AllAbove(Flat(t.right), t.key)
  {
    FlatPlug(p, t);
    OrderAround(Before(p), Flat(t.left), Entry(t.elem, t.key), Flat(t.right), After(p));
  }

  /** Every entry shown in key order carries the key field of its node. */
  lemma {:induction false} KeyOf(m: Store, t: Tree, q: Node?, e: Entry)
    requires Linked(m, t, q) && e in Flat(t)
    ensures e.node in m && m[e.node].key == e.key
  {
    if e in Flat(t.left) {
      KeyOf(m, t.left, t.elem, e);
    } else if e in Flat(t.right) {
      KeyOf(m, t.right, t.elem, e);
    }
  }

  lemma GoLeft(m: Store, root: Node?, p: Path, t: Tree, k: int) returns (p': Path, t': Tree)
    requires Focus(m, root, p, t) && t.Branch? && k < t.key && Increasing(Flat(Plug(p, t)))
    requires AllBelow(Before(p), k) && AllAbove(After(p), k)
    ensures p' == InLeft(t.elem, t.key, t.red, t.right, p) && t' == t.left && Focus(m, root, p', t')
    ensures AllBelow(Before(p'), k) && AllAbove(After(p'), k)
  {
    p', t' := InLeft(t.elem, t.key, t.red, t.right, p), t.left;
    OneUp(m, root, p', t');
    KeyOrder(p, t);
  }

  lemma GoRight(m: Store, root: Node?, p: Path, t: Tree, k: int) returns (p': Path, t': Tree)
    requires Focus(m, root, p, t) && t.Branch? && k > t.key && Increasing(Flat(Plug(p, t)))
    requires AllBelow(Before(p), k) && AllAbove(After(p), k)
    ensures p' == InRight(t.left, t.elem, t.key, t.red, p) && t' == t.right && Focus(m, root, p', t')
    ensures AllBelow(Before(p'), k) && AllAbove(After(p'), k)
  {
    p', t' := InRight(t.left, t.elem, t.key, t.red, p), t.right;
    OneUp(m, root, p', t');
    KeyOrder(p, t);
  }

  lemma IncreasingBetween(a: seq<Entry>, b: seq<Entry>, e: Entry)
    requires Increasing(a + b) && AllBelow(a, e.key) && AllAbove(b, e.key)
    ensures Increasing(a + [e] + b)
  {
    var s, u := a + [e] + b, a + b;
    forall i, j | 0 <= i < j < |s| ensures s[i].key < s[j].key {
      if i != |a| && j != |a| {
        assert s[i] == u[if i < |a| then i else i - 1] && s[j] == u[if j < |a| then j else j - 1];
      } else if j == |a| {
        assert s[i] in a;
      } else {
        assert s[j] == b[j - |a| - 1];
      }
    }
  }

  lemma ListAdded(a: seq<Entry>, b: seq<Entry>, e: Entry)
    requires AllBelow(a, e.key) && AllAbove(b, e.key) && Increasing(a + b)
    ensures a + [e] + b == Inserted(a + b, e) && Increasing(a + [e] + b) && e in a + [e] + b
    ensures forall x :: x in a + b ==> x.key != e.key
  {
    InsertedBetween(a, b, e);
    IncreasingBetween(a, b, e);
    assert (a + [e] + b)[|a|] == e;
    assert forall x :: x in a + b ==> x in a || x in b;
  }

  /** A leaf in the place the descent found is an insertion into the sorted list. */
  lemma LeafAdded(p: Path, e: Entry)
    requires AllBelow(Before(p), e.key) && AllAbove(After(p), e.key) && Increasing(Flat(Plug(p, Leaf)))
    ensures var s := Flat(Plug(p, Branch(Leaf, e.node, e.key, true, Leaf)));
      s == Inserted(Flat(Plug(p, Leaf)), e) && Increasing(s) && e in s
    ensures forall x :: x in Flat(Plug(p, Leaf)) ==> x.key != e.key
  {
    LeafFlat(p, e);
    ListAdded(Before(p), After(p), e);
  }

  lemma LeafFlat(p: Path, e: Entry)
    ensures Flat(Plug(p, Leaf)) == Before(p) + After(p)
    ensures Flat(Plug(p, Branch(Leaf, e.node, e.key, true, Leaf))) == Before(p) + [e] + After(p)
  {
    OneEntry(e);
    FlatPlug(p, Leaf);
    FlatPlug(p, Branch(Leaf, e.node, e.key, true, Leaf));
    assert Before(p) + [] == Before(p);
  }

  lemma OneEntry(e: Entry)
    ensures Flat(Branch(Leaf, e.node, e.key, true, Leaf)) == [e]
  {
    assert Flat(Branch(Leaf, e.node, e.key, true, Leaf)) == [] + [e] + [];
  }

  lemma NewLeaf(p: Path, n: Node, k: int) returns (h: nat)
    requires RedBlack(Plug(p, Leaf))
    ensures Climbing(p, Branch(Leaf, n, k, true, Leaf), h)
  {
    var H :| Balanced(Plug(p, Leaf), H);
    h := UnplugBalanced(p, Leaf, H);
    assert Balanced(Leaf, h);
  }

  // ----- cutting a node out --------------------------------------------------------------

  /** One entry leaves the sorted list. */
  lemma EntryCut(m: Store, t: Tree, a: seq<Entry>, e: Entry, b: seq<Entry>)
    requires Linked(m, t, null) && Flat(t) == a + [e] + b && Increasing(Flat(t))
    ensures Without(Flat(t), e.node) == a + b && Increasing(a + b)
  {
    forall x | x in a || x in b ensures x.node != e.node {
      OtherNode(m, t, a, e, b, x);
    }
    WithoutBetween(a, b, e);
    JoinIncreasing(a, e, b);
  }

  lemma OtherNode(m: Store, t: Tree, a: seq<Entry>, e: Entry, b: seq<Entry>, x: Entry)
    requires Linked(m, t, null) && Flat(t) == a + [e] + b && Increasing(Flat(t)) && (x in a || x in b)
    ensures x.node != e.node
  {
    OtherKey(a, e, b, x);
    KeyOf(m, t, null, e);
    KeyOf(m, t, null, x);
  }

  lemma OtherKey(a: seq<Entry>, e: Entry, b: seq<Entry>, x: Entry)
    requires Increasing(a + [e] + b) && (x in a || x in b)
    ensures x in a + [e] + b && e in a + [e] + b && x.key != e.key
  {
    var s := a + [e] + b;
    assert s[|a|] == e;
    if x in a {
      var i :| 0 <= i < |a| && a[i] == x;
      assert s[i] == x;
    } else {
      var i :| 0 <= i < |b| && b[i] == x;
      assert s[|a| + 1 + i] == x;
    }
  }

  lemma JoinIncreasing(a: seq<Entry>, e: Entry, b: seq<Entry>)
    requires Increasing(a + [e] + b)
    ensures Increasing(a + b)
  {
    var s, r := a + [e] + b, a + b;
    assert forall i :: 0 <= i < |r| ==> r[i] == s[if i < |a| then i else i + 1];
  }

  lemma Regroup(a: seq<Entry>, l: seq<Entry>, e: Entry, r: seq<Entry>, b: seq<Entry>)
    ensures a + (l + [e] + r) + b == (a + l) + [e] + (r + b)
    ensures a + (l + [e] + r) + b == (a + l) + (([e] + r) + b)
  {
  }

  lemma CutOne(p: Path, t: Tree, c: Tree) returns (h: nat)
    requires RedBlack(Plug(p, t))
    requires t.Branch? && ((t.left.Leaf? && c == t.right) || (t.right.Leaf? && c == t.left))
    ensures !t.red ==> Sinking(p, c, h)
    ensures t.red ==> RedBlack(Plug(p, c))
  {
    var H :| Balanced(Plug(p, t), H);
    h := UnplugBalanced(p, t, H);
    assert Balanced(t.left, if t.red then h else h - 1);
    if t.red {
      var H' := PlugBalanced(p, c, h);
    } else {
      h := h - 1;
    }
  }

  lemma CutOneList(m: Store, p: Path, t: Tree, c: Tree)
    requires Linked(m, Plug(p, t), null) && Increasing(Flat(Plug(p, t)))
    requires t.Branch? && ((t.left.Leaf? && c == t.right) || (t.right.Leaf? && c == t.left))
    ensures Flat(Plug(p, c)) == Without(Flat(Plug(p, t)), t.elem) && Increasing(Flat(Plug(p, c)))
  {
    AroundNode(p, t);
    CutOneFlat(p, t, c);
    EntryCut(m, Plug(p, t), Before(p) + Flat(t.left), Entry(t.elem, t.key), Flat(t.right) + After(p));
  }

  /** The whole list around the node of t. */
  lemma AroundNode(p: Path, t: Tree)
    requires t.Branch?
    ensures Flat(Plug(p, t)) == (Before(p) + Flat(t.left)) + [Entry(t.elem, t.key)] + (Flat(t.right) + After(p))
  {
    FlatPlug(p, t);
    Regroup(Before(p), Flat(t.left), Entry(t.elem, t.key), Flat(t.right), After(p));
  }

  lemma CutOneFlat(p: Path, t: Tree, c: Tree)
    requires t.Branch? && ((t.left.Leaf? && c == t.right) || (t.right.Leaf? && c == t.left))
    ensures Flat(Plug(p, c)) == (Before(p) + Flat(t.left)) + (Flat(t.right) + After(p))
  {
    FlatPlug(p, c);
    DropEmpty(Before(p), Flat(c), After(p));
  }

  lemma DropEmpty(a: seq<Entry>, m: seq<Entry>, b: seq<Entry>)
    ensures a + m + b == (a + []) + (m + b) && a + m + b == (a + m) + ([] + b)
  {
  }

  lemma {:induction false} ExpectsSwapped(s: Path, q: Path, q': Path, h: nat)
    requires q.InRight? && q'.InRight? && q.left == q'.left && q.red == q'.red && q.up == q'.up
    ensures Expects(Append(s, q), h) ==> Expects(Append(s, q'), h)
    ensures TopRed(Append(s, q)) == TopRed(Append(s, q'))
    decreases s
  {
    match s
    case Top =>
    case InLeft(_, _, c, _, up) => ExpectsSwapped(up, q, q', if c then h else h + 1);
    case InRight(_, _, _, c, up) => ExpectsSwapped(up, q, q', if c then h else h + 1);
  }

  lemma OwnRecord(m: Store, root: Node?, p: Path, t: Tree)
    requires Focus(m, root, p, t) && t.Branch?
    ensures t.elem in m && m[t.elem].key == t.key
  {
  }

  lemma OneLess(s: set<Node>, o: Node, n: Node)
    requires n in s && o in s - {n}
    ensures s - {n} - {o} + {n} == s - {o}
  {
  }

  /** The path to the place the successor c of t left, once it took the place of t. */
  ghost function SwapPath(p: Path, t: Tree, s: Path, c: Tree): Path
    requires t.Branch? && c.Branch?
  {
    Append(s, InRight(t.left, c.elem, c.key, t.red, p))
  }

  lemma CutTwoFlat(p: Path, t: Tree, s: Path, c: Tree)
    requires t.Branch? && Plug(s, c) == t.right && Before(s) == [] && c.Branch? && c.left.Leaf?
    ensures Flat(Plug(SwapPath(p, t, s, c), c.right)) == (Before(p) + Flat(t.left)) + (Flat(t.right) + After(p))
  {
    var q, x, e := InRight(t.left, c.elem, c.key, t.red, p), Plug(s, c.right), Entry(c.elem, c.key);
    PlugAppend(s, q, c.right);
    assert Plug(q, x) == Plug(p, Branch(t.left, e.node, e.key, t.red, x));
    assert Flat(t.right) == [e] + Flat(x) by { SuccessorFlat(s, c); }
    RootFlat(p, t.left, e, t.red, x);
  }

  lemma RootFlat(p: Path, l: Tree, e: Entry, red: bool, r: Tree)
    ensures Flat(Plug(p, Branch(l, e.node, e.key, red, r))) == (Before(p) + Flat(l)) + (([e] + Flat(r)) + After(p))
  {
    FlatPlug(p, Branch(l, e.node, e.key, red, r));
    Regroup(Before(p), Flat(l), e, Flat(r), After(p));
  }

  lemma SuccessorFlat(s: Path, c: Tree)
    requires Before(s) == [] && c.Branch? && c.left.Leaf?
    ensures Flat(Plug(s, c)) == [Entry(c.elem, c.key)] + Flat(Plug(s, c.right))
  {
    FlatPlug(s, c);
    FlatPlug(s, c.right);
    FirstOut(Entry(c.elem, c.key), Flat(c.right), After(s));
  }

  lemma FirstOut(e: Entry, r: seq<Entry>, b: seq<Entry>)
    ensures [] + ([] + [e] + r) + b == [e] + ([] + r + b)
  {
  }

  lemma CutTwo(p: Path, t: Tree, s: Path, c: Tree) returns (h: nat)
    requires RedBlack(Plug(p, t))
    requires t.Branch? && Plug(s, c) == t.right && c.Branch? && c.left.Leaf?
    ensures var P := SwapPath(p, t, s, c); if c.red then RedBlack(Plug(P, c.right)) else Sinking(P, c.right, h)
  {
    var q, q' := InRight(t.left, t.elem, t.key, t.red, p), InRight(t.left, c.elem, c.key, t.red, p);
    PlugAppend(s, q, c);
    var H :| Balanced(Plug(p, t), H);
    h := UnplugBalanced(Append(s, q), c, H);
    ExpectsSwapped(s, q, q', h);
    if c.red {
      var H' := PlugBalanced(Append(s, q'), c.right, h);
    } else {
      h := h - 1;
    }
  }

  lemma CutTwoList(m: Store, p: Path, t: Tree, s: Path, c: Tree)
    requires Linked(m, Plug(p, t), null) && Increasing(Flat(Plug(p, t)))
    requires t.Branch? && Plug(s, c) == t.right && Before(s) == [] && c.Branch? && c.left.Leaf?
    ensures var w := Flat(Plug(SwapPath(p, t, s, c), c.right));
      w == Without(Flat(Plug(p, t)), t.elem) && Increasing(w)
  {
    AroundNode(p, t);
    CutTwoFlat(p, t, s, c);
    EntryCut(m, Plug(p, t), Before(p) + Flat(t.left), Entry(t.elem, t.key), Flat(t.right) + After(p));
  }

  // ----- walking in key order -------------------------------------------------------------

  ghost function NodeAt(s: seq<Entry>, i: nat): Node? {
    if i < |s| then s[i].node else null
  }

  ghost function NodeList(s: seq<Entry>): seq<Node> {
    seq(|s|, i requires 0 <= i < |s| => s[i].node)
  }

  ghost function Keep(s: seq<Entry>, kill: set<Node>): seq<Entry> {
    if s == [] then []
    else Keep(s[..|s| - 1], kill) + if s[|s| - 1].node in kill then [] else [s[|s| - 1]]
  }

  /** A traversal of s has visited the first i nodes and removed those in kill. */
  ghost predicate Halfway(s: seq<Entry>, i: nat, kill: set<Node>, visited: seq<Node>, now: seq<Entry>) {
    i <= |s| && visited == NodeList(s[..i]) && now == Keep(s[..i], kill) + s[i..]
  }

  lemma KeepStart(s: seq<Entry>, kill: set<Node>)
    ensures Halfway(s, 0, kill, [], s)
  {
    assert NodeList(s[..0]) == [] && Keep(s[..0], kill) + s[0..] == s;
  }

  lemma KeepEnd(s: seq<Entry>, i: nat, kill: set<Node>, visited: seq<Node>, now: seq<Entry>)
    requires Halfway(s, i, kill, visited, now) && NodeAt(s, i) == null
    ensures visited == NodeList(s) && now == Keep(s, kill)
  {
    assert s[..|s|] == s && Keep(s, kill) + s[|s|..] == Keep(s, kill);
  }

  lemma KeepOne(s: seq<Entry>, i: nat, kill: set<Node>)
    requires i < |s|
    ensures NodeList(s[..i + 1]) == NodeList(s[..i]) + [s[i].node]
    ensures NodeAt(s[i + 1..], 0) == NodeAt(s, i + 1)
    ensures var a, b := Keep(s[..i], kill), s[i + 1..];
      && a + s[i..] == a + [s[i]] + b
      && Keep(s[..i + 1], kill) + b == if s[i].node in kill then a + b else a + [s[i]] + b
  {
    assert s[..i + 1][..i] == s[..i];
    assert s[i..] == [s[i]] + s[i + 1..];
  }

  /** Removing every node empties the tree. */
  lemma {:induction false} KeepNone(s: seq<Entry>, kill: set<Node>)
    requires forall e :: e in s ==> e.node in kill
    ensures Keep(s, kill) == []
  {
    if s != [] {
      assert s[|s| - 1] in s;
      KeepNone(s[..|s| - 1], kill);
    }
  }

  lemma FirstAfter(p: Path)
    ensures p.Top? ==> After(p) == []
    ensures p.InLeft? ==> After(p) != [] && After(p)[0] == Entry(p.elem, p.key)
    ensures p.InRight? ==> After(p) == After(p.up)
  {
  }

  /** The entry after the node of t is the first one of its right subtree, or
      of what follows the subtree. */
  lemma NextPlace(m: Store, p: Path, t: Tree, r: Node?)
    requires Linked(m, Plug(p, t), null) && Increasing(Flat(Plug(p, t))) && t.Branch?
    requires r == if t.right.Branch? then NodeAt(Flat(t.right), 0) else NodeAt(After(p), 0)
    ensures forall i :: 0 <= i < |Flat(Plug(p, t))| && Flat(Plug(p, t))[i].node == t.elem
              ==> r == NodeAt(Flat(Plug(p, t)), i + 1)
  {
    var s, e := Flat(Plug(p, t)), Entry(t.elem, t.key);
    var a, b := Before(p) + Flat(t.left), Flat(t.right) + After(p);
    AroundNode(p, t);
    assert s[|a|] == e && r == NodeAt(b, 0) && (b != [] ==> s[|a| + 1] == b[0]);
    KeyOf(m, Plug(p, t), null, e);
    forall i | 0 <= i < |s| && s[i].node == t.elem ensures i == |a| {
      KeyOf(m, Plug(p, t), null, s[i]);
    }
  }
}
