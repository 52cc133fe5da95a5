/** The red-black tree operations of src/common/tree.h on heap nodes.

    Every method rewrites left, right, parent and red fields where the macros
    do.  The ghost field mem is the snapshot of those fields, shape the picture
    of the whole tree.
  */
module RbTree {
  import opened RbShape
  import opened RbLinks
  import opened RbBalance

  ghost predicate Agrees(m: Store)
    reads m.Keys
  {
    forall n {:trigger n.left} {:trigger n.right} {:trigger n.parent} {:trigger n.red} {:trigger n.key} ::
      n in m ==> Rec(n.left, n.right, n.parent, n.red, n.key) == m[n]
  }

  ghost predicate Has(m: Store, n: Node?) {
    n != null && n in m
  }

  ghost predicate HasOrNull(m: Store, n: Node?) {
    n == null || n in m
  }

  class Head {
    var root: Node?
    ghost var mem: Store
    ghost var shape: Tree

    // ----- one field at a time ---------------------------------------------------

    method SetLeft(n: Node, v: Node?)
      requires Agrees(mem) && n in mem
      modifies this`mem, n`left
      ensures Agrees(mem) && mem == old(mem)[n := old(mem)[n].(left := v)]
    {
      n.left := v;
      mem := mem[n := mem[n].(left := v)];
    }

    method SetRight(n: Node, v: Node?)
      requires Agrees(mem) && n in mem
      modifies this`mem, n`right
      ensures Agrees(mem) && mem == old(mem)[n := old(mem)[n].(right := v)]
    {
      n.right := v;
      mem := mem[n := mem[n].(right := v)];
    }

    method SetParent(n: Node, v: Node?)
      requires Agrees(mem) && n in mem
      modifies this`mem, n`parent
      ensures Agrees(mem) && mem == old(mem)[n := old(mem)[n].(parent := v)]
    {
      n.parent := v;
      mem := mem[n := mem[n].(parent := v)];
    }

    method SetRed(n: Node, c: bool)
      requires Agrees(mem) && n in mem
      modifies this`mem, n`red
      ensures Agrees(mem) && mem == WithRed(old(mem), n, c)
    {
      n.red := c;
      mem := WithRed(mem, n, c);
    }

    /** The pointer to was, in its parent q or in the head, becomes now. */
    method SetChild(q: Node?, was: Node?, now: Node?)
      requires Agrees(mem) && (q == null || q in mem)
      modifies this`mem, this`root, mem.Keys`left, mem.Keys`right
      ensures Agrees(mem) && mem == WithChild(old(mem), q, was, now)
      ensures root == NewRoot(old(root), q, now)
    {
      if q != null {
        if q.left == was {
          SetLeft(q, now);
        } else {
          SetRight(q, now);
        }
      } else {
        root := now;
      }
    }

    // ----- rotations ---------------------------------------------------------------

    /** RB_ROTATE_LEFT */
    method TurnLeft(elm: Node) returns (tmp: Node)
      requires Agrees(mem) && elm in mem && Has(mem, mem[elm].right)
      requires HasOrNull(mem, mem[elm].parent) && HasOrNull(mem, mem[mem[elm].right].left)
      requires mem[elm].right != elm && mem[mem[elm].right].left != elm
      modifies this`mem, this`root, mem.Keys
      ensures tmp == old(elm.right) && Agrees(mem) && mem == LeftTurned(old(mem), elm, tmp)
      ensures root == NewRoot(old(root), old(mem)[elm].parent, tmp)
    {
      tmp := elm.right;
      SetRight(elm, tmp.left);
      if elm.right != null {
        SetParent(elm.right, elm);
      }
      SetParent(tmp, elm.parent);
      SetChild(elm.parent, elm, tmp);
      SetLeft(tmp, elm);
      SetParent(elm, tmp);
    }

    method RotateLeft(elm: Node, ghost p: Path, ghost t: Tree) returns (tmp: Node)
      requires Agrees(mem) && Focus(mem, root, p, t)
      requires t.Branch? && t.elem == elm && t.right.Branch?
      modifies this`mem, this`root, mem.Keys
      ensures tmp == t.right.elem && mem.Keys == old(mem.Keys)
      ensures Agrees(mem) && Focus(mem, root, p, LeftRotated(t))
    {
      LeftTurnedFocus(mem, root, p, t);
      assert Linked(mem, t.right, elm) && Linked(mem, t.right.left, t.right.elem);
      tmp := TurnLeft(elm);
    }

    /** RB_ROTATE_RIGHT */
    method TurnRight(elm: Node) returns (tmp: Node)
      requires Agrees(mem) && elm in mem && Has(mem, mem[elm].left)
      requires HasOrNull(mem, mem[elm].parent) && HasOrNull(mem, mem[mem[elm].left].right)
      requires mem[elm].left != elm && mem[mem[elm].left].right != elm
      modifies this`mem, this`root, mem.Keys
      ensures tmp == old(elm.left) && Agrees(mem) && mem == RightTurned(old(mem), elm, tmp)
      ensures root == NewRoot(old(root), old(mem)[elm].parent, tmp)
    {
      tmp := elm.left;
      SetLeft(elm, tmp.right);
      if elm.left != null {
        SetParent(elm.left, elm);
      }
      SetParent(tmp, elm.parent);
      SetChild(elm.parent, elm, tmp);
      SetRight(tmp, elm);
      SetParent(elm, tmp);
    }

    method RotateRight(elm: Node, ghost p: Path, ghost t: Tree) returns (tmp: Node)
      requires Agrees(mem) && Focus(mem, root, p, t)
      requires t.Branch? && t.elem == elm && t.left.Branch?
      modifies this`mem, this`root, mem.Keys
      ensures tmp == t.left.elem && mem.Keys == old(mem.Keys)
      ensures Agrees(mem) && Focus(mem, root, p, RightRotated(t))
    {
      RightTurnedFocus(mem, root, p, t);
      assert Linked(mem, t.left, elm) && Linked(mem, t.left.right, t.left.elem);
      tmp := TurnRight(elm);
    }


    /** The uncle is red: it and parent turn black, gparent red. */
    method Recolor(uncle: Node, parent: Node, gparent: Node, ghost up: Path, ghost T: Tree)
      requires Agrees(mem) && Focus(mem, root, up, T)
      requires T.Branch? && T.left.Branch? && T.right.Branch? && T.elem == gparent
      requires (uncle == T.right.elem && parent == T.left.elem) || (uncle == T.left.elem && parent == T.right.elem)
      modifies this`mem, mem.Keys
      ensures Agrees(mem) && Focus(mem, root, up, Recolored(T)) && mem.Keys == old(mem.Keys)
    {
      AllPainted(mem, root, up, T, uncle, parent, false, true);
      SetRed(uncle, false);
      SetRed(parent, false);
      SetRed(gparent, true);
      assert mem == WithRed(WithRed(WithRed(old(mem), uncle, false), parent, false), gparent, true);
    }

    /** SET_BLACKRED(mid, gparent), then RB_ROTATE_RIGHT at gparent. */
    method LiftLeft(mid: Node, gparent: Node, ghost up: Path, ghost T: Tree)
      requires Agrees(mem) && Focus(mem, root, up, T)
      requires T.Branch? && T.left.Branch? && T.elem == gparent && T.left.elem == mid
      modifies this`mem, this`root, mem.Keys
      ensures Agrees(mem) && Focus(mem, root, up, LiftedLeft(T)) && mem.Keys == old(mem.Keys)
    {
      PaintedLeft(mem, root, up, T, false);
      SetRed(mid, false);
      ghost var T1 := T.(left := Painted(T.left, false));
      PaintedFocus(mem, root, up, T1, true);
      SetRed(gparent, true);
      var _ := RotateRight(gparent, up, Painted(T1, true));
    }

    /** SET_BLACKRED(mid, gparent), then RB_ROTATE_LEFT at gparent. */
    method LiftRight(mid: Node, gparent: Node, ghost up: Path, ghost T: Tree)
      requires Agrees(mem) && Focus(mem, root, up, T)
      requires T.Branch? && T.right.Branch? && T.elem == gparent && T.right.elem == mid
      modifies this`mem, this`root, mem.Keys
      ensures Agrees(mem) && Focus(mem, root, up, LiftedRight(T)) && mem.Keys == old(mem.Keys)
    {
      PaintedRight(mem, root, up, T, false);
      SetRed(mid, false);
      ghost var T1 := T.(right := Painted(T.right, false));
      PaintedFocus(mem, root, up, T1, true);
      SetRed(gparent, true);
      var _ := RotateLeft(gparent, up, Painted(T1, true));
    }

    /** One pass of the INSERT_COLOR loop, parent being a left child. */
    method InsertFixLeft(elm: Node, parent: Node, gparent: Node, ghost p: Path, ghost t: Tree, ghost h: nat)
      returns (next: Node, ghost p': Path, ghost t': Tree, ghost h': nat)
      requires Agrees(mem) && Focus(mem, root, p, t) && Climbing(p, t, h)
      requires TopRed(p) && p.up.InLeft? && elm == t.elem && parent == p.elem && gparent == p.up.elem
      modifies this`mem, this`root, mem.Keys
      ensures Agrees(mem) && Focus(mem, root, p', t') && Climbing(p', t', h') && next == t'.elem
      ensures Depth(p') < Depth(p) && (p' == p.up.up || !TopRed(p')) && mem.Keys == old(mem.Keys)
      ensures Flat(Plug(p', t')) == Flat(Plug(p, t))
    {
      ghost var g, up, P := p.up, p.up.up, Step(p, t);
      OneUp(mem, root, p, t);
      OneUp(mem, root, g, P);
      var tmp := gparent.right;
      if tmp != null && tmp.red {
        Recolor(tmp, parent, gparent, up, Step(g, P));
        ClimbRecolored(p, t, h);
        next, p', t', h' := gparent, up, Recolored(Step(g, P)), h + 1;
      } else {
        var low, mid := elm, parent;
        if parent.right == elm {
          tmp := RotateLeft(parent, g, P);
          low, mid := parent, elm;
          P := LeftRotated(P);
          OneUp(mem, root, g, P);
        }
        LiftLeft(mid, gparent, up, Step(g, P));
        p', t' := ClimbLiftedLeft(p, t, h, P);
        OneUp(mem, root, p', t');
        next, h' := low, h;
      }
    }

    /** One pass of the INSERT_COLOR loop, parent being a right child. */
    method InsertFixRight(elm: Node, parent: Node, gparent: Node, ghost p: Path, ghost t: Tree, ghost h: nat)
      returns (next: Node, ghost p': Path, ghost t': Tree, ghost h': nat)
      requires Agrees(mem) && Focus(mem, root, p, t) && Climbing(p, t, h)
      requires TopRed(p) && p.up.InRight? && elm == t.elem && parent == p.elem && gparent == p.up.elem
      modifies this`mem, this`root, mem.Keys
      ensures Agrees(mem) && Focus(mem, root, p', t') && Climbing(p', t', h') && next == t'.elem
      ensures Depth(p') < Depth(p) && (p' == p.up.up || !TopRed(p')) && mem.Keys == old(mem.Keys)
      ensures Flat(Plug(p', t')) == Flat(Plug(p, t))
    {
      ghost var g, up, P := p.up, p.up.up, Step(p, t);
      OneUp(mem, root, p, t);
      OneUp(mem, root, g, P);
      var tmp := gparent.left;
      if tmp != null && tmp.red {
        Recolor(tmp, parent, gparent, up, Step(g, P));
        ClimbRecolored(p, t, h);
        next, p', t', h' := gparent, up, Recolored(Step(g, P)), h + 1;
      } else {
        var low, mid := elm, parent;
        if parent.left == elm {
          tmp := RotateRight(parent, g, P);
          low, mid := parent, elm;
          P := RightRotated(P);
          OneUp(mem, root, g, P);
        }
        LiftRight(mid, gparent, up, Step(g, P));
        p', t' := ClimbLiftedRight(p, t, h, P);
        OneUp(mem, root, p', t');
        next, h' := low, h;
      }
    }

    /** RB_INSERT_COLOR */
    method InsertColor(node: Node, ghost p0: Path, ghost t0: Tree, ghost h0: nat)
      requires Agrees(mem) && Focus(mem, root, p0, t0) && Climbing(p0, t0, h0) && node == t0.elem
      modifies this, mem.Keys
      ensures Agrees(mem) && mem.Keys == old(mem.Keys) && Focus(mem, root, Top, shape)
      ensures RedBlack(shape) && Flat(shape) == Flat(Plug(p0, t0))
    {
      var elm := node;
      ghost var p, t, h := p0, t0, h0;
      while elm.parent != null && elm.parent.red
        invariant Agrees(mem) && Focus(mem, root, p, t) && Climbing(p, t, h) && elm == t.elem
        invariant mem.Keys == old(mem.Keys) && Flat(Plug(p, t)) == Flat(Plug(p0, t0))
        decreases Depth(p)
      {
        var parent := elm.parent;
        OneUp(mem, root, p, t);
        OneUp(mem, root, p.up, Step(p, t));
        var gparent := parent.parent;
        if parent == gparent.left {
          elm, p, t, h := InsertFixLeft(elm, parent, gparent, p, t, h);
        } else {
          elm, p, t, h := InsertFixRight(elm, parent, gparent, p, t, h);
        }
      }
      Blacken(p, t, h);
    }

    /** RB_COLOR(root) = RB_BLACK, on a tree that is balanced already. */
    method Blacken(ghost p: Path, ghost t: Tree, ghost h: nat)
      requires Agrees(mem) && Focus(mem, root, p, t) && t.Branch?
      requires Balanced(t, h) && Expects(p, h) && !(IsRed(t) && TopRed(p))
      modifies this, mem.Keys
      ensures Agrees(mem) && mem.Keys == old(mem.Keys) && Focus(mem, root, Top, shape)
      ensures RedBlack(shape) && Flat(shape) == Flat(Plug(p, t))
    {
      ghost var H := PlugBalanced(p, t, h);
      Whole(mem, root, p, t);
      ghost var w := Plug(p, t);
      NonEmpty(p, t);
      PaintedFocus(mem, root, Top, w, false);
      SetRed(root, false);
      BlackRoot(w, H);
      shape := Painted(w, false);
    }

    method DyeLeft(parent: Node, tmp: Node, ghost up: Path, ghost T: Tree)
      requires Agrees(mem) && Focus(mem, root, up, T)
      requires T.Branch? && T.right.Branch? && T.right.right.Branch? && T.elem == parent && T.right.elem == tmp
      modifies this`mem, mem.Keys
      ensures Agrees(mem) && mem.Keys == old(mem.Keys)
      ensures Focus(mem, root, up, DyedLeft(T))
    {
      ghost var S := T.right;
      assert Linked(mem, S, parent) && Linked(mem, S.right, tmp);
      DyeLeftFocus(mem, root, up, T);
      SetRed(tmp, parent.red);
      SetRed(parent, false);
      if tmp.right != null {
        SetRed(tmp.right, false);
      }
      assert mem == WithRed(WithRed(WithRed(old(mem), tmp, T.red), parent, false), S.right.elem, false);
    }

    /** The far nephew is red: its colour pays for the missing black node. */
    method SettleLeft(parent: Node, tmp: Node, ghost up: Path, ghost T: Tree)
      requires Agrees(mem) && Focus(mem, root, up, T)
      requires T.Branch? && T.right.Branch? && T.right.right.Branch? && T.elem == parent && T.right.elem == tmp
      modifies this`mem, this`root, mem.Keys
      ensures Agrees(mem) && Focus(mem, root, up, SettledLeft(T)) && mem.Keys == old(mem.Keys)
    {
      DyeLeft(parent, tmp, up, T);
      var _ := RotateLeft(parent, up, DyedLeft(T));
    }

    /** The sibling is black: the rest of one pass of the REMOVE_COLOR loop. */
    method BorrowLeft(parent: Node, ghost p: Path, ghost t: Tree, ghost h: nat)
      returns (stop: bool, ghost p': Path, ghost t': Tree, ghost h': nat)
      requires Agrees(mem) && Focus(mem, root, p, t) && Sinking(p, t, h) && !IsRed(t)
      requires p.InLeft? && parent == p.elem && !IsRed(p.right)
      modifies this`mem, this`root, mem.Keys
      ensures Agrees(mem) && Focus(mem, root, p', t') && mem.Keys == old(mem.Keys)
      ensures Flat(Plug(p', t')) == Flat(Plug(p, t))
      ensures !stop ==> p' == p.up && Sinking(p', t', h') && Root(t') == parent && IsRed(t') == p.red
      ensures stop ==> Restored(p', t', h')
    {
      ghost var S, up := p.right, p.up;
      SiblingExistsLeft(p, t, h);
      OneUp(mem, root, p, t);
      ghost var q := InRight(t, p.elem, p.key, p.red, up);
      assert Linked(mem, S, parent);
      OneUp(mem, root, q, S);
      var tmp := parent.right;
      assert Linked(mem, S.left, tmp) && Linked(mem, S.right, tmp);
      if (tmp.left == null || !tmp.left.red) && (tmp.right == null || !tmp.right.red) {
        stop, p' := false, up;
        t', h' := PushLeft(tmp, p, t, h);
      } else {
        stop, p' := true, up;
        t', h' := RepayLeft(parent, tmp, p, t, h);
      }
    }

    /** Both nephews are black: the sibling turns red and the parent is short. */
    method PushLeft(sibling: Node, ghost p: Path, ghost t: Tree, ghost h: nat)
      returns (ghost t': Tree, ghost h': nat)
      requires p.InLeft? && Agrees(mem) && Sinking(p, t, h) && !IsRed(t)
      requires Focus(mem, root, InRight(t, p.elem, p.key, p.red, p.up), p.right)
      requires p.right.Branch? && !p.right.red && sibling == p.right.elem
      requires !IsRed(p.right.left) && !IsRed(p.right.right)
      modifies this`mem, mem.Keys
      ensures Agrees(mem) && Focus(mem, root, p.up, t') && mem.Keys == old(mem.Keys)
      ensures Flat(Plug(p.up, t')) == Flat(Plug(p, t)) && Sinking(p.up, t', h')
      ensures Root(t') == p.elem && IsRed(t') == p.red
    {
      ghost var q := InRight(t, p.elem, p.key, p.red, p.up);
      PaintedFocus(mem, root, q, p.right, true);
      SetRed(sibling, true);
      OneUp(mem, root, q, Painted(p.right, true));
      t' := Step(q, Painted(p.right, true));
      h' := SinkPushedLeft(p, t, h);
    }

    /** Some nephew is red: at most two rotations restore the balance. */
    method RepayLeft(parent: Node, sibling: Node, ghost p: Path, ghost t: Tree, ghost h: nat)
      returns (ghost t': Tree, ghost h': nat)
      requires p.InLeft? && Agrees(mem) && Sinking(p, t, h) && !IsRed(t)
      requires Focus(mem, root, InRight(t, p.elem, p.key, p.red, p.up), p.right)
      requires p.right.Branch? && !p.right.red && parent == p.elem && sibling == p.right.elem
      requires IsRed(p.right.left) || IsRed(p.right.right)
      modifies this`mem, this`root, mem.Keys
      ensures Agrees(mem) && Focus(mem, root, p.up, t') && mem.Keys == old(mem.Keys)
      ensures Flat(Plug(p.up, t')) == Flat(Plug(p, t)) && Restored(p.up, t', h')
    {
      var tmp := sibling;
      ghost var S := p.right;
      ghost var q := InRight(t, p.elem, p.key, p.red, p.up);
      assert Linked(mem, S.left, tmp) && Linked(mem, S.right, tmp);
      if tmp.right == null || !tmp.right.red {
        LiftLeft(tmp.left, tmp, q, S);
        SinkTurnedLeft(p, t, h);
        S := LiftedLeft(S);
        tmp := parent.right;
      }
      OneUp(mem, root, q, S);
      SettleLeft(parent, tmp, p.up, Step(q, S));
      t' := SettledLeft(Step(q, S));
      h' := SinkSettledLeft(p, t, h, S);
    }

    /** One pass of the REMOVE_COLOR loop, the short side being the left one. */
    method RemoveFixLeft(parent: Node, ghost p: Path, ghost t: Tree, ghost h: nat)
      returns (stop: bool, ghost p': Path, ghost t': Tree, ghost h': nat)
      requires Agrees(mem) && Focus(mem, root, p, t) && Sinking(p, t, h) && !IsRed(t)
      requires p.InLeft? && parent == p.elem
      modifies this`mem, this`root, mem.Keys
      ensures Agrees(mem) && Focus(mem, root, p', t') && mem.Keys == old(mem.Keys)
      ensures Flat(Plug(p', t')) == Flat(Plug(p, t))
      ensures !stop ==> Sinking(p', t', h') && Root(t') == parent && (IsRed(t') || p' == p.up)
      ensures stop ==> Restored(p', t', h')
    {
      SiblingExistsLeft(p, t, h);
      assert Linked(mem, p.right, parent);
      var tmp := parent.right;
      ghost var lower := p;
      if tmp.red {
        OneUp(mem, root, p, t);
        LiftRight(tmp, parent, p.up, Step(p, t));
        lower := SinkRotatedLeft(p, t, h);
        OneUp(mem, root, lower.up, Step(lower, t));
        OneUp(mem, root, lower, t);
      }
      stop, p', t', h' := BorrowLeft(parent, lower, t, h);
    }

    method DyeRight(parent: Node, tmp: Node, ghost up: Path, ghost T: Tree)
      requires Agrees(mem) && Focus(mem, root, up, T)
      requires T.Branch? && T.left.Branch? && T.left.left.Branch? && T.elem == parent && T.left.elem == tmp
      modifies this`mem, mem.Keys
      ensures Agrees(mem) && mem.Keys == old(mem.Keys)
      ensures Focus(mem, root, up, DyedRight(T))
    {
      ghost var S := T.left;
      assert Linked(mem, S, parent) && Linked(mem, S.left, tmp);
      DyeRightFocus(mem, root, up, T);
      SetRed(tmp, parent.red);
      SetRed(parent, false);
      if tmp.left != null {
        SetRed(tmp.left, false);
      }
      assert mem == WithRed(WithRed(WithRed(old(mem), tmp, T.red), parent, false), S.left.elem, false);
    }

    /** The far nephew is red: its colour pays for the missing black node. */
    method SettleRight(parent: Node, tmp: Node, ghost up: Path, ghost T: Tree)
      requires Agrees(mem) && Focus(mem, root, up, T)
      requires T.Branch? && T.left.Branch? && T.left.left.Branch? && T.elem == parent && T.left.elem == tmp
      modifies this`mem, this`root, mem.Keys
      ensures Agrees(mem) && Focus(mem, root, up, SettledRight(T)) && mem.Keys == old(mem.Keys)
    {
      DyeRight(parent, tmp, up, T);
      var _ := RotateRight(parent, up, DyedRight(T));
    }

    /** The sibling is black: the rest of one pass of the REMOVE_COLOR loop. */
    method BorrowRight(parent: Node, ghost p: Path, ghost t: Tree, ghost h: nat)
      returns (stop: bool, ghost p': Path, ghost t': Tree, ghost h': nat)
      requires Agrees(mem) && Focus(mem, root, p, t) && Sinking(p, t, h) && !IsRed(t)
      requires p.InRight? && parent == p.elem && !IsRed(p.left)
      modifies this`mem, this`root, mem.Keys
      ensures Agrees(mem) && Focus(mem, root, p', t') && mem.Keys == old(mem.Keys)
      ensures Flat(Plug(p', t')) == Flat(Plug(p, t))
      ensures !stop ==> p' == p.up && Sinking(p', t', h') && Root(t') == parent && IsRed(t') == p.red
      ensures stop ==> Restored(p', t', h')
    {
      ghost var S, up := p.left, p.up;
      SiblingExistsRight(p, t, h);
      OneUp(mem, root, p, t);
      ghost var q := InLeft(p.elem, p.key, p.red, t, up);
      assert Linked(mem, S, parent);
      OneUp(mem, root, q, S);
      var tmp := parent.left;
      assert Linked(mem, S.left, tmp) && Linked(mem, S.right, tmp);
      if (tmp.left == null || !tmp.left.red) && (tmp.right == null || !tmp.right.red) {
        stop, p' := false, up;
        t', h' := PushRight(tmp, p, t, h);
      } else {
        stop, p' := true, up;
        t', h' := RepayRight(parent, tmp, p, t, h);
      }
    }

    /** Both nephews are black: the sibling turns red and the parent is short. */
    method PushRight(sibling: Node, ghost p: Path, ghost t: Tree, ghost h: nat)
      returns (ghost t': Tree, ghost h': nat)
      requires p.InRight? && Agrees(mem) && Sinking(p, t, h) && !IsRed(t)
      requires Focus(mem, root, InLeft(p.elem, p.key, p.red, t, p.up), p.left)
      requires p.left.Branch? && !p.left.red && sibling == p.left.elem
      requires !IsRed(p.left.left) && !IsRed(p.left.right)
      modifies this`mem, mem.Keys
      ensures Agrees(mem) && Focus(mem, root, p.up, t') && mem.Keys == old(mem.Keys)
      ensures Flat(Plug(p.up, t')) == Flat(Plug(p, t)) && Sinking(p.up, t', h')
      ensures Root(t') == p.elem && IsRed(t') == p.red
    {
      ghost var q := InLeft(p.elem, p.key, p.red, t, p.up);
      PaintedFocus(mem, root, q, p.left, true);
      SetRed(sibling, true);
      OneUp(mem, root, q, Painted(p.left, true));
      t' := Step(q, Painted(p.left, true));
      h' := SinkPushedRight(p, t, h);
    }

    /** Some nephew is red: at most two rotations restore the balance. */
    method RepayRight(parent: Node, sibling: Node, ghost p: Path, ghost t: Tree, ghost h: nat)
      returns (ghost t': Tree, ghost h': nat)
      requires p.InRight? && Agrees(mem) && Sinking(p, t, h) && !IsRed(t)
      requires Focus(mem, root, InLeft(p.elem, p.key, p.red, t, p.up), p.left)
      requires p.left.Branch? && !p.left.red && parent == p.elem && sibling == p.left.elem
      requires IsRed(p.left.left) || IsRed(p.left.right)
      modifies this`mem, this`root, mem.Keys
      ensures Agrees(mem) && Focus(mem, root, p.up, t') && mem.Keys == old(mem.Keys)
      ensures Flat(Plug(p.up, t')) == Flat(Plug(p, t)) && Restored(p.up, t', h')
    {
      var tmp := sibling;
      ghost var S := p.left;
      ghost var q := InLeft(p.elem, p.key, p.red, t, p.up);
      assert Linked(mem, S.left, tmp) && Linked(mem, S.right, tmp);
      if tmp.left == null || !tmp.left.red {
        LiftRight(tmp.right, tmp, q, S);
        SinkTurnedRight(p, t, h);
        S := LiftedRight(S);
        tmp := parent.left;
      }
      OneUp(mem, root, q, S);
      SettleRight(parent, tmp, p.up, Step(q, S));
      t' := SettledRight(Step(q, S));
      h' := SinkSettledRight(p, t, h, S);
    }

    /** One pass of the REMOVE_COLOR loop, the short side being the right one. */
    method RemoveFixRight(parent: Node, ghost p: Path, ghost t: Tree, ghost h: nat)
      returns (stop: bool, ghost p': Path, ghost t': Tree, ghost h': nat)
      requires Agrees(mem) && Focus(mem, root, p, t) && Sinking(p, t, h) && !IsRed(t)
      requires p.InRight? && parent == p.elem
      modifies this`mem, this`root, mem.Keys
      ensures Agrees(mem) && Focus(mem, root, p', t') && mem.Keys == old(mem.Keys)
      ensures Flat(Plug(p', t')) == Flat(Plug(p, t))
      ensures !stop ==> Sinking(p', t', h') && Root(t') == parent && (IsRed(t') || p' == p.up)
      ensures stop ==> Restored(p', t', h')
    {
      SiblingExistsRight(p, t, h);
      assert Linked(mem, p.left, parent);
      var tmp := parent.left;
      ghost var lower := p;
      if tmp.red {
        OneUp(mem, root, p, t);
        LiftLeft(tmp, parent, p.up, Step(p, t));
        lower := SinkRotatedRight(p, t, h);
        OneUp(mem, root, lower.up, Step(lower, t));
        OneUp(mem, root, lower, t);
      }
      stop, p', t', h' := BorrowRight(parent, lower, t, h);
    }

    /** RB_REMOVE_COLOR */
    method RemoveColor(parent0: Node?, elm0: Node?, ghost p0: Path, ghost t0: Tree, ghost h0: nat)
      requires Agrees(mem) && Focus(mem, root, p0, t0) && Sinking(p0, t0, h0)
      requires parent0 == Parent(p0) && elm0 == Root(t0)
      modifies this, mem.Keys
      ensures Agrees(mem) && mem.Keys == old(mem.Keys) && Focus(mem, root, Top, shape)
      ensures RedBlack(shape) && Flat(shape) == Flat(Plug(p0, t0))
    {
      var parent, elm := parent0, elm0;
      ghost var p, t, h := p0, t0, h0;
      RootPlace(mem, root, p, t);
      while (elm == null || !elm.red) && elm != root
        invariant Agrees(mem) && Focus(mem, root, p, t) && Sinking(p, t, h)
        invariant parent == Parent(p) && elm == Root(t) && (elm == root <==> p.Top?)
        invariant mem.Keys == old(mem.Keys) && Flat(Plug(p, t)) == Flat(Plug(p0, t0))
        decreases if IsRed(t) then 0 else 1 + Depth(p)
      {
        var stop;
        ghost var p', t', h';
        ShortSide(mem, root, p, t, h);
        if parent.left == elm {
          stop, p', t', h' := RemoveFixLeft(parent, p, t, h);
        } else {
          stop, p', t', h' := RemoveFixRight(parent, p, t, h);
        }
        p, t, h := p', t', h';
        if stop {
          Blacken(p, t, h);
          return;
        }
        elm := parent;
        parent := elm.parent;
        RootPlace(mem, root, p, t);
      }
      RemoveDone(elm, p, t, h);
    }

    /** if (elm) RB_COLOR(elm) = RB_BLACK, once the loop has ended. */
    method RemoveDone(elm: Node?, ghost p: Path, ghost t: Tree, ghost h: nat)
      requires Agrees(mem) && Focus(mem, root, p, t) && Sinking(p, t, h) && elm == Root(t)
      requires IsRed(t) || p.Top?
      modifies this, mem.Keys
      ensures Agrees(mem) && mem.Keys == old(mem.Keys) && Focus(mem, root, Top, shape)
      ensures RedBlack(shape) && Flat(shape) == Flat(Plug(p, t))
    {
      SinkDone(p, t, h);
      ghost var t' := t;
      if elm != null {
        PaintedFocus(mem, root, p, t, false);
        SetRed(elm, false);
        t' := Painted(t, false);
        FlatPlug(p, t);
        FlatPlug(p, t');
      }
      Whole(mem, root, p, t');
      shape := Plug(p, t');
    }

    // ----- the public operations -------------------------------------------------------

    ghost predicate Valid()
      reads this, mem.Keys
    {
      Agrees(mem) && Focus(mem, root, Top, shape) && RedBlack(shape) && Increasing(Flat(shape))
    }

    /** The entries in key order: what the tree stands for. */
    ghost function Contents(): seq<Entry>
      reads this
    {
      Flat(shape)
    }

    constructor ()
      ensures Valid() && Contents() == [] && mem == map[]
    {
      root, mem, shape := null, map[], Leaf;
      new;
      assert Balanced(Leaf, 0);
    }

    /** The descent of RB_INSERT: the node with key k, or the place for one. */
    method Descend(k: int) returns (dup: Node?, parent: Node?, less: bool, ghost p: Path)
      requires Valid()
      ensures dup != null ==> Entry(dup, k) in Contents()
      ensures dup == null ==> Focus(mem, root, p, Leaf) && Plug(p, Leaf) == shape
      ensures dup == null ==> parent == Parent(p) && (!p.Top? ==> (less <==> p.InLeft?))
      ensures dup == null ==> AllBelow(Before(p), k) && AllAbove(After(p), k)
    {
      var tmp := root;
      parent, less := null, false;
      ghost var t := shape;
      p := Top;
      while tmp != null
        invariant Focus(mem, root, p, t) && Plug(p, t) == shape && tmp == Root(t) && parent == Parent(p)
        invariant AllBelow(Before(p), k) && AllAbove(After(p), k)
        invariant !p.Top? ==> (less <==> p.InLeft?)
        decreases t
      {
        parent := tmp;
        if k < parent.key {
          p, t := GoLeft(mem, root, p, t, k);
          less, tmp := true, tmp.left;
        } else if k > parent.key {
          p, t := GoRight(mem, root, p, t, k);
          less, tmp := false, tmp.right;
        } else {
          FlatPlug(p, t);
          assert Entry(tmp, k) in Flat(t);
          return tmp, parent, less, p;
        }
      }
      dup := null;
    }

    /** RB_INSERT */
    method Insert(elm: Node) returns (dup: Node?)
      requires Valid() && elm !in mem
      modifies this, mem.Keys, elm
      ensures Valid() && elm.key == old(elm.key)
      ensures dup == null <==> forall e :: e in old(Contents()) ==> e.key != elm.key
      ensures dup == null ==> Contents() == Inserted(old(Contents()), Entry(elm, elm.key))
      ensures dup == null ==> mem.Keys == old(mem.Keys) + {elm}
      ensures dup != null ==> Entry(dup, elm.key) in Contents() && Contents() == old(Contents()) && mem == old(mem)
    {
      var parent, less;
      ghost var p;
      dup, parent, less, p := Descend(elm.key);
      if dup != null {
        return;
      }
      ghost var e := Entry(elm, elm.key);
      ghost var h := NewLeaf(p, elm, elm.key);
      LeafAdded(p, e);
      Hang(elm, parent, less, p);
      InsertColor(elm, p, Branch(Leaf, elm, elm.key, true, Leaf), h);
      KeyOf(mem, shape, null, e);
    }

    /** RB_SET, and the child pointer of the parent. */
    method Hang(elm: Node, parent: Node?, less: bool, ghost p: Path)
      requires Agrees(mem) && Focus(mem, root, p, Leaf) && elm !in mem
      requires parent == Parent(p) && (!p.Top? ==> (less <==> p.InLeft?))
      modifies this`mem, this`root, mem.Keys, elm
      ensures Agrees(mem) && mem.Keys == old(mem.Keys) + {elm} && elm.key == old(elm.key)
      ensures Focus(mem, root, p, Branch(Leaf, elm, elm.key, true, Leaf))
    {
      AttachedFocus(mem, root, p, elm, elm.key);
      Set(elm, parent);
      Point(elm, parent, less, p);
    }

    /** RB_SET */
    method Set(elm: Node, parent: Node?)
      requires Agrees(mem) && elm !in mem
      modifies this`mem, elm
      ensures Agrees(mem) && mem == old(mem)[elm := Rec(null, null, parent, true, elm.key)] && elm.key == old(elm.key)
    {
      elm.parent, elm.left, elm.right, elm.red := parent, null, null, true;
      mem := mem[elm := Rec(null, null, parent, true, elm.key)];
    }

    method Point(elm: Node, parent: Node?, less: bool, ghost p: Path)
      requires Agrees(mem) && parent == Parent(p) && HasOrNull(mem, parent) && (!p.Top? ==> (less <==> p.InLeft?))
      modifies this`mem, this`root, mem.Keys`left, mem.Keys`right
      ensures Agrees(mem) && mem == Hung(old(mem), p, elm) && root == NewRoot(old(root), parent, elm)
    {
      if parent != null {
        if less {
          SetLeft(parent, elm);
        } else {
          SetRight(parent, elm);
        }
      } else {
        root := elm;
      }
    }

    /** The child of a node with at most one child takes its place: the lines
        of RB_REMOVE before the label color. */
    method Splice(elm: Node, child: Node?, ghost p: Path, ghost t: Tree, ghost c: Tree)
      requires Agrees(mem) && Focus(mem, root, p, t) && t.Branch? && elm == t.elem && child == Root(c)
      requires (t.left.Leaf? && c == t.right) || (t.right.Leaf? && c == t.left)
      modifies this`mem, this`root, mem.Keys
      ensures Agrees(mem) && Focus(mem, root, p, c) && mem.Keys == old(mem.Keys) - {elm}
      ensures elm.key == old(elm.key)
    {
      SplicedFocus(mem, root, p, t, c);
      assert Linked(mem, c, elm);
      Bypass(elm, child);
    }

    method Bypass(elm: Node, child: Node?)
      requires Agrees(mem) && elm in mem && HasOrNull(mem, child) && HasOrNull(mem, mem[elm].parent) && child != elm
      modifies this`mem, this`root, mem.Keys
      ensures Agrees(mem) && mem == Spliced(old(mem), old(mem)[elm].parent, elm, child)
      ensures root == NewRoot(old(root), old(mem)[elm].parent, child) && elm.key == old(elm.key)
    {
      var parent := elm.parent;
      if child != null {
        SetParent(child, parent);
      }
      SetChild(parent, elm, child);
      mem := mem - {elm};
    }

    method CopyFields(o: Node, elm: Node)
      requires Agrees(mem) && o in mem && elm !in mem
      modifies this`mem, elm
      ensures Agrees(mem) && mem == old(mem)[elm := old(mem)[o].(key := elm.key)] && elm.key == old(elm.key)
    {
      elm.left, elm.right, elm.parent, elm.red := o.left, o.right, o.parent, o.red;
      mem := mem[elm := mem[o].(key := elm.key)];
    }

    /** (elm)->field = (old)->field, and the four pointers to old. */
    method TakeOver(o: Node, elm: Node)
      requires Agrees(mem) && o in mem && elm !in mem && mem[o].parent != o && mem[o].left != o
      requires Has(mem, mem[o].left) && HasOrNull(mem, mem[o].right) && HasOrNull(mem, mem[o].parent)
      modifies this`mem, this`root, mem.Keys, elm
      ensures Agrees(mem) && elm.key == old(elm.key)
      ensures mem == Replaced(old(mem), old(mem)[o].parent, o, elm, elm.key) - {o}
      ensures root == NewRoot(old(root), old(mem)[o].parent, elm)
    {
      CopyFields(o, elm);
      SetChild(o.parent, o, elm);
      AdoptChildren(o, elm);
      assert mem == Replaced(old(mem), old(mem)[o].parent, o, elm, elm.key);
      mem := mem - {o};
    }

    method AdoptChildren(o: Node, elm: Node)
      requires Agrees(mem) && o in mem && Has(mem, mem[o].left) && HasOrNull(mem, mem[o].right) && mem[o].left != o
      modifies this`mem, mem.Keys
      ensures Agrees(mem) && elm.key == old(elm.key)
      ensures mem == WithParent(WithParent(old(mem), old(mem)[o].left, elm), old(mem)[o].right, elm)
    {
      SetParent(o.left, elm);
      if o.right != null {
        SetParent(o.right, elm);
      }
    }

    method Replace(o: Node, elm: Node, ghost p: Path, ghost t: Tree)
      requires Agrees(mem) && Focus(mem, root, p, t) && t.Branch? && o == t.elem && elm !in mem && t.left.Branch?
      modifies this`mem, this`root, mem.Keys, elm
      ensures Agrees(mem) && mem.Keys == old(mem.Keys) - {o} + {elm} && elm.key == old(elm.key)
      ensures Focus(mem, root, p, Branch(t.left, elm, elm.key, t.red, t.right))
    {
      ReplacedFocus(mem, root, p, t, elm, elm.key);
      assert Linked(mem, t.left, o) && Linked(mem, t.right, o);
      TakeOver(o, elm);
    }

    /** The leftmost node of the right subtree of t. */
    method Successor(o: Node, ghost p: Path, ghost t: Tree) returns (elm: Node, ghost s: Path, ghost c: Tree)
      requires Agrees(mem) && Focus(mem, root, p, t) && t.Branch? && o == t.elem && t.right.Branch?
      ensures c.Branch? && c.left.Leaf? && c.elem == elm && Plug(s, c) == t.right && Before(s) == []
      ensures Focus(mem, root, Append(s, InRight(t.left, t.elem, t.key, t.red, p)), c)
    {
      ghost var q := InRight(t.left, t.elem, t.key, t.red, p);
      OneUp(mem, root, q, t.right);
      elm := o.right;
      s, c := Top, t.right;
      while elm.left != null
        invariant c.Branch? && elm == c.elem && Plug(s, c) == t.right && Before(s) == []
        invariant Focus(mem, root, Append(s, q), c)
        decreases c
      {
        s, c := InLeft(c.elem, c.key, c.red, c.right, s), c.left;
        OneUp(mem, root, Append(s, q), c);
        elm := elm.left;
      }
    }

    /** RB_REMOVE of a node with at most one child. */
    method RemoveOne(elm: Node, child: Node?, ghost p: Path, ghost t: Tree, ghost c: Tree)
      requires Valid() && Focus(mem, root, p, t) && Plug(p, t) == shape && t.Branch? && elm == t.elem
      requires child == Root(c) && ((t.left.Leaf? && c == t.right) || (t.right.Leaf? && c == t.left))
      modifies this, mem.Keys
      ensures Valid() && Contents() == Without(old(Contents()), elm) && mem.Keys == old(mem.Keys) - {elm}
    {
      var parent, red := elm.parent, elm.red;
      ghost var h := CutOne(p, t, c);
      CutOneList(mem, p, t, c);
      Splice(elm, child, p, t, c);
      Rebalance(parent, child, red, p, c, h);
    }

    /** RB_REMOVE of a node with two children: its successor takes its place. */
    method RemoveTwo(o: Node, ghost p: Path, ghost t: Tree)
      requires Valid() && Focus(mem, root, p, t) && Plug(p, t) == shape
      requires t.Branch? && o == t.elem && t.left.Branch? && t.right.Branch?
      modifies this, mem.Keys
      ensures Valid() && Contents() == Without(old(Contents()), o) && mem.Keys == old(mem.Keys) - {o}
    {
      var elm;
      ghost var s, c;
      elm, s, c := Successor(o, p, t);
      ghost var h := CutTwo(p, t, s, c);
      CutTwoList(mem, p, t, s, c);
      Exchange(o, elm, p, t, s, c, h);
    }

    method Exchange(o: Node, elm: Node, ghost p: Path, ghost t: Tree, ghost s: Path, ghost c: Tree, ghost h: nat)
      requires Agrees(mem) && t.Branch? && o == t.elem && t.left.Branch? && c.Branch? && c.left.Leaf? && elm == c.elem
      requires Focus(mem, root, Append(s, InRight(t.left, t.elem, t.key, t.red, p)), c)
      requires var P := SwapPath(p, t, s, c); if c.red then RedBlack(Plug(P, c.right)) else Sinking(P, c.right, h)
      modifies this, mem.Keys
      ensures Agrees(mem) && mem.Keys == old(mem.Keys) - {o} && Focus(mem, root, Top, shape)
      ensures RedBlack(shape) && Flat(shape) == Flat(Plug(SwapPath(p, t, s, c), c.right))
    {
      var child, parent, red := elm.right, elm.parent, elm.red;
      if parent == o {
        parent := elm;
      }
      SwapOut(o, elm, child, p, t, s, c);
      Rebalance(parent, child, red, SwapPath(p, t, s, c), c.right, h);
    }

    /** The label color of RB_REMOVE. */
    method Rebalance(parent: Node?, child: Node?, red: bool, ghost p: Path, ghost c: Tree, ghost h: nat)
      requires Agrees(mem) && Focus(mem, root, p, c) && parent == Parent(p) && child == Root(c)
      requires if red then RedBlack(Plug(p, c)) else Sinking(p, c, h)
      modifies this, mem.Keys
      ensures Agrees(mem) && mem.Keys == old(mem.Keys) && Focus(mem, root, Top, shape)
      ensures RedBlack(shape) && Flat(shape) == Flat(Plug(p, c))
    {
      if !red {
        RemoveColor(parent, child, p, c, h);
      } else {
        Whole(mem, root, p, c);
        shape := Plug(p, c);
      }
    }

    method SwapOut(o: Node, elm: Node, child: Node?, ghost p: Path, ghost t: Tree, ghost s: Path, ghost c: Tree)
      requires Agrees(mem) && t.Branch? && o == t.elem && t.left.Branch? && c.Branch? && c.left.Leaf?
      requires elm == c.elem && child == Root(c.right)
      requires Focus(mem, root, Append(s, InRight(t.left, t.elem, t.key, t.red, p)), c)
      modifies this`mem, this`root, mem.Keys
      ensures Agrees(mem) && mem.Keys == old(mem.Keys) - {o}
      ensures Focus(mem, root, SwapPath(p, t, s, c), c.right)
    {
      ghost var q, ks := InRight(t.left, t.elem, t.key, t.red, p), mem.Keys;
      OwnRecord(mem, root, Append(s, q), c);
      SpliceUnder(elm, child, q, s, c);
      OwnRecord(mem, root, p, Step(q, Plug(s, c.right)));
      PutIn(o, elm, p, t, s, c);
      OneLess(ks, o, elm);
    }

    /** ... and takes the place of o. */
    method PutIn(o: Node, elm: Node, ghost p: Path, ghost t: Tree, ghost s: Path, ghost c: Tree)
      requires Agrees(mem) && t.Branch? && o == t.elem && t.left.Branch? && c.Branch? && elm == c.elem && elm !in mem
      requires elm.key == c.key
      requires Focus(mem, root, p, Branch(t.left, o, t.key, t.red, Plug(s, c.right)))
      modifies this`mem, this`root, mem.Keys, elm
      ensures Agrees(mem) && mem.Keys == old(mem.Keys) - {o} + {elm}
      ensures Focus(mem, root, SwapPath(p, t, s, c), c.right)
    {
      Replace(o, elm, p, Branch(t.left, o, t.key, t.red, Plug(s, c.right)));
      UnwindTo(mem, root, InRight(t.left, elm, c.key, t.red, p), s, c.right);
    }

    /** The successor leaves its place below q. */
    method SpliceUnder(elm: Node, child: Node?, ghost q: Path, ghost s: Path, ghost c: Tree)
      requires Agrees(mem) && c.Branch? && c.left.Leaf? && elm == c.elem && child == Root(c.right) && !q.Top?
      requires Focus(mem, root, Append(s, q), c)
      modifies this`mem, this`root, mem.Keys
      ensures Agrees(mem) && mem.Keys == old(mem.Keys) - {elm} && elm.key == old(elm.key)
      ensures Focus(mem, root, q.up, Step(q, Plug(s, c.right)))
    {
      Splice(elm, child, Append(s, q), c, c.right);
      UnwindTo(mem, root, q, s, c.right);
    }

    /** RB_REMOVE */
    method Remove(elm: Node)
      requires Valid() && elm in mem
      modifies this, mem.Keys
      ensures Valid() && Contents() == Without(old(Contents()), elm) && mem.Keys == old(mem.Keys) - {elm}
    {
      ghost var p, t := Locate(shape, elm);
      Whole(mem, root, p, t);
      assert Linked(mem, t.left, elm) && Linked(mem, t.right, elm);
      if elm.left == null {
        RemoveOne(elm, elm.right, p, t, t.right);
      } else if elm.right == null {
        RemoveOne(elm, elm.left, p, t, t.left);
      } else {
        RemoveTwo(elm, p, t);
      }
    }

    /** RB_FIND */
    method Find(k: int) returns (r: Node?)
      requires Valid()
      ensures r != null ==> Entry(r, k) in Contents()
      ensures r == null ==> forall e :: e in Contents() ==> e.key != k
    {
      var tmp := root;
      ghost var p, t := Top, shape;
      while tmp != null
        invariant Focus(mem, root, p, t) && Plug(p, t) == shape && tmp == Root(t)
        invariant AllBelow(Before(p), k) && AllAbove(After(p), k)
        decreases t
      {
        if k < tmp.key {
          p, t := GoLeft(mem, root, p, t, k);
          tmp := tmp.left;
        } else if k > tmp.key {
          p, t := GoRight(mem, root, p, t, k);
          tmp := tmp.right;
        } else {
          FlatPlug(p, t);
          assert Entry(tmp, k) in Flat(t);
          return tmp;
        }
      }
      FlatPlug(p, t);
      r := null;
    }

    /** RB_MIN */
    method Min() returns (parent: Node?)
      requires Valid()
      ensures parent == NodeAt(Contents(), 0)
    {
      var tmp := root;
      parent := null;
      ghost var p, t := Top, shape;
      while tmp != null
        invariant Focus(mem, root, p, t) && Plug(p, t) == shape && tmp == Root(t) && parent == Parent(p)
        invariant p.Top? || (p.InLeft? && Before(p) == [])
        decreases t
      {
        parent := tmp;
        p, t := InLeft(t.elem, t.key, t.red, t.right, p), t.left;
        OneUp(mem, root, p, t);
        tmp := tmp.left;
      }
      FlatPlug(p, Leaf);
      FirstAfter(p);
    }

    /** RB_NEXT */
    method Next(elm: Node) returns (r: Node?)
      requires Valid() && elm in mem
      ensures forall i :: 0 <= i < |Contents()| && Contents()[i].node == elm ==> r == NodeAt(Contents(), i + 1)
    {
      ghost var p, t := Locate(shape, elm);
      Whole(mem, root, p, t);
      assert Linked(mem, t.right, elm);
      if elm.right != null {
        ghost var s, c;
        r, s, c := Successor(elm, p, t);
        SuccessorFlat(s, c);
      } else {
        r := Climb(elm, p, t);
      }
      NextPlace(mem, p, t, r);
    }

    /** The else part of RB_NEXT: up to the first ancestor on the right. */
    method Climb(node: Node, ghost p0: Path, ghost t0: Tree) returns (elm: Node?)
      requires Agrees(mem) && Focus(mem, root, p0, t0) && t0.Branch? && t0.elem == node
      ensures elm == NodeAt(After(p0), 0)
    {
      elm := node;
      ghost var p, t := p0, t0;
      if elm.parent != null && elm == elm.parent.left {
        FirstAfter(p);
        elm := elm.parent;
      } else {
        while elm.parent != null && elm == elm.parent.right
          invariant elm != null && t.Branch? && elm == t.elem && Focus(mem, root, p, t) && After(p) == After(p0)
          decreases p
        {
          OneUp(mem, root, p, t);
          p, t := p.up, Step(p, t);
          elm := elm.parent;
        }
        FirstAfter(p);
        elm := elm.parent;
      }
    }

    /** One pass of RB_FOREACH_SAFE: the next node is read before the body,
        which may remove the current one. */
    method Visit(x: Node, dead: bool, ghost a: seq<Entry>, ghost e: Entry, ghost b: seq<Entry>) returns (y: Node?)
      requires Valid() && Contents() == a + [e] + b && x == e.node
      modifies this, mem.Keys
      ensures Valid() && mem.Keys <= old(mem.Keys) && y == NodeAt(b, 0)
      ensures Contents() == if dead then a + b else a + [e] + b
    {
      assert Contents()[|a|] == e;
      KeyOf(mem, shape, null, e);
      y := Next(x);
      assert Contents()[|a|].node == x && (b != [] ==> Contents()[|a| + 1] == b[0]);
      if dead {
        EntryCut(mem, shape, a, e, b);
        Remove(x);
      }
    }

    /** RB_FOREACH_SAFE with a body that removes the nodes of kill, as
        knote_delete_all and knote_foreach do. */
    method ForeachSafe(kill: set<Node>) returns (visited: seq<Node>)
      requires Valid()
      modifies this, mem.Keys
      ensures Valid() && visited == NodeList(old(Contents())) && Contents() == Keep(old(Contents()), kill)
    {
      ghost var s, i := Contents(), 0;
      var x := Min();
      visited := [];
      KeepStart(s, kill);
      while x != null
        invariant Valid() && mem.Keys <= old(mem.Keys) && x == NodeAt(s, i)
        invariant Halfway(s, i, kill, visited, Contents())
        decreases |s| - i
      {
        KeepOne(s, i, kill);
        visited := visited + [x];
        x := Visit(x, x in kill, Keep(s[..i], kill), s[i], s[i + 1..]);
        i := i + 1;
      }
      KeepEnd(s, i, kill, visited, Contents());
    }
  }
}
