/** Shapes of the intrusive red-black tree of src/common/tree.h.

    The nodes themselves live on the heap (class Node, the RB_ENTRY of the
    source).  A Tree is the ghost picture of the nodes below one pointer, a
    Path the picture of everything above it, so that Plug(path, tree) is the
    whole tree seen from one node.  Loops that walk parent pointers walk a
    Path; everything about colours and order is proved here on the pictures.
  */
module RbShape {

  class Node {
    var left: Node?
    var right: Node?
    var parent: Node?
    var red: bool
    var key: int

    constructor (k: int)
      ensures key == k
    {
      key := k;
      left, right, parent, red := null, null, null, false;
    }
  }

  datatype Tree = Leaf | Branch(left: Tree, elem: Node, key: int, red: bool, right: Tree)

  datatype Path =
    | Top
    | InLeft(elem: Node, key: int, red: bool, right: Tree, up: Path)
    | InRight(left: Tree, elem: Node, key: int, red: bool, up: Path)

  datatype Entry = Entry(node: Node, key: int)

  ghost function Root(t: Tree): Node? {
    if t.Leaf? then null else t.elem
  }

  ghost function Parent(p: Path): Node? {
    if p.Top? then null else p.elem
  }

  ghost function Plug(p: Path, t: Tree): Tree {
    match p
    case Top => t
    case InLeft(n, k, c, r, up) => Plug(up, Branch(t, n, k, c, r))
    case InRight(l, n, k, c, up) => Plug(up, Branch(l, n, k, c, t))
  }

  ghost function Depth(p: Path): nat {
    if p.Top? then 0 else 1 + Depth(p.up)
  }

  ghost function Append(inner: Path, outer: Path): Path {
    match inner
    case Top => outer
    case InLeft(n, k, c, r, up) => InLeft(n, k, c, r, Append(up, outer))
    case InRight(l, n, k, c, up) => InRight(l, n, k, c, Append(up, outer))
  }

  lemma {:induction false} PlugAppend(inner: Path, outer: Path, t: Tree)
    ensures Plug(Append(inner, outer), t) == Plug(outer, Plug(inner, t))
    decreases inner
  {
    match inner
    case Top =>
    case InLeft(n, k, c, r, up) => PlugAppend(up, outer, Branch(t, n, k, c, r));
    case InRight(l, n, k, c, up) => PlugAppend(up, outer, Branch(l, n, k, c, t));
  }

  // ----- contents, in key order ---------------------------------------------

  ghost function Flat(t: Tree): seq<Entry> {
    match t
    case Leaf => []
    case Branch(l, n, k, _, r) => Flat(l) + [Entry(n, k)] + Flat(r)
  }

  ghost function Before(p: Path): seq<Entry> {
    match p
    case Top => []
    case InLeft(_, _, _, _, up) => Before(up)
    case InRight(l, n, k, _, up) => Before(up) + Flat(l) + [Entry(n, k)]
  }

  ghost function After(p: Path): seq<Entry> {
    match p
    case Top => []
    case InLeft(n, k, _, r, up) => [Entry(n, k)] + Flat(r) + After(up)
    case InRight(_, _, _, _, up) => After(up)
  }

  lemma {:induction false} FlatPlug(p: Path, t: Tree)
    ensures Flat(Plug(p, t)) == Before(p) + Flat(t) + After(p)
    decreases p
  {
    match p
    case Top => assert [] + Flat(t) + [] == Flat(t);
    case InLeft(n, k, c, r, up) =>
      FlatPlug(up, Branch(t, n, k, c, r));
      JoinRight(Before(up), Flat(t), Entry(n, k), Flat(r), After(up));
    case InRight(l, n, k, c, up) =>
      FlatPlug(up, Branch(l, n, k, c, t));
      JoinLeft(Before(up), Flat(l), Entry(n, k), Flat(t), After(up));
  }

  lemma JoinRight(a: seq<Entry>, x: seq<Entry>, e: Entry, r: seq<Entry>, b: seq<Entry>)
    ensures a + (x + [e] + r) + b == a + x + ([e] + r + b)
  {
  }

  lemma JoinLeft(a: seq<Entry>, l: seq<Entry>, e: Entry, x: seq<Entry>, b: seq<Entry>)
    ensures a + (l + [e] + x) + b == (a + l + [e]) + x + b
  {
  }

  ghost predicate Increasing(s: seq<Entry>) {
    forall i, j :: 0 <= i < j < |s| ==> s[i].key < s[j].key
  }

  ghost predicate AllBelow(s: seq<Entry>, k: int) {
    forall e :: e in s ==> e.key < k
  }

  ghost predicate AllAbove(s: seq<Entry>, k: int) {
    forall e :: e in s ==> k < e.key
  }

  // The reference: a sorted list of entries.

  ghost function Inserted(s: seq<Entry>, e: Entry): seq<Entry> {
    if s == [] || e.key < s[0].key then [e] + s else [s[0]] + Inserted(s[1..], e)
  }

  ghost function Without(s: seq<Entry>, n: Node): seq<Entry> {
    if s == [] then []
    else if s[0].node == n then Without(s[1..], n)
    else [s[0]] + Without(s[1..], n)
  }

  lemma {:induction false} InsertedBetween(a: seq<Entry>, b: seq<Entry>, e: Entry)
    requires AllBelow(a, e.key) && AllAbove(b, e.key)
    ensures Inserted(a + b, e) == a + [e] + b
  {
    if a == [] {
      assert a + b == b;
    } else {
      assert a[0] in a && (a + b)[0] == a[0] && (a + b)[1..] == a[1..] + b;
      InsertedBetween(a[1..], b, e);
      assert [a[0]] + (a[1..] + [e] + b) == a + [e] + b;
    }
  }

  lemma {:induction false} WithoutAbsent(s: seq<Entry>, n: Node)
    requires forall e :: e in s ==> e.node != n
    ensures Without(s, n) == s
  {
    if s != [] { WithoutAbsent(s[1..], n); }
  }

  lemma {:induction false} WithoutBetween(a: seq<Entry>, b: seq<Entry>, e: Entry)
    requires forall x :: x in a || x in b ==> x.node != e.node
    ensures Without(a + [e] + b, e.node) == a + b
  {
    var s := a + [e] + b;
    if a == [] {
      assert s[1..] == b;
      WithoutAbsent(b, e.node);
      assert a + b == b;
    } else {
      WithoutBetween(a[1..], b, e);
      assert s[1..] == a[1..] + [e] + b;
    }
  }

  // ----- the nodes a picture mentions, each once ------------------------------

  ghost function Nodes(t: Tree): set<Node> {
    match t
    case Leaf => {}
    case Branch(l, n, _, _, r) => Nodes(l) + {n} + Nodes(r)
  }

  ghost function PathNodes(p: Path): set<Node> {
    match p
    case Top => {}
    case InLeft(n, _, _, r, up) => {n} + Nodes(r) + PathNodes(up)
    case InRight(l, n, _, _, up) => Nodes(l) + {n} + PathNodes(up)
  }

  ghost predicate Fresh(t: Tree) {
    match t
    case Leaf => true
    case Branch(l, n, _, _, r) =>
      n !in Nodes(l) && n !in Nodes(r) && Nodes(l) !! Nodes(r) && Fresh(l) && Fresh(r)
  }

  ghost predicate FreshPath(p: Path) {
    match p
    case Top => true
    case InLeft(n, _, _, r, up) =>
      n !in Nodes(r) && n !in PathNodes(up) && Nodes(r) !! PathNodes(up) && Fresh(r) && FreshPath(up)
    case InRight(l, n, _, _, up) =>
      n !in Nodes(l) && n !in PathNodes(up) && Nodes(l) !! PathNodes(up) && Fresh(l) && FreshPath(up)
  }

  lemma {:induction false} FlatNodes(t: Tree, n: Node)
    ensures n in Nodes(t) <==> exists e :: e in Flat(t) && e.node == n
  {
    match t
    case Leaf =>
    case Branch(l, m, k, _, r) =>
      FlatNodes(l, n);
      FlatNodes(r, n);
      assert forall e :: e in Flat(t) <==> e in Flat(l) || e == Entry(m, k) || e in Flat(r);
      assert Entry(m, k).node == m;
  }

  /** The path from the root down to node n. */
  lemma {:induction false} Locate(t: Tree, n: Node) returns (p: Path, s: Tree)
    requires n in Nodes(t)
    ensures Plug(p, s) == t && s.Branch? && s.elem == n
  {
    if n == t.elem {
      p, s := Top, t;
    } else if n in Nodes(t.left) {
      p, s := Locate(t.left, n);
      var outer := InLeft(t.elem, t.key, t.red, t.right, Top);
      PlugAppend(p, outer, s);
      p := Append(p, outer);
    } else {
      p, s := Locate(t.right, n);
      var outer := InRight(t.left, t.elem, t.key, t.red, Top);
      PlugAppend(p, outer, s);
      p := Append(p, outer);
    }
  }

  // ----- red-black balance ------------------------------------------------------

  ghost predicate IsRed(t: Tree) {
    t.Branch? && t.red
  }

  ghost predicate TopRed(p: Path) {
    !p.Top? && p.red
  }

  /** t is a red-black tree of black height h. */
  ghost predicate Balanced(t: Tree, h: nat) {
    match t
    case Leaf => h == 0
    case Branch(l, _, _, c, r) =>
      if c then !IsRed(l) && !IsRed(r) && Balanced(l, h) && Balanced(r, h)
      else h > 0 && Balanced(l, h - 1) && Balanced(r, h - 1)
  }

  /** As Balanced, but the root may be red above red children. */
  ghost predicate NearlyBalanced(t: Tree, h: nat) {
    match t
    case Leaf => h == 0
    case Branch(l, _, _, c, r) =>
      if c then Balanced(l, h) && Balanced(r, h)
      else h > 0 && Balanced(l, h - 1) && Balanced(r, h - 1)
  }

  /** p expects a tree of black height h in its hole.  A red step is never the
      topmost one: the root of the whole tree is black. */
  ghost predicate Expects(p: Path, h: nat) {
    match p
    case Top => true
    case InLeft(_, _, c, r, up) =>
      && Balanced(r, h)
      && if c then !IsRed(r) && !up.Top? && !up.red && Expects(up, h) else Expects(up, h + 1)
    case InRight(l, _, _, c, up) =>
      && Balanced(l, h)
      && if c then !IsRed(l) && !up.Top? && !up.red && Expects(up, h) else Expects(up, h + 1)
  }

  lemma {:induction false} PlugBalanced(p: Path, t: Tree, h: nat) returns (H: nat)
    requires Balanced(t, h) && Expects(p, h) && !(IsRed(t) && TopRed(p))
    ensures Balanced(Plug(p, t), H)
    ensures !p.Top? ==> !IsRed(Plug(p, t))
    decreases p
  {
    match p
    case Top => H := h;
    case InLeft(n, k, c, r, up) =>
      H := PlugBalanced(up, Branch(t, n, k, c, r), if c then h else h + 1);
    case InRight(l, n, k, c, up) =>
      H := PlugBalanced(up, Branch(l, n, k, c, t), if c then h else h + 1);
  }

  /** The other direction: a balanced tree, seen from any of its places. */
  lemma {:induction false} UnplugBalanced(p: Path, t: Tree, H: nat) returns (h: nat)
    requires Balanced(Plug(p, t), H) && !IsRed(Plug(p, t))
    ensures Balanced(t, h) && Expects(p, h) && !(IsRed(t) && TopRed(p))
    decreases p
  {
    match p
    case Top => h := H;
    case InLeft(n, k, c, r, up) =>
      h := UnplugBalanced(up, Branch(t, n, k, c, r), H);
      h := if c then h else h - 1;
    case InRight(l, n, k, c, up) =>
      h := UnplugBalanced(up, Branch(l, n, k, c, t), H);
      h := if c then h else h - 1;
  }
}
