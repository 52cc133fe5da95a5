/** The tree of src/common/tree.h over whole runs: as a set of keys, as
    knote_lookup, knote_insert and knote_delete use it, and its height. */
module RbRuns {
  import opened RbShape
  import opened RbLinks
  import opened RbBalance
  import opened RbTree

  // ----- the list as a set of keys -----------------------------------------------------

  ghost function Keys(s: seq<Entry>): set<int> {
    set i | 0 <= i < |s| :: s[i].key
  }

  lemma {:induction false} InsertedKeys(s: seq<Entry>, e: Entry)
    ensures Keys(Inserted(s, e)) == Keys(s) + {e.key}
  {
    if s == [] || e.key < s[0].key {
      KeysApart([e], s);
      assert [e][0].key in Keys([e]) && Keys([e]) == {e.key};
    } else {
      InsertedKeys(s[1..], e);
      KeysApart([s[0]], Inserted(s[1..], e));
      KeysApart([s[0]], s[1..]);
      assert [s[0]] + s[1..] == s;
    }
  }

  lemma KeysApart(a: seq<Entry>, b: seq<Entry>)
    ensures Keys(a + b) == Keys(a) + Keys(b)
  {
    forall k | k in Keys(b) ensures k in Keys(a + b) {
      var i :| 0 <= i < |b| && b[i].key == k;
      assert (a + b)[|a| + i].key == k;
    }
    forall k | k in Keys(a) ensures k in Keys(a + b) {
      var i :| 0 <= i < |a| && a[i].key == k;
      assert (a + b)[i].key == k;
    }
  }

  lemma WithoutKey(s: seq<Entry>, i: nat)
    requires Increasing(s) && i < |s| && forall j :: 0 <= j < |s| && j != i ==> s[j].node != s[i].node
    ensures Keys(Without(s, s[i].node)) == Keys(s) - {s[i].key}
  {
    var a, e, b := s[..i], s[i], s[i + 1..];
    assert s == a + [e] + b;
    assert forall x :: x in a || x in b ==> x.node != e.node;
    WithoutBetween(a, b, e);
    KeysAround(a, e, b);
    KeysOthers(a, e, b);
  }

  lemma KeysAround(a: seq<Entry>, e: Entry, b: seq<Entry>)
    ensures Keys(a + [e] + b) == Keys(a + b) + {e.key}
  {
    KeysApart(a + [e], b);
    KeysApart(a, [e]);
    KeysApart(a, b);
    assert [e][0].key in Keys([e]) && Keys([e]) == {e.key};
  }

  lemma KeysOthers(a: seq<Entry>, e: Entry, b: seq<Entry>)
    requires Increasing(a + [e] + b)
    ensures e.key !in Keys(a + b)
  {
    forall i | 0 <= i < |a + b| ensures (a + b)[i].key != e.key {
      OtherKey(a, e, b, (a + b)[i]);
    }
  }

  // ----- height ------------------------------------------------------------------------------

  ghost function Height(t: Tree): nat {
    if t.Leaf? then 0 else 1 + if Height(t.left) < Height(t.right) then Height(t.right) else Height(t.left)
  }

  ghost function Pow2(n: nat): nat {
    if n == 0 then 1 else 2 * Pow2(n - 1)
  }

  /** No path is more than twice as long as the black height, and a tree of
      black height h holds at least 2^h - 1 nodes: the height is logarithmic. */
  lemma {:induction false} HeightBound(t: Tree, h: nat)
    requires Balanced(t, h)
    ensures Height(t) <= 2 * h + (if IsRed(t) then 1 else 0)
    ensures Pow2(h) <= |Flat(t)| + 1
  {
    if t.Branch? {
      HeightBound(t.left, if t.red then h else h - 1);
      HeightBound(t.right, if t.red then h else h - 1);
    }
  }

  // ----- runs ----------------------------------------------------------------------------------

  /** EV_ADD and EV_DELETE of a key, as they reach the index. */
  datatype Op = Add(k: int) | Drop(k: int)

  function Final(ks: set<int>, ops: seq<Op>): set<int>
    decreases |ops|
  {
    if ops == [] then ks
    else Final(if ops[0].Add? then ks + {ops[0].k} else ks - {ops[0].k}, ops[1..])
  }

  lemma OnlyNode(m: Store, root: Node?, t: Tree, n: Node, k: int) returns (i: nat)
    requires Focus(m, root, Top, t) && Increasing(Flat(t)) && Entry(n, k) in Flat(t)
    ensures var s := Flat(t);
      i < |s| && s[i] == Entry(n, k) && forall j :: 0 <= j < |s| && j != i ==> s[j].node != n
    ensures n in m
  {
    var s := Flat(t);
    i :| 0 <= i < |s| && s[i] == Entry(n, k);
    forall j | 0 <= j < |s| ensures s[j].node in m && m[s[j].node].key == s[j].key {
      KeyOf(m, t, null, s[j]);
    }
  }

  /** A removed entry takes its key with it: no two entries share a node. */
  method DropKey(t: Head, k: int)
    requires t.Valid()
    modifies t, t.mem.Keys
    ensures t.Valid() && Keys(t.Contents()) == Keys(old(t.Contents())) - {k} && t.mem.Keys <= old(t.mem.Keys)
  {
    var n := t.Find(k);
    ghost var s := t.Contents();
    if n != null {
      ghost var i := OnlyNode(t.mem, t.root, t.shape, n, k);
      t.Remove(n);
      WithoutKey(s, i);
    }
  }

  method AddKey(t: Head, k: int)
    requires t.Valid()
    modifies t, t.mem.Keys
    ensures t.Valid() && Keys(t.Contents()) == Keys(old(t.Contents())) + {k} && fresh(t.mem.Keys - old(t.mem.Keys))
  {
    var n := t.Find(k);
    if n == null {
      var e := new Node(k);
      InsertedKeys(t.Contents(), Entry(e, k));
      var dup := t.Insert(e);
    }
  }

  /** Any run of adds and drops: a red-black tree that holds the keys added and
      not dropped since. */
  method Replay(ops: seq<Op>) returns (t: Head)
    ensures t.Valid() && Keys(t.Contents()) == Final({}, ops)
  {
    t := new Head();
    assert ops[0..] == ops && Keys(t.Contents()) == {};
    for i := 0 to |ops|
      invariant t.Valid() && fresh(t) && fresh(t.mem.Keys)
      invariant Final(Keys(t.Contents()), ops[i..]) == Final({}, ops)
    {
      assert ops[i..][1..] == ops[i + 1..];
      match ops[i]
      case Add(k) => AddKey(t, k);
      case Drop(k) => DropKey(t, k);
    }
  }
}
