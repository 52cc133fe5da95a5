/** Numbered objects that carry an RB_ENTRY, as knotes and timers do: the tree
    holds the entries, and each entry knows the object around it.  What the tree
    stands for is a map from the linked objects to their keys. */
module RbIndex {
  import opened Lists
  import opened RbBalance
  import opened RbLinks
  import opened RbShape
  import opened RbTree

  // ----- the store and the list of entries -----------------------------------------------

  /** s lists the nodes of m, each with its key. */
  ghost predicate Enumerates(m: Store, s: seq<Entry>) {
    && (forall i :: 0 <= i < |s| ==> s[i].node in m && m[s[i].node].key == s[i].key)
    && (forall n :: n in m ==> Entry(n, m[n].key) in s)
  }

  lemma HeadEnumerates(m: Store, root: Node?, t: Tree)
    requires Focus(m, root, Top, t)
    ensures Enumerates(m, Flat(t))
  {
    var s := Flat(t);
    forall i | 0 <= i < |s| ensures s[i].node in m && m[s[i].node].key == s[i].key {
      KeyOf(m, t, null, s[i]);
    }
    forall n | n in m ensures Entry(n, m[n].key) in s {
      FlatNodes(t, n);
      var e :| e in s && e.node == n;
      KeyOf(m, t, null, e);
    }
  }

  lemma {:induction false} InsertedMembers(s: seq<Entry>, e: Entry, x: Entry)
    ensures x in Inserted(s, e) <==> x in s || x == e
  {
    if s != [] && s[0].key <= e.key {
      InsertedMembers(s[1..], e, x);
      assert x in s <==> x == s[0] || x in s[1..];
    }
  }

  lemma {:induction false} WithoutMembers(s: seq<Entry>, n: Node, x: Entry)
    ensures x in Without(s, n) <==> x in s && x.node != n
  {
    if s != [] {
      WithoutMembers(s[1..], n, x);
      assert x in s <==> x == s[0] || x in s[1..];
    }
  }

  /** Insertion and removal keep the keys of the other nodes. */
  lemma InsertedStore(m: Store, s: seq<Entry>, e: Entry, m': Store, n: Node)
    requires Enumerates(m, s) && Enumerates(m', Inserted(s, e)) && e.node !in m
    ensures n in m' <==> n in m || n == e.node
    ensures n in m ==> n in m' && m'[n].key == m[n].key
    ensures e.node in m' && m'[e.node].key == e.key
  {
    InsertedMembers(s, e, e);
    if n in m {
      InsertedMembers(s, e, Entry(n, m[n].key));
    }
    if n in m' {
      InsertedMembers(s, e, Entry(n, m'[n].key));
    }
  }

  lemma WithoutStore(m: Store, s: seq<Entry>, o: Node, m': Store, n: Node)
    requires Enumerates(m, s) && Enumerates(m', Without(s, o))
    ensures n in m' <==> n in m && n != o
    ensures n in m' ==> n in m && m'[n].key == m[n].key
  {
    if n in m {
      WithoutMembers(s, o, Entry(n, m[n].key));
    }
    if n in m' {
      WithoutMembers(s, o, Entry(n, m'[n].key));
    }
  }

  // ----- objects and their entries ------------------------------------------------------------

  /** keys are the keys under which the store holds the entries of the objects. */
  ghost predicate Labels(cell: map<int, Node>, m: Store, keys: map<int, int>) {
    && (forall i :: i in keys ==> i in cell && cell[i] in m && m[cell[i]].key == keys[i])
    && (forall i :: i in cell && cell[i] in m ==> i in keys)
  }

  /** owner is the inverse of cell. */
  ghost predicate Inverse(cell: map<int, Node>, owner: map<Node, int>) {
    && (forall i :: i in cell ==> cell[i] in owner && owner[cell[i]] == i)
    && (forall n :: n in owner ==> owner[n] in cell && cell[owner[n]] == n)
  }

  /** One node more, one node less: the other keys are as they were. */
  ghost predicate Pushed(m: Store, m': Store, n: Node, k: int) {
    && m'.Keys == m.Keys + {n} && m'[n].key == k
    && forall x :: x in m && x != n ==> m'[x].key == m[x].key
  }

  ghost predicate Popped(m: Store, m': Store, n: Node) {
    m'.Keys == m.Keys - {n} && forall x :: x in m' ==> m'[x].key == m[x].key
  }

  lemma InsertPushes(m: Store, s: seq<Entry>, e: Entry, m': Store)
    requires Enumerates(m, s) && Enumerates(m', Inserted(s, e)) && e.node !in m
    ensures Pushed(m, m', e.node, e.key)
  {
    forall x ensures (x in m' <==> x in m || x == e.node) && (x in m ==> x in m' && m'[x].key == m[x].key) {
      InsertedStore(m, s, e, m', x);
    }
    InsertedStore(m, s, e, m', e.node);
  }

  lemma RemovePops(m: Store, s: seq<Entry>, n: Node, m': Store)
    requires Enumerates(m, s) && Enumerates(m', Without(s, n))
    ensures Popped(m, m', n)
  {
    forall x ensures (x in m' <==> x in m && x != n) && (x in m' ==> m'[x].key == m[x].key) {
      WithoutStore(m, s, n, m', x);
    }
  }

  lemma KeysPushed(cell: map<int, Node>, owner: map<Node, int>, keys: map<int, int>, m: Store, i: int, k: int,
                   m': Store)
    requires Inverse(cell, owner) && Labels(cell, m, keys) && i in cell && cell[i] !in m && Pushed(m, m', cell[i], k)
    ensures Labels(cell, m', keys[i := k])
  {
  }

  lemma KeysPopped(cell: map<int, Node>, owner: map<Node, int>, keys: map<int, int>, m: Store, i: int, m': Store)
    requires Inverse(cell, owner) && Labels(cell, m, keys) && i in cell && Popped(m, m', cell[i])
    ensures Labels(cell, m', keys - {i})
  {
  }

  /** The object around the entry at one place of the list. */
  lemma Holder(cell: map<int, Node>, owner: map<Node, int>, keys: map<int, int>, m: Store, s: seq<Entry>, x: nat)
    requires Inverse(cell, owner) && Labels(cell, m, keys) && Enumerates(m, s) && m.Keys <= owner.Keys && x < |s|
    ensures s[x].node in owner
    ensures var i := owner[s[x].node]; i in keys && cell[i] == s[x].node && keys[i] == s[x].key
  {
  }

  lemma NoTwin(cell: map<int, Node>, owner: map<Node, int>, keys: map<int, int>, m: Store, s: seq<Entry>, k: int)
    requires Inverse(cell, owner) && Labels(cell, m, keys) && Enumerates(m, s) && m.Keys <= owner.Keys
    requires forall j :: j in keys ==> keys[j] != k
    ensures forall e :: e in s ==> e.key != k
  {
    forall e | e in s ensures e.key != k {
      var x :| 0 <= x < |s| && s[x] == e;
      var j := owner[s[x].node];
      assert cell[j] == e.node && j in keys;
    }
  }

  lemma CellAdded(cell: map<int, Node>, owner: map<Node, int>, keys: map<int, int>, m: Store, i: int, n: Node)
    requires Inverse(cell, owner) && Labels(cell, m, keys) && i !in cell && n !in owner && m.Keys <= owner.Keys
    ensures Inverse(cell[i := n], owner[n := i]) && Labels(cell[i := n], m, keys)
  {
  }

  lemma CellDropped(cell: map<int, Node>, owner: map<Node, int>, keys: map<int, int>, m: Store, i: int)
    requires Inverse(cell, owner) && Labels(cell, m, keys) && i in cell && i !in keys && m.Keys <= owner.Keys
    ensures Inverse(cell - {i}, owner - {cell[i]}) && Labels(cell - {i}, m, keys)
    ensures m.Keys <= (owner - {cell[i]}).Keys
  {
  }

  /** The position of a linked object in the list. */
  lemma Place(cell: map<int, Node>, keys: map<int, int>, m: Store, s: seq<Entry>, j: int) returns (x: nat)
    requires Labels(cell, m, keys) && Enumerates(m, s) && j in keys
    ensures x < |s| && s[x] == Entry(cell[j], keys[j])
  {
    x :| 0 <= x < |s| && s[x] == Entry(cell[j], m[cell[j]].key);
  }

  class Index {
    const head: Head
    /** The entry inside each object, and the object around each entry. */
    var cell: map<int, Node>
    var owner: map<Node, int>
    /** The linked objects and their keys. */
    ghost var keys: map<int, int>

    ghost predicate Valid()
      reads this, head, head.mem.Keys
    {
      head.Valid() && head.mem.Keys <= owner.Keys && Inverse(cell, owner) && Labels(cell, head.mem, keys)
    }

    constructor ()
      ensures Valid() && keys == map[] && cell == map[] && owner == map[] && fresh(head)
    {
      head := new Head();
      cell, owner, keys := map[], map[], map[];
    }

    /** A new object with an entry that is not linked yet. */
    method Add(i: int, k: int)
      requires Valid() && i !in cell
      modifies `cell, `owner
      ensures Valid() && i in cell && cell == old(cell)[i := cell[i]]
      ensures fresh(cell[i]) && cell[i].key == k && owner.Keys == old(owner.Keys) + {cell[i]}
    {
      var n := new Node(k);
      CellAdded(cell, owner, keys, head.mem, i, n);
      cell, owner := cell[i := n], owner[n := i];
    }

    /** The object is freed; it must not be linked. */
    method Drop(i: int)
      requires Valid() && i in cell && i !in keys
      modifies `cell, `owner
      ensures Valid() && cell == old(cell) - {i} && owner.Keys <= old(owner.Keys)
    {
      CellDropped(cell, owner, keys, head.mem, i);
      cell, owner := cell - {i}, owner - {cell[i]};
    }

    /** The key of an object may change only while it is not linked. */
    method SetKey(i: int, k: int)
      requires Valid() && i in cell && i !in keys
      modifies cell[i]
      ensures Valid() && cell[i].key == k
    {
      cell[i].key := k;
    }

    method Push(n: Node)
      requires head.Valid() && n !in head.mem && forall e :: e in head.Contents() ==> e.key != n.key
      modifies head, head.mem.Keys, n
      ensures head.Valid() && Pushed(old(head.mem), head.mem, n, old(n.key))
    {
      ghost var m, s, k := head.mem, head.Contents(), n.key;
      HeadEnumerates(m, head.root, head.shape);
      var dup := head.Insert(n);
      HeadEnumerates(head.mem, head.root, head.shape);
      InsertPushes(m, s, Entry(n, k), head.mem);
    }

    method Pop(n: Node)
      requires head.Valid() && n in head.mem
      modifies head, head.mem.Keys
      ensures head.Valid() && Popped(old(head.mem), head.mem, n)
    {
      ghost var m, s := head.mem, head.Contents();
      HeadEnumerates(m, head.root, head.shape);
      head.Remove(n);
      HeadEnumerates(head.mem, head.root, head.shape);
      RemovePops(m, s, n, head.mem);
    }

    method Link(i: int)
      requires Valid() && i in cell && i !in keys && forall j :: j in keys ==> keys[j] != cell[i].key
      modifies `keys, head, owner.Keys
      ensures Valid() && keys == old(keys)[i := old(cell[i].key)]
    {
      ghost var m, k := head.mem, cell[i].key;
      HeadEnumerates(m, head.root, head.shape);
      NoTwin(cell, owner, keys, m, head.Contents(), k);
      Push(cell[i]);
      KeysPushed(cell, owner, keys, m, i, k, head.mem);
      keys := keys[i := k];
    }

    method Unlink(i: int)
      requires Valid() && i in keys
      modifies `keys, head, owner.Keys
      ensures Valid() && keys == old(keys) - {i}
    {
      ghost var m := head.mem;
      Pop(cell[i]);
      KeysPopped(cell, owner, keys, m, i, head.mem);
      keys := keys - {i};
    }

    /** RB_MIN */
    method Min() returns (r: Option<int>)
      requires Valid()
      ensures r.None? <==> keys == map[]
      ensures r.Some? ==> r.value in keys && forall j :: j in keys && j != r.value ==> keys[r.value] < keys[j]
    {
      var n := head.Min();
      ghost var s := head.Contents();
      HeadEnumerates(head.mem, head.root, head.shape);
      forall j | j in keys ensures s != [] && (cell[j] == s[0].node || s[0].key < keys[j]) {
        var x := Place(cell, keys, head.mem, s, j);
      }
      if n == null {
        return None;
      }
      Holder(cell, owner, keys, head.mem, s, 0);
      return Some(owner[n]);
    }

    /** RB_NEXT */
    method Next(i: int) returns (r: Option<int>)
      requires Valid() && i in keys
      ensures r.Some? ==> r.value in keys && keys[i] < keys[r.value]
      ensures forall j :: j in keys && keys[i] < keys[j] ==> r.Some? && keys[r.value] <= keys[j]
    {
      ghost var s := head.Contents();
      HeadEnumerates(head.mem, head.root, head.shape);
      ghost var x := Place(cell, keys, head.mem, s, i);
      var n := head.Next(cell[i]);
      assert head.Contents()[x].node == cell[i];
      assert n == NodeAt(s, x + 1);
      forall j | j in keys && keys[i] < keys[j] ensures x + 1 < |s| && s[x + 1].key <= keys[j] {
        var y := Place(cell, keys, head.mem, s, j);
      }
      if n == null {
        return None;
      }
      Holder(cell, owner, keys, head.mem, s, x + 1);
      return Some(owner[n]);
    }
  }
}
