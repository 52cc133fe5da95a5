/** The knote indexes of a kqueue and its two counters: kq_knote_count
    (src/common/knote.c) and kq_always_ready (src/posix/read.c,
    src/posix/vnode.c).  Counters and flags are changed under the kqueue's lock,
    so the invariant holds whenever the lock is free. */
module KnoteIndex {
  import opened Lists
  import opened RbIndex
  import RbShape

  /** A regular file read by EVFILT_READ, an EVFILT_VNODE knote, or another. */
  datatype Kind = File | Vnode | Plain

  datatype Flags = Flags(clear: bool, dispatch: bool, oneshot: bool)

  /** bumped: KNFL_ALWAYS_READY_BUMPED. */
  datatype Knote = Knote(kind: Kind, flags: Flags, disabled: bool, bumped: bool)

  /** The knotes of one filter, by ident. */
  type Records = map<int, Knote>

  function Total(index: seq<Records>): nat {
    if index == [] then 0 else |index[0]| + Total(index[1..])
  }

  ghost function Bumped(m: Records): set<int> {
    set i | i in m && m[i].bumped
  }

  ghost function Bumps(index: seq<Records>): nat {
    if index == [] then 0 else |Bumped(index[0])| + Bumps(index[1..])
  }

  // ----- sums ------------------------------------------------------------------------

  lemma {:induction false} TotalAt(index: seq<Records>, f: nat, m: Records)
    requires f < |index|
    ensures Total(index[f := m]) == Total(index) - |index[f]| + |m|
  {
    if f > 0 {
      TotalAt(index[1..], f - 1, m);
      assert index[f := m][1..] == index[1..][f - 1 := m];
    } else {
      assert index[f := m][1..] == index[1..];
    }
  }

  lemma {:induction false} BumpsAt(index: seq<Records>, f: nat, m: Records)
    requires f < |index|
    ensures Bumps(index[f := m]) == Bumps(index) - |Bumped(index[f])| + |Bumped(m)|
  {
    if f > 0 {
      BumpsAt(index[1..], f - 1, m);
      assert index[f := m][1..] == index[1..][f - 1 := m];
    } else {
      assert index[f := m][1..] == index[1..];
    }
  }

  lemma Pick<T>(a: set<T>) returns (x: T)
    requires a != {}
    ensures x in a
  {
    x :| x in a;
  }

  lemma {:induction false} SubsetSize(a: set<int>, b: set<int>)
    requires a <= b
    ensures |a| <= |b| && (|a| == |b| ==> a == b)
  {
    if a != {} {
      var x := Pick(a);
      SubsetSize(a - {x}, b - {x});
      assert a == (a - {x}) + {x} && b == (b - {x}) + {x};
    }
  }

  lemma BumpedSome(m: Records)
    ensures |Bumped(m)| <= |m| && (|Bumped(m)| == |m| ==> forall i :: i in m ==> m[i].bumped)
  {
    SubsetSize(Bumped(m), m.Keys);
    assert |m.Keys| == |m|;
    if |Bumped(m)| == |m| {
      assert forall i :: i in m ==> i in m.Keys;
    }
  }

  /** Never more always-ready knotes than knotes, and as many only when every
      knote is one: what only_always_ready in posix_kevent_wait stands for. */
  lemma {:induction false} OnlyAlwaysReady(index: seq<Records>)
    ensures Bumps(index) <= Total(index)
    ensures Bumps(index) == Total(index) <==> forall f, i :: 0 <= f < |index| && i in index[f] ==> index[f][i].bumped
  {
    if index != [] {
      BumpedSome(index[0]);
      OnlyAlwaysReady(index[1..]);
      if forall i :: i in index[0] ==> index[0][i].bumped {
        assert Bumped(index[0]) == index[0].Keys;
      }
      assert forall f :: 0 < f < |index| ==> index[f] == index[1..][f - 1];
    }
  }

  class Kqueue {
    /** The knotes of each filter. */
    var index: seq<Records>
    var knoteCount: nat
    var alwaysReady: nat
    /** The kn_delete calls so far: filter and ident. */
    var deletions: seq<(nat, int)>

    ghost predicate Valid()
      reads this
    {
      knoteCount == Total(index) && alwaysReady == Bumps(index)
    }

    constructor (filters: nat)
      ensures Valid() && |index| == filters && knoteCount == 0 && alwaysReady == 0
    {
      index := seq(filters, _ => map[]);
      knoteCount, alwaysReady, deletions := 0, 0, [];
      new;
      Empty(filters);
    }

    /** posix_read_arm and evfilt_vnode_knote_enable: at most one bump a knote. */
    method Arm(f: nat, i: int)
      requires Valid() && f < |index| && i in index[f]
      modifies `index, `alwaysReady
      ensures Valid() && index == old(index)[f := old(index)[f][i := Armed(old(index)[f][i])]]
    {
      var m := index[f];
      Stored(index, f, i, Armed(m[i]));
      if !m[i].kind.Plain? && !m[i].bumped {
        alwaysReady := alwaysReady + 1;
      }
      index := index[f := m[i := Armed(m[i])]];
    }

    /** posix_read_disarm and evfilt_vnode_knote_disable: the counter is positive
        whenever there is a bump to take back. */
    method Disarm(f: nat, i: int)
      requires Valid() && f < |index| && i in index[f]
      modifies `index, `alwaysReady
      ensures Valid() && index == old(index)[f := old(index)[f][i := Disarmed(old(index)[f][i])]]
    {
      var m := index[f];
      Stored(index, f, i, Disarmed(m[i]));
      if !m[i].kind.Plain? && m[i].bumped && alwaysReady > 0 {
        alwaysReady := alwaysReady - 1;
      }
      index := index[f := m[i := Disarmed(m[i])]];
    }

    method Mark(f: nat, i: int, disabled: bool)
      requires Valid() && f < |index| && i in index[f]
      modifies `index
      ensures Valid() && index == old(index)[f := old(index)[f][i := old(index)[f][i].(disabled := disabled)]]
    {
      var n := index[f][i].(disabled := disabled);
      Stored(index, f, i, n);
      index := index[f := index[f][i := n]];
    }

    /** EV_ADD: kn_create, which may fail, then knote_insert. */
    method Create(f: nat, i: int, kind: Kind, flags: Flags, ok: bool) returns (rv: int)
      requires Valid() && f < |index| && i !in index[f]
      modifies `index, `knoteCount, `alwaysReady
      ensures Valid() && rv == if ok then 0 else -1
      ensures index ==
        if ok then old(index)[f := old(index)[f][i := Armed(Knote(kind, flags, false, false))]] else old(index)
    {
      if !ok {
        return -1;
      }
      var n := Armed(Knote(kind, flags, false, false));
      Grown(index, f, i, n);
      if !kind.Plain? {
        alwaysReady := alwaysReady + 1;
      }
      index := index[f := index[f][i := n]];
      knoteCount := knoteCount + 1;
      return 0;
    }

    /** knote_enable and knote_disable */
    method Enable(f: nat, i: int)
      requires Valid() && f < |index| && i in index[f]
      modifies `index, `alwaysReady
      ensures Valid() && index == old(index)[f := old(index)[f][i := EnabledKnote(old(index)[f][i])]]
    {
      PutSame(index, f, i);
      PutTwice(index, f, i, Armed(index[f][i]), EnabledKnote(index[f][i]));
      if index[f][i].disabled {
        Arm(f, i);
        Mark(f, i, false);
      }
    }

    method Disable(f: nat, i: int)
      requires Valid() && f < |index| && i in index[f]
      modifies `index, `alwaysReady
      ensures Valid() && index == old(index)[f := old(index)[f][i := DisabledKnote(old(index)[f][i])]]
    {
      PutSame(index, f, i);
      PutTwice(index, f, i, Disarmed(index[f][i]), DisabledKnote(index[f][i]));
      if !index[f][i].disabled {
        Disarm(f, i);
        Mark(f, i, true);
      }
    }

    /** knote_delete: out of the index, then kn_delete, which disarms. */
    method Delete(f: nat, i: int)
      requires Valid() && f < |index| && i in index[f]
      modifies this
      ensures Valid() && index == old(index)[f := old(index)[f] - {i}] && deletions == old(deletions) + [(f, i)]
    {
      var n := index[f][i];
      Shrunk(index, f, i);
      index := index[f := index[f] - {i}];
      if knoteCount > 0 {
        knoteCount := knoteCount - 1;
      }
      if n.bumped && alwaysReady > 0 {
        alwaysReady := alwaysReady - 1;
      }
      deletions := deletions + [(f, i)];
    }

    /** Delivery of one event: EV_CLEAR takes a file's bump back, EV_DISPATCH
        disables. */
    method Deliver(f: nat, i: int)
      requires Valid() && f < |index| && i in index[f]
      modifies `index, `alwaysReady
      ensures Valid() && index == old(index)[f := old(index)[f][i := Delivered(old(index)[f][i])]]
    {
      var n := index[f][i];
      ghost var c := if n.flags.clear && n.kind.File? then Disarmed(n) else n;
      PutSame(index, f, i);
      PutTwice(index, f, i, c, Delivered(n));
      if n.flags.clear && n.kind.File? {
        Disarm(f, i);
      }
      if n.flags.dispatch {
        Disable(f, i);
      }
    }
  }

  // ----- a filter and its tree ----------------------------------------------------------------

  function Calls(f: nat, ks: seq<int>): seq<(nat, int)> {
    seq(|ks|, j requires 0 <= j < |ks| => (f, ks[j]))
  }

  ghost predicate Ascending(order: seq<int>) {
    forall a, b :: 0 <= a < b < |order| ==> order[a] < order[b]
  }

  /** A traversal of the idents all in increasing order has passed order, and left
      remains, none of it before what was passed. */
  ghost predicate Walked(all: set<int>, order: seq<int>, left: set<int>) {
    && Ascending(order) && Elems(order) + left == all
    && forall a, j :: 0 <= a < |order| && j in left ==> order[a] < j
  }

  lemma WalkOn(all: set<int>, order: seq<int>, left: set<int>, x: int)
    requires Walked(all, order, left) && x in left && forall j :: j in left ==> x <= j
    ensures Walked(all, order + [x], left - {x})
  {
    assert Elems(order + [x]) == Elems(order) + {x};
  }

  /** r is the least ident of left, none if there is none. */
  ghost predicate Least(r: Option<int>, left: set<int>) {
    if r.None? then left == {} else r.value in left && forall j :: j in left ==> r.value <= j
  }

  lemma KeysPut(m: Records, i: int, n: Knote)
    ensures m[i := n].Keys == m.Keys + {i}
  {
  }

  lemma DropPut(m: Records, i: int, n: Knote)
    ensures m[i := n] - {i} == m - {i} && (i in m ==> m[i := n].Keys == m.Keys)
  {
  }

  lemma NextLeast(keys: map<int, int>, ids: set<int>, i: int, r: Option<int>)
    requires keys.Keys == ids && (forall j :: j in ids ==> keys[j] == j) && Least(Some(i), ids)
    requires r.Some? ==> r.value in keys && keys[i] < keys[r.value]
    requires forall j :: j in keys && keys[i] < keys[j] ==> r.Some? && keys[r.value] <= keys[j]
    ensures Least(r, ids - {i})
  {
    forall j | j in ids - {i} ensures r.Some? && r.value <= j {
      assert j in keys && keys[i] < keys[j];
    }
  }

  /** The tree holds the knotes ids, each under its ident. */
  ghost predicate Holds(t: Index, ids: set<int>)
    reads t, t.head, t.head.mem.Keys
  {
    t.Valid() && t.cell.Keys == ids && t.keys.Keys == ids && forall i :: i in ids ==> t.keys[i] == i
  }

  lemma HoldsMore(cell: map<int, RbShape.Node>, keys: map<int, int>, ids: set<int>, i: int, n: RbShape.Node)
    requires cell.Keys == ids && keys.Keys == ids && forall j :: j in ids ==> keys[j] == j
    ensures cell[i := n].Keys == ids + {i} && keys[i := i].Keys == ids + {i}
    ensures forall j :: j in ids + {i} ==> keys[i := i][j] == j
  {
  }

  /** struct filter: its number, its kqueue (kf_kqueue) and its tree (kf_index). */
  class Filter {
    const id: nat
    const kq: Kqueue
    const tree: Index

    ghost predicate Valid()
      reads this, kq, tree, tree.head, tree.head.mem.Keys
    {
      kq.Valid() && id < |kq.index| && Holds(tree, kq.index[id].Keys)
    }

    constructor (kq: Kqueue, id: nat)
      requires kq.Valid() && id < |kq.index| && kq.index[id] == map[]
      ensures Valid() && this.kq == kq && this.id == id && fresh(tree) && fresh(tree.head) && tree.owner == map[]
    {
      this.kq, this.id := kq, id;
      tree := new Index();
    }

    /** RB_INSERT of a new knote. */
    method Insert(i: int, ghost ids: set<int>)
      requires Holds(tree, ids) && i !in ids
      modifies tree, tree.head, tree.owner.Keys
      ensures Holds(tree, ids + {i}) && i in tree.cell && fresh(tree.cell[i])
      ensures tree.owner.Keys == old(tree.owner.Keys) + {tree.cell[i]}
    {
      ghost var c, k := tree.cell, tree.keys;
      tree.Add(i, i);
      tree.Link(i);
      HoldsMore(c, k, ids, i, tree.cell[i]);
    }

    /** RB_REMOVE; the knote is freed. */
    method Remove(i: int, ghost ids: set<int>)
      requires Holds(tree, ids) && i in ids
      modifies tree, tree.head, tree.owner.Keys
      ensures Holds(tree, ids - {i}) && tree.owner.Keys <= old(tree.owner.Keys)
    {
      tree.Unlink(i);
      tree.Drop(i);
    }

    /** EV_ADD: kn_create succeeds, then knote_insert. */
    method Create(i: int, kind: Kind, flags: Flags)
      requires Valid() && i !in kq.index[id]
      modifies kq, tree, tree.head, tree.owner.Keys
      ensures Valid() && i in tree.cell && fresh(tree.cell[i])
      ensures tree.owner.Keys == old(tree.owner.Keys) + {tree.cell[i]}
      ensures kq.index == old(kq.index)[id := old(kq.index)[id][i := Armed(Knote(kind, flags, false, false))]]
    {
      ghost var ids := kq.index[id].Keys;
      KeysPut(kq.index[id], i, Armed(Knote(kind, flags, false, false)));
      Count(i, kind, flags, ids);
      Insert(i, ids);
    }

    method Count(i: int, kind: Kind, flags: Flags, ghost ids: set<int>)
      requires kq.Valid() && id < |kq.index| && i !in kq.index[id] && Holds(tree, ids)
      modifies kq
      ensures kq.Valid() && Holds(tree, ids)
      ensures kq.index == old(kq.index)[id := old(kq.index)[id][i := Armed(Knote(kind, flags, false, false))]]
    {
      var rv := kq.Create(id, i, kind, flags, true);
    }

    /** knote_delete */
    method Delete(i: int)
      requires Valid() && i in kq.index[id]
      modifies kq, tree, tree.head, tree.owner.Keys
      ensures Valid() && tree.owner.Keys <= old(tree.owner.Keys)
      ensures kq.index == old(kq.index)[id := old(kq.index)[id] - {i}] && kq.deletions == old(kq.deletions) + [(id, i)]
    {
      ghost var ids := kq.index[id].Keys;
      Remove(i, ids);
      Uncount(i, ids - {i});
    }

    method Uncount(i: int, ghost ids: set<int>)
      requires kq.Valid() && id < |kq.index| && i in kq.index[id] && Holds(tree, ids)
      modifies kq
      ensures kq.Valid() && Holds(tree, ids)
      ensures kq.index == old(kq.index)[id := old(kq.index)[id] - {i}] && kq.deletions == old(kq.deletions) + [(id, i)]
      ensures kq.index[id].Keys == old(kq.index[id].Keys) - {i}
    {
      kq.Delete(id, i);
    }

    /** Delivery of one event; EV_ONESHOT deletes the knote. */
    method Deliver(i: int)
      requires Valid() && i in kq.index[id]
      modifies kq, tree, tree.head, tree.owner.Keys
      ensures Valid() && tree.owner.Keys <= old(tree.owner.Keys)
      ensures kq.index == old(kq.index)[id := if old(kq.index)[id][i].flags.oneshot then old(kq.index)[id] - {i}
                                               else old(kq.index)[id][i := Delivered(old(kq.index)[id][i])]]
    {
      var oneshot := kq.index[id][i].flags.oneshot;
      DeliverThenDrop(kq.index, id, i);
      Refresh(i);
      if oneshot {
        Delete(i);
      }
    }

    method Refresh(i: int)
      requires Valid() && i in kq.index[id]
      modifies kq
      ensures Valid() && kq.index == old(kq.index)[id := old(kq.index)[id][i := Delivered(old(kq.index)[id][i])]]
    {
      ghost var m := kq.index[id];
      DropPut(m, i, Delivered(m[i]));
      kq.Deliver(id, i);
      assert kq.index[id].Keys == m.Keys;
    }

    method First() returns (r: Option<int>)
      requires Valid()
      ensures Least(r, kq.index[id].Keys)
    {
      r := tree.Min();
    }

    /** One pass of RB_FOREACH_SAFE: the next knote is read before the body deletes
        the current one, and is the least of those that remain. */
    method Pass(i: int) returns (r: Option<int>)
      requires Valid() && Least(Some(i), kq.index[id].Keys)
      modifies kq, tree, tree.head, tree.owner.Keys
      ensures Valid() && Least(r, kq.index[id].Keys) && tree.owner.Keys <= old(tree.owner.Keys)
      ensures kq.index == old(kq.index)[id := old(kq.index)[id] - {i}] && kq.deletions == old(kq.deletions) + [(id, i)]
    {
      ghost var ids := kq.index[id].Keys;
      r := tree.Next(i);
      NextLeast(tree.keys, ids, i, r);
      Delete(i);
      assert kq.index[id].Keys == ids - {i};
    }

    /** knote_delete_all: the traversal meets every knote of the filter once, in the
        order of the idents, and leaves none. */
    method DeleteAll() returns (order: seq<int>)
      requires Valid()
      modifies kq, tree, tree.head, tree.owner.Keys
      ensures Valid() && kq.index == old(kq.index)[id := map[]]
      ensures Ascending(order) && Elems(order) == old(kq.index)[id].Keys
      ensures kq.deletions == old(kq.deletions) + Calls(id, order)
    {
      ghost var m, d := kq.index, kq.deletions;
      order := [];
      StageStart(m, d, id);
      var x := First();
      while x.Some?
        invariant Valid() && Least(x, kq.index[id].Keys) && tree.owner.Keys <= old(tree.owner.Keys)
        invariant Stage(m, d, kq.index, kq.deletions, id, order)
        decreases kq.index[id].Keys
      {
        StageOn(m, d, kq.index, kq.deletions, id, order, x.value);
        order := order + [x.value];
        x := Pass(x.value);
      }
      StageEnd(m, d, kq.index, kq.deletions, id, order);
    }
  }

  /** From index m and calls d, the knotes of filter f in order are deleted. */
  ghost predicate Stage(m: seq<Records>, d: seq<(nat, int)>, m': seq<Records>, d': seq<(nat, int)>, f: nat,
                        order: seq<int>)
  {
    && f < |m| == |m'| && m' == m[f := m'[f]] && d' == d + Calls(f, order)
    && Walked(m[f].Keys, order, m'[f].Keys)
  }

  lemma StageStart(m: seq<Records>, d: seq<(nat, int)>, f: nat)
    requires f < |m|
    ensures Stage(m, d, m, d, f, [])
  {
    assert d + Calls(f, []) == d;
  }

  lemma StageOn(m: seq<Records>, d: seq<(nat, int)>, m': seq<Records>, d': seq<(nat, int)>, f: nat,
                order: seq<int>, x: int)
    requires Stage(m, d, m', d', f, order) && Least(Some(x), m'[f].Keys)
    ensures Stage(m, d, m'[f := m'[f] - {x}], d' + [(f, x)], f, order + [x])
    ensures (m'[f] - {x}).Keys < m'[f].Keys
  {
    WalkOn(m[f].Keys, order, m'[f].Keys, x);
    CallMore(f, order, x, d);
    assert (m'[f] - {x}).Keys == m'[f].Keys - {x};
  }

  lemma StageEnd(m: seq<Records>, d: seq<(nat, int)>, m': seq<Records>, d': seq<(nat, int)>, f: nat, order: seq<int>)
    requires Stage(m, d, m', d', f, order) && Least(None, m'[f].Keys)
    ensures m' == m[f := map[]] && Elems(order) == m[f].Keys
  {
    assert m'[f] == map[];
  }

  lemma DeliverThenDrop(m: seq<Records>, f: nat, i: int)
    requires f < |m| && i in m[f]
    ensures var r := m[f := m[f][i := Delivered(m[f][i])]]; r[f := r[f] - {i}] == m[f := m[f] - {i}]
  {
    DropPut(m[f], i, Delivered(m[f][i]));
  }

  lemma CallMore(f: nat, order: seq<int>, i: int, h: seq<(nat, int)>)
    ensures h + Calls(f, order) + [(f, i)] == h + Calls(f, order + [i])
  {
  }

  lemma PutSame(index: seq<Records>, f: nat, i: int)
    requires f < |index| && i in index[f]
    ensures index[f := index[f][i := index[f][i]]] == index
  {
    assert index[f][i := index[f][i]] == index[f];
  }

  lemma PutTwice(index: seq<Records>, f: nat, i: int, a: Knote, b: Knote)
    requires f < |index| && i in index[f]
    ensures var m := index[f]; index[f := m[i := a]][f := m[i := a][i := b]] == index[f := m[i := b]]
  {
    assert index[f][i := a][i := b] == index[f][i := b];
  }

  function Armed(n: Knote): Knote {
    if n.kind.Plain? then n else n.(bumped := true)
  }

  function Disarmed(n: Knote): Knote {
    if n.kind.Plain? then n else n.(bumped := false)
  }

  function EnabledKnote(n: Knote): Knote {
    if n.disabled then Armed(n).(disabled := false) else n
  }

  function DisabledKnote(n: Knote): Knote {
    if n.disabled then n else Disarmed(n).(disabled := true)
  }

  function Delivered(n: Knote): Knote {
    var c := if n.flags.clear && n.kind.File? then Disarmed(n) else n;
    if n.flags.dispatch then DisabledKnote(c) else c
  }

  // ----- which knotes are bumped ------------------------------------------------------------

  /** What happens to a knote between its creation and its deletion. */
  datatype Act = TurnOn | TurnOff | Event

  function Play(n: Knote, acts: seq<Act>): Knote
    decreases |acts|
  {
    if acts == [] then n
    else
      var p := Play(n, acts[..|acts| - 1]);
      match acts[|acts| - 1]
      case TurnOn => EnabledKnote(p)
      case TurnOff => DisabledKnote(p)
      case Event => Delivered(p)
  }

  /** Disabled by the last EV_DISABLE, or by an event under EV_DISPATCH, and not
      enabled since. */
  ghost predicate TurnedOff(acts: seq<Act>, dispatch: bool) {
    exists j :: 0 <= j < |acts| && (acts[j].TurnOff? || (dispatch && acts[j].Event?)) &&
      forall l :: j < l < |acts| ==> !acts[l].TurnOn?
  }

  /** An event was delivered since the knote was last armed. */
  ghost predicate Spent(acts: seq<Act>, dispatch: bool) {
    exists j :: 0 <= j < |acts| && acts[j].Event? &&
      forall l :: j < l < |acts| && acts[l].TurnOn? ==> !TurnedOff(acts[..l], dispatch)
  }

  lemma TurnedOffOn(acts: seq<Act>, a: Act, dispatch: bool)
    ensures TurnedOff(acts + [a], dispatch) <==>
      a.TurnOff? || (dispatch && a.Event?) || (TurnedOff(acts, dispatch) && !a.TurnOn?)
  {
    var t, m := acts + [a], |acts|;
    assert forall l :: 0 <= l < m ==> t[l] == acts[l];
    assert t[m] == a;
    if TurnedOff(acts, dispatch) && !a.TurnOn? {
      var j :| 0 <= j < m && (acts[j].TurnOff? || (dispatch && acts[j].Event?)) &&
        forall l :: j < l < m ==> !acts[l].TurnOn?;
      assert t[j] == acts[j];
    }
    if TurnedOff(t, dispatch) {
      var j :| 0 <= j < |t| && (t[j].TurnOff? || (dispatch && t[j].Event?)) &&
        forall l :: j < l < |t| ==> !t[l].TurnOn?;
      assert j < m ==> acts[j] == t[j];
      assert j < m ==> forall l :: j < l < m ==> acts[l] == t[l];
    }
  }

  lemma SpentOn(acts: seq<Act>, a: Act, dispatch: bool)
    ensures Spent(acts + [a], dispatch) <==>
      a.Event? || (Spent(acts, dispatch) && !(a.TurnOn? && TurnedOff(acts, dispatch)))
  {
    var t, m := acts + [a], |acts|;
    assert forall l :: 0 <= l < m ==> t[l] == acts[l] && t[..l] == acts[..l];
    assert t[m] == a && t[..m] == acts;
    if a.Event? {
      assert t[m].Event?;
    } else if Spent(acts, dispatch) && !(a.TurnOn? && TurnedOff(acts, dispatch)) {
      var j :| 0 <= j < m && acts[j].Event? &&
        forall l :: j < l < m && acts[l].TurnOn? ==> !TurnedOff(acts[..l], dispatch);
      assert t[j].Event?;
    }
    if Spent(t, dispatch) && !a.Event? {
      var j :| 0 <= j < |t| && t[j].Event? &&
        forall l :: j < l < |t| && t[l].TurnOn? ==> !TurnedOff(t[..l], dispatch);
      assert acts[j].Event?;
    }
  }

  /** Through any mix of calls and events a knote holds a bump if and only if it is a
      file or a vnode, is enabled, and, for a file with EV_CLEAR, has had no event
      since it was armed. */
  lemma {:induction false} PlayBumps(kind: Kind, flags: Flags, acts: seq<Act>)
    ensures var r := Play(Armed(Knote(kind, flags, false, false)), acts);
      && r.kind == kind && r.flags == flags
      && (r.disabled <==> TurnedOff(acts, flags.dispatch))
      && (r.bumped <==> !kind.Plain? && !r.disabled && !(kind.File? && flags.clear && Spent(acts, flags.dispatch)))
    decreases |acts|
  {
    if acts != [] {
      var m := |acts| - 1;
      PlayBumps(kind, flags, acts[..m]);
      TurnedOffOn(acts[..m], acts[m], flags.dispatch);
      SpentOn(acts[..m], acts[m], flags.dispatch);
      assert acts[..m] + [acts[m]] == acts;
    }
  }

  /** The sums after one record was replaced, added or removed. */
  lemma Stored(index: seq<Records>, f: nat, i: int, n: Knote)
    requires f < |index| && i in index[f]
    ensures var r := index[f := index[f][i := n]];
      && Total(r) == Total(index)
      && Bumps(r) == Bumps(index) + (if n.bumped then 1 else 0) - (if index[f][i].bumped then 1 else 0)
      && (index[f][i].bumped ==> Bumps(index) > 0)
  {
    var m := index[f];
    BumpsAt(index, f, m[i := n]);
    TotalAt(index, f, m[i := n]);
    assert m[i := n].Keys == m.Keys;
    StoreBump(m, i, n);
    if m[i].bumped {
      AnyBump(index, f, i);
    }
  }

  lemma Grown(index: seq<Records>, f: nat, i: int, n: Knote)
    requires f < |index| && i !in index[f]
    ensures var r := index[f := index[f][i := n]];
      Total(r) == Total(index) + 1 && Bumps(r) == Bumps(index) + if n.bumped then 1 else 0
  {
    var m := index[f];
    BumpsAt(index, f, m[i := n]);
    TotalAt(index, f, m[i := n]);
    assert Bumped(m[i := n]) == if n.bumped then Bumped(m) + {i} else Bumped(m);
  }

  lemma Shrunk(index: seq<Records>, f: nat, i: int)
    requires f < |index| && i in index[f]
    ensures var r := index[f := index[f] - {i}];
      && Total(r) == Total(index) - 1
      && Bumps(r) == Bumps(index) - if index[f][i].bumped then 1 else 0
  {
    var m := index[f];
    BumpsAt(index, f, m - {i});
    TotalAt(index, f, m - {i});
    assert Bumped(m - {i}) == Bumped(m) - {i};
    assert (m - {i}).Keys == m.Keys - {i};
  }

  lemma StoreBump(m: Records, i: int, n: Knote)
    requires i in m
    ensures |Bumped(m[i := n])| == |Bumped(m)| + (if n.bumped then 1 else 0) - (if m[i].bumped then 1 else 0)
  {
    assert Bumped(m[i := n]) == if n.bumped then Bumped(m) + {i} else Bumped(m) - {i};
  }

  lemma {:induction false} AnyBump(index: seq<Records>, f: nat, i: int)
    requires f < |index| && i in index[f] && index[f][i].bumped
    ensures Bumps(index) > 0
  {
    if f == 0 {
      assert i in Bumped(index[0]);
    } else {
      AnyBump(index[1..], f - 1, i);
    }
  }

  lemma {:induction false} Empty(n: nat)
    ensures var index: seq<Records> := seq(n, _ => map[]); Total(index) == 0 && Bumps(index) == 0
  {
    var index: seq<Records> := seq(n, _ => map[]);
    if n > 0 {
      Empty(n - 1);
      assert index[1..] == seq(n - 1, _ => map[]);
      assert Bumped(map[]) == {};
    }
  }
}
