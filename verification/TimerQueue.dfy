/** The timer queue in the shape of src/posix/timer.c: timers changed in place,
    linked into and unlinked from the deadline tree. */
module TimerQueue {
  import opened Lists
  import opened RbIndex
  import opened Timers

  /** What the timers, the flags and the tree (cells, keys) have to do with each
      other: the tree holds a linked timer under the key of its deadline. */
  ghost predicate Table(timers: map<int, Timer>, inTree: set<int>, disabled: set<int>, cells: set<int>,
                        keys: map<int, int>)
  {
    && cells == timers.Keys && keys.Keys == inTree && inTree !! disabled
    && (forall k :: k in timers ==> 0 <= k < ADDRESSES && Norm(timers[k].next) && timers[k].fires < WRAP)
    && (forall k :: k in inTree ==> k in timers && keys[k] == Key(timers[k].next, k))
  }

  lemma TableStored(timers: map<int, Timer>, inTree: set<int>, disabled: set<int>, cells: set<int>,
                    keys: map<int, int>, k: int, t: Timer)
    requires Table(timers, inTree, disabled, cells, keys) && 0 <= k < ADDRESSES && Norm(t.next) && t.fires < WRAP
    requires k !in inTree || (k in timers && t.next == timers[k].next)
    ensures Table(timers[k := t], inTree, disabled, cells + {k}, keys)
  {
  }

  lemma TableDropped(timers: map<int, Timer>, inTree: set<int>, disabled: set<int>, cells: set<int>,
                     keys: map<int, int>, k: int)
    requires Table(timers, inTree, disabled, cells, keys) && k !in inTree
    ensures Table(timers - {k}, inTree, disabled, cells - {k}, keys)
  {
  }

  lemma TableLinked(timers: map<int, Timer>, inTree: set<int>, disabled: set<int>, cells: set<int>,
                    keys: map<int, int>, k: int)
    requires Table(timers, inTree, disabled, cells, keys) && k in timers && k !in disabled
    ensures Table(timers, inTree + {k}, disabled, cells, keys[k := Key(timers[k].next, k)])
  {
  }

  lemma TableUnlinked(timers: map<int, Timer>, inTree: set<int>, disabled: set<int>, cells: set<int>,
                      keys: map<int, int>, k: int)
    requires Table(timers, inTree, disabled, cells, keys)
    ensures Table(timers, inTree - {k}, disabled, cells, keys - {k})
  {
  }

  lemma BackIn(l: set<int>, k: int)
    requires k in l
    ensures l - {k} + {k} == l
  {
  }

  lemma PutTwice(m: map<int, Timer>, k: int, a: Timer, b: Timer)
    ensures m[k := a][k := b] == m[k := b] && (m - {k})[k := b] == m[k := b]
  {
  }

  ghost predicate AnyDue(t: map<int, Timer>, l: set<int>, now: Ts) {
    exists k :: k in l && k in t && Due(t[k], now)
  }

  lemma FirstIsDue(t: map<int, Timer>, l: set<int>, k: int, now: Ts)
    requires l <= t.Keys && k in l && Norm(now)
    requires forall j :: j in l ==> Norm(t[j].next) && Ns(t[k].next) <= Ns(t[j].next)
    ensures AnyDue(t, l, now) <==> Ns(t[k].next) <= Ns(now)
  {
    forall j | j in l ensures Due(t[j], now) <==> Ns(t[j].next) <= Ns(now) {
      LtIsNs(now, t[j].next);
    }
  }

  // ----- one call of posix_timer_check -------------------------------------------------------

  ghost predicate Normed(t: map<int, Timer>) {
    forall k :: k in t ==> Norm(t[k].next)
  }

  ghost function DueIn(t: map<int, Timer>, l: set<int>, now: Ts): set<int> {
    set k | k in l && k in t && Due(t[k], now)
  }

  /** From t0 and l0 to t1 and l1 the timers in done have fired; everything else
      is as it was. */
  ghost predicate Swept(t0: map<int, Timer>, l0: set<int>, t1: map<int, Timer>, l1: set<int>, done: set<int>, now: Ts) {
    && Norm(now) && Normed(t0) && done <= DueIn(t0, l0, now) && t1.Keys == t0.Keys
    && (forall k :: k in t0 ==> t1[k] == if k in done then Fired(t0[k], now) else t0[k])
    && (forall k :: k in l1 <==> k in l0 && !(k in done && Stops(t0[k])))
  }

  lemma SweptNone(t: map<int, Timer>, l: set<int>, now: Ts)
    requires Norm(now) && Normed(t)
    ensures Swept(t, l, t, l, {}, now)
  {
  }

  lemma SweptOne(t0: map<int, Timer>, l0: set<int>, t1: map<int, Timer>, l1: set<int>, done: set<int>, now: Ts, k: int)
    requires Swept(t0, l0, t1, l1, done, now) && k in l1 && k in t1 && Due(t1[k], now) && Norm(t1[k].next)
    ensures k in DueIn(t0, l0, now) && k !in done
    ensures Swept(t0, l0, t1[k := Fired(t1[k], now)], if Stops(t1[k]) then l1 - {k} else l1, done + {k}, now)
  {
    if k in done {
      FiredLater(t0[k], now);
    }
  }

  lemma SweptAll(t0: map<int, Timer>, l0: set<int>, t1: map<int, Timer>, l1: set<int>, done: set<int>, now: Ts)
    requires Swept(t0, l0, t1, l1, done, now) && forall k :: k in l1 ==> k in t1 && Lt(now, t1[k].next)
    ensures done == DueIn(t0, l0, now)
  {
    forall k | k in DueIn(t0, l0, now) ensures k in done {
      assert k in l1 ==> Lt(now, t1[k].next);
    }
  }

  /** What one call of posix_timer_check counts: for each due timer of the tree the
      deadlines passed, for the others nothing; the due ones that stop leave. */
  ghost predicate Counts(t0: map<int, Timer>, l0: set<int>, t1: map<int, Timer>, l1: set<int>, now: Ts) {
    && t1.Keys == t0.Keys
    && (forall k :: k in t0 ==> if k in l0 && Due(t0[k], now) then Gained(t0[k], t1[k], now) else t1[k] == t0[k])
    && (forall k :: k in l1 <==> k in l0 && !(k in t0 && Due(t0[k], now) && Stops(t0[k])))
  }

  lemma SweptCounts(t0: map<int, Timer>, l0: set<int>, t1: map<int, Timer>, l1: set<int>, now: Ts)
    requires Swept(t0, l0, t1, l1, DueIn(t0, l0, now), now) && forall k :: k in t0 ==> t0[k].fires < WRAP
    ensures Counts(t0, l0, t1, l1, now)
  {
    forall k | k in t0 && k in l0 && Due(t0[k], now) ensures Gained(t0[k], t1[k], now) {
      FiredExact(t0[k], now);
    }
  }

  /** The event of a due timer carries what it had counted before plus the deadlines
      passed since. */
  ghost predicate Delivers(t: Timer, now: Ts, data: Option<nat>) {
    exists m :: Elapsed(t, now, m) && data == Told((t.fires + m) % WRAP)
  }

  function Told(count: nat): Option<nat> {
    if count == 0 then None else Some(count)
  }

  lemma GainedDelivers(t: Timer, r: Timer, now: Ts)
    requires Gained(t, r, now)
    ensures Delivers(t, now, Told(r.fires))
  {
  }

  class Queue {
    /** kn_timer of each knote that has one, by the address of the timer. */
    var timers: map<int, Timer>
    /** kq_timers; the entries are ordered by Key(next, address). */
    const index: Index
    /** The timers whose in_tree is set. */
    var inTree: set<int>
    /** Knotes with EV_DISABLE. */
    var disabled: set<int>

    /** A linked timer exists, its knote is enabled, and the key under which the
        tree holds it is its deadline. */
    ghost predicate Valid()
      reads this, index, index.head, index.head.mem.Keys
    {
      index.Valid() && Table(timers, inTree, disabled, index.cell.Keys, index.keys)
    }

    constructor ()
      ensures Valid() && timers == map[] && inTree == {} && disabled == {}
      ensures fresh(index) && fresh(index.head) && index.owner == map[]
    {
      index := new Index();
      timers, inTree, disabled := map[], {}, {};
    }

    /** k comes before every other timer of the set. */
    ghost predicate First(k: int, ks: set<int>)
      requires k in timers && ks <= timers.Keys
      reads this
    {
      forall j :: j in ks && j != k ==> Cmp(timers[k].next, k, timers[j].next, j) < 0
    }

    /** RB_MIN(kq_timers): the tree's first entry is the first of the linked
        timers, because every key in the tree is still that of its timer. */
    method Min() returns (r: Option<int>)
      requires Valid()
      ensures r.None? <==> inTree == {}
      ensures r.Some? ==> r.value in inTree && inTree <= timers.Keys && First(r.value, inTree)
    {
      r := index.Min();
      if r.Some? {
        var k := r.value;
        forall j | j in inTree && j != k ensures Cmp(timers[k].next, k, timers[j].next, j) < 0 {
          CmpIsKey(timers[k].next, k, timers[j].next, j);
        }
      }
    }

    /** The entry of k carries the key of its deadline. */
    ghost predicate Keyed(k: int)
      requires k in timers && k in index.cell
      reads this, index, index.cell[k]
    {
      index.cell[k].key == Key(timers[k].next, k)
    }

    /** The one place a deadline changes: never under the tree. */
    method SetNext(k: int, next: Ts)
      requires Valid() && k in timers && k !in inTree && Norm(next)
      modifies `timers, index.cell[k]
      ensures Valid() && timers == old(timers)[k := old(timers)[k].(next := next)] && Keyed(k)
    {
      TableStored(timers, inTree, disabled, index.cell.Keys, index.keys, k, timers[k].(next := next));
      assert index.cell.Keys + {k} == index.cell.Keys;
      timers := timers[k := timers[k].(next := next)];
      index.SetKey(k, Key(next, k));
    }

    method CountFire(k: int)
      requires Valid() && k in timers
      modifies `timers
      ensures Valid() && timers == old(timers)[k := old(timers)[k].(fires := (old(timers)[k].fires + 1) % WRAP)]
    {
      var t := timers[k].(fires := (timers[k].fires + 1) % WRAP);
      TableStored(timers, inTree, disabled, index.cell.Keys, index.keys, k, t);
      assert index.cell.Keys + {k} == index.cell.Keys;
      timers := timers[k := t];
    }

    /** timer_link: no two timers have the same key, so the tree takes the entry. */
    method Link(k: int)
      requires Valid() && k in timers && k !in disabled && (k !in inTree ==> Keyed(k))
      modifies `inTree, index`keys, index.head, index.owner.Keys
      ensures Valid() && inTree == old(inTree) + {k}
    {
      if k !in inTree {
        forall j | j in index.keys ensures index.keys[j] != index.cell[k].key {
          CmpIsKey(timers[k].next, k, timers[j].next, j);
        }
        TableLinked(timers, inTree, disabled, index.cell.Keys, index.keys, k);
        index.Link(k);
        inTree := inTree + {k};
      }
    }

    /** timer_unlink */
    method Unlink(k: int)
      requires Valid() && k in timers
      modifies `inTree, index`keys, index.head, index.owner.Keys
      ensures Valid() && inTree == old(inTree) - {k}
    {
      if k in inTree {
        TableUnlinked(timers, inTree, disabled, index.cell.Keys, index.keys, k);
        index.Unlink(k);
        inTree := inTree - {k};
      }
    }

    /** t, m intervals on, with n fires more. */
    ghost function Along(t: Timer, m: nat, n: nat): Timer {
      t.(next := Nth(t, m), fires := (t.fires + n) % WRAP)
    }

    /** One round of the catch-up loop: the next deadline, and a fire if it has
        passed as well. */
    method CatchOne(k: int, now: Ts, ghost m0: map<int, Timer>, ghost t: Timer, ghost m: nat) returns (more: bool)
      requires Valid() && k in timers && k !in inTree && Norm(now) && Norm(t.next) && Due(t, now) && !Stops(t)
      requires timers == m0[k := Along(t, m, m + 1)]
      modifies `timers, index.cell[k]
      ensures Valid() && Keyed(k) && Ns(t.next) <= Ns(now)
      ensures more <==> m + 1 < Missed(Ns(t.next), t.interval, Ns(now))
      ensures timers == m0[k := Along(t, m + 1, if more then m + 2 else m + 1)]
    {
      NthNext(t, m);
      NthPassed(t, m + 1, now);
      WrapNext(t.fires + m + 1);
      PutTwice(m0, k, Along(t, m, m + 1), Along(t, m + 1, m + 1));
      PutTwice(m0, k, Along(t, m + 1, m + 1), Along(t, m + 1, m + 2));
      SetNext(k, AddNs(timers[k].next, timers[k].interval));
      more := !Lt(now, timers[k].next);
      if more {
        CountFire(k);
      }
    }

    /** The catch-up loop: one more fire for every further deadline passed. */
    method CatchUp(k: int, now: Ts)
      requires Valid() && k in timers && k !in inTree && Norm(now) && Due(timers[k], now) && !Stops(timers[k])
      modifies `timers, index.cell[k]
      ensures Valid() && timers == old(timers)[k := Fired(old(timers)[k], now)] && Keyed(k)
    {
      ghost var m0, t, m := timers, timers[k], 0;
      var more := true;
      NthNext(t, 0);
      NthPassed(t, 0, now);
      ghost var n := Missed(Ns(t.next), t.interval, Ns(now));
      CountFire(k);
      while more
        invariant Valid() && k in timers && m <= n && (more <==> m < n) && (m > 0 ==> Keyed(k))
        invariant timers == m0[k := Along(t, m, if more then m + 1 else m)]
        decreases n - m
      {
        more := CatchOne(k, now, m0, t, m);
        m := m + 1;
      }
    }

    /** A one-shot or absolute timer: out of the tree, one fire, deadline latched. */
    method FireLast(k: int, now: Ts)
      requires Valid() && k in timers && k !in inTree && Norm(now) && Due(timers[k], now) && Stops(timers[k])
      modifies `timers, index.cell[k]
      ensures Valid() && timers == old(timers)[k := Fired(old(timers)[k], now)]
    {
      ghost var t := timers[k];
      PutTwice(timers, k, t.(fires := (t.fires + 1) % WRAP), Fired(t, now));
      CountFire(k);
      SetNext(k, Ts(now.sec + NSEC, 0));
    }

    /** A periodic one: moved on while unlinked, then back in under its new key. */
    method FireAgain(k: int, now: Ts)
      requires Valid() && k in timers && k !in inTree && k !in disabled
      requires Norm(now) && Due(timers[k], now) && !Stops(timers[k])
      modifies `timers, `inTree, index`keys, index.head, index.owner.Keys
      ensures Valid() && timers == old(timers)[k := Fired(old(timers)[k], now)] && inTree == old(inTree) + {k}
    {
      CatchUp(k, now);
      Link(k);
    }

    /** One due timer off the front: fired, and back in unless it stops. */
    method FireOne(k: int, now: Ts)
      requires Valid() && k in inTree && Norm(now) && Due(timers[k], now)
      modifies `timers, `inTree, index`keys, index.head, index.owner.Keys
      ensures Valid() && timers == old(timers)[k := Fired(old(timers)[k], now)]
      ensures Gained(old(timers)[k], timers[k], now)
      ensures inTree == if Stops(old(timers)[k]) then old(inTree) - {k} else old(inTree)
    {
      ghost var t := timers[k];
      Fire(k, now);
      FiredExact(t, now);
    }

    method Fire(k: int, now: Ts)
      requires Valid() && k in inTree && Norm(now) && Due(timers[k], now)
      modifies `timers, `inTree, index`keys, index.head, index.owner.Keys
      ensures Valid() && timers == old(timers)[k := Fired(old(timers)[k], now)]
      ensures inTree == if Stops(old(timers)[k]) then old(inTree) - {k} else old(inTree)
    {
      ghost var l := inTree;
      Unlink(k);
      BackIn(l, k);
      if Stops(timers[k]) {
        FireLast(k, now);
      } else {
        FireAgain(k, now);
      }
    }

    /** The front of the tree, if it is due.  If not, nothing in the tree is. */
    method FirstDue(now: Ts) returns (r: Option<int>)
      requires Valid()
      ensures r.Some? ==> r.value in inTree && r.value in timers && Due(timers[r.value], now)
      ensures r.None? ==> forall k :: k in inTree ==> k in timers && Lt(now, timers[k].next)
    {
      r := Min();
      if r.Some? && !Due(timers[r.value], now) {
        forall k | k in inTree ensures Lt(now, timers[k].next) {
          NoneEarlier(timers[r.value].next, r.value, timers[k].next, k, now);
        }
        r := None;
      }
    }

    /** posix_timer_check.  It ends; exactly the due timers fire; exactly the due
        one-shot and absolute ones leave the tree; nothing due is left in it. */
    method Check(now: Ts)
      requires Valid() && Norm(now)
      modifies `timers, `inTree, index`keys, index.head, index.owner.Keys
      ensures Valid() && Swept(old(timers), old(inTree), timers, inTree, DueIn(old(timers), old(inTree), now), now)
      ensures forall k :: k in inTree ==> k in timers && Lt(now, timers[k].next)
      ensures Counts(old(timers), old(inTree), timers, inTree, now)
    {
      ghost var t0, l0, done := timers, inTree, {};
      ghost var due := DueIn(t0, l0, now);
      SweptNone(t0, l0, now);
      var r := FirstDue(now);
      while r.Some?
        invariant Valid() && done <= due && Swept(t0, l0, timers, inTree, done, now)
        invariant r.Some? ==> r.value in inTree && r.value in timers && Due(timers[r.value], now)
        invariant r.None? ==> forall k :: k in inTree ==> k in timers && Lt(now, timers[k].next)
        decreases due - done
      {
        SweptOne(t0, l0, timers, inTree, done, now, r.value);
        done := done + {r.value};
        FireOne(r.value, now);
        r := FirstDue(now);
      }
      SweptAll(t0, l0, timers, inTree, done, now);
      SweptCounts(t0, l0, timers, inTree, now);
    }

    /** The part of evfilt_timer_copyout_one before the flag actions: the counter is
        read and zeroed. */
    method CopyOne(k: int) returns (data: Option<nat>)
      requires Valid()
      modifies `timers
      ensures Valid() && data == if k in old(timers) && k !in disabled then Told(old(timers)[k].fires) else None
      ensures timers == if data.None? then old(timers) else old(timers)[k := old(timers)[k].(fires := 0)]
    {
      if k !in timers || k in disabled || timers[k].fires == 0 {
        return None;
      }
      data := Some(timers[k].fires);
      TableStored(timers, inTree, disabled, index.cell.Keys, index.keys, k, timers[k].(fires := 0));
      timers := timers[k := timers[k].(fires := 0)];
    }

    /** evfilt_timer_copyout, for one knote: what is delivered is what was pending
        plus the deadlines passed. */
    method Deliver(k: int, now: Ts) returns (data: Option<nat>)
      requires Valid() && Norm(now)
      modifies `timers, `inTree, index`keys, index.head, index.owner.Keys
      ensures Valid() && (k in timers && k !in disabled ==> timers[k].fires == 0)
      ensures k in old(inTree) && Due(old(timers)[k], now) ==> Delivers(old(timers)[k], now, data)
    {
      CheckFor(k, now);
      data := CopyOne(k);
    }

    method CheckFor(k: int, now: Ts)
      requires Valid() && Norm(now)
      modifies `timers, `inTree, index`keys, index.head, index.owner.Keys
      ensures Valid()
      ensures k in old(inTree) && Due(old(timers)[k], now) ==>
        k in timers && k !in disabled && Delivers(old(timers)[k], now, Told(timers[k].fires))
    {
      ghost var t, l := timers, inTree;
      Check(now);
      if k in l && Due(t[k], now) {
        GainedDelivers(t[k], timers[k], now);
      }
    }

    /** evfilt_timer_knote_create */
    method Create(k: int, data: int, unit: Unit, oneshot: bool, absolute: bool, mono: Ts, wall: Ts) returns (rv: int)
      requires Valid() && k !in timers && k !in disabled && 0 <= k < ADDRESSES && Norm(mono)
      modifies `timers, `inTree, index, index.head, index.owner.Keys
      ensures Valid() && (rv == 0 <==> absolute || data >= 0) && fresh(index.owner.Keys - old(index.owner.Keys))
      ensures rv == 0 ==> timers == old(timers)[k := Alloc(data, unit, oneshot, absolute, mono, wall).value]
      ensures rv == 0 ==> inTree == old(inTree) + {k}
      ensures rv != 0 ==> inTree == old(inTree) && timers == old(timers)
    {
      AllocExact(data, unit, oneshot, absolute, mono, wall);
      var t := Alloc(data, unit, oneshot, absolute, mono, wall);
      if t.None? {
        return -1;
      }
      Store(k, t.value);
      Link(k);
      return 0;
    }

    /** calloc: the new timer is not linked. */
    method Store(k: int, t: Timer)
      requires Valid() && k !in timers && 0 <= k < ADDRESSES && Norm(t.next) && t.fires < WRAP
      modifies `timers, index
      ensures Valid() && timers == old(timers)[k := t] && k in index.cell && Keyed(k)
      ensures index.owner.Keys == old(index.owner.Keys) + {index.cell[k]} && fresh(index.cell[k])
    {
      TableStored(timers, inTree, disabled, index.cell.Keys, index.keys, k, t);
      index.Add(k, Key(t.next, k));
      timers := timers[k := t];
    }

    /** evfilt_timer_knote_delete */
    method Delete(k: int)
      requires Valid()
      modifies `timers, `inTree, index, index.head, index.owner.Keys
      ensures Valid() && timers == old(timers) - {k} && inTree == old(inTree) - {k}
      ensures index.owner.Keys <= old(index.owner.Keys)
    {
      if k in timers {
        Unlink(k);
        Forget(k);
      }
    }

    method Forget(k: int)
      requires Valid() && k in timers && k !in inTree
      modifies `timers, index`cell, index`owner
      ensures Valid() && timers == old(timers) - {k} && index.owner.Keys <= old(index.owner.Keys)
    {
      TableDropped(timers, inTree, disabled, index.cell.Keys, index.keys, k);
      index.Drop(k);
      timers := timers - {k};
    }

    /** evfilt_timer_knote_modify: the new flags do not carry EV_DISABLE. */
    method Modify(k: int, data: int, unit: Unit, oneshot: bool, absolute: bool, mono: Ts, wall: Ts) returns (rv: int)
      requires Valid() && 0 <= k < ADDRESSES && Norm(mono)
      modifies this, index, index.head, index.owner.Keys
      ensures Valid() && disabled == old(disabled) - {k} && (rv == 0 <==> absolute || data >= 0)
      ensures fresh(index.owner.Keys - old(index.owner.Keys))
      ensures rv == 0 ==> timers == old(timers)[k := Alloc(data, unit, oneshot, absolute, mono, wall).value]
      ensures rv == 0 ==> inTree == old(inTree) + {k}
      ensures rv != 0 ==> inTree == old(inTree) - {k} && timers == old(timers) - {k}
    {
      ghost var m := timers;
      Delete(k);
      disabled := disabled - {k};
      rv := Create(k, data, unit, oneshot, absolute, mono, wall);
      if rv == 0 {
        PutTwice(m, k, timers[k], timers[k]);
      }
    }

    /** knote_enable: a disabled timer is not linked, so its deadline may move. */
    method Enable(k: int, mono: Ts)
      requires Valid() && Norm(mono)
      modifies this, index`keys, index.head, index.owner.Keys
      ensures Valid() && disabled == old(disabled) - {k}
      ensures k !in old(disabled) || k !in old(timers) ==> timers == old(timers) && inTree == old(inTree)
      ensures k in old(disabled) && k in old(timers) ==>
        && inTree == old(inTree) + {k}
        && timers == old(timers)[k := old(timers)[k].(fires := 0,
             next := FromNs(Ns(mono) + if old(timers)[k].absolute then 0 else AtLeast(1, old(timers)[k].interval)))]
    {
      if k !in disabled {
        return;
      }
      disabled := disabled - {k};
      if k in timers {
        Resume(k, mono);
      }
    }

    method Resume(k: int, mono: Ts)
      requires Valid() && k in timers && k !in inTree && k !in disabled && Norm(mono)
      modifies `timers, `inTree, index`keys, index.head, index.owner.Keys
      ensures Valid() && inTree == old(inTree) + {k}
      ensures timers == old(timers)[k := old(timers)[k].(fires := 0,
        next := FromNs(Ns(mono) + if old(timers)[k].absolute then 0 else AtLeast(1, old(timers)[k].interval)))]
    {
      var t := timers[k];
      var ns := if t.absolute then 0 else if t.interval > 0 then t.interval else 1;
      AddNsExact(mono, ns);
      Restart(k, AddNs(mono, ns));
      Link(k);
    }

    method Restart(k: int, next: Ts)
      requires Valid() && k in timers && k !in inTree && Norm(next)
      modifies `timers, index.cell[k]
      ensures Valid() && timers == old(timers)[k := old(timers)[k].(next := next, fires := 0)] && Keyed(k)
    {
      ghost var m, t := timers, timers[k];
      SetNext(k, next);
      TableStored(timers, inTree, disabled, index.cell.Keys, index.keys, k, timers[k].(fires := 0));
      assert index.cell.Keys + {k} == index.cell.Keys;
      PutTwice(m, k, t.(next := next), t.(next := next, fires := 0));
      timers := timers[k := timers[k].(fires := 0)];
    }

    /** knote_disable */
    method Disable(k: int)
      requires Valid()
      modifies `inTree, `disabled, index`keys, index.head, index.owner.Keys
      ensures Valid() && disabled == old(disabled) + {k} && inTree == old(inTree) - {k}
    {
      if k !in disabled {
        if k in timers {
          Unlink(k);
        }
        disabled := disabled + {k};
      }
    }

    // ----- the pselect timeout ---------------------------------------------------------------

    /** Nanoseconds until a linked timer is due. */
    ghost function Wait(k: int, now: Ts): nat
      requires k in timers
      reads this
    {
      AtLeast(0, Ns(timers[k].next) - Ns(now))
    }

    /** posix_timer_min_deadline_ns */
    method MinDeadline(now: Ts) returns (ns: int)
      requires Valid() && Norm(now)
      ensures ns == -1 <==> inTree == {}
      ensures inTree != {} ==> exists k :: k in inTree && ns == Wait(k, now)
      ensures forall k :: k in inTree ==> 0 <= ns <= Wait(k, now)
      ensures ns >= 0 ==>
        forall u :: Norm(u) && Ns(now) <= Ns(u) ==> (AnyDue(timers, inTree, u) <==> Ns(now) + ns <= Ns(u))
    {
      var r := Min();
      if r.None? {
        return -1;
      }
      var t := timers[r.value];
      LtIsNs(t.next, now);
      forall k | k in inTree ensures Ns(t.next) <= Ns(timers[k].next) {
        LtIsNs(t.next, timers[k].next);
        LtIsNs(timers[k].next, t.next);
      }
      if Lt(t.next, now) {
        ns := 0;
      } else {
        ns := (t.next.sec - now.sec) * NSEC + (t.next.nsec - now.nsec);
      }
      assert ns == Wait(r.value, now);
      forall u | Norm(u) && Ns(now) <= Ns(u) ensures AnyDue(timers, inTree, u) <==> Ns(now) + ns <= Ns(u) {
        FirstIsDue(timers, inTree, r.value, u);
      }
    }

    /** posix_kevent_wait: the timeout handed to pselect is the caller's, a linked
        deadline, the polling interval, or zero when every knote is always ready;
        it is no longer than any of these that apply (the caller's unless that is
        negative), and none if none applies. */
    method ChooseTimeout(timeout: Option<Ts>, alwaysReady: nat, knoteCount: nat, pollNs: int, now: Ts)
      returns (useTo: Option<Ts>)
      requires Valid() && Norm(now)
      ensures useTo.None? <==> timeout.None? && alwaysReady == 0 && inTree == {}
      ensures alwaysReady > 0 && knoteCount == alwaysReady && pollNs == 0 ==> useTo == Some(Ts(0, 0))
      ensures useTo.Some? ==>
        || useTo == timeout
        || (alwaysReady > 0 && useTo.value == FromNs(if pollNs <= 0 then 100_000_000 else pollNs))
        || (alwaysReady > 0 && knoteCount == alwaysReady && pollNs == 0 && useTo.value == Ts(0, 0))
        || exists k :: k in inTree && useTo.value == FromNs(Wait(k, now))
      ensures timeout.Some? ==> useTo.Some? && (!Lt(timeout.value, Ts(0, 0)) ==> !Lt(timeout.value, useTo.value))
      ensures forall k :: k in inTree ==> useTo.Some? && !Lt(FromNs(Wait(k, now)), useTo.value)
      ensures alwaysReady > 0 ==> useTo.Some? && !Lt(FromNs(if pollNs <= 0 then 100_000_000 else pollNs), useTo.value)
    {
      useTo := PollTimeout(timeout, alwaysReady, knoteCount, pollNs);
      var timerNs := MinDeadline(now);
      if timerNs >= 0 {
        forall k | k in inTree ensures !Lt(FromNs(Wait(k, now)), FromNs(timerNs)) {
          LtIsNs(FromNs(Wait(k, now)), FromNs(timerNs));
        }
        useTo := Clamp(useTo, timerNs);
      }
    }
  }

  /** The shorter of the two. */
  method Clamp(timeout: Option<Ts>, ns: nat) returns (useTo: Option<Ts>)
    ensures useTo.Some? && !Lt(FromNs(ns), useTo.value) && (useTo == timeout || useTo.value == FromNs(ns))
    ensures timeout.Some? ==> !Lt(timeout.value, useTo.value)
    ensures timeout == Some(Ts(0, 0)) ==> useTo == timeout
    ensures forall w :: !Lt(w, FromNs(ns)) ==> !Lt(w, useTo.value)
    ensures forall w :: timeout.Some? && !Lt(w, timeout.value) ==> !Lt(w, useTo.value)
  {
    useTo := timeout;
    var due := Ts(ns / NSEC, ns % NSEC);
    if useTo.None? || Lt(due, useTo.value) {
      useTo := Some(due);
    }
  }

  /** The same without the timers: the polling interval of always-ready knotes. */
  method PollTimeout(timeout: Option<Ts>, alwaysReady: nat, knoteCount: nat, pollNs: int) returns (useTo: Option<Ts>)
    ensures alwaysReady == 0 ==> useTo == timeout
    ensures alwaysReady > 0 ==> useTo.Some? && !Lt(FromNs(if pollNs <= 0 then 100_000_000 else pollNs), useTo.value)
    ensures alwaysReady > 0 && knoteCount == alwaysReady && pollNs == 0 ==> useTo == Some(Ts(0, 0))
    ensures alwaysReady > 0 && !(knoteCount == alwaysReady && pollNs == 0) ==>
      useTo == timeout || useTo.value == FromNs(if pollNs <= 0 then 100_000_000 else pollNs)
    ensures timeout.Some? ==> useTo.Some? && (!Lt(timeout.value, Ts(0, 0)) ==> !Lt(timeout.value, useTo.value))
  {
    useTo := timeout;
    if alwaysReady > 0 {
      var ns := if pollNs <= 0 then 100_000_000 else pollNs;
      var poll := Ts(ns / NSEC, ns % NSEC);
      if useTo.None? || Lt(poll, useTo.value) {
        useTo := Some(poll);
      }
      if knoteCount == alwaysReady && pollNs == 0 {
        useTo := Some(Ts(0, 0));
      }
    }
  }

  lemma NoneEarlier(a: Ts, x: int, b: Ts, y: int, now: Ts)
    requires Lt(now, a) && (x != y ==> Cmp(a, x, b, y) < 0) && (x == y ==> a == b)
    ensures Lt(now, b)
  {
  }
}
