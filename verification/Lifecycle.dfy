/** kqueue(), kevent() and kqueue_free() racing over the lifetime of a kqueue
    (src/common/kqueue.c, src/common/kevent.c, src/common/map.c).

    Threads, kqueues and descriptors are named by numbers.  A step is what one
    thread does between two lock operations; the locks are part of the state. */
module Lifecycle {
  import opened Lists

  /** Where a thread is. */
  datatype Pc =
    | Idle
    | Found(k: nat)                    // kevent(): holds kq_mtx, has looked k up
    | Locked(k: nat)                   // holds k's lock, not yet in flight
    | Inside(k: nat)                   // in flight, holds k's lock
    | Parked(k: nat)                   // in flight, lock dropped across the wait
    | Leaving(k: nat, needsFree: bool) // out of flight, lock released
    | Freeing(k: nat)                  // kqueue_free(): holds kq_mtx, k unlinked

  /** How far k is from being freed.  A history variable: no step reads it. */
  datatype Stage = Live | Handed | Deferred | Owed(t: nat) | Gone

  datatype Kq = Kq(id: int, lock: Option<nat>, inflight: set<nat>, freeing: bool, torn: nat, stage: Stage)

  datatype State = State(kqs: map<nat, Kq>, slots: map<int, nat>, list: seq<nat>, cnt: int, open: set<int>,
                         mtx: Option<nat>, pc: map<nat, Pc>)

  const START := State(map[], map[], [], 0, {}, None, map[])

  function At(s: State, t: nat): Pc {
    if t in s.pc then s.pc[t] else Idle
  }

  function Go(s: State, t: nat, p: Pc): State {
    s.(pc := s.pc[t := p])
  }

  function Put(s: State, k: nat, q: Kq): State {
    s.(kqs := s.kqs[k := q])
  }

  // ----- the map of descriptors ---------------------------------------------------------

  /** map_remove: a compare-and-swap, so another owner's slot is left alone. */
  function MapRemove(slots: map<int, nat>, id: int, k: nat): map<int, nat> {
    if id in slots && slots[id] == k then slots - {id} else slots
  }

  // ----- steps ------------------------------------------------------------------------------

  datatype Step =
    | Create(k: nat, id: int)   // kqueue() by any thread, under kq_mtx
    | Close(id: int)            // close(2) of a kqueue's descriptor
    | Lookup(t: nat, id: int)   // kevent(): take kq_mtx, kqueue_lookup
    | Lock(t: nat)              // kevent(): take k's lock, drop kq_mtx
    | Enter(t: nat)
    | Park(t: nat)
    | Unpark(t: nat)
    | Exit(t: nat)              // leave, read kq_freeing, drop the lock
    | Finish(t: nat)            // return, or complete the deferred free
    | FreeBegin(t: nat, k: nat) // kqueue_free(): take kq_mtx, unlink
    | FreeEnd(t: nat)           // take k's lock; defer or tear down

  ghost predicate Enabled(s: State, a: Step) {
    match a
    case Create(k, id) => s.mtx.None? && k !in s.kqs && id !in s.open
    case Close(id) => id in s.open
    case Lookup(t, id) => At(s, t).Idle? && s.mtx.None?
    case Lock(t) => At(s, t).Found? && At(s, t).k in s.kqs && s.kqs[At(s, t).k].lock.None?
    case Enter(t) => At(s, t).Locked? && At(s, t).k in s.kqs
    case Park(t) => At(s, t).Inside? && At(s, t).k in s.kqs
    case Unpark(t) => At(s, t).Parked? && At(s, t).k in s.kqs && s.kqs[At(s, t).k].lock.None?
    case Exit(t) => At(s, t).Inside? && At(s, t).k in s.kqs
    case Finish(t) => At(s, t).Leaving? && (At(s, t).needsFree ==> At(s, t).k in s.kqs && s.kqs[At(s, t).k].lock.None?)
    case FreeBegin(t, k) => At(s, t).Idle? && s.mtx.None? && k in s.list && k in s.kqs
    case FreeEnd(t) => At(s, t).Freeing? && At(s, t).k in s.kqs && s.kqs[At(s, t).k].lock.None?
  }

  ghost function After(s: State, a: Step): State
    requires Enabled(s, a)
  {
    match a
    case Create(k, id) =>
      s.(kqs := s.kqs[k := Kq(id, None, {}, false, 0, Live)], slots := s.slots[id := k], list := [k] + s.list,
         cnt := s.cnt + 1, open := s.open + {id})
    case Close(id) => s.(open := s.open - {id})
    case Lookup(t, id) => if id in s.slots then Go(s, t, Found(s.slots[id])).(mtx := Some(t)) else s
    case Lock(t) => var k := At(s, t).k; Go(Put(s, k, s.kqs[k].(lock := Some(t))), t, Locked(k)).(mtx := None)
    case Enter(t) => var k := At(s, t).k; Go(Put(s, k, s.kqs[k].(inflight := s.kqs[k].inflight + {t})), t, Inside(k))
    case Park(t) => var k := At(s, t).k; Go(Put(s, k, s.kqs[k].(lock := None)), t, Parked(k))
    case Unpark(t) => var k := At(s, t).k; Go(Put(s, k, s.kqs[k].(lock := Some(t))), t, Inside(k))
    case Exit(t) => Left(s, t)
    case Finish(t) =>
      if At(s, t).needsFree then Go(Put(s, At(s, t).k, TornDown(s.kqs[At(s, t).k])), t, Idle) else Go(s, t, Idle)
    case FreeBegin(t, k) =>
      Go(Put(s, k, s.kqs[k].(stage := Handed)), t, Freeing(k)).(mtx := Some(t), list := Drop(s.list, k),
        cnt := s.cnt - 1, slots := MapRemove(s.slots, s.kqs[k].id, k))
    case FreeEnd(t) =>
      var k := At(s, t).k;
      var q := s.kqs[k];
      var r := if q.inflight != {} then q.(freeing := true, stage := Deferred) else TornDown(q);
      Go(Put(s, k, r), t, Idle).(mtx := None)
  }

  function TornDown(q: Kq): Kq {
    q.(torn := q.torn + 1, stage := Gone)
  }

  ghost function Left(s: State, t: nat): State
    requires At(s, t).Inside? && At(s, t).k in s.kqs
  {
    var k := At(s, t).k;
    var q := s.kqs[k];
    var rest := q.inflight - {t};
    var needs := q.freeing && rest == {};
    Go(Put(s, k, q.(inflight := rest, lock := None, stage := if needs then Owed(t) else q.stage)), t, Leaving(k, needs))
  }

  // ----- what must hold -------------------------------------------------------------------------

  /** t may still dereference k. */
  predicate Holds(p: Pc, k: nat) {
    match p
    case Idle => false
    case Leaving(j, needs) => needs && j == k
    case _ => p.k == k
  }

  /** Nobody touches a kqueue that was torn down, and none is torn down twice. */
  ghost predicate Safe(s: State) {
    && (forall k :: k in s.kqs ==> s.kqs[k].torn <= 1)
    && (forall t, k :: Holds(At(s, t), k) ==> k in s.kqs && s.kqs[k].torn == 0)
  }

  /** A slot names a listed kqueue of that id that is not being freed. */
  ghost predicate SlotsOk(s: State) {
    forall id :: id in s.slots ==>
      s.slots[id] in s.kqs && s.slots[id] in s.list && s.kqs[s.slots[id]].id == id && !s.kqs[s.slots[id]].freeing
  }

  ghost predicate Counted(s: State) {
    && s.cnt == |s.list| && Distinct(s.list)
    && (forall k :: k in s.list ==> k in s.kqs)
    && (forall k :: k in s.kqs ==> (k in s.list <==> s.kqs[k].stage.Live?))
  }

  /** What a thread's position says about its kqueue. */
  ghost predicate ThreadOk(s: State, t: nat) {
    match At(s, t)
    case Idle => true
    case Found(k) => k in s.kqs && s.kqs[k].stage.Live? && s.mtx == Some(t)
    case Locked(k) => k in s.kqs && (s.kqs[k].stage.Live? || s.kqs[k].stage.Handed?) && s.kqs[k].lock == Some(t)
    case Inside(k) => k in s.kqs && s.kqs[k].lock == Some(t) && t in s.kqs[k].inflight
    case Parked(k) => k in s.kqs && t in s.kqs[k].inflight
    case Leaving(k, needs) => needs ==> k in s.kqs && s.kqs[k].stage == Owed(t)
    case Freeing(k) => k in s.kqs && s.kqs[k].stage.Handed? && s.mtx == Some(t)
  }

  ghost predicate Here(p: Pc, k: nat) {
    (p.Inside? || p.Parked?) && p.k == k
  }

  /** What a kqueue's fields say about the threads. */
  ghost predicate KqOk(s: State, k: nat)
    requires k in s.kqs
  {
    var q := s.kqs[k];
    && (q.lock.Some? ==> At(s, q.lock.value) in {Locked(k), Inside(k)})
    && (forall t :: t in q.inflight ==> Here(At(s, t), k))
    && q.torn == (if q.stage.Gone? then 1 else 0)
    && match q.stage
       case Live => !q.freeing
       case Handed => !q.freeing && s.mtx.Some? && At(s, s.mtx.value) == Freeing(k)
       case Deferred => q.freeing && q.inflight != {}
       case Owed(t) => q.inflight == {} && q.lock.None? && At(s, t) == Leaving(k, true)
       case Gone => q.inflight == {} && q.lock.None?
  }

  ghost predicate MtxOk(s: State) {
    s.mtx.Some? ==> At(s, s.mtx.value).Found? || At(s, s.mtx.value).Freeing?
  }

  ghost predicate Inv(s: State) {
    && SlotsOk(s) && Counted(s) && MtxOk(s)
    && (forall t :: ThreadOk(s, t))
    && (forall k :: k in s.kqs ==> KqOk(s, k))
  }

  lemma InvIsSafe(s: State)
    requires Inv(s)
    ensures Safe(s)
  {
    forall t, k | Holds(At(s, t), k) ensures k in s.kqs && s.kqs[k].torn == 0 {
      assert ThreadOk(s, t);
      assert k in s.kqs && KqOk(s, k);
    }
    assert forall k :: k in s.kqs ==> KqOk(s, k);
  }

  /** Once handed to kqueue_free and let go by every thread, k has been torn
      down, exactly once. */
  lemma TornOrHeld(s: State, k: nat)
    requires Inv(s) && k in s.kqs && k !in s.list
    ensures s.kqs[k].torn == 1 <==> !exists t :: Holds(At(s, t), k)
  {
    InvIsSafe(s);
    assert KqOk(s, k);
    match s.kqs[k].stage
    case Live =>
    case Gone =>
    case Handed => assert Holds(At(s, s.mtx.value), k);
    case Owed(t) => assert Holds(At(s, t), k);
    case Deferred =>
      var t :| t in s.kqs[k].inflight;
      assert Here(At(s, t), k) && Holds(At(s, t), k);
  }

  // ----- every step keeps it --------------------------------------------------------------------

  /** A step of t that changes k only, and kq_mtx only if t had it or nobody. */
  ghost predicate Local(s: State, s': State, t: nat, k: nat) {
    && (forall u :: u != t ==> At(s', u) == At(s, u))
    && k in s.kqs && s'.kqs.Keys == s.kqs.Keys && (forall j :: j in s.kqs && j != k ==> s'.kqs[j] == s.kqs[j])
    && (s'.mtx == s.mtx || s.mtx in {None, Some(t)})
    && (forall j :: Holds(At(s, t), j) || Holds(At(s', t), j) ==> j == k)
  }

  /** The other threads at k keep the lock and the place in flight they have. */
  ghost predicate Gentle(s: State, s': State, t: nat, k: nat)
    requires k in s.kqs && k in s'.kqs
  {
    var q, r := s.kqs[k], s'.kqs[k];
    && (forall u :: u != t && u in q.inflight ==> u in r.inflight)
    && (q.lock == r.lock || q.lock in {None, Some(t)})
    && (|| q.stage == r.stage
        || (q.stage.Live? && r.stage.Handed? && s.mtx.None?)
        || (q.lock in {None, Some(t)} && !q.stage.Live? && forall u :: u != t ==> q.stage != Owed(u)))
  }

  lemma OtherThreads(s: State, s': State, t: nat, k: nat, u: nat)
    requires Inv(s) && Local(s, s', t, k) && Gentle(s, s', t, k) && u != t
    requires s.kqs[k].stage.Handed? ==> s'.kqs[k].stage.Handed? || At(s, t) == Freeing(k)
    ensures ThreadOk(s', u)
  {
    assert ThreadOk(s, u) && ThreadOk(s, t);
    assert KqOk(s, k);
  }

  lemma OtherKqs(s: State, s': State, t: nat, k: nat, j: nat)
    requires Inv(s) && Local(s, s', t, k) && j in s.kqs && j != k
    ensures KqOk(s', j)
  {
    assert KqOk(s, j) && !Holds(At(s, t), j);
    assert forall u :: u in s.kqs[j].inflight ==> Holds(At(s, u), j);
  }

  lemma LocalKeeps(s: State, s': State, t: nat, k: nat)
    requires Inv(s) && Local(s, s', t, k) && Gentle(s, s', t, k) && ThreadOk(s', t) && KqOk(s', k)
    requires s.kqs[k].stage.Handed? ==> s'.kqs[k].stage.Handed? || At(s, t) == Freeing(k)
    requires SlotsOk(s') && Counted(s') && MtxOk(s')
    ensures Inv(s')
  {
    forall u ensures ThreadOk(s', u) {
      if u != t {
        OtherThreads(s, s', t, k, u);
      }
    }
    forall j | j in s'.kqs ensures KqOk(s', j) {
      if j != k {
        OtherKqs(s, s', t, k, j);
      }
    }
  }

  /** The registry reads of a kqueue only its id, its stage and kq_freeing. */
  lemma RegistrySame(s: State, s': State, t: nat, k: nat)
    requires Inv(s) && Local(s, s', t, k) && s'.slots == s.slots && s'.list == s.list && s'.cnt == s.cnt
    requires s'.kqs[k].id == s.kqs[k].id && (s'.kqs[k].stage.Live? <==> s.kqs[k].stage.Live?)
    requires s'.kqs[k].stage.Live? ==> s'.kqs[k].freeing == s.kqs[k].freeing
    ensures SlotsOk(s') && Counted(s')
  {
  }

  lemma LookupKeeps(s: State, t: nat, id: int)
    requires Inv(s) && Enabled(s, Lookup(t, id))
    ensures Inv(After(s, Lookup(t, id)))
  {
    var s' := After(s, Lookup(t, id));
    if id in s.slots {
      var k := s.slots[id];
      assert KqOk(s, k);
      RegistrySame(s, s', t, k);
      LocalKeeps(s, s', t, k);
    }
  }

  lemma LockKeeps(s: State, t: nat)
    requires Inv(s) && Enabled(s, Lock(t))
    ensures Inv(After(s, Lock(t)))
  {
    var s', k := After(s, Lock(t)), At(s, t).k;
    assert ThreadOk(s, t) && KqOk(s, k);
    RegistrySame(s, s', t, k);
    LocalKeeps(s, s', t, k);
  }

  lemma EnterKeeps(s: State, t: nat)
    requires Inv(s) && Enabled(s, Enter(t))
    ensures Inv(After(s, Enter(t)))
  {
    var s', k := After(s, Enter(t)), At(s, t).k;
    assert ThreadOk(s, t) && KqOk(s, k);
    RegistrySame(s, s', t, k);
    LocalKeeps(s, s', t, k);
  }

  lemma ParkKeeps(s: State, t: nat)
    requires Inv(s) && Enabled(s, Park(t))
    ensures Inv(After(s, Park(t)))
  {
    var s', k := After(s, Park(t)), At(s, t).k;
    assert ThreadOk(s, t) && KqOk(s, k);
    RegistrySame(s, s', t, k);
    LocalKeeps(s, s', t, k);
  }

  lemma UnparkKeeps(s: State, t: nat)
    requires Inv(s) && Enabled(s, Unpark(t))
    ensures Inv(After(s, Unpark(t)))
  {
    var s', k := After(s, Unpark(t)), At(s, t).k;
    assert ThreadOk(s, t) && KqOk(s, k);
    RegistrySame(s, s', t, k);
    LocalKeeps(s, s', t, k);
  }

  lemma ExitKeeps(s: State, t: nat)
    requires Inv(s) && Enabled(s, Exit(t))
    ensures Inv(After(s, Exit(t)))
  {
    var s', k := After(s, Exit(t)), At(s, t).k;
    assert ThreadOk(s, t) && KqOk(s, k);
    RegistrySame(s, s', t, k);
    LocalKeeps(s, s', t, k);
  }

  lemma FinishKeeps(s: State, t: nat)
    requires Inv(s) && Enabled(s, Finish(t))
    ensures Inv(After(s, Finish(t)))
  {
    var s', k := After(s, Finish(t)), At(s, t).k;
    assert ThreadOk(s, t);
    if At(s, t).needsFree {
      assert KqOk(s, k);
      RegistrySame(s, s', t, k);
      LocalKeeps(s, s', t, k);
    } else {
      IdleKeeps(s, t);
    }
  }

  lemma IdleKeeps(s: State, t: nat)
    requires Inv(s) && At(s, t).Leaving? && !At(s, t).needsFree
    ensures Inv(Go(s, t, Idle))
  {
    var s' := Go(s, t, Idle);
    assert forall u :: ThreadOk(s, u) ==> ThreadOk(s', u);
    forall j | j in s.kqs ensures KqOk(s', j) {
      assert KqOk(s, j) && !Holds(At(s, t), j);
    }
  }

  lemma FreeEndKeeps(s: State, t: nat)
    requires Inv(s) && Enabled(s, FreeEnd(t))
    ensures Inv(After(s, FreeEnd(t)))
  {
    var s', k := After(s, FreeEnd(t)), At(s, t).k;
    assert ThreadOk(s, t) && KqOk(s, k);
    RegistrySame(s, s', t, k);
    LocalKeeps(s, s', t, k);
  }

  /** kqueue_free takes k's own slot and no other kqueue's. */
  lemma FreeUnmaps(s: State, t: nat, k: nat, id: int)
    requires Inv(s) && Enabled(s, FreeBegin(t, k))
    ensures var m := After(s, FreeBegin(t, k)).slots;
      && (id in m <==> id in s.slots && s.slots[id] != k)
      && (id in m ==> m[id] == s.slots[id])
  {
  }

  lemma FreeBeginKeeps(s: State, t: nat, k: nat)
    requires Inv(s) && Enabled(s, FreeBegin(t, k))
    ensures Inv(After(s, FreeBegin(t, k)))
  {
    var s' := After(s, FreeBegin(t, k));
    assert KqOk(s, k);
    DropOne(s.list, k);
    assert SlotsOk(s') by {
      forall id | id in s'.slots ensures s'.slots[id] in s.kqs && s'.slots[id] != k {
        FreeUnmaps(s, t, k, id);
      }
    }
    LocalKeeps(s, s', t, k);
  }

  lemma CreateLists(s: State, k: nat, id: int)
    requires Inv(s) && Enabled(s, Create(k, id))
    ensures SlotsOk(After(s, Create(k, id))) && Counted(After(s, Create(k, id)))
  {
    var s' := After(s, Create(k, id));
    assert k !in s.list;
    assert forall i :: 0 < i < |s'.list| ==> s'.list[i] == s.list[i - 1] && s.list[i - 1] in s.list;
  }

  lemma CreateKeeps(s: State, k: nat, id: int)
    requires Inv(s) && Enabled(s, Create(k, id))
    ensures Inv(After(s, Create(k, id)))
  {
    var s' := After(s, Create(k, id));
    CreateLists(s, k, id);
    forall t ensures ThreadOk(s', t) {
      assert ThreadOk(s, t);
    }
    forall j | j in s'.kqs ensures KqOk(s', j) {
      assert j != k ==> KqOk(s, j);
    }
  }

  lemma StepKeeps(s: State, a: Step)
    requires Inv(s) && Enabled(s, a)
    ensures Inv(After(s, a))
  {
    match a
    case Create(k, id) => CreateKeeps(s, k, id);
    case Close(id) =>
      var s' := After(s, a);
      assert forall t :: ThreadOk(s, t) ==> ThreadOk(s', t);
      assert forall j :: j in s.kqs && KqOk(s, j) ==> KqOk(s', j);
    case Lookup(t, id) => LookupKeeps(s, t, id);
    case Lock(t) => LockKeeps(s, t);
    case Enter(t) => EnterKeeps(s, t);
    case Park(t) => ParkKeeps(s, t);
    case Unpark(t) => UnparkKeeps(s, t);
    case Exit(t) => ExitKeeps(s, t);
    case Finish(t) => FinishKeeps(s, t);
    case FreeBegin(t, k) => FreeBeginKeeps(s, t, k);
    case FreeEnd(t) => FreeEndKeeps(s, t);
  }

  // ----- whole runs -------------------------------------------------------------------------------

  ghost predicate Run(ss: seq<State>, steps: seq<Step>) {
    && |ss| == |steps| + 1 && ss[0] == START
    && forall i :: 0 <= i < |steps| ==> Enabled(ss[i], steps[i]) && ss[i + 1] == After(ss[i], steps[i])
  }

  lemma {:induction false} RunKeeps(ss: seq<State>, steps: seq<Step>)
    requires Run(ss, steps)
    ensures Inv(ss[|steps|])
  {
    if steps != [] {
      var m := |steps| - 1;
      RunKeeps(ss[..|steps|], steps[..m]);
      StepKeeps(ss[m], steps[m]);
    }
  }

  /** In every run teardown happens at most once and never under a thread that
      can still reach the kqueue; the map and the count stay exact. */
  lemma RunSafe(ss: seq<State>, steps: seq<Step>)
    requires Run(ss, steps)
    ensures var s := ss[|steps|]; Safe(s) && SlotsOk(s) && s.cnt == |s.list|
  {
    RunKeeps(ss, steps);
    InvIsSafe(ss[|steps|]);
  }

  /** ... and has happened, once, as soon as the kqueue was handed to kqueue_free
      and every caller has left. */
  lemma RunTearsDown(ss: seq<State>, steps: seq<Step>, k: nat)
    requires Run(ss, steps) && k in ss[|steps|].kqs && k !in ss[|steps|].list
    ensures ss[|steps|].kqs[k].torn == 1 <==> !exists t :: Holds(At(ss[|steps|], t), k)
  {
    RunKeeps(ss, steps);
    TornOrHeld(ss[|steps|], k);
  }
}
