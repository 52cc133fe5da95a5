/** Which kqueue a descriptor number leads to (src/common/kqueue.c,
    src/common/kevent.c), told from the calls alone: over every run, the number
    names the kqueue created last under it, until that one is freed. */
module LifecycleRuns {
  import opened Lifecycle
  import opened Lists

  /** No later call takes number id over, or frees k. */
  ghost predicate Stands(steps: seq<Step>, j: nat, k: nat, id: int) {
    forall l :: j < l < |steps| ==>
      !(steps[l].Create? && steps[l].id == id) && !(steps[l].FreeBegin? && steps[l].k == k)
  }

  /** k is the last kqueue created under id, and nobody has begun to free it. */
  ghost predicate Published(steps: seq<Step>, id: int, k: nat) {
    exists j :: 0 <= j < |steps| && steps[j] == Create(k, id) && Stands(steps, j, k, id)
  }

  lemma StandsOn(steps: seq<Step>, a: Step, j: nat, k: nat, id: int)
    requires j < |steps|
    ensures Stands(steps + [a], j, k, id) <==>
      Stands(steps, j, k, id) && !(a.Create? && a.id == id) && !(a.FreeBegin? && a.k == k)
  {
    var t := steps + [a];
    assert forall l :: 0 <= l < |steps| ==> t[l] == steps[l];
    assert t[|steps|] == a;
  }

  /** One call more. */
  lemma PublishedOn(steps: seq<Step>, a: Step, id: int, k: nat)
    ensures Published(steps + [a], id, k) <==>
      || a == Create(k, id)
      || (Published(steps, id, k) && !(a.Create? && a.id == id) && !(a.FreeBegin? && a.k == k))
  {
    var t := steps + [a];
    if Published(t, id, k) {
      var j :| 0 <= j < |t| && t[j] == Create(k, id) && Stands(t, j, k, id);
      if j < |steps| {
        StandsOn(steps, a, j, k, id);
        assert steps[j] == Create(k, id);
      }
    }
    if a == Create(k, id) {
      assert t[|steps|] == a && Stands(t, |steps|, k, id);
    } else if Published(steps, id, k) && !(a.Create? && a.id == id) && !(a.FreeBegin? && a.k == k) {
      var j :| 0 <= j < |steps| && steps[j] == Create(k, id) && Stands(steps, j, k, id);
      StandsOn(steps, a, j, k, id);
      assert t[j] == Create(k, id);
    }
  }

  ghost predicate Maps(s: State, id: int, k: nat) {
    id in s.slots && s.slots[id] == k
  }

  lemma StepMaps(s: State, a: Step, id: int, k: nat)
    requires Inv(s) && Enabled(s, a)
    ensures Maps(After(s, a), id, k) <==>
      || a == Create(k, id)
      || (Maps(s, id, k) && !(a.Create? && a.id == id) && !(a.FreeBegin? && a.k == k))
  {
    if a.FreeBegin? {
      FreeUnmaps(s, a.t, a.k, id);
    }
  }

  lemma {:induction false} RunMaps(ss: seq<State>, steps: seq<Step>, id: int, k: nat)
    requires Run(ss, steps)
    ensures Maps(ss[|steps|], id, k) <==> Published(steps, id, k)
    decreases |steps|
  {
    if steps != [] {
      var m := |steps| - 1;
      LastStep(ss, steps);
      RunMaps(ss[..|steps|], steps[..m], id, k);
      StepMaps(ss[m], steps[m], id, k);
      PublishedOn(steps[..m], steps[m], id, k);
      assert steps[..m] + [steps[m]] == steps;
    }
  }

  lemma LastStep(ss: seq<State>, steps: seq<Step>)
    requires Run(ss, steps) && steps != []
    ensures var m := |steps| - 1;
      && Run(ss[..|steps|], steps[..m]) && Inv(ss[m])
      && Enabled(ss[m], steps[m]) && ss[m + 1] == After(ss[m], steps[m])
  {
    RunKeeps(ss[..|steps|], steps[..|steps| - 1]);
  }

  /** kevent() on a number finds k if and only if k is the kqueue created last under
      that number and not yet handed to kqueue_free; else it finds nothing. */
  lemma RunFinds(ss: seq<State>, steps: seq<Step>, t: nat, id: int, k: nat)
    requires Run(ss, steps) && steps != [] && steps[|steps| - 1] == Lookup(t, id)
    ensures At(ss[|steps|], t) == Found(k) <==> Published(steps[..|steps| - 1], id, k)
    ensures At(ss[|steps|], t).Found? || At(ss[|steps|], t).Idle?
  {
    var m := |steps| - 1;
    LastStep(ss, steps);
    RunMaps(ss[..|steps|], steps[..m], id, k);
  }

  // ----- the thread stays with the kqueue it found --------------------------------------------

  /** t looked up a number that led to k, and has not looked one up since. */
  ghost predicate Reached(steps: seq<Step>, t: nat, k: nat) {
    exists j, id :: 0 <= j < |steps| && steps[j] == Lookup(t, id) && Published(steps[..j], id, k) && Since(steps, j, t)
  }

  ghost predicate Since(steps: seq<Step>, j: nat, t: nat) {
    forall l :: j < l < |steps| ==> !(steps[l].Lookup? && steps[l].t == t)
  }

  lemma ReachedOn(steps: seq<Step>, a: Step, t: nat, k: nat)
    requires Reached(steps, t, k) && !(a.Lookup? && a.t == t)
    ensures Reached(steps + [a], t, k)
  {
    var j, id :| 0 <= j < |steps| && steps[j] == Lookup(t, id) && Published(steps[..j], id, k) && Since(steps, j, t);
    var s := steps + [a];
    assert forall l :: 0 <= l < |steps| ==> s[l] == steps[l];
    assert s[..j] == steps[..j] && s[j] == Lookup(t, id) && Since(s, j, t);
  }

  /** t is in kevent() with k. */
  predicate Serves(p: Pc, k: nat) {
    !p.Idle? && !p.Freeing? && p.k == k
  }

  /** Only a lookup leads a thread to a kqueue. */
  lemma StepServes(s: State, a: Step, t: nat, k: nat)
    requires Enabled(s, a) && Serves(At(After(s, a), t), k)
    ensures Serves(At(s, t), k) || (a.Lookup? && a.t == t && Maps(s, a.id, k))
    ensures a.Lookup? && a.t == t ==> Maps(s, a.id, k)
  {
  }

  /** Whatever kqueue a thread has, holds the lock of, is in flight in or leaves, it
      is the one its last lookup led to. */
  lemma {:induction false} RunServes(ss: seq<State>, steps: seq<Step>, t: nat, k: nat)
    requires Run(ss, steps) && Serves(At(ss[|steps|], t), k)
    ensures Reached(steps, t, k)
    decreases |steps|
  {
    if steps != [] {
      var m := |steps| - 1;
      var a := steps[m];
      LastStep(ss, steps);
      StepServes(ss[m], a, t, k);
      assert steps[..m] + [a] == steps;
      if a.Lookup? && a.t == t {
        RunMaps(ss[..|steps|], steps[..m], a.id, k);
        assert steps[m] == Lookup(t, a.id) && Since(steps, m, t);
      } else {
        RunServes(ss[..|steps|], steps[..m], t, k);
        ReachedOn(steps[..m], a, t, k);
      }
    }
  }

  // ----- the list ------------------------------------------------------------------------------

  ghost predicate Handed(steps: seq<Step>, k: nat) {
    exists j :: 0 <= j < |steps| && steps[j].FreeBegin? && steps[j].k == k
  }

  lemma HandedOn(steps: seq<Step>, a: Step, k: nat)
    ensures Handed(steps + [a], k) <==> Handed(steps, k) || (a.FreeBegin? && a.k == k)
  {
    var t := steps + [a];
    if Handed(steps, k) {
      var j :| 0 <= j < |steps| && steps[j].FreeBegin? && steps[j].k == k;
      assert t[j] == steps[j];
    }
    if a.FreeBegin? && a.k == k {
      assert t[|steps|] == a;
    }
  }

  lemma StepLists(s: State, a: Step, k: nat)
    requires Inv(s) && Enabled(s, a)
    ensures k in After(s, a).kqs <==> k in s.kqs || (a.Create? && a.k == k)
    ensures k in After(s, a).list <==> (k in s.list || (a.Create? && a.k == k)) && !(a.FreeBegin? && a.k == k)
  {
    DropOne(s.list, if a.FreeBegin? then a.k else 0);
  }

  /** A kqueue is listed from its creation until it is handed to kqueue_free. */
  lemma {:induction false} RunLists(ss: seq<State>, steps: seq<Step>, k: nat)
    requires Run(ss, steps)
    ensures Listed(ss[|steps|], steps, k)
    decreases |steps|
  {
    if steps == [] {
      assert ss[0] == START && !Handed([], k) && !Made([], k);
    } else {
      var m := |steps| - 1;
      LastStep(ss, steps);
      RunLists(ss[..|steps|], steps[..m], k);
      ListedOn(ss[m], steps[m], steps[..m], k);
      assert steps[..m] + [steps[m]] == steps;
    }
  }

  ghost predicate Made(steps: seq<Step>, k: nat) {
    exists j :: 0 <= j < |steps| && steps[j].Create? && steps[j].k == k
  }

  lemma MadeOn(steps: seq<Step>, a: Step, k: nat)
    ensures Made(steps + [a], k) <==> Made(steps, k) || (a.Create? && a.k == k)
  {
    var t := steps + [a];
    if Made(steps, k) {
      var j :| 0 <= j < |steps| && steps[j].Create? && steps[j].k == k;
      assert t[j] == steps[j];
    }
    if a.Create? && a.k == k {
      assert t[|steps|] == a;
    }
  }

  ghost predicate Listed(s: State, steps: seq<Step>, k: nat) {
    && (k in s.list <==> k in s.kqs && !Handed(steps, k))
    && (k in s.kqs <==> Made(steps, k))
    && (Handed(steps, k) ==> k in s.kqs)
  }

  lemma ListedOn(s: State, a: Step, steps: seq<Step>, k: nat)
    requires Inv(s) && Enabled(s, a) && Listed(s, steps, k)
    ensures Listed(After(s, a), steps + [a], k)
  {
    StepLists(s, a, k);
    HandedOn(steps, a, k);
    MadeOn(steps, a, k);
  }

  /** After kqueue_free was called for k, k has been torn down exactly once as soon
      as, and not before, no thread has it any more. */
  lemma RunTears(ss: seq<State>, steps: seq<Step>, k: nat)
    requires Run(ss, steps) && Handed(steps, k)
    ensures k in ss[|steps|].kqs && ss[|steps|].kqs[k].torn <= 1
    ensures ss[|steps|].kqs[k].torn == 1 <==> !exists t :: Holds(At(ss[|steps|], t), k)
  {
    RunLists(ss, steps, k);
    RunSafe(ss, steps);
    RunTearsDown(ss, steps, k);
  }

  // ----- a number used again --------------------------------------------------------------------

  lemma Extend(ss: seq<State>, steps: seq<Step>, a: Step) returns (tt: seq<State>)
    requires Run(ss, steps) && Enabled(ss[|steps|], a)
    ensures tt == ss + [After(ss[|steps|], a)] && Run(tt, steps + [a])
  {
    tt := ss + [After(ss[|steps|], a)];
    forall i | 0 <= i < |steps| ensures Enabled(tt[i], steps[i]) && tt[i + 1] == After(tt[i], steps[i]) {
      assert tt[i] == ss[i] && tt[i + 1] == ss[i + 1];
    }
  }

  /** A number is closed under a kqueue and used again: it leads to the new kqueue
      while the old one is still listed. */
  lemma Reused() returns (ss: seq<State>, steps: seq<Step>)
    ensures steps == [Create(0, 3), Close(3), Create(1, 3), Lookup(0, 3)] && Run(ss, steps)
    ensures At(ss[4], 0) == Found(1) && ss[4].list == [1, 0] && ss[4].cnt == 2
  {
    assert Run([START], []);
    ss := Extend([START], [], Create(0, 3));
    assert [] + [Create(0, 3)] == [Create(0, 3)];
    ss := Extend(ss, [Create(0, 3)], Close(3));
    assert [Create(0, 3)] + [Close(3)] == [Create(0, 3), Close(3)];
    ss := Extend(ss, [Create(0, 3), Close(3)], Create(1, 3));
    steps := [Create(0, 3), Close(3)] + [Create(1, 3)];
    assert [1] + ([0] + []) == [1, 0];
    ss := Extend(ss, steps, Lookup(0, 3));
    steps := steps + [Lookup(0, 3)];
  }
}
