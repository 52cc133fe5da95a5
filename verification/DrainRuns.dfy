/** Closing and draining (src/linux/platform.c), told from the calls alone: what a
    drain promises about kqueues closed before it, and which kqueues are freed. */
module DrainRuns {
  import opened Drain
  import opened Lists

  lemma StepHands(s: State, a: Step, k: nat)
    requires Inv(s) && Enabled(s, a)
    ensures k in s.handed ==> k in After(s, a).handed
    ensures k in After(s, a).handed ==> k in s.handed || (a.Process? && k in s.listed && k in s.closed)
    ensures k in After(s, a).closed <==> k in s.closed || a == Close(k)
  {
    if a.Process? {
      assert forall j :: j in s.mon.batch ==> j in Elems(s.mon.batch);
      assert forall j :: j in a.sweep ==> j in Elems(a.sweep);
    }
  }

  lemma StepAt(ss: seq<State>, steps: seq<Step>, i: nat)
    requires Run(ss, steps) && i < |steps|
    ensures Inv(ss[i]) && Enabled(ss[i], steps[i]) && ss[i + 1] == After(ss[i], steps[i])
  {
    RunKeeps(ss, steps, i);
  }

  /** A kqueue counts as closed exactly after the call. */
  lemma {:induction false} RunClosed(ss: seq<State>, steps: seq<Step>, i: nat, k: nat)
    requires Run(ss, steps) && i <= |steps|
    ensures k in ss[i].closed <==> Close(k) in steps[..i]
  {
    if i > 0 {
      StepAt(ss, steps, i - 1);
      RunClosed(ss, steps, i - 1, k);
      StepHands(ss[i - 1], steps[i - 1], k);
      assert steps[..i] == steps[..i - 1] + [steps[i - 1]];
    }
  }

  lemma {:induction false} RunHanded(ss: seq<State>, steps: seq<Step>, i: nat, j: nat, k: nat)
    requires Run(ss, steps) && i <= j <= |steps| && k in ss[i].handed
    ensures k in ss[j].handed
    decreases j
  {
    if i < j {
      RunHanded(ss, steps, i, j - 1, k);
      StepAt(ss, steps, j - 1);
      StepHands(ss[j - 1], steps[j - 1], k);
    }
  }

  /** kqueue_free is called only for a kqueue that was closed, and once. */
  lemma {:induction false} RunFrees(ss: seq<State>, steps: seq<Step>, i: nat, k: nat)
    requires Run(ss, steps) && i <= |steps| && k in ss[i].handed
    ensures Close(k) in steps[..i] && Distinct(ss[i].handed)
  {
    RunKeeps(ss, steps, i);
    if i > 0 {
      StepAt(ss, steps, i - 1);
      StepHands(ss[i - 1], steps[i - 1], k);
      assert steps[..i] == steps[..i - 1] + [steps[i - 1]];
      if k in ss[i - 1].handed {
        RunFrees(ss, steps, i - 1, k);
      } else {
        RunClosed(ss, steps, i - 1, k);
      }
    }
  }

  /** A kqueue closed before a drain is called has been freed when the drain
      returns, whether or not the monitor was running. */
  lemma RunDrains(ss: seq<State>, steps: seq<Step>, k: nat, d: nat, c: nat, i: nat, j: nat)
    requires Run(ss, steps) && c < i < j < |steps|
    requires steps[c] == Close(k) && steps[i] == Request(d) && steps[j] == Return(d)
    requires forall m :: i < m < j ==> steps[m] != Return(d)
    ensures k in ss[j].handed
  {
    assert steps[..i][c] == Close(k);
    RunClosed(ss, steps, i, k);
    if ss[i].mon.Off? {
      DrainIdle(ss, steps, i, k);
      RunHanded(ss, steps, i, j, k);
    } else {
      DrainComplete(ss, steps, d, i, j, k);
    }
  }

  /** A drain that finds the monitor running waits for it; one that does not, does
      not. */
  lemma RequestWaits(ss: seq<State>, steps: seq<Step>, d: nat, i: nat)
    requires Run(ss, steps) && i < |steps| && steps[i] == Request(d)
    ensures d in ss[i + 1].drainers <==> !ss[i].mon.Off?
    ensures d in ss[i + 1].drainers ==> ss[i + 1].readable && !CanReturn(ss[i + 1], d)
  {
    assert Enabled(ss[i], steps[i]) && ss[i + 1] == After(ss[i], steps[i]);
  }

  /** A kqueue is listed from its creation until it is freed. */
  lemma {:induction false} RunListed(ss: seq<State>, steps: seq<Step>, i: nat, k: nat)
    requires Run(ss, steps) && i <= |steps|
    ensures k in ss[i].listed <==> Create(k) in steps[..i] && k !in ss[i].handed
  {
    if i > 0 {
      StepAt(ss, steps, i - 1);
      RunListed(ss, steps, i - 1, k);
      StepLists(ss[i - 1], steps[i - 1], k);
      assert steps[..i] == steps[..i - 1] + [steps[i - 1]];
    }
  }

  lemma StepLists(s: State, a: Step, k: nat)
    requires Inv(s) && Enabled(s, a)
    ensures k in After(s, a).listed <==> (k in s.listed || a == Create(k)) && k !in After(s, a).handed
  {
    if a.Process? {
      assert forall j :: j in s.mon.batch <==> j in Elems(s.mon.batch);
      assert forall j :: j in a.sweep <==> j in Elems(a.sweep);
    }
  }
}
