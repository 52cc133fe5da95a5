/** Runs of the signal filter: two that lose fires or leave a knote disabled, and
    how many fires of a knote any run loses. */
module SignalRuns {
  import opened Lists
  import opened Signals

  lemma Extend(ss: seq<State>, steps: seq<Step>, a: Step) returns (tt: seq<State>)
    requires Run(ss, steps) && Enabled(ss[|steps|], a)
    ensures tt == ss + [After(ss[|steps|], a)] && Run(tt, steps + [a])
  {
    tt := ss + [After(ss[|steps|], a)];
  }

  /** One knote for signal 1. */
  lemma Added() returns (ss: seq<State>)
    ensures Run(ss, [New(0, 0, 1, true)]) && Core(ss[1])
    ensures var s := ss[1];
      s.knotes == map[0 := Knote(0, 1, 0, false)] && s.fired == map[0 := 0] && s.reported == map[0 := 0] && On(s, 0)
  {
    var s := Start(false);
    assert Run([s], []);
    ss := Extend([s], [], New(0, 0, 1, true));
    assert [] + [New(0, 0, 1, true)] == [New(0, 0, 1, true)];
    RunKeeps(ss, [New(0, 0, 1, true)]);
    assert LinkOf(ss[1], 0, 1).on == [0];
  }

  /** Knote 0 fired n times and was never copied out. */
  ghost predicate Hot(s: State, n: nat) {
    && 0 in s.knotes && s.knotes[0].sig == 1 && s.knotes[0].count == n % WRAP
    && 0 in s.fired && s.fired[0] == n && 0 in s.reported && s.reported[0] == 0
  }

  lemma {:induction false} FiredTimes(n: nat) returns (ss: seq<State>, steps: seq<Step>)
    ensures Run(ss, steps) && |steps| == n + 1 && Hot(ss[|steps|], n)
  {
    if n == 0 {
      ss := Added();
      steps := [New(0, 0, 1, true)];
    } else {
      ss, steps := FiredTimes(n - 1);
      ss, steps := FireMore(ss, steps, n - 1);
    }
  }

  lemma FireMore(tt: seq<State>, before: seq<Step>, n: nat) returns (ss: seq<State>, steps: seq<Step>)
    requires Run(tt, before) && Hot(tt[|before|], n)
    ensures Run(ss, steps) && |steps| == |before| + 1 && Hot(ss[|steps|], n + 1)
  {
    RunKeeps(tt, before);
    FireOnce(tt[|before|]);
    WrapNext(n);
    ss := Extend(tt, before, Fire(1));
    steps := before + [Fire(1)];
  }

  lemma FireOnce(s: State)
    requires Core(s) && 0 in s.knotes && s.knotes[0].sig == 1
    ensures var t := Dispatch(s, 1);
      && 0 in t.knotes && t.knotes[0] == More(s.knotes[0]) && t.reported == s.reported
      && 0 in s.fired && 0 in t.fired && t.fired[0] == s.fired[0] + 1
  {
    DispatchFans(s, 1);
    assert 0 in Hits(s, 1, TableOf(s, 1));
  }

  /** After 2^32 fires none is reported and none is counted. */
  lemma FiresLost() returns (ss: seq<State>, steps: seq<Step>)
    ensures Run(ss, steps)
    ensures var s := ss[|steps|];
      0 in s.knotes && 0 in s.fired && 0 in s.reported && s.fired[0] == WRAP && s.reported[0] + s.knotes[0].count == 0
  {
    ss, steps := FiredTimes(WRAP);
  }

  lemma Disabled() returns (ss: seq<State>, steps: seq<Step>)
    ensures steps == [New(0, 0, 1, true), TurnOff(0)] && Run(ss, steps) && Core(ss[2])
    ensures 0 in ss[2].knotes && ss[2].knotes[0].disabled && IsOff(ss[2], 0)
  {
    ss := Added();
    var a := ss[1];
    assert On(a, 0) <==> !IsOff(a, 0);
    TurnKeepsFlag(a, 0);
    ss := Extend(ss, [New(0, 0, 1, true)], TurnOff(0));
    steps := [New(0, 0, 1, true)] + [TurnOff(0)];
    RunKeeps(ss, steps);
  }

  /** Disabled, modified without EV_DISABLE, enabled: still on the disabled list. */
  lemma StaysDisabled() returns (ss: seq<State>, steps: seq<Step>)
    ensures steps == [New(0, 0, 1, true), TurnOff(0), Modify(0, false), TurnOn(0)] && Run(ss, steps)
    ensures 0 in ss[4].knotes && IsOff(ss[4], 0)
  {
    var two;
    ss, two := Disabled();
    ModifyExact(ss[2], 0, false);
    ss := Extend(ss, two, Modify(0, false));
    ss := Extend(ss, two + [Modify(0, false)], TurnOn(0));
    steps := two + [Modify(0, false)] + [TurnOn(0)];
  }

  // ----- what a whole run loses ---------------------------------------------------------------

  /** A fire meets a counter of k that is full. */
  ghost predicate Full(s: State, a: Step, k: nat) {
    && a.Fire? && 0 < a.sig < SIGNAL_MAX
    && k in s.knotes && s.knotes[k].sig == a.sig && s.knotes[k].count == WRAP - 1
  }

  /** 2^32 fires of k were lost n times: neither reported nor counted. */
  ghost predicate Misses(s: State, k: nat, n: nat) {
    && k in s.knotes && k in s.fired && k in s.reported
    && s.fired[k] == s.reported[k] + s.knotes[k].count + n * WRAP
  }

  lemma BumpMisses(s: State, t: State, ks: set<nat>, k: nat, n: nat)
    requires Misses(s, k, n) && s.knotes[k].count < WRAP && t.reported == s.reported
    requires Bumped(s.knotes, t.knotes, ks) && Counted(s.fired, t.fired, ks)
    ensures Misses(t, k, if k in ks && s.knotes[k].count == WRAP - 1 then n + 1 else n)
  {
    assert k in t.knotes && k in t.fired;
  }

  lemma FireMisses(s: State, sig: int, k: nat, n: nat)
    requires Core(s) && Misses(s, k, n)
    ensures Misses(Dispatch(s, sig), k, if Full(s, Fire(sig), k) then n + 1 else n)
  {
    if 0 < sig < SIGNAL_MAX {
      var t, ks := Dispatch(s, sig), Hits(s, sig, TableOf(s, sig));
      DispatchFans(s, sig);
      assert k in ks <==> s.knotes[k].sig == sig;
      BumpMisses(s, t, ks, k, n);
    }
  }

  lemma ReportMisses(s: State, f: nat, nevents: nat, k: nat, n: nat)
    requires Misses(s, k, n)
    ensures Misses(Copyout(s, f, nevents), k, n)
  {
    Zeroed(s.knotes, PendingOf(s, f)[..Taken(s, f, nevents)]);
  }

  /** A step loses 2^32 fires of a knote that outlives it, or none. */
  lemma StepMisses(s: State, a: Step, k: nat, n: nat)
    requires Core(s) && Enabled(s, a) && Misses(s, k, n) && k in After(s, a).knotes
    ensures Misses(After(s, a), k, if Full(s, a, k) then n + 1 else n)
  {
    match a
    case Fire(sig) => FireMisses(s, sig, k, n);
    case Report(f, nevents) => ReportMisses(s, f, nevents, k, n);
    case _ => QuietMisses(s, a, k, n);
  }

  lemma QuietMisses(s: State, a: Step, k: nat, n: nat)
    requires Enabled(s, a) && Misses(s, k, n) && k in After(s, a).knotes && !a.Fire? && !a.Report?
    ensures Misses(After(s, a), k, n)
  {
  }

  lemma NewMisses(s: State, a: Step, k: nat)
    requires Core(s) && Enabled(s, a) && k !in s.knotes && k in After(s, a).knotes
    ensures Misses(After(s, a), k, 0)
  {
    match a
    case Fire(sig) => DispatchSame(s, sig);
    case Report(f, nevents) => Zeroed(s.knotes, PendingOf(s, f)[..Taken(s, f, nevents)]);
    case _ =>
  }

  lemma DispatchSame(s: State, sig: int)
    requires Core(s)
    ensures Dispatch(s, sig).knotes.Keys == s.knotes.Keys
  {
    if 0 < sig < SIGNAL_MAX {
      DispatchFans(s, sig);
    }
  }

  /** How often it came to that since k was created. */
  ghost function Wraps(ss: seq<State>, steps: seq<Step>, k: nat): nat
    requires |ss| == |steps| + 1
    decreases |steps|
  {
    var m := |steps| - 1;
    if m < 0 || k !in ss[m].knotes then 0
    else Wraps(ss[..|steps|], steps[..m], k) + if Full(ss[m], steps[m], k) then 1 else 0
  }

  /** Lost fires never come back: at the end of every run 2^32 of them are missing
      for each fire that met a full counter. */
  lemma {:induction false} RunMisses(ss: seq<State>, steps: seq<Step>, k: nat)
    requires Run(ss, steps) && k in ss[|steps|].knotes
    ensures Misses(ss[|steps|], k, Wraps(ss, steps, k))
    decreases |steps|
  {
    if steps != [] {
      var m := |steps| - 1;
      var tt, before := ss[..|steps|], steps[..m];
      LastStep(ss, steps);
      if k in ss[m].knotes {
        RunMisses(tt, before, k);
        StepMisses(ss[m], steps[m], k, Wraps(tt, before, k));
      } else {
        NewMisses(ss[m], steps[m], k);
      }
    }
  }

  lemma LastStep(ss: seq<State>, steps: seq<Step>)
    requires Run(ss, steps) && steps != []
    ensures var m := |steps| - 1;
      && Run(ss[..|steps|], steps[..m]) && Core(ss[m])
      && Enabled(ss[m], steps[m]) && ss[m + 1] == After(ss[m], steps[m])
  {
    RunKeeps(ss[..|steps|], steps[..|steps| - 1]);
  }

  /** k is there from step i on. */
  ghost predicate Lives(ss: seq<State>, k: nat, i: nat) {
    forall j :: i <= j < |ss| ==> k in ss[j].knotes
  }

  /** No fire of k, since it was created, met a full counter. */
  ghost predicate NeverFull(ss: seq<State>, steps: seq<Step>, k: nat)
    requires |ss| == |steps| + 1
  {
    forall i :: 0 <= i < |steps| && Lives(ss, k, i) ==> !Full(ss[i], steps[i], k)
  }

  lemma LivesOn(ss: seq<State>, s: State, k: nat, i: nat)
    requires k in s.knotes
    ensures Lives(ss + [s], k, i) <==> Lives(ss, k, i)
  {
    var tt := ss + [s];
    assert forall j :: 0 <= j < |ss| ==> tt[j] == ss[j];
  }

  lemma NeverFullBorn(ss: seq<State>, steps: seq<Step>, k: nat)
    requires |ss| == |steps| + 1 && steps != [] && k !in ss[|steps| - 1].knotes
    ensures NeverFull(ss, steps, k)
  {
  }

  lemma NeverFullOn(ss: seq<State>, steps: seq<Step>, s: State, a: Step, k: nat)
    requires |ss| == |steps| + 1 && k in s.knotes && NeverFull(ss, steps, k) && !Full(ss[|steps|], a, k)
    ensures NeverFull(ss + [s], steps + [a], k)
  {
    forall i | 0 <= i < |steps| && Lives(ss + [s], k, i) ensures !Full(ss[i], steps[i], k) {
      LivesOn(ss, s, k, i);
    }
  }

  lemma NeverFullBack(ss: seq<State>, steps: seq<Step>, s: State, a: Step, k: nat)
    requires |ss| == |steps| + 1 && k in s.knotes && k in ss[|steps|].knotes
    requires NeverFull(ss + [s], steps + [a], k)
    ensures NeverFull(ss, steps, k) && !Full(ss[|steps|], a, k)
  {
    var tt, after, m := ss + [s], steps + [a], |steps|;
    forall i | 0 <= i < m && Lives(ss, k, i) ensures !Full(ss[i], steps[i], k) {
      LivesOn(ss, s, k, i);
      assert tt[i] == ss[i] && after[i] == steps[i];
    }
    LivesOn(ss, s, k, m);
    assert tt[m] == ss[m] && after[m] == a;
  }

  lemma {:induction false} WrapsNever(ss: seq<State>, steps: seq<Step>, k: nat)
    requires |ss| == |steps| + 1 && k in ss[|steps|].knotes
    ensures Wraps(ss, steps, k) == 0 <==> NeverFull(ss, steps, k)
    decreases |steps|
  {
    if steps != [] {
      var m := |steps| - 1;
      if k in ss[m].knotes {
        WrapsNever(ss[..|steps|], steps[..m], k);
        NeverFullAgain(ss[..|steps|], steps[..m], ss[|steps|], steps[m], k);
        assert ss[..|steps|] + [ss[|steps|]] == ss && steps[..m] + [steps[m]] == steps;
      } else {
        NeverFullBorn(ss, steps, k);
      }
    }
  }

  lemma NeverFullAgain(ss: seq<State>, steps: seq<Step>, s: State, a: Step, k: nat)
    requires |ss| == |steps| + 1 && k in s.knotes && k in ss[|steps|].knotes
    ensures NeverFull(ss + [s], steps + [a], k) <==> NeverFull(ss, steps, k) && !Full(ss[|steps|], a, k)
  {
    if NeverFull(ss + [s], steps + [a], k) {
      NeverFullBack(ss, steps, s, a, k);
    } else if NeverFull(ss, steps, k) && !Full(ss[|steps|], a, k) {
      NeverFullOn(ss, steps, s, a, k);
    }
  }

  /** The balance of one knote is exact at the end of a run if and only if none of
      its fires, since it was created, met a full counter. */
  lemma RunExact(ss: seq<State>, steps: seq<Step>, k: nat)
    requires Run(ss, steps) && k in ss[|steps|].knotes
    ensures k in ss[|steps|].fired && k in ss[|steps|].reported
    ensures var s := ss[|steps|];
      s.fired[k] == s.reported[k] + s.knotes[k].count <==> NeverFull(ss, steps, k)
  {
    RunMisses(ss, steps, k);
    WrapsNever(ss, steps, k);
  }
}
