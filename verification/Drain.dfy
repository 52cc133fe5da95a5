/** Close detection and libkqueue_drain_pending_close (src/linux/platform.c).

    The monitoring thread waits on an epoll set that holds, once each, the pipe
    of every kqueue and one eventfd for drain requests.  What it does under
    kq_mtx is one step, and so is each thing a drainer does under kq_mtx; the
    harvest of events in between runs without the lock. */
module Drain {
  import opened Lists

  const MAX_EVENTS: nat := 64

  datatype Monitor =
    | Off                                   // monitoring_tid == 0
    | Waiting                               // in epoll_wait
    | Holding(batch: seq<nat>, drain: bool) // has events, wants kq_mtx

  /** A caller in cond_wait: its generation, and what was closed when it called. */
  datatype Drainer = Drainer(gen: nat, closed: set<nat>)

  /** listed: kq_list.  armed: pipes whose one-shot registration has not fired.
      handed: the calls of kqueue_free, in order. */
  datatype State = State(listed: set<nat>, armed: set<nat>, closed: set<nat>, handed: seq<nat>,
                         readable: bool, gen: nat, mon: Monitor, drainers: map<nat, Drainer>)

  const START := State({}, {}, {}, [], false, 0, Off, map[])

  datatype Step =
    | Create(k: nat)
    | Close(k: nat)
    | Harvest(b: seq<nat>, drain: bool)
    | Process(sweep: seq<nat>)
    | Request(d: nat)
    | Return(d: nat)

  /** epoll_wait reports some of the ready events, at most a buffer full. */
  ghost predicate Ready(s: State, b: seq<nat>, drain: bool) {
    && Distinct(b) && Elems(b) <= s.armed * s.closed && (drain ==> s.readable)
    && 0 < |b| + (if drain then 1 else 0) <= MAX_EVENTS
  }

  predicate CanReturn(s: State, d: nat)
    requires d in s.drainers
  {
    s.gen != s.drainers[d].gen || s.mon.Off?
  }

  ghost predicate Enabled(s: State, a: Step) {
    match a
    case Create(k) => k !in s.listed && k !in s.handed
    case Close(k) => k in s.listed && k !in s.closed
    case Harvest(b, drain) => s.mon.Waiting? && Ready(s, b, drain)
    case Process(sweep) =>
      && s.mon.Holding?
      && (if s.mon.drain then Distinct(sweep) && Elems(sweep) == s.armed * s.closed else sweep == [])
    case Request(d) => d !in s.drainers
    case Return(d) => d in s.drainers && CanReturn(s, d)
  }

  ghost function After(s: State, a: Step): State
    requires Enabled(s, a)
  {
    match a
    case Create(k) =>
      s.(listed := s.listed + {k}, armed := s.armed + {k}, mon := if s.mon.Off? then Waiting else s.mon)
    case Close(k) => s.(closed := s.closed + {k})
    case Harvest(b, drain) => s.(armed := s.armed - Elems(b), mon := Holding(b, drain))
    case Process(sweep) => Processed(s, sweep)
    case Request(d) =>
      if s.mon.Off? then s
      else s.(readable := true, drainers := s.drainers[d := Drainer(s.gen, s.closed)])
    case Return(d) => s.(drainers := s.drainers - {d})
  }

  /** The batch, then the sweep if a drain was asked for; no kqueue left: exit. */
  ghost function Processed(s: State, sweep: seq<nat>): State
    requires s.mon.Holding?
  {
    var left := s.listed - Elems(s.mon.batch) - Elems(sweep);
    State(left, s.armed - Elems(sweep), s.closed, s.handed + s.mon.batch + sweep,
          s.readable && !s.mon.drain, if s.mon.drain then s.gen + 1 else s.gen,
          if left == {} then Off else Waiting, s.drainers)
  }

  // ----- what must hold ----------------------------------------------------------------

  function Batch(m: Monitor): seq<nat> {
    if m.Holding? then m.batch else []
  }

  /** Every pointer in the batch is a listed kqueue, closed and not yet freed;
      kqueue_free is called at most once for each. */
  ghost predicate BatchOk(s: State) {
    && Distinct(Batch(s.mon)) && Elems(Batch(s.mon)) <= s.closed
    && s.armed !! Elems(Batch(s.mon)) && s.listed == s.armed + Elems(Batch(s.mon))
    && Distinct(s.handed) && (forall k :: k in s.handed ==> k !in s.listed)
  }

  ghost predicate DrainerOk(s: State, d: nat)
    requires d in s.drainers
  {
    var w := s.drainers[d];
    && w.gen <= s.gen && w.closed <= s.closed
    && (w.gen < s.gen ==> forall k :: k in w.closed ==> k in s.handed)
    && (w.gen == s.gen ==> s.readable)
  }

  ghost predicate Inv(s: State) {
    && BatchOk(s)
    && (forall k :: k in s.closed ==> k in s.listed || k in s.handed)
    && (s.mon.Off? ==> s.listed == {})
    && (forall d :: d in s.drainers ==> DrainerOk(s, d))
  }

  // ----- every step keeps it -------------------------------------------------------------

  lemma HarvestKeeps(s: State, b: seq<nat>, drain: bool)
    requires Inv(s) && Enabled(s, Harvest(b, drain))
    ensures Inv(After(s, Harvest(b, drain)))
  {
    var t := After(s, Harvest(b, drain));
    assert forall d :: d in s.drainers && DrainerOk(s, d) ==> DrainerOk(t, d);
  }

  lemma HandedOnce(s: State, sweep: seq<nat>)
    requires Inv(s) && Enabled(s, Process(sweep))
    ensures BatchOk(Processed(s, sweep))
  {
    var b, h, t := s.mon.batch, s.handed, Processed(s, sweep);
    assert forall k :: k in b ==> k in Elems(b);
    assert forall k :: k in sweep ==> k in Elems(sweep);
    JoinDistinct(h, b);
    JoinDistinct(h + b, sweep);
    assert forall k :: k in t.handed ==> k in h || k in b || k in sweep;
  }

  /** After a drain pass nothing closed is left to hand over. */
  lemma PassDrains(s: State, sweep: seq<nat>, k: nat)
    requires Inv(s) && Enabled(s, Process(sweep)) && s.mon.drain && k in s.closed
    ensures k in Processed(s, sweep).handed
  {
    if k in s.listed {
      assert k in Elems(s.mon.batch) || k in Elems(sweep);
    }
  }

  lemma ProcessKeeps(s: State, sweep: seq<nat>)
    requires Inv(s) && Enabled(s, Process(sweep))
    ensures Inv(After(s, Process(sweep)))
  {
    var t := After(s, Process(sweep));
    HandedOnce(s, sweep);
    forall k | k in s.closed ensures k in t.listed || k in t.handed {
      if k in s.listed {
        assert k in t.listed || k in Elems(s.mon.batch) || k in Elems(sweep);
      }
    }
    forall d | d in s.drainers ensures DrainerOk(t, d) {
      assert DrainerOk(s, d);
      if s.mon.drain {
        forall k | k in s.drainers[d].closed ensures k in t.handed {
          PassDrains(s, sweep, k);
        }
      }
    }
  }

  lemma StepKeeps(s: State, a: Step)
    requires Inv(s) && Enabled(s, a)
    ensures Inv(After(s, a))
  {
    match a
    case Harvest(b, drain) => HarvestKeeps(s, b, drain);
    case Process(sweep) => ProcessKeeps(s, sweep);
    case _ =>
      var t := After(s, a);
      assert forall d :: d in s.drainers && DrainerOk(s, d) && d in t.drainers ==> DrainerOk(t, d);
  }

  // ----- whole runs ------------------------------------------------------------------------

  ghost predicate Run(ss: seq<State>, steps: seq<Step>) {
    && |ss| == |steps| + 1 && ss[0] == START
    && forall i :: 0 <= i < |steps| ==> Enabled(ss[i], steps[i]) && ss[i + 1] == After(ss[i], steps[i])
  }

  lemma {:induction false} RunKeeps(ss: seq<State>, steps: seq<Step>, i: nat)
    requires Run(ss, steps) && i <= |steps|
    ensures Inv(ss[i])
  {
    if i > 0 {
      RunKeeps(ss, steps, i - 1);
      StepKeeps(ss[i - 1], steps[i - 1]);
    }
  }

  /** The generation d waits on is that of its request. */
  lemma {:induction false} Remembers(ss: seq<State>, steps: seq<Step>, d: nat, i: nat, j: nat)
    requires Run(ss, steps) && i < j <= |steps| && steps[i] == Request(d) && !ss[i].mon.Off?
    requires forall m :: i < m < j ==> steps[m] != Return(d)
    ensures d in ss[j].drainers && ss[j].drainers[d] == Drainer(ss[i].gen, ss[i].closed)
  {
    if j > i + 1 {
      Remembers(ss, steps, d, i, j - 1);
      assert Enabled(ss[j - 1], steps[j - 1]) && ss[j] == After(ss[j - 1], steps[j - 1]);
    } else {
      assert ss[i + 1] == After(ss[i], steps[i]);
    }
  }

  /** When a drain returns, every kqueue closed before the call was handed to
      kqueue_free: at once if no monitor runs, else when the caller wakes. */
  lemma DrainComplete(ss: seq<State>, steps: seq<Step>, d: nat, i: nat, j: nat, k: nat)
    requires Run(ss, steps) && i < j < |steps| && steps[i] == Request(d) && steps[j] == Return(d) && !ss[i].mon.Off?
    requires forall m :: i < m < j ==> steps[m] != Return(d)
    requires k in ss[i].closed
    ensures k in ss[j].handed
  {
    RunKeeps(ss, steps, j);
    Remembers(ss, steps, d, i, j);
    assert DrainerOk(ss[j], d) && Enabled(ss[j], steps[j]);
  }

  lemma DrainIdle(ss: seq<State>, steps: seq<Step>, i: nat, k: nat)
    requires Run(ss, steps) && i <= |steps| && ss[i].mon.Off? && k in ss[i].closed
    ensures k in ss[i].handed
  {
    RunKeeps(ss, steps, i);
  }

  /** Each pointer the monitor passes to kqueue_free is listed, and no two are
      the same. */
  lemma FreesListed(s: State, sweep: seq<nat>, i: nat, j: nat)
    requires Inv(s) && Enabled(s, Process(sweep)) && i < j < |s.mon.batch + sweep|
    ensures var f := s.mon.batch + sweep; f[i] in s.listed && f[j] in s.listed && f[i] != f[j]
  {
    var b := s.mon.batch;
    assert forall m :: 0 <= m < |b| ==> b[m] in Elems(b);
    assert forall m :: 0 <= m < |sweep| ==> sweep[m] in Elems(sweep);
  }

  // ----- no drainer is stuck -------------------------------------------------------------------

  ghost predicate Leads(s: State, steps: seq<Step>, t: State)
    decreases |steps|
  {
    if steps == [] then s == t
    else Enabled(s, steps[0]) && (steps[0].Harvest? || steps[0].Process?) && Leads(After(s, steps[0]), steps[1..], t)
  }

  lemma {:induction false} Order(a: set<nat>) returns (b: seq<nat>)
    ensures Distinct(b) && Elems(b) == a
  {
    b := [];
    if a != {} {
      var x :| x in a;
      b := Order(a - {x});
      assert forall k :: k in b <==> k in Elems(b);
      JoinDistinct([x], b);
      b := [x] + b;
    }
  }

  lemma OneStep(s: State, a: Step)
    requires Enabled(s, a) && (a.Harvest? || a.Process?)
    ensures Leads(s, [a], After(s, a))
  {
    assert [a][1..] == [];
  }

  /** From any reachable state the monitor alone, in at most three steps, brings
      a waiting drainer to where it returns. */
  lemma NeverStuck(s: State, d: nat) returns (steps: seq<Step>, t: State)
    requires Inv(s) && d in s.drainers
    ensures |steps| <= 3 && Leads(s, steps, t) && d in t.drainers && CanReturn(t, d)
  {
    steps, t := [], s;
    if !CanReturn(s, d) {
      assert DrainerOk(s, d) && s.readable;
      if s.mon.Holding? {
        var sweep: seq<nat> := [];
        if s.mon.drain {
          sweep := Order(s.armed * s.closed);
        }
        var a := Process(sweep);
        OneStep(s, a);
        StepKeeps(s, a);
        steps, t := [a], After(s, a);
        if !CanReturn(t, d) {
          assert DrainerOk(t, d);
          var rest;
          rest, t := TwoMore(t, d);
          assert ([a] + rest)[1..] == rest;
          steps := [a] + rest;
        }
      } else {
        steps, t := TwoMore(s, d);
      }
    }
  }

  lemma TwoMore(s: State, d: nat) returns (steps: seq<Step>, t: State)
    requires Inv(s) && d in s.drainers && s.mon.Waiting? && s.readable && s.gen == s.drainers[d].gen
    ensures |steps| == 2 && Leads(s, steps, t) && d in t.drainers && CanReturn(t, d)
  {
    var h := Harvest([], true);
    assert Enabled(s, h);
    var m := After(s, h);
    var sweep := Order(m.armed * m.closed);
    var p := Process(sweep);
    t := After(m, p);
    OneStep(m, p);
    steps := [h, p];
    assert steps[1..] == [p];
  }
}
