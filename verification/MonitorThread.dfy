/** What the monitoring thread runs under kq_mtx (monitoring_thread_loop in
    src/linux/platform.c), with its event buffer and its loops. */
module MonitorThread {
  import opened Drain
  import opened Lists

  datatype Event = Hup(k: nat) | DrainEvent

  function Hups(es: seq<Event>): seq<nat> {
    if es == [] then [] else if es[0].Hup? then [es[0].k] + Hups(es[1..]) else Hups(es[1..])
  }

  lemma {:induction false} HupsAppend(es: seq<Event>, e: Event)
    ensures Hups(es + [e]) == Hups(es) + if e.Hup? then [e.k] else []
  {
    if es == [] {
      assert [e][1..] == [];
    } else {
      HupsAppend(es[1..], e);
      assert (es + [e])[1..] == es[1..] + [e];
    }
  }

  class Thread {
    var listed: set<nat>
    var armed: set<nat>
    var closed: set<nat>
    var handed: seq<nat>
    var readable: bool
    var gen: nat
    var running: bool

    /** The shared state, with the monitor and the drainers where given. */
    ghost function View(m: Monitor, w: map<nat, Drainer>): State
      reads this
    {
      State(listed, armed, closed, handed, readable, gen, m, w)
    }

    method CloseKq(k: nat)
      requires k in listed
      modifies `listed, `handed
      ensures listed == old(listed) - {k} && handed == old(handed) + [k]
    {
      listed, handed := listed - {k}, handed + [k];
    }

    /** epoll_wait with a zero timeout once the eventfd is drained: any of the
        ready pipes, each of which will not fire again. */
    method Poll() returns (es: seq<Event>)
      requires !readable
      modifies `armed
      ensures Distinct(Hups(es)) && Elems(Hups(es)) <= old(armed) * closed && DrainEvent !in es && |Hups(es)| == |es|
      ensures es == [] <==> old(armed) * closed == {}
      ensures armed == old(armed) - Elems(Hups(es)) && |es| <= MAX_EVENTS
      ensures es != [] ==> armed < old(armed)
    {
      es := [];
      var ready := armed * closed;
      if ready != {} {
        var k :| k in ready;
        es := [Hup(k)];
        assert es[1..] == [] && Hups(es) == [k];
        armed := armed - {k};
      }
    }

    /** One pass over the event buffer. */
    method FreeBatch(es: seq<Event>) returns (drain: bool)
      requires Distinct(Hups(es)) && Elems(Hups(es)) <= listed
      modifies `listed, `handed
      ensures drain <==> DrainEvent in es
      ensures listed == old(listed) - Elems(Hups(es)) && handed == old(handed) + Hups(es)
    {
      drain := false;
      assert Hups(es[..0]) == [];
      for i := 0 to |es|
        invariant drain <==> DrainEvent in es[..i]
        invariant Hups(es[..i]) <= Hups(es)
        invariant listed == old(listed) - Elems(Hups(es[..i])) && handed == old(handed) + Hups(es[..i])
      {
        assert es[..i + 1] == es[..i] + [es[i]];
        HupsAppend(es[..i], es[i]);
        HupsPrefix(es, i + 1);
        if es[i].DrainEvent? {
          drain := true;
        } else {
          ghost var n := |Hups(es[..i])|;
          assert es[i].k == Hups(es)[n] && es[i].k in Elems(Hups(es));
          assert forall j :: 0 <= j < n ==> Hups(es[..i])[j] == Hups(es)[j];
          CloseKq(es[i].k);
        }
      }
      assert es[..|es|] == es;
    }

    /** One zero-timeout poll and the pass over what it gave. */
    method PollOnce() returns (more: bool, ghost b: seq<nat>)
      requires !readable && armed <= listed
      modifies `listed, `armed, `handed
      ensures Distinct(b) && Elems(b) <= old(armed) * closed
      ensures listed == old(listed) - Elems(b) && armed == old(armed) - Elems(b)
      ensures handed == old(handed) + b
      ensures if more then armed < old(armed) else b == [] && armed * closed == {}
    {
      var es := Poll();
      b := Hups(es);
      more := es != [];
      if more {
        var drain := FreeBatch(es);
      }
    }

    /** Poll until nothing is ready: every closed kqueue is freed. */
    method Sweep() returns (ghost sweep: seq<nat>)
      requires !readable && armed <= listed
      modifies `listed, `armed, `handed
      ensures Distinct(sweep) && Elems(sweep) == old(armed) * closed
      ensures listed == old(listed) - Elems(sweep) && armed == old(armed) - Elems(sweep)
      ensures handed == old(handed) + sweep
    {
      sweep := [];
      ghost var b: seq<nat> := [];
      var more := true;
      while more
        invariant Distinct(sweep) && Elems(sweep) <= old(armed) * closed
        invariant listed == old(listed) - Elems(sweep) && armed == old(armed) - Elems(sweep)
        invariant handed == old(handed) + sweep
        invariant !more ==> armed * closed == {}
        decreases more, armed
      {
        more, b := PollOnce();
        SweepStep(sweep, b, old(armed), closed, old(handed));
        sweep := sweep + b;
      }
      assert old(armed) * closed <= Elems(sweep) + armed * closed;
    }

    /** The answer to a drain request. */
    method Answer(drain: bool) returns (ghost sweep: seq<nat>)
      requires armed <= listed
      modifies `listed, `armed, `handed, `readable, `gen
      ensures if drain then Distinct(sweep) && Elems(sweep) == old(armed) * closed else sweep == []
      ensures listed == old(listed) - Elems(sweep) && armed == old(armed) - Elems(sweep)
      ensures handed == old(handed) + sweep
      ensures readable == (old(readable) && !drain) && gen == if drain then old(gen) + 1 else old(gen)
    {
      sweep := [];
      if drain {
        readable := false;
        sweep := Sweep();
        gen := gen + 1;
      }
    }

    /** Everything between taking and dropping kq_mtx.  The list is empty exactly
        when kq_cnt is zero (Lifecycle.RunSafe). */
    method Pass(es: seq<Event>, ghost w: map<nat, Drainer>) returns (ghost sweep: seq<nat>)
      requires running
      requires Inv(View(Holding(Hups(es), DrainEvent in es), w))
      modifies this
      ensures var s := old(View(Holding(Hups(es), DrainEvent in es), w));
        Enabled(s, Process(sweep)) && View(if running then Waiting else Off, w) == After(s, Process(sweep))
    {
      ghost var s := View(Holding(Hups(es), DrainEvent in es), w);
      var drain := FreeBatch(es);
      sweep := Answer(drain);
      if listed == {} {
        running := false;
      }
      PassIsProcess(s, sweep, View(if running then Waiting else Off, w));
    }
  }

  lemma PassIsProcess(s: State, sweep: seq<nat>, t: State)
    requires s.mon.Holding?
    requires if s.mon.drain then Distinct(sweep) && Elems(sweep) == s.armed * s.closed else sweep == []
    requires t.listed == s.listed - Elems(s.mon.batch) - Elems(sweep) && t.armed == s.armed - Elems(sweep)
    requires t.closed == s.closed && t.drainers == s.drainers && t.handed == s.handed + s.mon.batch + sweep
    requires t.readable == (s.readable && !s.mon.drain) && t.gen == if s.mon.drain then s.gen + 1 else s.gen
    requires t.mon == if t.listed == {} then Off else Waiting
    ensures Enabled(s, Process(sweep)) && t == After(s, Process(sweep))
  {
  }

  lemma SweepStep(f: seq<nat>, b: seq<nat>, armed: set<nat>, closed: set<nat>, h: seq<nat>)
    requires Distinct(f) && Distinct(b) && Elems(f) <= armed * closed && Elems(b) <= (armed - Elems(f)) * closed
    ensures Distinct(f + b) && Elems(f + b) == Elems(f) + Elems(b) && h + f + b == h + (f + b)
  {
    assert forall k :: k in f <==> k in Elems(f);
    assert forall k :: k in b <==> k in Elems(b);
    JoinDistinct(f, b);
  }

  lemma {:induction false} HupsPrefix(es: seq<Event>, i: nat)
    requires i <= |es|
    ensures Hups(es[..i]) <= Hups(es)
    decreases |es| - i
  {
    if i == |es| {
      assert es[..i] == es;
    } else {
      HupsPrefix(es, i + 1);
      assert es[..i + 1] == es[..i] + [es[i]];
      HupsAppend(es[..i], es[i]);
    }
  }
}
