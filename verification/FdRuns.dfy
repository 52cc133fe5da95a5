/** Runs of the read and write filters on one descriptor that end outside what is
    promised of the shared registration. */
module FdRuns {
  import opened FdMux
  import opened FdUdata
  import opened Lists

  const READER := Knote(3, Read, false, false, false, false)
  const WRITER := Knote(3, Write, false, false, false, false)
  const SLEEPER := Knote(3, Read, false, true, false, false)

  lemma Extend(ss: seq<State>, ops: seq<Op>, op: Op) returns (tt: seq<State>)
    requires Run(ss, ops) && Enabled(ss[|ops|], op)
    ensures tt == ss + [After(ss[|ops|], op)] && Run(tt, ops + [op])
  {
    tt := ss + [After(ss[|ops|], op)];
    forall i | 0 <= i < |ops| ensures Enabled(tt[i], ops[i]) && tt[i + 1] == After(tt[i], ops[i]) {
      assert tt[i] == ss[i] && tt[i + 1] == ss[i + 1];
    }
  }

  lemma Opened() returns (ss: seq<State>)
    ensures Run(ss, [Open(3)]) && ss[1] == START.(open := {3}) && Valid(ss[1])
  {
    assert Run([START], []);
    ss := Extend([START], [], Open(3));
    RunValid(ss, [Open(3)], 3);
    assert [] + [Open(3)] == [Open(3)];
    assert {} + {3} == {3};
  }

  /** A descriptor with one enabled read knote. */
  lemma ReaderAdded() returns (ss: seq<State>, ops: seq<Op>)
    ensures ops == [Open(3), Create(0, READER)] && Run(ss, ops) && Valid(ss[2])
    ensures var s := ss[2];
      s.knotes == map[0 := READER.(attached := true)] && 3 in s.open && 3 in s.kernel && 3 in s.tree
  {
    ss := Opened();
    var s := ss[1];
    EnabledMeans(s, Create(0, READER));
    ss := Extend(ss, [Open(3)], Create(0, READER));
    ops := [Open(3), Create(0, READER)];
    assert [Open(3)] + [Create(0, READER)] == ops;
    CreateOk(s, 0, READER);
    CreateArms(s, 0, READER);
    WithKeeps(s, 0, READER);
    AddDone(With(s, 0, READER), 0);
    AddLocal(With(s, 0, READER), 0);
    assert ss[2].knotes == map[0 := READER.(attached := true)];
  }

  /** With a write knote added to it, the descriptor is not watched for EPOLLRDHUP
      any more, which the read knote asked for. */
  lemma RdhupLost() returns (ss: seq<State>, ops: seq<Op>)
    ensures ops == [Open(3), Create(0, READER), Create(1, WRITER)] && Run(ss, ops)
    ensures 0 in ss[3].knotes && !Off(ss[3].knotes[0]) && Events(Read, false).rdhup && !Covers(ss[3], 0)
  {
    var o;
    ss, o := ReaderAdded();
    var s := ss[2];
    EnabledMeans(s, Create(1, WRITER));
    ss := Extend(ss, o, Create(1, WRITER));
    ops := o + [Create(1, WRITER)];
    CreateOptions(s, 1, WRITER, 0);
    CreateOk(s, 1, WRITER);
    AddLocal(With(s, 1, WRITER), 1);
  }

  /** Closed and opened again under its read knote, the descriptor is open and a
      write knote for it is refused. */
  lemma Reopened() returns (ss: seq<State>, ops: seq<Op>)
    ensures ops == [Open(3), Create(0, READER), Close(3), Open(3)] && Run(ss, ops) && Valid(ss[4])
    ensures 3 in ss[4].open && 3 !in ss[4].kernel && Lost(ss[4], 3)
    ensures ss[4].knotes == map[0 := READER.(attached := true)]
  {
    var o;
    ss, o := ReaderAdded();
    var s := ss[2];
    assert Agrees(s, 3);
    ss := Extend(ss, o, Close(3));
    ss := Extend(ss, o + [Close(3)], Open(3));
    ops := o + [Close(3)] + [Open(3)];
    RunValid(ss, ops, 3);
    assert FdState(ss[4], 3, false) == FdState(s, 3, false);
  }

  lemma ReopenedRefused() returns (ss: seq<State>, ops: seq<Op>)
    ensures ops == [Open(3), Create(0, READER), Close(3), Open(3), Create(1, WRITER)] && Run(ss, ops)
    ensures 3 in ss[4].open && 3 !in ss[4].kernel && 1 !in ss[5].knotes && ss[5] == ss[4]
  {
    var o;
    ss, o := Reopened();
    EnabledMeans(ss[4], Create(1, WRITER));
    CreateRefused(ss[4], 1, WRITER);
    ss := Extend(ss, o, Create(1, WRITER));
    ops := o + [Create(1, WRITER)];
  }

  /** A read knote added with EV_DISABLE is left armed in the kernel. */
  lemma ArmedWhileDisabled() returns (ss: seq<State>, ops: seq<Op>)
    ensures ops == [Open(3), Create(0, SLEEPER)] && Run(ss, ops)
    ensures 3 in ss[2].kernel && Has(ss[2].kernel[3].ev, Read) && !Wanted(ss[2], 3, Read)
    ensures ss[2].tree == map[3 := Fds(Some(0), None, 0)] && ss[2].knotes == map[0 := SLEEPER.(attached := true)]
  {
    ss := Opened();
    var s := ss[1];
    EnabledMeans(s, Create(0, SLEEPER));
    ss := Extend(ss, [Open(3)], Create(0, SLEEPER));
    ops := [Open(3)] + [Create(0, SLEEPER)];
    var r := Add(With(s, 0, SLEEPER), 0);
    assert r.state.tree == map[3 := Fds(Some(0), None, 0)] && r.state.knotes == map[0 := SLEEPER.(attached := true)];
    assert FdState(r.state, 3, false) == NONE;
  }

  /** Enabling it, or deleting it, defers the udata that the kernel still holds. */
  lemma DeferredWhileRegistered(op: Op) returns (ss: seq<State>, ops: seq<Op>)
    requires op in {Enable(0), Delete(0)}
    ensures ops == [Open(3), Create(0, SLEEPER), op] && Run(ss, ops)
    ensures 3 in ss[3].kernel && ss[3].kernel[3].udata in ss[3].deferred
  {
    var o;
    ss, o := ArmedWhileDisabled();
    var s := ss[2];
    RunShaped(ss, o);
    RunKnown(ss, o);
    RunClear(ss, o);
    EnabledMeans(s, op);
    assert Clear(s) && KnownAt(s, 3) && ClearAt(s, 3) && Strands(s, op);
    if op.Enable? {
      AddAt(s, 0);
    } else {
      DelAt(s, 0, true);
    }
    assert !ClearAt(After(s, op), 3);
    ss := Extend(ss, o, op);
    ops := o + [op];
  }
}
