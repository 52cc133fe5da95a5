/** What the program asked of EVFILT_SIGNAL and what was sent to it, told from the
    calls alone.  Every run of Signals agrees with it, and reports every fire. */
module SignalBook {
  import opened Lists
  import opened Signals

  /** off: on the disabled list.  fires: signals since the knote was created. */
  datatype Entry = Entry(filt: nat, sig: int, disabled: bool, off: bool, fires: nat)
  type Book = map<nat, Entry>

  ghost predicate Asked(b: Book, sig: int) {
    exists k :: k in b && b[k].sig == sig
  }

  /** The first knote of a number needs the platform's watch; SIGCHLD may be taken. */
  ghost predicate Accepted(b: Book, reserved: bool, sig: int, watched: bool) {
    0 < sig < SIGNAL_MAX && !(reserved && sig == SIGCHLD) && (watched || Asked(b, sig))
  }

  ghost function Rung(b: Book, sig: int): Book {
    map k | k in b :: if b[k].sig == sig then b[k].(fires := b[k].fires + 1) else b[k]
  }

  ghost function Noted(b: Book, reserved: bool, a: Step): Book {
    match a
    case Fire(sig) => if 0 < sig < SIGNAL_MAX then Rung(b, sig) else b
    case New(k, f, sig, watched) =>
      if Accepted(b, reserved, sig, watched) then b[k := Entry(f, sig, false, false, 0)] else b
    case Remove(k) => b - {k}
    case TurnOn(k) => if k in b && b[k].disabled then b[k := b[k].(disabled := false, off := false)] else b
    case TurnOff(k) => if k in b && !b[k].disabled then b[k := b[k].(disabled := true, off := true)] else b
    case Modify(k, d) => if k in b then b[k := b[k].(disabled := d)] else b
    case Report(_, _) => b
  }

  ghost predicate Fits(s: State, k: nat, e: Entry) {
    && k in s.knotes && k in s.fired && s.fired[k] == e.fires
    && s.knotes[k].filt == e.filt && s.knotes[k].sig == e.sig && s.knotes[k].disabled == e.disabled
    && (On(s, k) <==> !e.off) && (IsOff(s, k) <==> e.off)
  }

  ghost predicate Matches(s: State, b: Book) {
    s.knotes.Keys == b.Keys && forall k :: k in b ==> Fits(s, k, b[k])
  }

  // ----- each step ------------------------------------------------------------------------------

  lemma FannedFits(s: State, t: State, sig: int, fs: seq<nat>, k: nat, e: Entry)
    requires Fanned(s, t, sig, fs) && Fits(s, k, e) && (Hit(s, k, sig, fs) <==> e.sig == sig)
    ensures Fits(t, k, if e.sig == sig then e.(fires := e.fires + 1) else e)
  {
    assert k in Hits(s, sig, fs) <==> e.sig == sig;
  }

  lemma FireBook(s: State, sig: int, b: Book)
    requires Core(s) && 0 < sig < SIGNAL_MAX && Matches(s, b)
    ensures Matches(Dispatch(s, sig), Rung(b, sig))
  {
    var t := Dispatch(s, sig);
    DispatchFans(s, sig);
    FannedBook(s, t, sig, TableOf(s, sig), b);
  }

  lemma FannedBook(s: State, t: State, sig: int, fs: seq<nat>, b: Book)
    requires Fanned(s, t, sig, fs) && Matches(s, b)
    requires forall k :: k in s.knotes ==> (Hit(s, k, sig, fs) <==> s.knotes[k].sig == sig)
    ensures Matches(t, Rung(b, sig))
  {
    forall k | k in b ensures Fits(t, k, Rung(b, sig)[k]) {
      FannedFits(s, t, sig, fs, k, b[k]);
    }
  }

  lemma AskedWatched(s: State, b: Book, sig: int)
    requires Core(s) && Matches(s, b)
    ensures Asked(b, sig) <==> TableOf(s, sig) != []
  {
    WatchedByKnotes(s, sig);
    assert forall k :: k in s.knotes <==> k in b;
    if Asked(b, sig) {
      var k :| k in b && b[k].sig == sig;
      assert s.knotes[k].sig == sig;
    }
    if TableOf(s, sig) != [] {
      var k :| k in s.knotes && s.knotes[k].sig == sig;
      assert k in b && b[k].sig == sig;
    }
  }

  lemma NewFits(s: State, k: nat, f: nat, sig: int, watched: bool, j: nat, e: Entry)
    requires Core(s) && k !in s.knotes && Created(s, sig, watched)
    requires if j == k then e == Entry(f, sig, false, false, 0) else Fits(s, j, e)
    ensures Fits(Create(s, k, f, sig, watched), j, e)
  {
    CreateOn(s, k, f, sig, watched, j);
  }

  lemma CreatedBook(s: State, k: nat, f: nat, sig: int, watched: bool, b: Book)
    requires Core(s) && k !in s.knotes && Matches(s, b) && Created(s, sig, watched)
    ensures Matches(Create(s, k, f, sig, watched), b[k := Entry(f, sig, false, false, 0)])
  {
    var b' := b[k := Entry(f, sig, false, false, 0)];
    forall j | j in b' ensures Fits(Create(s, k, f, sig, watched), j, b'[j]) {
      NewFits(s, k, f, sig, watched, j, b'[j]);
    }
  }

  lemma NewBook(s: State, k: nat, f: nat, sig: int, watched: bool, b: Book)
    requires Core(s) && k !in s.knotes && Matches(s, b)
    ensures Matches(Create(s, k, f, sig, watched), Noted(b, s.reserved, New(k, f, sig, watched)))
  {
    AskedWatched(s, b, sig);
    if Created(s, sig, watched) {
      CreatedBook(s, k, f, sig, watched, b);
    }
  }

  lemma RemoveBook(s: State, k: nat, b: Book)
    requires Core(s) && k in s.knotes && Matches(s, b)
    ensures Matches(Delete(s, k), b - {k})
  {
    forall j | j in b && j != k ensures Fits(Delete(s, k), j, b[j]) {
      DeleteOn(s, k, j);
    }
  }

  /** After a delete no list names the knote. */
  lemma RemoveUnlinks(s: State, k: nat, f: nat, sig: int)
    requires Core(s) && k in s.knotes
    ensures var t := Delete(s, k);
      k !in t.knotes && k !in LinkOf(t, f, sig).on && k !in LinkOf(t, f, sig).off && k !in PendingOf(t, f)
  {
    DeleteLinks(s, k, f, sig);
    DeletePends(s, k, f);
  }

  lemma TurnFits(s: State, k: nat, on: bool, j: nat, e: Entry)
    requires Placed(s) && k in s.knotes && Fits(s, j, e)
    ensures var t := Flag(if on then Enable(s, k) else Disable(s, k), k, !on);
      Fits(t, j, if j == k then e.(disabled := !on, off := !on) else e)
  {
    var u := if on then Enable(s, k) else Disable(s, k);
    if on {
      EnableMoves(s, k);
    } else {
      DisableMoves(s, k);
    }
    MovedOn(s, u, k, on, j);
    FlagOn(u, k, !on, j);
  }

  lemma TurnBook(s: State, k: nat, on: bool, b: Book)
    requires Placed(s) && k in s.knotes && Matches(s, b)
    ensures Matches(Flag(if on then Enable(s, k) else Disable(s, k), k, !on),
                    b[k := b[k].(disabled := !on, off := !on)])
  {
    var t := Flag(if on then Enable(s, k) else Disable(s, k), k, !on);
    var b' := b[k := b[k].(disabled := !on, off := !on)];
    forall j | j in b ensures Fits(t, j, b'[j]) {
      TurnFits(s, k, on, j, b[j]);
    }
  }

  lemma ModifyBook(s: State, k: nat, d: bool, b: Book)
    requires k in s.knotes && Matches(s, b)
    ensures Matches(Flag(s, k, d), b[k := b[k].(disabled := d)])
  {
    forall j | j in b ensures Fits(Flag(s, k, d), j, if j == k then b[j].(disabled := d) else b[j]) {
      FlagOn(s, k, d, j);
    }
  }

  lemma ReportBook(s: State, f: nat, nevents: nat, b: Book)
    requires Core(s) && Matches(s, b)
    ensures Matches(Copyout(s, f, nevents), b)
  {
    assert PendingOk(s, f);
    CopyoutEmpties(s, f, nevents);
    var t, ks := Copyout(s, f, nevents), PendingOf(s, f)[..Taken(s, f, nevents)];
    forall k | k in b ensures Fits(t, k, b[k]) {
      EmptiedFits(s, t, f, ks, k, b[k]);
    }
  }

  lemma EmptiedFits(s: State, t: State, f: nat, ks: seq<nat>, k: nat, e: Entry)
    requires Emptied(s, t, f, ks) && Fits(s, k, e)
    ensures Fits(t, k, e)
  {
  }

  lemma StepBook(s: State, a: Step, b: Book)
    requires Core(s) && Enabled(s, a) && Matches(s, b)
    ensures Matches(After(s, a), Noted(b, s.reserved, a))
  {
    match a
    case Fire(sig) =>
      if 0 < sig < SIGNAL_MAX {
        FireBook(s, sig, b);
      }
    case New(k, f, sig, watched) => NewBook(s, k, f, sig, watched, b);
    case Remove(k) => RemoveBook(s, k, b);
    case TurnOn(k) =>
      assert Fits(s, k, b[k]);
      TurnBook(s, k, true, b);
    case TurnOff(k) =>
      assert Fits(s, k, b[k]);
      TurnBook(s, k, false, b);
    case Modify(k, d) => ModifyBook(s, k, d, b);
    case Report(f, nevents) => ReportBook(s, f, nevents, b);
  }

  // ----- whole runs --------------------------------------------------------------------------------

  ghost function BookOf(steps: seq<Step>, reserved: bool): Book {
    if steps == [] then map[] else Noted(BookOf(steps[..|steps| - 1], reserved), reserved, steps[|steps| - 1])
  }

  lemma StepReserved(s: State, a: Step)
    requires Core(s) && Enabled(s, a)
    ensures After(s, a).reserved == s.reserved
  {
    if a.Fire? && 0 < a.sig < SIGNAL_MAX {
      DispatchFans(s, a.sig);
    }
  }

  /** At the end of every run the knotes, their flags and lists, and the number of
      fires of each are what the calls say. */
  lemma {:induction false} RunBook(ss: seq<State>, steps: seq<Step>)
    requires Run(ss, steps)
    ensures ss[|steps|].reserved == ss[0].reserved && Matches(ss[|steps|], BookOf(steps, ss[0].reserved))
    decreases |steps|
  {
    if steps != [] {
      var m := |steps| - 1;
      LastStep(ss, steps);
      RunBook(ss[..|steps|], steps[..m]);
      StepReserved(ss[m], steps[m]);
      StepBook(ss[m], steps[m], BookOf(steps[..m], ss[0].reserved));
    }
  }

  lemma LastStep(ss: seq<State>, steps: seq<Step>)
    requires Run(ss, steps) && steps != []
    ensures var m := |steps| - 1;
      && Run(ss[..|steps|], steps[..m]) && Core(ss[m]) && (Roomy(ss, steps) ==> Inv(ss[m]))
      && Enabled(ss[m], steps[m]) && ss[m + 1] == After(ss[m], steps[m])
  {
    var m := |steps| - 1;
    RunKeeps(ss[..|steps|], steps[..m]);
    if Roomy(ss, steps) {
      assert forall i :: 0 <= i < m ==> ss[..|steps|][i] == ss[i] && steps[..m][i] == steps[i];
    }
  }

  /** A run without a wrap that ends with a copyout with room for all: every signal
      sent to an enabled knote of that filter has been reported. */
  lemma RunReports(ss: seq<State>, steps: seq<Step>, f: nat, nevents: nat, k: nat)
    requires Run(ss, steps) && Roomy(ss, steps)
    requires steps != [] && steps[|steps| - 1] == Report(f, nevents) && nevents >= |PendingOf(ss[|steps| - 1], f)|
    requires var b := BookOf(steps, ss[0].reserved); k in b && b[k].filt == f && !b[k].off
    ensures k in ss[|steps|].reported && ss[|steps|].reported[k] == BookOf(steps, ss[0].reserved)[k].fires
  {
    var m := |steps| - 1;
    LastStep(ss, steps);
    RunBook(ss, steps);
    RunBook(ss[..|steps|], steps[..m]);
    assert Fits(ss[m], k, BookOf(steps[..m], ss[0].reserved)[k]);
    CopyoutReports(ss[m], f, nevents, k);
    assert Fits(ss[|steps|], k, BookOf(steps, ss[0].reserved)[k]);
  }
}
