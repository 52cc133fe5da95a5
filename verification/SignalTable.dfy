/** What src/common/evfilt_signal.h does under sigtbl_mtx: the four knote
    operations, the dispatcher's walk over every link of a signum, and copyout's
    walk over the pending list.  Each computes its function of Signals. */
module SignalTable {
  import opened Lists
  import opened Signals

  /** One kevent as copyout fills it in. */
  datatype Kevent = Kevent(kn: nat, ident: int, data: nat)

  /** An enabled knote of the pair is not pending yet. */
  ghost predicate Wakes(s: State, f: nat, sig: int) {
    exists k :: k in LinkOf(s, f, sig).on && k !in PendingOf(s, f)
  }

  /** The filters woken while the links fs are walked. */
  ghost function Woken(s: State, fs: seq<nat>, sig: int): seq<nat>
    decreases |fs|
  {
    if fs == [] then []
    else (if Wakes(s, fs[0], sig) then [fs[0]] else []) + Woken(DispatchLink(s, fs[0], sig), fs[1..], sig)
  }

  lemma WokenNext(w: seq<nat>, s: State, fs: seq<nat>, i: nat, sig: int)
    requires i < |fs|
    ensures fs[i..][0] == fs[i] && fs[i..][1..] == fs[i + 1..]
    ensures w + Woken(s, fs[i..], sig)
         == (if Wakes(s, fs[i], sig) then w + [fs[i]] else w) + Woken(DispatchLink(s, fs[i], sig), fs[i + 1..], sig)
  {
    assert fs[i..][1..] == fs[i + 1..];
    JoinOnce(w, fs[i], Woken(DispatchLink(s, fs[i], sig), fs[i + 1..], sig));
  }

  lemma JoinOnce(w: seq<nat>, f: nat, rest: seq<nat>)
    ensures w + ([f] + rest) == (w + [f]) + rest && w + ([] + rest) == w + rest
  {
  }

  /** Exactly the filters with an enabled knote that was not pending before. */
  lemma {:induction false} WokenExact(s: State, fs: seq<nat>, sig: int, f: nat)
    requires Distinct(fs)
    ensures f in Woken(s, fs, sig) <==> f in fs && Wakes(s, f, sig)
    decreases |fs|
  {
    if fs != [] {
      var t := DispatchLink(s, fs[0], sig);
      FirstOnly(fs);
      WokenExact(t, fs[1..], sig, f);
      assert f in fs <==> f == fs[0] || f in fs[1..];
      assert f != fs[0] ==> LinkOf(t, f, sig) == LinkOf(s, f, sig) && PendingOf(t, f) == PendingOf(s, f);
    }
  }

  /** The knotes of done joined a pending list; wake: one was not on it before. */
  ghost predicate Joined(before: seq<nat>, done: seq<nat>, after: seq<nat>, wake: bool) {
    && (forall k :: k in after <==> k in before || k in done)
    && (wake <==> exists k :: k in done && k !in before)
  }

  lemma JoinOn(before: seq<nat>, done: seq<nat>, after: seq<nat>, wake: bool, k: nat)
    requires Joined(before, done, after, wake)
    ensures if k in after then Joined(before, done + [k], after, wake)
            else Joined(before, done + [k], [k] + after, true)
  {
    assert forall j :: j in done + [k] <==> j in done || j == k;
    assert forall j :: j in [k] + after <==> j in after || j == k;
  }

  lemma WalkOn(knotes: map<nat, Knote>, fired: map<nat, nat>, ks: seq<nat>, i: nat)
    requires i < |ks|
    ensures BumpAll(knotes, ks[i..]) == BumpAll(Bump(knotes, ks[i]), ks[i + 1..])
    ensures Count(fired, ks[i..]) ==
      Count(if ks[i] in fired then fired[ks[i] := fired[ks[i]] + 1] else fired, ks[i + 1..])
  {
    assert ks[i..][1..] == ks[i + 1..];
  }

  lemma PendOn(p: seq<nat>, ks: seq<nat>, i: nat)
    requires i < |ks|
    ensures PendAll(p, ks[i..]) == PendAll(Pend(p, ks[i]), ks[i + 1..]) && ks[..i + 1] == ks[..i] + [ks[i]]
  {
    assert ks[i..][1..] == ks[i + 1..];
  }

  /** From s to t the first n pending knotes of f, all of them unless nevents is
      less, left the list and had their counts reported. */
  ghost predicate Took(s: State, t: State, f: nat, nevents: nat, n: nat) {
    var p := PendingOf(s, f);
    n == (if nevents < |p| then nevents else |p|) && PendingOf(t, f) == p[n..] && Emptied(s, t, f, p[..n])
  }

  lemma CopyoutTook(s: State, f: nat, nevents: nat)
    requires PendingOk(s, f) && Sized(s)
    ensures var p := PendingOf(s, f);
      Took(s, Copyout(s, f, nevents), f, nevents, if nevents < |p| then nevents else |p|)
  {
    var p := PendingOf(s, f);
    CopyoutTakes(s, f, nevents);
    assert p[..|p|] == p && p[|p|..] == [];
  }

  class Table {
    var knotes: map<nat, Knote>
    var links: map<(nat, int), Link>
    var table: map<int, seq<nat>>
    var pending: map<nat, seq<nat>>
    var watch: set<int>
    const reserved: bool
    ghost var fired: map<nat, nat>
    ghost var reported: map<nat, nat>

    ghost function View(): State
      reads this
    {
      State(knotes, links, table, pending, watch, reserved, fired, reported)
    }

    constructor (reserved: bool)
      ensures View() == Start(reserved) && Inv(View())
    {
      knotes, links, table, pending, watch := map[], map[], map[], map[], {};
      fired, reported := map[], map[];
      this.reserved := reserved;
      new;
      StartInv(reserved);
    }

    method Insert(k: nat, f: nat, sig: int, watched: bool) returns (rv: int)
      requires k !in knotes
      modifies this
      ensures View() == Create(old(View()), k, f, sig, watched)
      ensures rv == 0 <==> Created(old(View()), sig, watched)
    {
      if sig <= 0 || sig >= SIGNAL_MAX || (reserved && sig == SIGCHLD) {
        return -1;
      }
      var fs := if sig in table then table[sig] else [];
      var first := fs == [];
      if first && !watched {
        return -1;
      }
      var l := if (f, sig) in links then links[(f, sig)] else Link([], []);
      table := table[sig := if f in fs then fs else [f] + fs];
      links := links[(f, sig) := l.(on := [k] + l.on)];
      knotes := knotes[k := Knote(f, sig, 0, false)];
      if first {
        watch := watch + {sig};
      }
      fired, reported := fired[k := 0], reported[k := 0];
      return 0;
    }

    method Erase(k: nat)
      requires k in knotes
      modifies this
      ensures View() == Delete(old(View()), k)
    {
      var n := knotes[k];
      var l := Unlinked(if (n.filt, n.sig) in links then links[(n.filt, n.sig)] else Link([], []), k);
      var fs := if n.sig in table then table[n.sig] else [];
      if l == Link([], []) {
        fs := Drop(fs, n.filt);
      }
      links := links[(n.filt, n.sig) := l];
      table := table[n.sig := fs];
      pending := pending[n.filt := Drop(if n.filt in pending then pending[n.filt] else [], k)];
      if fs == [] {
        watch := watch - {n.sig};
      }
      knotes := knotes - {k};
      fired, reported := fired - {k}, reported - {k};
    }

    method MoveOn(k: nat) returns (wake: bool)
      requires k in knotes
      modifies `links, `pending
      ensures View() == Enable(old(View()), k)
      ensures wake <==> old(knotes)[k].count > 0 && k !in PendingOf(old(View()), old(knotes)[k].filt)
    {
      var n := knotes[k];
      var l := Unlinked(if (n.filt, n.sig) in links then links[(n.filt, n.sig)] else Link([], []), k);
      var p := if n.filt in pending then pending[n.filt] else [];
      links := links[(n.filt, n.sig) := l.(on := [k] + l.on)];
      wake := n.count > 0 && k !in p;
      if n.count > 0 {
        pending := pending[n.filt := if k in p then p else [k] + p];
      }
    }

    method MoveOff(k: nat)
      requires k in knotes
      modifies `links, `pending
      ensures View() == Disable(old(View()), k)
    {
      var n := knotes[k];
      var l := Unlinked(if (n.filt, n.sig) in links then links[(n.filt, n.sig)] else Link([], []), k);
      links := links[(n.filt, n.sig) := l.(off := [k] + l.off)];
      pending := pending[n.filt := Drop(if n.filt in pending then pending[n.filt] else [], k)];
    }

    /** evfilt_signal_knote_create: the first knote of a signum, in any filter,
        asks the platform to watch it, and is backed out if that fails. */
    method KnCreate(k: nat, f: nat, sig: int, watched: bool) returns (rv: int)
      requires Core(View()) && k !in knotes
      modifies this
      ensures Core(View()) && (Inv(old(View())) ==> Inv(View()))
      ensures View() == Create(old(View()), k, f, sig, watched) && (rv == 0 <==> Created(old(View()), sig, watched))
    {
      StepKeeps(View(), New(k, f, sig, watched));
      rv := Insert(k, f, sig, watched);
    }

    /** evfilt_signal_knote_delete: off its list and the pending list; the last
        knote of a signum stops the watch. */
    method KnDelete(k: nat)
      requires Core(View()) && k in knotes
      modifies this
      ensures Core(View()) && (Inv(old(View())) ==> Inv(View())) && View() == Delete(old(View()), k)
    {
      StepKeeps(View(), Remove(k));
      Erase(k);
    }

    /** evfilt_signal_knote_enable: fires counted while it was off become pending. */
    method KnEnable(k: nat) returns (wake: bool)
      requires Core(View()) && k in knotes
      modifies `links, `pending
      ensures Core(View()) && (Inv(old(View())) ==> Inv(View())) && View() == Enable(old(View()), k)
      ensures wake <==> old(knotes)[k].count > 0 && k !in PendingOf(old(View()), old(knotes)[k].filt)
    {
      EnableKeeps(View(), k);
      wake := MoveOn(k);
    }

    /** evfilt_signal_knote_disable: the counter is kept. */
    method KnDisable(k: nat)
      requires Core(View()) && k in knotes
      modifies `links, `pending
      ensures Core(View()) && (Inv(old(View())) ==> Inv(View())) && View() == Disable(old(View()), k)
    {
      DisableKeeps(View(), k);
      MoveOff(k);
    }

    /** The enabled list: count, and join the pending list at its head.  The
        filter is woken exactly when a knote joined. */
    method WalkEnabled(f: nat, ks: seq<nat>) returns (wake: bool)
      modifies `knotes, `pending, `fired
      ensures knotes == BumpAll(old(knotes), ks) && fired == Count(old(fired), ks)
      ensures pending == old(pending)[f := PendAll(PendingOf(old(View()), f), ks)]
      ensures wake <==> exists k :: k in ks && k !in PendingOf(old(View()), f)
    {
      wake := false;
      var p := if f in pending then pending[f] else [];
      ghost var p0 := p;
      for i := 0 to |ks|
        invariant BumpAll(knotes, ks[i..]) == BumpAll(old(knotes), ks)
        invariant Count(fired, ks[i..]) == Count(old(fired), ks)
        invariant PendAll(p, ks[i..]) == PendAll(p0, ks)
        invariant Joined(p0, ks[..i], p, wake)
        invariant pending == old(pending)
      {
        var k := ks[i];
        WalkOn(knotes, fired, ks, i);
        PendOn(p, ks, i);
        JoinOn(p0, ks[..i], p, wake, k);
        CountFire(k);
        if k !in p {
          p := [k] + p;
          wake := true;
        }
      }
      assert ks[..|ks|] == ks;
      pending := pending[f := p];
    }

    method WalkDisabled(ks: seq<nat>)
      modifies `knotes, `fired
      ensures knotes == BumpAll(old(knotes), ks) && fired == Count(old(fired), ks)
    {
      for i := 0 to |ks|
        invariant BumpAll(knotes, ks[i..]) == BumpAll(old(knotes), ks)
        invariant Count(fired, ks[i..]) == Count(old(fired), ks)
      {
        WalkOn(knotes, fired, ks, i);
        CountFire(ks[i]);
      }
    }

    /** kn_signal_count++ */
    method CountFire(k: nat)
      modifies `knotes, `fired
      ensures knotes == Bump(old(knotes), k)
      ensures fired == if k in old(fired) then old(fired)[k := old(fired)[k] + 1] else old(fired)
    {
      if k in knotes {
        knotes := knotes[k := More(knotes[k])];
      }
      fired := if k in fired then fired[k := fired[k] + 1] else fired;
    }

    method HandleLink(f: nat, sig: int) returns (wake: bool)
      modifies `knotes, `pending, `fired
      ensures View() == DispatchLink(old(View()), f, sig)
      ensures wake <==> Wakes(old(View()), f, sig)
    {
      var l := if (f, sig) in links then links[(f, sig)] else Link([], []);
      wake := WalkEnabled(f, l.on);
      WalkDisabled(l.off);
    }

    method WalkLinks(sig: int) returns (woken: seq<nat>)
      modifies `knotes, `pending, `fired
      ensures View() == Dispatch(old(View()), sig)
      ensures woken == if 0 < sig < SIGNAL_MAX then Woken(old(View()), TableOf(old(View()), sig), sig) else []
    {
      woken := [];
      if sig <= 0 || sig >= SIGNAL_MAX {
        return;
      }
      var fs := if sig in table then table[sig] else [];
      for i := 0 to |fs|
        invariant DispatchAll(View(), fs[i..], sig) == Dispatch(old(View()), sig)
        invariant woken + Woken(View(), fs[i..], sig) == Woken(old(View()), fs, sig)
      {
        WokenNext(woken, View(), fs, i, sig);
        var wake := HandleLink(fs[i], sig);
        if wake {
          woken := woken + [fs[i]];
        }
      }
    }

    /** sig_dispatch_handle */
    method Handle(sig: int) returns (woken: seq<nat>)
      requires Core(View())
      modifies `knotes, `pending, `fired
      ensures Core(View()) && (Inv(old(View())) && Room(old(View()), sig) ==> Inv(View()))
      ensures View() == Dispatch(old(View()), sig)
      ensures woken == if 0 < sig < SIGNAL_MAX then Woken(old(View()), TableOf(old(View()), sig), sig) else []
    {
      StepKeeps(View(), Fire(sig));
      woken := WalkLinks(sig);
    }

    /** The walk itself: the first nevents of p are filled in and zeroed. */
    method Emit(p: seq<nat>, nevents: nat) returns (dst: seq<Kevent>, left: seq<nat>)
      requires Distinct(p) && forall k :: k in p ==> k in knotes
      modifies `knotes
      ensures |dst| == if nevents < |p| then nevents else |p|
      ensures left == p[|dst|..] && knotes == Zero(old(knotes), p[..|dst|])
      ensures forall i :: 0 <= i < |dst| ==> dst[i] == Kevent(p[i], old(knotes)[p[i]].sig, old(knotes)[p[i]].count)
    {
      ghost var n := if nevents < |p| then nevents else |p|;
      left := p;
      dst := [];
      while left != [] && |dst| < nevents
        invariant |dst| <= n && left == p[|dst|..]
        invariant Zero(knotes, p[|dst|..n]) == Zero(old(knotes), p[..n])
        invariant knotes.Keys == old(knotes).Keys
        invariant forall i :: |dst| <= i < |p| ==> knotes[p[i]] == old(knotes)[p[i]]
        invariant forall i :: 0 <= i < |dst| ==> dst[i] == Kevent(p[i], old(knotes)[p[i]].sig, old(knotes)[p[i]].count)
        decreases |left|
      {
        ghost var i := |dst|;
        var k := left[0];
        assert p[i..n][1..] == p[i + 1..n] && k == p[i];
        dst := dst + [Kevent(k, knotes[k].sig, knotes[k].count)];
        left := left[1..];
        knotes := knotes[k := knotes[k].(count := 0)];
      }
      assert |dst| == n && p[n..n] == [];
    }

    method TakePending(f: nat, nevents: nat) returns (dst: seq<Kevent>)
      requires PendingOk(View(), f)
      modifies `knotes, `pending, `reported
      ensures View() == Copyout(old(View()), f, nevents)
      ensures var p := PendingOf(old(View()), f); |dst| == if nevents < |p| then nevents else |p|
      ensures forall i :: 0 <= i < |dst| ==>
        var k := PendingOf(old(View()), f)[i];
        k in old(knotes) && dst[i] == Kevent(k, old(knotes)[k].sig, old(knotes)[k].count)
    {
      var p := if f in pending then pending[f] else [];
      var left;
      dst, left := Emit(p, nevents);
      pending := pending[f := left];
      reported := ReportAll(reported, old(knotes), p[..|dst|]);
    }

    /** evfilt_signal_copyout, the part under sigtbl_mtx. */
    method CopyOut(f: nat, nevents: nat) returns (dst: seq<Kevent>)
      requires Core(View())
      modifies `knotes, `pending, `reported
      ensures Core(View()) && (Inv(old(View())) ==> Inv(View())) && View() == Copyout(old(View()), f, nevents)
      ensures Took(old(View()), View(), f, nevents, |dst|)
      ensures forall i :: 0 <= i < |dst| ==>
        var k := PendingOf(old(View()), f)[i];
        k in old(knotes) && dst[i] == Kevent(k, old(knotes)[k].sig, old(knotes)[k].count)
    {
      CopyoutKeeps(View(), f, nevents);
      assert PendingOk(View(), f);
      CopyoutTook(View(), f, nevents);
      dst := TakePending(f, nevents);
    }
  }
}
