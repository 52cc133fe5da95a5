/** What happens to the reclamation of udatas (src/linux/platform.c) when the epoch
    counter wraps: the caller that gets epoch 0 can have a udata freed under
    another one. */
module EpochWraps {
  import opened Lists
  import opened Epochs

  // ----- the entry that wraps --------------------------------------------------------------

  /** A caller enters, deletes the registration of u and leaves. */
  ghost function Passing(s: Sys, c: nat, u: nat): Sys {
    After(After(After(s, Enter(c)), Delete(c, u)), Exit(c))
  }

  /** That frees a udata in somebody's buffer if and only if the counter wrapped,
      nothing waits ahead of u on the list, and somebody has u. */
  lemma PassingExact(s: Sys, c: nat, u: nat)
    requires Inv(s) && Enabled(s, Enter(c)) && u in s.kernel
    ensures Safe(Passing(s, c, u)) <==> EnterSafe(s.kq) || s.kq.deferred != [] || forall x :: !CanTouch(s, x, u)
  {
    if EnterSafe(s.kq) {
      EnterKeeps(s, c);
      DeleteKeeps(After(s, Enter(c)), c, u);
      ExitKeeps(After(After(s, Enter(c)), Delete(c, u)), c);
      InvIsSafe(Passing(s, c, u));
    } else {
      InvIsSafe(s);
      PassingWraps(s, c, u);
      PassingTouches(s, c, u);
    }
  }

  lemma WrapEnters(s: Sys, c: nat)
    requires Inv(s) && !EnterSafe(s.kq)
    ensures After(s, Enter(c)) ==
      s.(kq := Kq(0, s.kq.inflight + [Caller(c, 0)], s.kq.deferred), held := s.held[c := {}])
  {
    assert Rebased(s.kq) == s.kq;
  }

  lemma {:induction false} LastLeaves(s: seq<Caller>, c: nat, e: nat)
    requires forall i :: 0 <= i < |s| ==> s[i].id != c
    ensures Remove(s + [Caller(c, e)], c) == s
  {
    if s != [] {
      LastLeaves(s[1..], c, e);
      assert (s + [Caller(c, e)])[1..] == s[1..] + [Caller(c, e)];
    }
  }

  /** u is freed at once, or waits behind the others. */
  lemma PassingWraps(s: Sys, c: nat, u: nat)
    requires Inv(s) && Enabled(s, Enter(c)) && !EnterSafe(s.kq)
    ensures var e := Passing(s, c, u);
      && e.kq == Kq(0, s.kq.inflight, if s.kq.deferred == [] then [] else s.kq.deferred + [Stale(u, 0)])
      && e.kernel == s.kernel - {u} && e.held == s.held[c := {}] - {c}
      && e.freed == if s.kq.deferred == [] then s.freed + [u] else s.freed
  {
    WrapEnters(s, c);
    assert forall i :: 0 <= i < |s.kq.inflight| ==> InFlight(s.kq, s.kq.inflight[i].id);
    LastLeaves(s.kq.inflight, c, 0);
    var k := Kq(0, s.kq.inflight, s.kq.deferred + [Stale(u, 0)]);
    if s.kq.deferred == [] {
      assert k.deferred == [Stale(u, 0)] && SweepCount(k) == 1;
      assert Names(k.deferred[..1]) == [u] && k.deferred[1..] == [];
    } else {
      assert k.deferred[0] == s.kq.deferred[0] && SweepCount(k) == 0;
      assert Names(k.deferred[..0]) == [] && s.freed + [] == s.freed;
    }
  }

  lemma PassingTouches(s: Sys, c: nat, u: nat)
    requires Inv(s) && Safe(s) && Enabled(s, Enter(c)) && !EnterSafe(s.kq) && u in s.kernel
    ensures Safe(Passing(s, c, u)) <==> s.kq.deferred != [] || forall x :: !CanTouch(s, x, u)
  {
    var e := Passing(s, c, u);
    PassingWraps(s, c, u);
    assert forall x, v :: CanTouch(e, x, v) <==> CanTouch(s, x, v);
    if s.kq.deferred == [] {
      assert e.freed[|s.freed|] == u;
    } else {
      assert Names(e.kq.deferred) == Names(s.kq.deferred) + [u];
      assert Names(e.kq.deferred)[|s.kq.deferred|] == u;
    }
  }

  // ----- it can always come to that -------------------------------------------------------

  /** p survives every step, wrapping ones included. */
  ghost predicate Closed(p: Sys -> bool) {
    forall s, a :: p(s) && Enabled(s, a) ==> p(After(s, a))
  }

  /** One caller stays inside since epoch e while the counter runs up to n. */
  ghost function Parked(s: Sys, e: nat, n: nat): Sys {
    s.(kq := Kq(n, [Caller(0, e)], []), held := map[0 := {}])
  }

  /** Another one entered at n. */
  ghost function Doubled(s: Sys, e: nat, n: nat): Sys {
    s.(kq := Kq(n, [Caller(0, e), Caller(1, n)], []), held := map[0 := {}, 1 := {}])
  }

  lemma DoubledLeaves(s: Sys, e: nat, n: nat)
    ensures Enabled(Doubled(s, e, n), Exit(1)) && After(Doubled(s, e, n), Exit(1)) == Parked(s, e, n)
  {
    var d := Doubled(s, e, n);
    LastLeaves([Caller(0, e)], 1, n);
    assert [Caller(0, e)] + [Caller(1, n)] == d.kq.inflight;
    assert d.held - {1} == map[0 := {}];
    assert SweepCount(Kq(n, [Caller(0, e)], [])) == 0 && s.freed + [] == s.freed;
  }

  lemma ParkedEnters(s: Sys, e: nat, n: nat)
    requires n < UINT64_MAX
    ensures Enabled(Parked(s, e, n), Enter(1)) && After(Parked(s, e, n), Enter(1)) == Doubled(s, e, n + 1)
  {
    assert [Caller(0, e)] + [Caller(1, n + 1)] == [Caller(0, e), Caller(1, n + 1)];
  }

  /** At the limit the rebase makes room, and the caller inside is moved to epoch 1. */
  lemma ParkedRebases(s: Sys, e: nat)
    requires 1 < e <= UINT64_MAX
    ensures Enabled(Parked(s, e, UINT64_MAX), Enter(1))
    ensures After(Parked(s, e, UINT64_MAX), Enter(1)) == Doubled(s, 1, UINT64_MAX - e + 2)
  {
    var r := Rebased(Parked(s, e, UINT64_MAX).kq);
    assert r == Kq(UINT64_MAX - e + 1, [Caller(0, 1)], []);
    assert r.inflight + [Caller(1, UINT64_MAX - e + 2)] == [Caller(0, 1), Caller(1, UINT64_MAX - e + 2)];
  }

  lemma {:induction false} RunUp(p: Sys -> bool, s: Sys, e: nat, m: nat, n: nat)
    requires Closed(p) && p(Parked(s, e, m)) && m <= n <= UINT64_MAX
    ensures p(Parked(s, e, n))
    decreases n - m
  {
    if m < n {
      ParkedEnters(s, e, m);
      DoubledLeaves(s, e, m + 1);
      RunUp(p, s, e, m + 1, n);
    }
  }

  lemma RunToLimit(p: Sys -> bool, s: Sys, e: nat)
    requires Closed(p) && 1 <= e <= UINT64_MAX && p(Parked(s, e, e))
    ensures p(Parked(s, 1, UINT64_MAX))
  {
    RunUp(p, s, e, e, UINT64_MAX);
    if e > 1 {
      ParkedRebases(s, e);
      DoubledLeaves(s, 1, UINT64_MAX - e + 2);
      RunUp(p, s, 1, UINT64_MAX - e + 2, UINT64_MAX);
    }
  }

  lemma FirstShrinks(s: seq<Caller>)
    requires s != []
    ensures Remove(s, s[0].id) == s[1..]
  {
  }

  /** Everybody leaves. */
  lemma {:induction false} LeaveAll(p: Sys -> bool, s: Sys) returns (r: Sys)
    requires Closed(p) && p(s) && Inv(s)
    ensures p(r) && Inv(r) && r.kq.inflight == []
    decreases |s.kq.inflight|
  {
    if s.kq.inflight == [] {
      r := s;
    } else {
      var c := s.kq.inflight[0].id;
      assert InFlight(s.kq, c);
      ExitKeeps(s, c);
      FirstShrinks(s.kq.inflight);
      r := LeaveAll(p, After(s, Exit(c)));
    }
  }

  /** One caller enters an idle kqueue and stays until the counter is at its end. */
  lemma ParkOne(p: Sys -> bool, s: Sys)
    requires Closed(p) && p(s) && Inv(s) && s.kq.inflight == []
    ensures p(Parked(s, 1, UINT64_MAX)) && Inv(Parked(s, 1, UINT64_MAX))
  {
    NobodyWaits(s);
    EnterKeeps(s, 0);
    var e := After(s, Enter(0)).kq.next;
    assert After(s, Enter(0)) == Parked(s, e, e);
    RunToLimit(p, s, e);
    ParkedInv(s);
  }

  lemma ParkedInv(s: Sys)
    requires Inv(s) && s.kq.deferred == []
    ensures Inv(Parked(s, 1, UINT64_MAX))
  {
    var q := Parked(s, 1, UINT64_MAX);
    assert Names(q.kq.deferred) == Names(s.kq.deferred);
    assert q.kq.inflight[0].id == 0 && InFlight(q.kq, 0);
    assert forall c :: InFlight(q.kq, c) ==> c == 0;
  }

  lemma NewNumber(s: set<nat>) returns (u: nat)
    ensures u !in s
  {
    u := 0;
    var rest, seen := s, {};
    while u in s
      invariant rest == s - seen && (forall i :: i in seen <==> 0 <= i < u)
      decreases rest
    {
      seen, rest := seen + {u}, rest - {u};
      u := u + 1;
    }
  }

  /** A new udata comes up in the buffer of caller 0. */
  ghost function Reading(s: Sys, u: nat): Sys {
    After(After(s, Register(u)), Wait(0, {u}))
  }

  lemma ReadNew(p: Sys -> bool, s: Sys, u: nat)
    requires Closed(p) && p(s) && Inv(s) && 0 in s.held && u !in s.known
    ensures p(Reading(s, u)) && Inv(Reading(s, u))
  {
    assert Enabled(s, Register(u));
    RegisterKeeps(s, u);
    assert Enabled(After(s, Register(u)), Wait(0, {u}));
    WaitKeeps(After(s, Register(u)), 0, {u});
  }

  lemma PassNext(p: Sys -> bool, s: Sys, c: nat, u: nat)
    requires Closed(p) && p(s) && c !in s.held && u in s.kernel
    ensures p(Passing(s, c, u))
  {
    var a := After(s, Enter(c));
    assert Enabled(s, Enter(c)) && Enabled(a, Delete(c, u));
    assert Enabled(After(a, Delete(c, u)), Exit(c));
  }

  /** ... and the next caller deletes it. */
  lemma WrapUnsafe(p: Sys -> bool, s: Sys) returns (r: Sys)
    requires Closed(p) && p(s) && Inv(s) && s.kq.inflight == []
    ensures p(r) && !Safe(r)
  {
    ParkOne(p, s);
    var u := NewNumber(s.known);
    ReadNew(p, Parked(s, 1, UINT64_MAX), u);
    var a := Reading(Parked(s, 1, UINT64_MAX), u);
    assert CanTouch(a, 0, u);
    PassNext(p, a, 1, u);
    PassingExact(a, 1, u);
    r := Passing(a, 1, u);
  }

  /** s ends some run that goes on from t. */
  ghost predicate Onward(t: seq<Step>, s: Sys) {
    exists r :: t <= r && Legal(r) && End(r) == s
  }

  lemma OnwardStep(t: seq<Step>, s: Sys, a: Step)
    requires Onward(t, s) && Enabled(s, a)
    ensures Onward(t, After(s, a))
  {
    var r :| t <= r && Legal(r) && End(r) == s;
    var r' := r + [a];
    assert r'[..|r'| - 1] == r;
    assert t <= r' && Legal(r') && End(r') == After(s, a);
  }

  /** Every run without a wrap goes on to one that ends with a freed udata in a
      buffer: the condition cannot be dropped from Epochs.RunSafe, wherever the run
      has got to. */
  lemma UnsafeRun(t: seq<Step>) returns (r: seq<Step>)
    requires Legal(t) && NeverWraps(t)
    ensures t <= r && Legal(r) && !Safe(End(r))
  {
    RunSafe(t);
    forall s, a | Onward(t, s) && Enabled(s, a) ensures Onward(t, After(s, a)) {
      OnwardStep(t, s, a);
    }
    var p := (x: Sys) => Onward(t, x);
    assert Onward(t, End(t));
    var s := LeaveAll(p, End(t));
    s := WrapUnsafe(p, s);
    r :| t <= r && Legal(r) && End(r) == s;
  }
}
