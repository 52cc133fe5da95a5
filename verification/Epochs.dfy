/** Epoch-based reclamation of epoll udatas (src/linux/platform.c).

    A thread inside kevent() may hold udata pointers that epoll_wait gave it
    while another thread deletes the registration.  The kqueue therefore keeps
    a list of callers in flight and a list of stale udatas, both stamped from
    one 64-bit counter.  Udatas and callers are named by numbers.
  */
module Epochs {
  import opened Lists

  const UINT64_MAX: nat := 0xFFFF_FFFF_FFFF_FFFF

  datatype Caller = Caller(id: nat, epoch: nat)
  datatype Stale = Stale(ud: nat, boundary: nat)

  /** kq_next_epoch, kq_inflight and ud_deferred_free. */
  datatype Kq = Kq(next: nat, inflight: seq<Caller>, deferred: seq<Stale>)

  // ----- the five operations, as functions of the kqueue -----------------------------

  function DeferFree(k: Kq, u: nat): Kq {
    k.(deferred := k.deferred + [Stale(u, k.next)])
  }

  predicate Eligible(k: Kq, d: Stale) {
    k.inflight == [] || d.boundary < k.inflight[0].epoch
  }

  /** How many udatas the head-only sweep takes off the list. */
  function SweepCount(k: Kq): (n: nat)
    ensures n <= |k.deferred|
    ensures forall i :: 0 <= i < n ==> Eligible(k, k.deferred[i])
    ensures n < |k.deferred| ==> !Eligible(k, k.deferred[n])
    decreases |k.deferred|
  {
    if k.deferred == [] || !Eligible(k, k.deferred[0]) then 0
    else
      var rest := k.(deferred := k.deferred[1..]);
      assert forall d :: Eligible(rest, d) == Eligible(k, d);
      1 + SweepCount(rest)
  }

  function Swept(k: Kq): Kq {
    k.(deferred := k.deferred[SweepCount(k)..])
  }

  function Base(k: Kq): int {
    if k.inflight != [] then k.inflight[0].epoch - 1 else k.next
  }

  /** The uint64 difference a - b. */
  function Minus(a: nat, b: int): nat {
    (a - b) % (UINT64_MAX + 1)
  }

  function Rebased(k: Kq): Kq {
    var b := Base(k);
    Kq(Minus(k.next, b),
       seq(|k.inflight|, i requires 0 <= i < |k.inflight| => k.inflight[i].(epoch := Minus(k.inflight[i].epoch, b))),
       seq(|k.deferred|, i requires 0 <= i < |k.deferred| =>
             k.deferred[i].(boundary := Minus(k.deferred[i].boundary, b))))
  }

  function Entered(k: Kq, c: nat): Kq {
    var r := if k.next == UINT64_MAX then Rebased(k) else k;
    var e := (r.next + 1) % (UINT64_MAX + 1);
    r.(next := e, inflight := r.inflight + [Caller(c, e)])
  }

  function Remove(s: seq<Caller>, c: nat): seq<Caller> {
    if s == [] then []
    else if s[0].id == c then s[1..]
    else [s[0]] + Remove(s[1..], c)
  }

  function Exited(k: Kq, c: nat): Kq {
    Swept(k.(inflight := Remove(k.inflight, c)))
  }

  // ----- the protocol: every interleaving of the lock regions -------------------------

  /** kernel: registered with epoll, container alive.  freed: the udatas passed
      to free(), in order.  held: what each caller's event buffer points at. */
  datatype Sys = Sys(kq: Kq, kernel: set<nat>, freed: seq<nat>, held: map<nat, set<nat>>, known: set<nat>)

  datatype Step =
    | Register(u: nat)
    | Enter(c: nat)
    | Wait(c: nat, us: set<nat>)
    | Delete(c: nat, u: nat)
    | Exit(c: nat)

  const INIT := Sys(Kq(0, [], []), {}, [], map[], {})

  predicate Enabled(s: Sys, a: Step) {
    match a
    case Register(u) => u !in s.known
    case Enter(c) => c !in s.held
    case Wait(c, us) => c in s.held && us <= s.kernel
    case Delete(c, u) => c in s.held && u in s.kernel
    case Exit(c) => c in s.held
  }

  function Names(d: seq<Stale>): (r: seq<nat>)
    ensures |r| == |d| && forall i :: 0 <= i < |d| ==> r[i] == d[i].ud
  {
    seq(|d|, i requires 0 <= i < |d| => d[i].ud)
  }

  function After(s: Sys, a: Step): Sys {
    match a
    case Register(u) => s.(kernel := s.kernel + {u}, known := s.known + {u})
    case Enter(c) => s.(kq := Entered(s.kq, c), held := s.held[c := {}])
    case Wait(c, us) => s.(held := s.held[c := us])
    case Delete(c, u) => s.(kq := DeferFree(s.kq, u), kernel := s.kernel - {u})
    case Exit(c) =>
      var k := s.kq.(inflight := Remove(s.kq.inflight, c));
      s.(kq := Swept(k), freed := s.freed + Names(k.deferred[..SweepCount(k)]), held := s.held - {c})
  }

  /** What the comments promise: copyout may read every udata it was handed,
      and one that is not stale still has its container. */
  ghost predicate Safe(s: Sys) {
    forall c, u :: CanTouch(s, c, u) ==>
      && u !in s.freed
      && (u !in Names(s.kq.deferred) ==> u in s.kernel)
  }

  // ----- the invariant ------------------------------------------------------------------

  ghost predicate Sorted(k: Kq) {
    && (forall i, j :: 0 <= i < j < |k.inflight| ==> k.inflight[i].epoch < k.inflight[j].epoch)
    && (forall i, j :: 0 <= i < j < |k.deferred| ==> k.deferred[i].boundary <= k.deferred[j].boundary)
  }

  /** Every stale udata waits for the oldest caller; without callers none waits. */
  ghost predicate Bounded(k: Kq) {
    && k.next <= UINT64_MAX
    && (forall i :: 0 <= i < |k.inflight| ==> 1 <= k.inflight[i].epoch <= k.next)
    && (forall i :: 0 <= i < |k.deferred| ==>
          k.inflight != [] && k.inflight[0].epoch <= k.deferred[i].boundary <= k.next)
  }

  ghost predicate DistinctIds(s: seq<Caller>) {
    forall i, j :: 0 <= i < j < |s| ==> s[i].id != s[j].id
  }

  /** Each udata ever registered is in the kernel, waiting, or freed: once. */
  ghost predicate Accounted(s: Sys) {
    && Distinct(Names(s.kq.deferred) + s.freed)
    && (forall u :: u in s.known <==> u in s.kernel || u in Names(s.kq.deferred) || u in s.freed)
    && (forall u :: u in s.kernel ==> u !in Names(s.kq.deferred) && u !in s.freed)
  }

  ghost predicate InFlight(k: Kq, c: nat) {
    exists i :: 0 <= i < |k.inflight| && k.inflight[i].id == c
  }

  /** u is stale and waits for every caller that entered at epoch e or before. */
  ghost predicate WaitsFor(k: Kq, u: nat, e: nat) {
    exists i :: 0 <= i < |k.deferred| && k.deferred[i].ud == u && e <= k.deferred[i].boundary
  }

  /** A pointer in a caller's buffer is registered, or was so when the caller
      was already in flight. */
  ghost predicate Covered(s: Sys) {
    && DistinctIds(s.kq.inflight)
    && (forall c :: c in s.held <==> InFlight(s.kq, c))
    && (forall i, u :: 0 <= i < |s.kq.inflight| && CanTouch(s, s.kq.inflight[i].id, u) ==>
          u in s.kernel || WaitsFor(s.kq, u, s.kq.inflight[i].epoch))
  }

  ghost predicate CanTouch(s: Sys, c: nat, u: nat) {
    c in s.held && u in s.held[c]
  }

  ghost predicate Inv(s: Sys) {
    Sorted(s.kq) && Bounded(s.kq) && Accounted(s) && Covered(s)
  }

  // ----- the sweep ------------------------------------------------------------------------

  /** Stopping at the first udata that must wait loses none: on sorted lists the
      sweep frees exactly the udatas below every epoch in flight. */
  lemma SweepExact(k: Kq, i: nat)
    requires Sorted(k) && i < |k.deferred|
    ensures i < SweepCount(k) <==> forall x :: x in k.inflight ==> k.deferred[i].boundary < x.epoch
  {
    var n := SweepCount(k);
    if k.inflight != [] {
      assert k.inflight[0] in k.inflight;
      if i < n {
        forall x | x in k.inflight ensures k.deferred[i].boundary < x.epoch {
          var j :| 0 <= j < |k.inflight| && k.inflight[j] == x;
          assert Eligible(k, k.deferred[i]);
        }
      }
    }
  }

  // ----- the counter ------------------------------------------------------------------------

  /** kevent() may be entered without the counter wrapping. */
  predicate EnterSafe(k: Kq) {
    k.next < UINT64_MAX || k.inflight == [] || k.inflight[0].epoch > 1
  }

  ghost function Shift(k: Kq): int {
    if k.next == UINT64_MAX then Base(k) else 0
  }

  /** The rebase never underflows: every live value drops by the same amount. */
  lemma RebaseShifts(k: Kq)
    requires Sorted(k) && Bounded(k)
    ensures var r, b := Rebased(k), Base(k);
      && b <= k.next && r.next == k.next - b
      && (forall i :: 0 <= i < |k.inflight| ==>
            b < k.inflight[i].epoch && r.inflight[i].epoch == k.inflight[i].epoch - b)
      && (forall i :: 0 <= i < |k.deferred| ==>
            b < k.deferred[i].boundary && r.deferred[i].boundary == k.deferred[i].boundary - b)
  {
    var b := Base(k);
    assert forall i :: 0 <= i < |k.inflight| ==> b < k.inflight[i].epoch <= k.next;
    assert forall i :: 0 <= i < |k.deferred| ==> b < k.deferred[i].boundary <= k.next;
  }

  /** Entering keeps every comparison: the lists move down by one shift. */
  ghost predicate Shifted(k: Kq, r: Kq, c: nat, b: int) {
    && 0 <= b <= k.next && r.next == k.next - b + 1 <= UINT64_MAX
    && |r.inflight| == |k.inflight| + 1 && r.inflight[|k.inflight|] == Caller(c, r.next)
    && (forall i :: 0 <= i < |k.inflight| ==>
          b < k.inflight[i].epoch && r.inflight[i] == Caller(k.inflight[i].id, k.inflight[i].epoch - b))
    && |r.deferred| == |k.deferred|
    && (forall i :: 0 <= i < |k.deferred| ==>
          b < k.deferred[i].boundary && r.deferred[i] == Stale(k.deferred[i].ud, k.deferred[i].boundary - b))
  }

  lemma EnteredShifts(k: Kq, c: nat)
    requires Sorted(k) && Bounded(k) && EnterSafe(k)
    ensures Shifted(k, Entered(k, c), c, Shift(k))
  {
    RebaseShifts(k);
  }

  // ----- every step keeps the invariant -------------------------------------------------------

  lemma RegisterKeeps(s: Sys, u: nat)
    requires Inv(s) && Enabled(s, Register(u))
    ensures Inv(After(s, Register(u)))
  {
    var s' := After(s, Register(u));
    assert forall c, v :: CanTouch(s', c, v) ==> CanTouch(s, c, v);
  }

  lemma WaitKeeps(s: Sys, c: nat, us: set<nat>)
    requires Inv(s) && Enabled(s, Wait(c, us))
    ensures Inv(After(s, Wait(c, us)))
  {
    var s' := After(s, Wait(c, us));
    assert forall b, v :: CanTouch(s', b, v) ==> v in us || CanTouch(s, b, v);
  }

  lemma EnterKeepsOrder(k: Kq, r: Kq, c: nat, b: int)
    requires Sorted(k) && Bounded(k) && Shifted(k, r, c, b)
    ensures Sorted(r) && Bounded(r)
  {
  }

  lemma EnterAdds(k: Kq, r: Kq, c: nat, b: int, a: nat)
    requires Shifted(k, r, c, b)
    ensures InFlight(r, a) <==> InFlight(k, a) || a == c
  {
    if InFlight(k, a) {
      var i :| 0 <= i < |k.inflight| && k.inflight[i].id == a;
      assert r.inflight[i].id == a;
    }
  }

  lemma EnterDistinct(k: Kq, r: Kq, c: nat, b: int)
    requires Shifted(k, r, c, b) && DistinctIds(k.inflight) && !InFlight(k, c)
    ensures DistinctIds(r.inflight)
  {
    assert forall i :: 0 <= i < |k.inflight| ==> k.inflight[i].id == r.inflight[i].id != c;
  }

  lemma EnterTouches(s: Sys, s': Sys, c: nat, b: int, i: nat, u: nat)
    requires Covered(s) && Shifted(s.kq, s'.kq, c, b) && c !in s.held
    requires s' == s.(kq := s'.kq, held := s.held[c := {}])
    requires i < |s'.kq.inflight| && CanTouch(s', s'.kq.inflight[i].id, u)
    ensures u in s.kernel || WaitsFor(s'.kq, u, s'.kq.inflight[i].epoch)
  {
    var k := s.kq;
    assert i < |k.inflight| && CanTouch(s, k.inflight[i].id, u);
    if u !in s.kernel {
      EnterWaits(k, s'.kq, c, b, i, u);
    }
  }

  lemma EnterKeepsCover(s: Sys, s': Sys, c: nat, b: int)
    requires Covered(s) && Shifted(s.kq, s'.kq, c, b) && c !in s.held
    requires s' == s.(kq := s'.kq, held := s.held[c := {}])
    ensures Covered(s')
  {
    var k, r := s.kq, s'.kq;
    EnterDistinct(k, r, c, b);
    forall a ensures a in s'.held <==> InFlight(r, a) {
      EnterAdds(k, r, c, b, a);
    }
    forall i, u | 0 <= i < |r.inflight| && CanTouch(s', r.inflight[i].id, u)
      ensures u in s'.kernel || WaitsFor(r, u, r.inflight[i].epoch)
    {
      EnterTouches(s, s', c, b, i, u);
    }
  }

  lemma EnterWaits(k: Kq, r: Kq, c: nat, b: int, i: nat, u: nat)
    requires Shifted(k, r, c, b) && i < |k.inflight| && WaitsFor(k, u, k.inflight[i].epoch)
    ensures WaitsFor(r, u, r.inflight[i].epoch)
  {
    var j :| 0 <= j < |k.deferred| && k.deferred[j].ud == u && k.inflight[i].epoch <= k.deferred[j].boundary;
    assert r.deferred[j].ud == u;
  }

  lemma EnterKeeps(s: Sys, c: nat)
    requires Inv(s) && Enabled(s, Enter(c)) && EnterSafe(s.kq)
    ensures Inv(After(s, Enter(c)))
  {
    var s' := After(s, Enter(c));
    EnteredShifts(s.kq, c);
    EnterKeepsOrder(s.kq, s'.kq, c, Shift(s.kq));
    EnterKeepsCover(s, s', c, Shift(s.kq));
    assert Names(s'.kq.deferred) == Names(s.kq.deferred);
  }

  lemma DeleteKeepsCover(s: Sys, c: nat, u: nat)
    requires Inv(s) && Enabled(s, Delete(c, u))
    ensures Covered(After(s, Delete(c, u)))
  {
    var s' := After(s, Delete(c, u));
    var k, r := s.kq, s'.kq;
    assert r.deferred[|k.deferred|] == Stale(u, k.next);
    assert forall a :: InFlight(k, a) <==> InFlight(r, a);
    forall i, v | 0 <= i < |r.inflight| && CanTouch(s', r.inflight[i].id, v)
      ensures v in s'.kernel || WaitsFor(r, v, r.inflight[i].epoch)
    {
      assert CanTouch(s, k.inflight[i].id, v);
      if v != u && v !in s.kernel {
        var j :| 0 <= j < |k.deferred| && k.deferred[j].ud == v && k.inflight[i].epoch <= k.deferred[j].boundary;
        assert r.deferred[j] == k.deferred[j];
      }
    }
  }

  lemma DeleteKeeps(s: Sys, c: nat, u: nat)
    requires Inv(s) && Enabled(s, Delete(c, u))
    ensures Inv(After(s, Delete(c, u)))
  {
    var s' := After(s, Delete(c, u));
    assert InFlight(s.kq, c);
    DeleteKeepsCover(s, c, u);
    DeleteAccounts(s, c, u);
  }

  lemma DeleteAccounts(s: Sys, c: nat, u: nat)
    requires Inv(s) && Enabled(s, Delete(c, u))
    ensures Accounted(After(s, Delete(c, u)))
  {
    var s' := After(s, Delete(c, u));
    var a, b, f := Names(s.kq.deferred), Names(s'.kq.deferred), s.freed;
    assert b == a + [u];
    assert forall v :: v in b <==> v in a || v == u;
    forall i, j | 0 <= i < j < |b + f| ensures (b + f)[i] != (b + f)[j] {
      assert i < |a| ==> (b + f)[i] == (a + f)[i] && (a + f)[i] in a;
      assert i > |a| ==> (b + f)[i] == (a + f)[i - 1] && (a + f)[i - 1] in f;
      assert j < |a| ==> (b + f)[j] == (a + f)[j] && (a + f)[j] in a;
      assert j > |a| ==> (b + f)[j] == (a + f)[j - 1] && (a + f)[j - 1] in f;
    }
  }

  /** Where the leaving caller stood. */
  lemma {:induction false} RemoveAt(s: seq<Caller>, c: nat) returns (i: nat)
    requires exists i :: 0 <= i < |s| && s[i].id == c
    ensures i < |s| && s[i].id == c && Remove(s, c) == s[..i] + s[i + 1..]
  {
    if s[0].id == c {
      i := 0;
    } else {
      var j :| 0 <= j < |s| && s[j].id == c;
      assert s[1..][j - 1].id == c;
      i := RemoveAt(s[1..], c);
      i := i + 1;
    }
  }

  /** One caller less, the first n stale udatas freed. */
  ghost predicate Dropped(k: Kq, r: Kq, at: nat, n: nat) {
    && r.next == k.next && at < |k.inflight| && |r.inflight| == |k.inflight| - 1
    && (forall j :: 0 <= j < |r.inflight| ==> r.inflight[j] == k.inflight[if j < at then j else j + 1])
    && n <= |k.deferred| && r.deferred == k.deferred[n..]
    && (forall j :: 0 <= j < n ==> r.inflight == [] || k.deferred[j].boundary < r.inflight[0].epoch)
    && (n < |k.deferred| ==> r.inflight != [] && r.inflight[0].epoch <= k.deferred[n].boundary)
  }

  lemma ExitedDrops(k: Kq, c: nat) returns (at: nat, n: nat)
    requires InFlight(k, c)
    ensures Dropped(k, Exited(k, c), at, n) && k.inflight[at].id == c
    ensures n == SweepCount(k.(inflight := Remove(k.inflight, c)))
  {
    at := RemoveAt(k.inflight, c);
    var mid := k.(inflight := Remove(k.inflight, c));
    n := SweepCount(mid);
    assert forall j :: 0 <= j < n ==> Eligible(mid, k.deferred[j]);
    assert n < |k.deferred| ==> !Eligible(mid, k.deferred[n]);
  }

  lemma ExitKeepsOrder(k: Kq, r: Kq, at: nat, n: nat)
    requires Sorted(k) && Bounded(k) && Dropped(k, r, at, n)
    ensures Sorted(r) && Bounded(r)
  {
    assert forall j :: 0 <= j < |r.deferred| ==> r.deferred[j] == k.deferred[n + j];
  }

  lemma ExitKeepsIds(k: Kq, r: Kq, at: nat, n: nat, a: nat)
    requires DistinctIds(k.inflight) && Dropped(k, r, at, n)
    ensures InFlight(r, a) <==> InFlight(k, a) && a != k.inflight[at].id
  {
    if InFlight(k, a) && a != k.inflight[at].id {
      var i :| 0 <= i < |k.inflight| && k.inflight[i].id == a;
      assert r.inflight[if i < at then i else i - 1].id == a;
    }
  }

  /** A udata the sweep took was not held by any caller still in flight. */
  lemma SweepSpares(k: Kq, r: Kq, at: nat, n: nat, i: nat, u: nat)
    requires Sorted(k) && Dropped(k, r, at, n) && i < |r.inflight|
    requires WaitsFor(k, u, r.inflight[i].epoch)
    ensures WaitsFor(r, u, r.inflight[i].epoch)
  {
    var j :| 0 <= j < |k.deferred| && k.deferred[j].ud == u && r.inflight[i].epoch <= k.deferred[j].boundary;
    assert r.inflight[0].epoch <= r.inflight[i].epoch;
    assert r.deferred[j - n] == k.deferred[j];
  }

  lemma ExitKeepsCover(s: Sys, s': Sys, c: nat, at: nat, n: nat)
    requires Sorted(s.kq) && Covered(s) && Dropped(s.kq, s'.kq, at, n) && s.kq.inflight[at].id == c
    requires s'.held == s.held - {c} && s'.kernel == s.kernel
    ensures Covered(s')
  {
    var k, r := s.kq, s'.kq;
    forall a ensures InFlight(r, a) <==> InFlight(k, a) && a != c {
      ExitKeepsIds(k, r, at, n, a);
    }
    forall i, u | 0 <= i < |r.inflight| && CanTouch(s', r.inflight[i].id, u)
      ensures u in s'.kernel || WaitsFor(r, u, r.inflight[i].epoch)
    {
      var x := if i < at then i else i + 1;
      assert k.inflight[x] == r.inflight[i] && CanTouch(s, k.inflight[x].id, u);
      if u !in s.kernel {
        SweepSpares(k, r, at, n, i, u);
      }
    }
  }

  lemma ExitAccounts(s: Sys, s': Sys, n: nat)
    requires Accounted(s) && n <= |s.kq.deferred| && s'.kq.deferred == s.kq.deferred[n..]
    requires s'.freed == s.freed + Names(s.kq.deferred[..n]) && s'.kernel == s.kernel && s'.known == s.known
    ensures Accounted(s')
  {
    var a := Names(s.kq.deferred);
    assert Names(s'.kq.deferred) == a[n..] && s'.freed == s.freed + a[..n];
    RotateDistinct(a, s.freed, n);
    assert a == a[..n] + a[n..];
  }

  lemma ExitKeeps(s: Sys, c: nat)
    requires Inv(s) && Enabled(s, Exit(c))
    ensures Inv(After(s, Exit(c)))
  {
    var s' := After(s, Exit(c));
    var at, n := ExitedDrops(s.kq, c);
    ExitKeepsOrder(s.kq, s'.kq, at, n);
    ExitKeepsCover(s, s', c, at, n);
    ExitAccounts(s, s', n);
  }

  lemma StepKeeps(s: Sys, a: Step)
    requires Inv(s) && Enabled(s, a) && (a.Enter? ==> EnterSafe(s.kq))
    ensures Inv(After(s, a))
  {
    match a
    case Register(u) => RegisterKeeps(s, u);
    case Enter(c) => EnterKeeps(s, c);
    case Wait(c, us) => WaitKeeps(s, c, us);
    case Delete(c, u) => DeleteKeeps(s, c, u);
    case Exit(c) => ExitKeeps(s, c);
  }

  lemma InvIsSafe(s: Sys)
    requires Inv(s)
    ensures Safe(s)
  {
    forall c, u | CanTouch(s, c, u)
      ensures u !in s.freed && (u !in Names(s.kq.deferred) ==> u in s.kernel)
    {
      assert InFlight(s.kq, c);
      var i :| 0 <= i < |s.kq.inflight| && s.kq.inflight[i].id == c;
      if u !in s.kernel {
        var j :| 0 <= j < |s.kq.deferred| && s.kq.deferred[j].ud == u;
        var a := Names(s.kq.deferred);
        assert (a + s.freed)[j] == u;
        assert forall l :: 0 <= l < |s.freed| ==> s.freed[l] == (a + s.freed)[|a| + l];
      }
    }
  }

  // ----- whole runs ---------------------------------------------------------------------------

  ghost function End(t: seq<Step>): Sys {
    if t == [] then INIT else After(End(t[..|t| - 1]), t[|t| - 1])
  }

  ghost predicate Legal(t: seq<Step>) {
    t == [] || (Legal(t[..|t| - 1]) && Enabled(End(t[..|t| - 1]), t[|t| - 1]))
  }

  /** No kevent() is entered 2^64 - 1 entries after the oldest one in flight. */
  ghost predicate NeverWraps(t: seq<Step>) {
    t == [] || (NeverWraps(t[..|t| - 1]) && (t[|t| - 1].Enter? ==> EnterSafe(End(t[..|t| - 1]).kq)))
  }

  /** In every interleaving no caller can touch a freed udata, and a udata that
      is not stale has its container. */
  lemma {:induction false} RunSafe(t: seq<Step>)
    requires Legal(t) && NeverWraps(t)
    ensures Inv(End(t)) && Safe(End(t))
  {
    if t == [] {
      InitInv();
    } else {
      var s, a := End(t[..|t| - 1]), t[|t| - 1];
      RunSafe(t[..|t| - 1]);
      StepKeeps(s, a);
      assert End(t) == After(s, a);
    }
    InvIsSafe(End(t));
  }

  lemma InitInv()
    ensures Inv(INIT)
  {
    assert Names(INIT.kq.deferred) + INIT.freed == [];
    assert forall c :: !InFlight(INIT.kq, c);
  }

  /** The condition is exact: the one entry it excludes breaks the invariant. */
  lemma WrapExact(s: Sys, c: nat)
    requires Inv(s) && Enabled(s, Enter(c))
    ensures Inv(After(s, Enter(c))) <==> EnterSafe(s.kq)
  {
    if EnterSafe(s.kq) {
      EnterKeeps(s, c);
    } else {
      RebaseShifts(s.kq);
      assert After(s, Enter(c)).kq.inflight[0].epoch == 1;
    }
  }

  // ----- teardown -------------------------------------------------------------------------------

  /** filter_unregister_all: the udatas of the remaining registrations are deferred
      one by one. */
  ghost function DeferAll(k: Kq, order: seq<nat>): Kq
    decreases |order|
  {
    if order == [] then k else DeferAll(DeferFree(k, order[0]), order[1..])
  }

  /** ... and linux_kqueue_free frees the whole list. */
  ghost function TornDown(s: Sys, order: seq<nat>): Sys {
    var k := DeferAll(s.kq, order);
    s.(kq := k.(deferred := []), kernel := {}, freed := s.freed + Names(k.deferred))
  }

  lemma {:induction false} DeferredInOrder(k: Kq, order: seq<nat>)
    ensures Names(DeferAll(k, order).deferred) == Names(k.deferred) + order
    ensures DeferAll(k, order).inflight == k.inflight
    decreases |order|
  {
    if order != [] {
      var k' := DeferFree(k, order[0]);
      DeferredInOrder(k', order[1..]);
      assert Names(k'.deferred) == Names(k.deferred) + [order[0]];
      assert Names(k.deferred) + [order[0]] + order[1..] == Names(k.deferred) + order;
    }
  }

  /** Torn down after any legal run that all callers have left, every udata ever
      registered has been freed exactly once, and none is left. */
  lemma FreedExactlyOnce(t: seq<Step>, order: seq<nat>)
    requires Legal(t) && NeverWraps(t) && End(t).kq.inflight == []
    requires Distinct(order) && forall u :: u in order <==> u in End(t).kernel
    ensures var e := TornDown(End(t), order);
      && Distinct(e.freed) && (forall u :: u in e.freed <==> u in End(t).known)
      && e.kq.deferred == [] && (forall c, u :: !CanTouch(e, c, u))
  {
    RunSafe(t);
    EachFreedOnce(End(t), order);
  }

  lemma EachFreedOnce(s: Sys, order: seq<nat>)
    requires Inv(s) && s.kq.inflight == [] && Distinct(order) && (forall u :: u in order <==> u in s.kernel)
    ensures var e := TornDown(s, order);
      && Distinct(e.freed) && (forall u :: u in e.freed <==> u in s.known)
      && e.kq.deferred == [] && (forall c, u :: !CanTouch(e, c, u))
  {
    NobodyWaits(s);
    DeferredInOrder(s.kq, order);
    var f := s.freed;
    assert Names(s.kq.deferred) == [] && [] + order == order;
    assert TornDown(s, order).freed == f + order;
    assert Names(s.kq.deferred) + f == f;
    JoinDistinct(f, order);
  }

  lemma NobodyWaits(s: Sys)
    requires Inv(s) && s.kq.inflight == []
    ensures s.kq.deferred == [] && s.held == map[]
  {
    assert forall c :: c in s.held <==> InFlight(s.kq, c);
    WaitsForSomebody(s.kq);
  }

  lemma WaitsForSomebody(k: Kq)
    requires Bounded(k)
    ensures k.deferred == [] || k.inflight != []
  {
    if k.deferred != [] {
      assert k.deferred[0].boundary <= k.next;
    }
  }

  // ----- the same protocol on a counter without end ----------------------------------------------

  function EnteredU(k: Kq, c: nat): Kq {
    k.(next := k.next + 1, inflight := k.inflight + [Caller(c, k.next + 1)])
  }

  function AfterU(z: Sys, a: Step): Sys {
    match a
    case Enter(c) => z.(kq := EnteredU(z.kq, c), held := z.held[c := {}])
    case _ => After(z, a)
  }

  ghost function EndU(t: seq<Step>): Sys {
    if t == [] then INIT else AfterU(EndU(t[..|t| - 1]), t[|t| - 1])
  }

  /** z runs d ahead of k; all differences agree. */
  ghost predicate Ahead(k: Kq, z: Kq, d: nat) {
    && z.next == k.next + d
    && |z.inflight| == |k.inflight| && |z.deferred| == |k.deferred|
    && (forall i :: 0 <= i < |k.inflight| ==> z.inflight[i] == Caller(k.inflight[i].id, k.inflight[i].epoch + d))
    && (forall i :: 0 <= i < |k.deferred| ==> z.deferred[i] == Stale(k.deferred[i].ud, k.deferred[i].boundary + d))
  }

  ghost predicate Sim(s: Sys, z: Sys, d: nat) {
    && Ahead(s.kq, z.kq, d)
    && s.kernel == z.kernel && s.freed == z.freed && s.held == z.held && s.known == z.known
  }

  lemma {:induction false} RemoveAhead(a: seq<Caller>, b: seq<Caller>, c: nat, d: nat)
    requires |a| == |b| && forall i :: 0 <= i < |a| ==> b[i] == Caller(a[i].id, a[i].epoch + d)
    ensures var x, y := Remove(a, c), Remove(b, c);
      |x| == |y| && forall i :: 0 <= i < |x| ==> y[i] == Caller(x[i].id, x[i].epoch + d)
  {
    if a != [] && a[0].id != c {
      RemoveAhead(a[1..], b[1..], c, d);
    }
  }

  lemma SweepAhead(k: Kq, z: Kq, d: nat)
    requires Ahead(k, z, d)
    ensures SweepCount(k) == SweepCount(z)
  {
    var m, n := SweepCount(k), SweepCount(z);
    assert forall i :: 0 <= i < |k.deferred| ==> Eligible(k, k.deferred[i]) == Eligible(z, z.deferred[i]);
  }

  lemma SimExit(s: Sys, z: Sys, d: nat, c: nat)
    requires Sim(s, z, d)
    ensures Sim(After(s, Exit(c)), AfterU(z, Exit(c)), d)
  {
    RemoveAhead(s.kq.inflight, z.kq.inflight, c, d);
    var k, y := s.kq.(inflight := Remove(s.kq.inflight, c)), z.kq.(inflight := Remove(z.kq.inflight, c));
    SweepAhead(k, y, d);
    assert Names(k.deferred[..SweepCount(k)]) == Names(y.deferred[..SweepCount(y)]);
  }

  lemma SimStep(s: Sys, z: Sys, d: nat, a: Step) returns (d': nat)
    requires Inv(s) && Sim(s, z, d) && Enabled(s, a) && (a.Enter? ==> EnterSafe(s.kq))
    ensures Enabled(z, a) && Sim(After(s, a), AfterU(z, a), d')
  {
    d' := d;
    match a
    case Enter(c) =>
      EnteredShifts(s.kq, c);
      d' := d + Shift(s.kq);
    case Exit(c) => SimExit(s, z, d, c);
    case _ =>
  }

  /** With the rebase, every run frees what it would free on unbounded counters. */
  lemma {:induction false} RunRefines(t: seq<Step>) returns (d: nat)
    requires Legal(t) && NeverWraps(t)
    ensures Sim(End(t), EndU(t), d)
  {
    d := 0;
    if t != [] {
      d := RunRefines(t[..|t| - 1]);
      RunSafe(t[..|t| - 1]);
      d := SimStep(End(t[..|t| - 1]), EndU(t[..|t| - 1]), d, t[|t| - 1]);
    }
  }
}
