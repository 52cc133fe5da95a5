/** Deadlines of EVFILT_TIMER (src/posix/timer.c): timespecs, the comparator and
    the integer key it amounts to, registration, and what the catch-up loop counts.
    TimerQueue holds the queue itself.  The clocks are parameters. */
module Timers {
  import opened Lists

  const NSEC: int := 1_000_000_000

  // ----- timespecs ---------------------------------------------------------------------

  datatype Ts = Ts(sec: int, nsec: int)

  predicate Norm(t: Ts) {
    0 <= t.nsec < NSEC
  }

  function Ns(t: Ts): int {
    t.sec * NSEC + t.nsec
  }

  function FromNs(ns: int): (t: Ts)
    ensures Norm(t) && Ns(t) == ns
  {
    Ts(ns / NSEC, ns % NSEC)
  }

  predicate Lt(a: Ts, b: Ts) {
    if a.sec != b.sec then a.sec < b.sec else a.nsec < b.nsec
  }

  function AddNs(t: Ts, ns: nat): Ts {
    var s, n := t.sec + ns / NSEC, t.nsec + ns % NSEC;
    if n >= NSEC then Ts(s + 1, n - NSEC) else Ts(s, n)
  }

  lemma LtIsNs(a: Ts, b: Ts)
    requires Norm(a) && Norm(b)
    ensures Lt(a, b) <==> Ns(a) < Ns(b)
    ensures a == b <==> Ns(a) == Ns(b)
  {
  }

  lemma AddNsExact(t: Ts, ns: nat)
    requires Norm(t)
    ensures AddNs(t, ns) == FromNs(Ns(t) + ns)
  {
    LtIsNs(AddNs(t, ns), FromNs(Ns(t) + ns));
  }

  // ----- the order of the tree -----------------------------------------------------------

  const ADDRESSES: nat := 0x1_0000_0000_0000_0000

  /** posix_timer_cmp: the deadline, then the address of the timer. */
  function Cmp(a: Ts, x: int, b: Ts, y: int): int {
    if Lt(a, b) then -1 else if Lt(b, a) then 1 else if x < y then -1 else if x > y then 1 else 0
  }

  /** An integer key with the same order, as RbTree uses. */
  function Key(a: Ts, x: int): int {
    Ns(a) * ADDRESSES + x
  }

  lemma CmpIsKey(a: Ts, x: int, b: Ts, y: int)
    requires Norm(a) && Norm(b) && 0 <= x < ADDRESSES && 0 <= y < ADDRESSES
    ensures Cmp(a, x, b, y) < 0 <==> Key(a, x) < Key(b, y)
    ensures Cmp(a, x, b, y) == 0 <==> Key(a, x) == Key(b, y)
    ensures Cmp(a, x, b, y) == 0 <==> a == b && x == y
  {
    LtIsNs(a, b);
    LtIsNs(b, a);
    Spread(Ns(a), x, Ns(b), y);
    Spread(Ns(b), y, Ns(a), x);
  }

  lemma Spread(m: int, x: nat, n: int, y: nat)
    requires x < ADDRESSES && y < ADDRESSES
    ensures m < n ==> m * ADDRESSES + x < n * ADDRESSES + y
  {
  }

  // ----- timers -----------------------------------------------------------------------------

  /** fires: fire_count, an unsigned int. */
  datatype Timer = Timer(next: Ts, interval: nat, oneshot: bool, absolute: bool, fires: nat)

  /** Fires once and leaves the tree. */
  predicate Stops(t: Timer) {
    t.oneshot || t.absolute || t.interval == 0
  }

  predicate Due(t: Timer, now: Ts) {
    !Lt(now, t.next)
  }

  /** Deadlines from next to now, both included, one every interval. */
  function Missed(next: int, interval: nat, now: int): nat
    requires interval > 0 && next <= now
  {
    (now - next) / interval + 1
  }

  /** What posix_timer_check makes of a due timer. */
  function Fired(t: Timer, now: Ts): Timer
    requires Norm(t.next) && Norm(now) && Due(t, now)
  {
    if Stops(t) then t.(next := Ts(now.sec + NSEC, 0), fires := (t.fires + 1) % WRAP)
    else
      LtIsNs(now, t.next);
      var m := Missed(Ns(t.next), t.interval, Ns(now));
      t.(next := FromNs(Ns(t.next) + m * t.interval), fires := (t.fires + m) % WRAP)
  }

  /** The deadline j intervals after the next one, in nanoseconds. */
  ghost function Deadline(t: Timer, j: nat): int {
    Ns(t.next) + j * t.interval
  }

  /** m deadlines of the due timer t have passed.  One that stops has only one. */
  ghost predicate Elapsed(t: Timer, now: Ts, m: nat) {
    if Stops(t) then m == 1 else forall j: nat :: Deadline(t, j) <= Ns(now) <==> j < m
  }

  /** r is t after it counted one fire for each deadline passed, modulo the width of
      the counter; its deadline is after now, the next of its class if it goes on and
      NSEC seconds away if it stops. */
  ghost predicate Gained(t: Timer, r: Timer, now: Ts) {
    exists m: nat :: Elapsed(t, now, m) &&
      r == t.(next := r.next, fires := (t.fires + m) % WRAP) && Lt(now, r.next) &&
      (Stops(t) ==> r.next == Ts(now.sec + NSEC, 0)) &&
      (!Stops(t) ==> Ns(r.next) == Deadline(t, m) <= Ns(now) + t.interval)
  }

  /** One fire is counted for each deadline passed, none is lost exactly while the
      counter has room, and the new deadline is the first of its class after now. */
  lemma FiredExact(t: Timer, now: Ts)
    requires Norm(t.next) && Norm(now) && Due(t, now) && t.fires < WRAP
    ensures var r, m := Fired(t, now), if Stops(t) then 1 else (Ns(now) - Ns(t.next)) / t.interval + 1;
      && Elapsed(t, now, m) && Gained(t, r, now) && Norm(r.next)
      && (r.fires == t.fires + m <==> t.fires + m < WRAP)
  {
    FiredLater(t, now);
    if Stops(t) {
      assert Elapsed(t, now, 1);
    } else {
      FiredPeriodic(t, now);
    }
  }

  lemma FiredPeriodic(t: Timer, now: Ts)
    requires Norm(t.next) && Norm(now) && Due(t, now) && !Stops(t) && t.fires < WRAP && Lt(now, Fired(t, now).next)
    ensures var r, m := Fired(t, now), (Ns(now) - Ns(t.next)) / t.interval + 1;
      && m >= 0 && Elapsed(t, now, m) && Gained(t, r, now)
      && (r.fires == t.fires + m <==> t.fires + m < WRAP)
  {
    LtIsNs(now, t.next);
    var d, i := Ns(now) - Ns(t.next), t.interval;
    var m := d / i + 1;
    forall j: nat ensures Deadline(t, j) <= Ns(now) <==> j < m {
      Passed(j, d, i);
    }
    assert Elapsed(t, now, m);
    Room(t.fires, m);
    Beyond(d, i);
  }

  lemma Beyond(d: nat, i: nat)
    requires i > 0
    ensures (d / i + 1) * i <= d + i
  {
    assert d == d / i * i + d % i;
    assert (d / i + 1) * i == d / i * i + i;
  }

  lemma Room(fires: nat, m: nat)
    requires fires < WRAP
    ensures (fires + m) % WRAP == fires + m <==> fires + m < WRAP
  {
  }

  lemma Multiples(j: nat, q: nat, i: nat, d: int)
    requires i > 0 && q * i <= d < q * i + i
    ensures j * i <= d <==> j < q + 1
  {
    if j <= q {
      Monotone(j, q, i);
    } else {
      Monotone(q + 1, j, i);
    }
  }

  lemma {:induction false} Monotone(a: nat, b: nat, i: nat)
    requires a <= b
    ensures a * i <= b * i
    decreases b
  {
    if a < b {
      Monotone(a, b - 1, i);
      assert b * i == (b - 1) * i + i;
    }
  }

  /** The deadline m intervals on. */
  ghost function Nth(t: Timer, m: nat): (r: Ts)
    ensures Norm(r)
  {
    FromNs(Ns(t.next) + m * t.interval)
  }

  lemma NthNext(t: Timer, m: nat)
    requires Norm(t.next)
    ensures Nth(t, 0) == t.next && AddNs(Nth(t, m), t.interval) == Nth(t, m + 1)
  {
    LtIsNs(t.next, Nth(t, 0));
    AddNsExact(Nth(t, m), t.interval);
    assert m * t.interval + t.interval == (m + 1) * t.interval;
  }

  lemma NthPassed(t: Timer, m: nat, now: Ts)
    requires Norm(t.next) && Norm(now) && Due(t, now) && !Stops(t)
    ensures Ns(t.next) <= Ns(now) && (Lt(now, Nth(t, m)) <==> m >= Missed(Ns(t.next), t.interval, Ns(now)))
  {
    LtIsNs(now, t.next);
    LtIsNs(now, Nth(t, m));
    Passed(m, Ns(now) - Ns(t.next), t.interval);
  }

  lemma Passed(m: nat, d: nat, i: nat)
    requires i > 0
    ensures m * i <= d <==> m < d / i + 1
  {
    assert d == d / i * i + d % i;
    Multiples(m, d / i, i, d);
  }

  lemma FiredLater(t: Timer, now: Ts)
    requires Norm(t.next) && Norm(now) && Due(t, now)
    ensures Norm(Fired(t, now).next) && Lt(now, Fired(t, now).next)
  {
    if !Stops(t) {
      LtIsNs(now, t.next);
      var m := Missed(Ns(t.next), t.interval, Ns(now));
      NthPassed(t, m, now);
      assert Fired(t, now).next == Nth(t, m);
    }
  }

  // ----- registration ------------------------------------------------------------------------

  datatype Unit = Nanos | Micros | Millis | Secs

  function ToNs(data: int, unit: Unit): int {
    match unit
    case Nanos => data
    case Micros => data * 1000
    case Millis => data * 1_000_000
    case Secs => data * NSEC
  }

  function AtLeast(low: nat, x: int): nat {
    if x < low then low else x
  }

  /** timer_alloc: a relative timer counts from the monotonic clock, an absolute
      one from the distance to the wall clock; a negative interval is refused. */
  function Alloc(data: int, unit: Unit, oneshot: bool, absolute: bool, mono: Ts, wall: Ts): Option<Timer> {
    if absolute then Some(Timer(AddNs(mono, AtLeast(0, ToNs(data, unit) - Ns(wall))), 0, oneshot, true, 0))
    else if data < 0 then None
    else
      var ns := AtLeast(1, ToNs(data, unit));
      Some(Timer(AddNs(mono, ns), if oneshot then 0 else ns, oneshot, false, 0))
  }

  /** A timer that does not stop has a positive interval and a first deadline one
      interval away; an absolute one is never due before its wall-clock time. */
  lemma AllocExact(data: int, unit: Unit, oneshot: bool, absolute: bool, mono: Ts, wall: Ts)
    requires Norm(mono)
    ensures var r := Alloc(data, unit, oneshot, absolute, mono, wall);
      && (r.None? <==> !absolute && data < 0)
      && (r.Some? ==>
            && Norm(r.value.next) && (Stops(r.value) <==> oneshot || absolute) && r.value.fires == 0
            && r.value.oneshot == oneshot && r.value.absolute == absolute
            && (!absolute ==> Ns(r.value.next) == Ns(mono) + AtLeast(1, ToNs(data, unit)))
            && (!Stops(r.value) ==> Ns(r.value.next) == Ns(mono) + r.value.interval)
            && (absolute ==> Ns(r.value.next) - Ns(mono) == AtLeast(0, ToNs(data, unit) - Ns(wall))))
  {
    AddNsExact(mono, AtLeast(0, ToNs(data, unit) - Ns(wall)));
    AddNsExact(mono, AtLeast(1, ToNs(data, unit)));
  }

  /** A thousand of one unit are one of the next; the smallest is the nanosecond. */
  lemma UnitLaws(d: int)
    ensures ToNs(d, Nanos) == d
    ensures ToNs(1000 * d, Nanos) == ToNs(d, Micros) && ToNs(1000 * d, Micros) == ToNs(d, Millis)
    ensures ToNs(1000 * d, Millis) == ToNs(d, Secs) && ToNs(d, Secs) == d * NSEC
  {
  }

  /** A timer of one nanosecond, looked at five seconds later: of five thousand
      million fires fewer than a thousand million are left. */
  lemma FiresLost() returns (t: Timer)
    ensures Alloc(1, Nanos, false, false, Ts(0, 0), Ts(0, 0)) == Some(t) && Due(t, Ts(5, 0))
    ensures Fired(t, Ts(5, 0)).fires == 705_032_704 && Missed(Ns(t.next), t.interval, Ns(Ts(5, 0))) == 5_000_000_000
  {
    t := Timer(Ts(0, 1), 1, false, false, 0);
    assert (5_000_000_000 - 1) / 1 == 5_000_000_000 - 1;
  }
}
