/** The changelist loop of kevent() (kevent_copyin in src/common/kevent.c).

    Both lists live in one array, at any two places: the caller may pass the same
    array twice.  Applying one change (kevent_copyin_one) is a parameter. */
module Copyin {
  import opened Lists

  /** The flags that matter here; body stands for the other fields. */
  datatype Kevent = Kevent(body: int, receipt: bool, error: bool, data: int)

  /** kevent_copyin_one: 1 returns the knote's own kevent, negative an errno. */
  datatype Applied<S> = Applied(state: S, rv: int, errno: int, kev: Kevent)

  type Apply<!S> = (S, Kevent) -> Applied<S>

  /** What the caller sees: the new kqueue, the receipts, the return value. */
  datatype Answer<S> = Answer(state: S, receipts: seq<Kevent>, rv: int)

  datatype Memory<S> = Memory(mem: seq<Kevent>, state: S, rv: int)

  function Receipt(k: Kevent, status: int): Kevent {
    k.(error := true, data := status)
  }

  /** The entry a change produces, if any. */
  function Entry<S>(a: Applied<S>, cl: Kevent): Option<Kevent> {
    if a.rv == 1 then Some(a.kev.(receipt := true))
    else if a.rv < 0 then Some(Receipt(cl, a.errno))
    else if cl.receipt then Some(Receipt(cl, 0))
    else None
  }

  /** The reference: the changes cannot be overwritten while they are read. */
  function Disjoint<S>(f: Apply<S>, s: S, changes: seq<Kevent>, out: seq<Kevent>, m: nat): (r: Answer<S>)
    requires |out| <= m
    ensures out <= r.receipts && |r.receipts| <= m
    decreases |changes|
  {
    if changes == [] then Answer(s, out, |out|)
    else
      var a := f(s, changes[0]);
      var e := Entry(a, changes[0]);
      if e.None? then Disjoint(f, a.state, changes[1..], out, m)
      else if |out| == m then Answer(a.state, out, -1)
      else Disjoint(f, a.state, changes[1..], out + [e.value], m)
  }

  // ----- what the reference answers --------------------------------------------------------

  /** One change: nothing is written for a success without EV_RECEIPT, else the
      change with the status, or the knote's own kevent; without room the answer
      is an error, though the change was applied. */
  lemma OneChange<S>(f: Apply<S>, s: S, cl: Kevent, out: seq<Kevent>, m: nat)
    requires |out| <= m
    ensures var a, r := f(s, cl), Disjoint(f, s, [cl], out, m);
      && r.state == a.state
      && (a.rv != 1 && a.rv >= 0 && !cl.receipt ==> r.receipts == out && r.rv == |out|)
      && (a.rv == 1 || a.rv < 0 || cl.receipt ==> if |out| == m then r.receipts == out && r.rv == -1
          else r.rv == |out| + 1 && |r.receipts| == |out| + 1 && out <= r.receipts)
      && (r.rv > |out| ==>
            var e := r.receipts[|out|];
            && (a.rv == 1 ==> e.receipt && e == Kevent(a.kev.body, true, a.kev.error, a.kev.data))
            && (a.rv < 0 ==> e == Kevent(cl.body, cl.receipt, true, a.errno))
            && (a.rv >= 0 && a.rv != 1 ==> e == Kevent(cl.body, true, true, 0)))
  {
    var a := f(s, cl);
    assert [cl][1..] == [];
  }

  /** A changelist in two parts: the second goes on from the kqueue and the entries
      the first left, unless that one ended without room. */
  lemma {:induction false} TwoParts<S>(f: Apply<S>, s: S, a: seq<Kevent>, b: seq<Kevent>, out: seq<Kevent>, m: nat)
    requires |out| <= m
    ensures var r := Disjoint(f, s, a, out, m);
      Disjoint(f, s, a + b, out, m) == if r.rv < 0 then r else Disjoint(f, r.state, b, r.receipts, m)
    decreases |a|
  {
    if a == [] {
      assert a + b == b;
    } else {
      var x := f(s, a[0]);
      var e := Entry(x, a[0]);
      assert (a + b)[0] == a[0] && (a + b)[1..] == a[1..] + b;
      if e.None? {
        TwoParts(f, x.state, a[1..], b, out, m);
      } else if |out| < m {
        TwoParts(f, x.state, a[1..], b, out + [e.value], m);
      }
    }
  }

  /** The loop over one memory: changelist at c, eventlist at e. */
  function InPlace<S>(f: Apply<S>, s: S, mem: seq<Kevent>, c: nat, i: nat, n: nat, e: nat, w: nat, m: nat)
    : (r: Memory<S>)
    requires i <= n && c + n <= |mem| && w <= m && e + m <= |mem|
    ensures |r.mem| == |mem|
    decreases n - i
  {
    if i == n then Memory(mem, s, w)
    else
      var a := f(s, mem[c + i]);
      var x := Entry(a, mem[c + i]);
      if x.None? then InPlace(f, a.state, mem, c, i + 1, n, e, w, m)
      else if w == m then Memory(mem, a.state, -1)
      else InPlace(f, a.state, mem[e + w := x.value], c, i + 1, n, e, w + 1, m)
  }

  /** kevent_copyin, writing receipts into the array it reads changes from. */
  method CopyIn<S(!new)>(f: Apply<S>, s: S, a: array<Kevent>, c: nat, n: nat, e: nat, m: nat)
    returns (state: S, rv: int)
    requires c + n <= a.Length && e + m <= a.Length
    modifies a
    ensures Memory(a[..], state, rv) == InPlace(f, s, old(a[..]), c, 0, n, e, 0, m)
    ensures Apart(c, n, e, m) ==>
      Same(Memory(a[..], state, rv), Disjoint(f, s, old(a[..])[c..c + n], [], m), old(a[..]), e)
  {
    if Apart(c, n, e, m) {
      AliasSafe(f, s, a[..], c, n, e, m);
    }
    state, rv := Loop(f, s, a, c, n, e, m);
  }

  method Loop<S>(f: Apply<S>, s: S, a: array<Kevent>, c: nat, n: nat, e: nat, m: nat) returns (state: S, rv: int)
    requires c + n <= a.Length && e + m <= a.Length
    modifies a
    ensures Memory(a[..], state, rv) == InPlace(f, s, old(a[..]), c, 0, n, e, 0, m)
  {
    state := s;
    var cl, el := c, e;
    while cl < c + n
      invariant c <= cl <= c + n && e <= el <= e + m
      invariant InPlace(f, s, old(a[..]), c, 0, n, e, 0, m) == InPlace(f, state, a[..], c, cl - c, n, e, el - e, m)
    {
      ghost var before := a[..];
      var r := f(state, a[cl]);
      state := r.state;
      if r.rv == 1 {
        if el == e + m {
          return state, -1;
        }
        a[el] := r.kev.(receipt := true);
        el := el + 1;
      } else if r.rv < 0 || a[cl].receipt {
        if el == e + m {
          return state, -1;
        }
        var status := if r.rv < 0 then r.errno else 0;
        if el != cl {
          a[el] := a[cl];
        }
        a[el] := a[el].(error := true, data := status);
        assert a[..] == before[el := Receipt(before[cl], status)];
        el := el + 1;
      }
      cl := cl + 1;
    }
    rv := el - e;
  }

  /** Receipts only ever land on changes that were read. */
  predicate Apart(c: nat, n: nat, e: nat, m: nat) {
    e <= c || e >= c + n || m == 0
  }

  ghost predicate Same<S(!new)>(r: Memory<S>, d: Answer<S>, mem: seq<Kevent>, e: nat) {
    r.state == d.state && r.rv == d.rv && e + |d.receipts| <= |mem| && r.mem == Patched(mem, e, d.receipts)
  }

  /** The unread changes and what was written so far, one step on. */
  lemma WriteAhead(mem: seq<Kevent>, c: nat, i: nat, n: nat, e: nat, w: nat, m: nat, x: Kevent)
    requires i < n && c + n <= |mem| && w < m && e + m <= |mem| && w <= i && (e <= c || e >= c + n)
    ensures var mem' := mem[e + w := x];
      mem'[c + i + 1..c + n] == mem[c + i + 1..c + n] && mem'[e..e + w + 1] == mem[e..e + w] + [x]
  {
  }

  ghost function Patched(mem: seq<Kevent>, e: nat, out: seq<Kevent>): seq<Kevent>
    requires e + |out| <= |mem|
  {
    mem[..e] + out + mem[e + |out|..]
  }

  lemma PatchNothing(mem: seq<Kevent>, e: nat, w: nat)
    requires e + w <= |mem|
    ensures Patched(mem, e, mem[e..e + w]) == mem
  {
  }

  lemma PatchOver(mem: seq<Kevent>, e: nat, w: nat, x: Kevent, out: seq<Kevent>)
    requires e + |out| <= |mem| && w < |out|
    ensures Patched(mem[e + w := x], e, out) == Patched(mem, e, out)
  {
  }

  /** rest are the changes still to read, out the entries written so far. */
  ghost predicate Tracks(mem: seq<Kevent>, c: nat, i: nat, n: nat, e: nat, w: nat, m: nat,
                         rest: seq<Kevent>, out: seq<Kevent>)
  {
    && i <= n && c + n <= |mem| && w <= m && e + m <= |mem| && w <= i
    && rest == mem[c + i..c + n] && out == mem[e..e + w]
  }

  lemma WriteSame<S(!new)>(f: Apply<S>, s: S, mem: seq<Kevent>, c: nat, i: nat, n: nat, e: nat, w: nat, m: nat,
                           rest: seq<Kevent>, out: seq<Kevent>, x: Kevent)
    requires Tracks(mem, c, i, n, e, w, m, rest, out) && i < n && w < m && rest[0] == mem[c + i]
    requires Entry(f(s, rest[0]), rest[0]) == Some(x)
    requires Same(InPlace(f, f(s, rest[0]).state, mem[e + w := x], c, i + 1, n, e, w + 1, m),
                  Disjoint(f, f(s, rest[0]).state, rest[1..], out + [x], m), mem[e + w := x], e)
    ensures Same(InPlace(f, s, mem, c, i, n, e, w, m), Disjoint(f, s, rest, out, m), mem, e)
  {
    var d := Disjoint(f, f(s, rest[0]).state, rest[1..], out + [x], m);
    PatchOver(mem, e, w, x, d.receipts);
    assert Disjoint(f, s, rest, out, m) == d;
  }

  lemma {:induction false} StaysSame<S(!new)>(f: Apply<S>, s: S, mem: seq<Kevent>, c: nat, i: nat, n: nat,
                                              e: nat, w: nat, m: nat, rest: seq<Kevent>, out: seq<Kevent>)
    requires Tracks(mem, c, i, n, e, w, m, rest, out) && Apart(c, n, e, m)
    ensures Same(InPlace(f, s, mem, c, i, n, e, w, m), Disjoint(f, s, rest, out, m), mem, e)
    decreases n - i
  {
    if i == n {
      PatchNothing(mem, e, w);
    } else {
      RestOf(mem, c, i, n);
      var a := f(s, rest[0]);
      var x := Entry(a, rest[0]);
      if x.None? {
        StaysSame(f, a.state, mem, c, i + 1, n, e, w, m, rest[1..], out);
      } else if w == m {
        PatchNothing(mem, e, w);
      } else {
        WriteAhead(mem, c, i, n, e, w, m, x.value);
        StaysSame(f, a.state, mem[e + w := x.value], c, i + 1, n, e, w + 1, m, rest[1..], out + [x.value]);
        WriteSame(f, s, mem, c, i, n, e, w, m, rest, out, x.value);
      }
    }
  }

  lemma RestOf(mem: seq<Kevent>, c: nat, i: nat, n: nat)
    requires i < n && c + n <= |mem|
    ensures mem[c + i..c + n][0] == mem[c + i] && mem[c + i..c + n][1..] == mem[c + i + 1..c + n]
  {
  }

  /** One array for both lists, or any eventlist that does not start inside the
      changelist: the changes applied, the receipts and the return value are
      those of disjoint arrays, and nothing else in memory changes. */
  lemma AliasSafe<S(!new)>(f: Apply<S>, s: S, mem: seq<Kevent>, c: nat, n: nat, e: nat, m: nat)
    requires c + n <= |mem| && e + m <= |mem| && Apart(c, n, e, m)
    ensures Same(InPlace(f, s, mem, c, 0, n, e, 0, m), Disjoint(f, s, mem[c..c + n], [], m), mem, e)
  {
    StaysSame(f, s, mem, c, 0, n, e, 0, m, mem[c..c + n], []);
  }

  // ----- the condition is exact ---------------------------------------------------------------

  /** Counts the changes with body 0. */
  function Tally(s: int, k: Kevent): Applied<int> {
    Applied(if k.body == 0 then s + 1 else s, 0, 0, k)
  }

  lemma {:induction false} TallyGrows(s: int, mem: seq<Kevent>, c: nat, i: nat, n: nat, e: nat, w: nat, m: nat)
    requires i <= n && c + n <= |mem| && w <= m && e + m <= |mem|
    ensures InPlace(Tally, s, mem, c, i, n, e, w, m).state >= s
    decreases n - i
  {
    if i < n {
      var a := Tally(s, mem[c + i]);
      var x := Entry(a, mem[c + i]);
      if x.None? {
        TallyGrows(a.state, mem, c, i + 1, n, e, w, m);
      } else if w < m {
        TallyGrows(a.state, mem[e + w := x.value], c, i + 1, n, e, w + 1, m);
      }
    }
  }

  lemma {:induction false} TallyStays(s: int, changes: seq<Kevent>, out: seq<Kevent>, m: nat)
    requires |out| <= m && forall j :: 0 <= j < |changes| ==> changes[j].body == 1 && !changes[j].receipt
    ensures Disjoint(Tally, s, changes, out, m).state == s
    decreases |changes|
  {
    if changes != [] {
      TallyStays(s, changes[1..], out, m);
    }
  }

  lemma {:induction false} TallyTwice(mem: seq<Kevent>, c: nat, i: nat, n: nat, e: nat, m: nat)
    requires c + n <= |mem| && 1 <= m && e + m <= |mem| && c + i <= e < c + n
    requires mem[e].body == 0 && forall j :: c + i <= j < e ==> mem[j].body == 1 && !mem[j].receipt
    ensures InPlace(Tally, 1, mem, c, i, n, e, 1, m).state >= 2
    decreases n - i
  {
    if c + i < e {
      TallyTwice(mem, c, i + 1, n, e, m);
    } else {
      var x := Entry(Tally(1, mem[e]), mem[e]);
      if x.None? {
        TallyGrows(2, mem, c, i + 1, n, e, 1, m);
      } else if 1 < m {
        TallyGrows(2, mem[e + 1 := x.value], c, i + 1, n, e, 2, m);
      }
    }
  }

  /** An eventlist that starts inside the changelist: the first receipt replaces
      a change before it is read. */
  lemma OverlapUnsafe(c: nat, n: nat, e: nat, m: nat) returns (mem: seq<Kevent>)
    requires !Apart(c, n, e, m)
    ensures c + n <= |mem| && e + m <= |mem|
    ensures InPlace(Tally, 0, mem, c, 0, n, e, 0, m).state != Disjoint(Tally, 0, mem[c..c + n], [], m).state
  {
    var first, quiet := Kevent(0, true, false, 0), Kevent(1, false, false, 0);
    mem := seq(c + n + e + m, j => if j == c then first else quiet);
    var changes := mem[c..c + n];
    assert changes[0] == first;
    var r := Receipt(first, 0);
    assert Entry(Tally(0, first), first) == Some(r) && [] + [r] == [r];
    TallyStays(1, changes[1..], [r], m);
    assert Disjoint(Tally, 0, changes, [], m) == Disjoint(Tally, 1, changes[1..], [r], m);
    TallyTwice(mem[e := r], c, 1, n, e, m);
    assert InPlace(Tally, 0, mem, c, 0, n, e, 0, m) == InPlace(Tally, 1, mem[e := r], c, 1, n, e, 1, m);
  }
}
