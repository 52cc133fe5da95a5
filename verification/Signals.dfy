/** Fan-out of signals to the knotes of every kqueue (src/common/evfilt_signal.h).

    Each function is what one holder of sigtbl_mtx does, so a sequence of them is
    an interleaving of the dispatcher with enable, disable, delete and copyout.
    Filters and knotes are named by numbers. */
module Signals {
  import opened Lists

  const SIGNAL_MAX: int := 64
  const SIGCHLD: int := 17

  /** count: kn_signal_count, an unsigned int. */
  datatype Knote = Knote(filt: nat, sig: int, count: nat, disabled: bool)

  /** The two knote lists of one (filter, signum) pair. */
  datatype Link = Link(on: seq<nat>, off: seq<nat>)

  /** table: sigtbl, for each signum the filters linked to it.  fired, reported:
      for each knote, the fires dispatched and the data copied out so far. */
  datatype State = State(knotes: map<nat, Knote>, links: map<(nat, int), Link>, table: map<int, seq<nat>>,
                         pending: map<nat, seq<nat>>, watch: set<int>, reserved: bool,
                         fired: map<nat, nat>, reported: map<nat, nat>)

  function LinkOf(s: State, f: nat, sig: int): Link {
    if (f, sig) in s.links then s.links[(f, sig)] else Link([], [])
  }

  function TableOf(s: State, sig: int): seq<nat> {
    if sig in s.table then s.table[sig] else []
  }

  function PendingOf(s: State, f: nat): seq<nat> {
    if f in s.pending then s.pending[f] else []
  }

  // ----- dispatch ----------------------------------------------------------------------

  function More(n: Knote): Knote {
    n.(count := (n.count + 1) % WRAP)
  }

  function Bump(knotes: map<nat, Knote>, k: nat): map<nat, Knote> {
    if k in knotes then knotes[k := More(knotes[k])] else knotes
  }

  function BumpAll(knotes: map<nat, Knote>, ks: seq<nat>): map<nat, Knote>
    decreases |ks|
  {
    if ks == [] then knotes else BumpAll(Bump(knotes, ks[0]), ks[1..])
  }

  function Pend(p: seq<nat>, k: nat): seq<nat> {
    if k in p then p else [k] + p
  }

  function PendAll(p: seq<nat>, ks: seq<nat>): seq<nat>
    decreases |ks|
  {
    if ks == [] then p else PendAll(Pend(p, ks[0]), ks[1..])
  }

  ghost function Count(fired: map<nat, nat>, ks: seq<nat>): map<nat, nat>
    decreases |ks|
  {
    if ks == [] then fired
    else Count(if ks[0] in fired then fired[ks[0] := fired[ks[0]] + 1] else fired, ks[1..])
  }

  /** One link: both lists are bumped, the enabled knotes become pending. */
  ghost function DispatchLink(s: State, f: nat, sig: int): State {
    var l := LinkOf(s, f, sig);
    s.(knotes := BumpAll(BumpAll(s.knotes, l.on), l.off), pending := s.pending[f := PendAll(PendingOf(s, f), l.on)],
       fired := Count(Count(s.fired, l.on), l.off))
  }

  ghost function DispatchAll(s: State, fs: seq<nat>, sig: int): State
    decreases |fs|
  {
    if fs == [] then s else DispatchAll(DispatchLink(s, fs[0], sig), fs[1..], sig)
  }

  ghost function Dispatch(s: State, sig: int): State {
    if sig <= 0 || sig >= SIGNAL_MAX then s else DispatchAll(s, TableOf(s, sig), sig)
  }

  // ----- create, delete, enable, disable, modify ------------------------------------------

  predicate Refused(s: State, sig: int) {
    sig <= 0 || sig >= SIGNAL_MAX || (s.reserved && sig == SIGCHLD)
  }

  /** watched: what sig_platform_add answers for the first knote of a signum. */
  ghost function Create(s: State, k: nat, f: nat, sig: int, watched: bool): State {
    var first := TableOf(s, sig) == [];
    var l := LinkOf(s, f, sig);
    if Refused(s, sig) || (first && !watched) then s
    else
      s.(knotes := s.knotes[k := Knote(f, sig, 0, false)], links := s.links[(f, sig) := l.(on := [k] + l.on)],
         table := s.table[sig := if f in TableOf(s, sig) then TableOf(s, sig) else [f] + TableOf(s, sig)],
         watch := if first then s.watch + {sig} else s.watch,
         fired := s.fired[k := 0], reported := s.reported[k := 0])
  }

  function Unlinked(l: Link, k: nat): Link {
    if k in l.on then l.(on := Drop(l.on, k)) else l.(off := Drop(l.off, k))
  }

  ghost function Delete(s: State, k: nat): State
    requires k in s.knotes
  {
    var n := s.knotes[k];
    var l := Unlinked(LinkOf(s, n.filt, n.sig), k);
    var t := if l == Link([], []) then Drop(TableOf(s, n.sig), n.filt) else TableOf(s, n.sig);
    s.(knotes := s.knotes - {k}, links := s.links[(n.filt, n.sig) := l], table := s.table[n.sig := t],
       pending := s.pending[n.filt := Drop(PendingOf(s, n.filt), k)],
       watch := if t == [] then s.watch - {n.sig} else s.watch, fired := s.fired - {k}, reported := s.reported - {k})
  }

  ghost function Enable(s: State, k: nat): State
    requires k in s.knotes
  {
    var n := s.knotes[k];
    var l := Unlinked(LinkOf(s, n.filt, n.sig), k);
    s.(links := s.links[(n.filt, n.sig) := l.(on := [k] + l.on)],
       pending := if n.count > 0 then s.pending[n.filt := Pend(PendingOf(s, n.filt), k)] else s.pending)
  }

  ghost function Disable(s: State, k: nat): State
    requires k in s.knotes
  {
    var n := s.knotes[k];
    var l := Unlinked(LinkOf(s, n.filt, n.sig), k);
    s.(links := s.links[(n.filt, n.sig) := l.(off := [k] + l.off)],
       pending := s.pending[n.filt := Drop(PendingOf(s, n.filt), k)])
  }

  function Flag(s: State, k: nat, disabled: bool): State
    requires k in s.knotes
  {
    s.(knotes := s.knotes[k := s.knotes[k].(disabled := disabled)])
  }

  // ----- copyout ---------------------------------------------------------------------------

  function Zero(knotes: map<nat, Knote>, ks: seq<nat>): map<nat, Knote>
    decreases |ks|
  {
    if ks == [] then knotes
    else Zero(if ks[0] in knotes then knotes[ks[0] := knotes[ks[0]].(count := 0)] else knotes, ks[1..])
  }

  ghost function ReportAll(reported: map<nat, nat>, knotes: map<nat, Knote>, ks: seq<nat>): map<nat, nat> {
    map k | k in reported :: if k in ks && k in knotes then reported[k] + knotes[k].count else reported[k]
  }

  function Taken(s: State, f: nat, nevents: nat): nat {
    if nevents < |PendingOf(s, f)| then nevents else |PendingOf(s, f)|
  }

  /** The first nevents pending knotes are reported and start again at zero. */
  ghost function Copyout(s: State, f: nat, nevents: nat): State {
    var p, n := PendingOf(s, f), Taken(s, f, nevents);
    s.(knotes := Zero(s.knotes, p[..n]), pending := s.pending[f := p[n..]],
       reported := ReportAll(s.reported, s.knotes, p[..n]))
  }

  // ----- what must hold --------------------------------------------------------------------

  ghost predicate On(s: State, k: nat) requires k in s.knotes {
    k in LinkOf(s, s.knotes[k].filt, s.knotes[k].sig).on
  }

  ghost predicate IsOff(s: State, k: nat) requires k in s.knotes {
    k in LinkOf(s, s.knotes[k].filt, s.knotes[k].sig).off
  }

  /** A list of the pair names its knotes only, each once. */
  ghost predicate LinkOk(s: State, f: nat, sig: int) {
    var l := LinkOf(s, f, sig);
    && Distinct(l.on) && Distinct(l.off)
    && (forall k :: k in l.on || k in l.off ==> k in s.knotes && s.knotes[k].filt == f && s.knotes[k].sig == sig)
    && (f in TableOf(s, sig) <==> l != Link([], []))
  }

  /** Every knote is on exactly one of the two lists of its pair. */
  ghost predicate Placed(s: State) {
    && (forall f, sig :: LinkOk(s, f, sig))
    && (forall k :: k in s.knotes ==> (On(s, k) <==> !IsOff(s, k)))
  }

  ghost predicate Watched(s: State) {
    forall sig :: Distinct(TableOf(s, sig)) && (sig in s.watch <==> TableOf(s, sig) != []) &&
      (TableOf(s, sig) != [] ==> 0 < sig < SIGNAL_MAX)
  }

  ghost predicate PendingOk(s: State, f: nat) {
    && Distinct(PendingOf(s, f))
    && (forall k :: k in PendingOf(s, f) ==> k in s.knotes && s.knotes[k].filt == f && On(s, k))
  }

  ghost predicate Sized(s: State) {
    && s.fired.Keys == s.knotes.Keys && s.reported.Keys == s.knotes.Keys
    && (forall k :: k in s.knotes ==> s.knotes[k].count < WRAP)
  }

  /** Modulo the width of the counter, every fire is reported or still counted. */
  ghost predicate Balanced(s: State, k: nat)
    requires k in s.knotes && k in s.fired && k in s.reported
  {
    s.fired[k] % WRAP == (s.reported[k] + s.knotes[k].count) % WRAP
  }

  /** Holds in every state, whatever the number of fires. */
  ghost predicate Core(s: State) {
    && Placed(s) && Watched(s) && Sized(s)
    && (forall f :: PendingOk(s, f))
    && (forall k :: k in s.knotes ==> Balanced(s, k))
  }

  /** No fire is lost, and a knote is pending exactly when it is enabled with
      something to report. */
  ghost predicate Exact(s: State, k: nat)
    requires k in s.knotes && k in s.fired && k in s.reported
  {
    && s.fired[k] == s.reported[k] + s.knotes[k].count
    && (k in PendingOf(s, s.knotes[k].filt) <==> On(s, k) && s.knotes[k].count > 0)
  }

  ghost predicate Inv(s: State) {
    Core(s) && forall k :: k in s.knotes ==> Exact(s, k)
  }

  // ----- lists --------------------------------------------------------------------------------

  ghost predicate Bumped(a: map<nat, Knote>, b: map<nat, Knote>, ks: set<nat>) {
    && a.Keys == b.Keys
    && forall k :: k in a ==> b[k] == if k in ks then More(a[k]) else a[k]
  }

  ghost predicate Counted(a: map<nat, nat>, b: map<nat, nat>, ks: set<nat>) {
    a.Keys == b.Keys && forall k :: k in a ==> b[k] == if k in ks then a[k] + 1 else a[k]
  }

  lemma {:induction false} BumpsOnce(knotes: map<nat, Knote>, ks: seq<nat>)
    requires Distinct(ks)
    ensures Bumped(knotes, BumpAll(knotes, ks), Elems(ks))
    decreases |ks|
  {
    if ks != [] {
      BumpsOnce(Bump(knotes, ks[0]), ks[1..]);
      FirstOnly(ks);
    }
  }

  lemma {:induction false} CountsOnce(fired: map<nat, nat>, ks: seq<nat>)
    requires Distinct(ks)
    ensures Counted(fired, Count(fired, ks), Elems(ks))
    decreases |ks|
  {
    if ks != [] {
      CountsOnce(if ks[0] in fired then fired[ks[0] := fired[ks[0]] + 1] else fired, ks[1..]);
      FirstOnly(ks);
    }
  }

  lemma {:induction false} PendsOnce(p: seq<nat>, ks: seq<nat>)
    requires Distinct(p)
    ensures Distinct(PendAll(p, ks)) && forall k :: k in PendAll(p, ks) <==> k in p || k in ks
    decreases |ks|
  {
    if ks != [] {
      PendOne(p, ks[0]);
      PendsOnce(Pend(p, ks[0]), ks[1..]);
      assert forall k :: k in ks <==> k == ks[0] || k in ks[1..];
    }
  }

  lemma PendOne(p: seq<nat>, k: nat)
    requires Distinct(p)
    ensures Distinct(Pend(p, k)) && forall j :: j in Pend(p, k) <==> j in p || j == k
  {
    assert forall i :: 0 <= i < |p| ==> p[i] in p;
  }

  lemma {:induction false} Zeroed(knotes: map<nat, Knote>, ks: seq<nat>)
    ensures var r := Zero(knotes, ks);
      r.Keys == knotes.Keys && forall k :: k in knotes ==> r[k] == if k in ks then knotes[k].(count := 0) else knotes[k]
    decreases |ks|
  {
    if ks != [] {
      Zeroed(if ks[0] in knotes then knotes[ks[0] := knotes[ks[0]].(count := 0)] else knotes, ks[1..]);
      assert forall k :: k in ks <==> k == ks[0] || k in ks[1..];
    }
  }

  // ----- one signal -----------------------------------------------------------------------------

  ghost predicate Hit(s: State, k: nat, sig: int, fs: seq<nat>) {
    k in s.knotes && s.knotes[k].sig == sig && s.knotes[k].filt in fs
  }

  ghost function Hits(s: State, sig: int, fs: seq<nat>): set<nat> {
    set k | k in s.knotes && Hit(s, k, sig, fs)
  }

  ghost predicate Pended(s: State, t: State, sig: int, fs: seq<nat>) {
    && (forall f :: Distinct(PendingOf(t, f)))
    && (forall f, k :: k in PendingOf(t, f) <==> k in PendingOf(s, f) || (f in fs && k in LinkOf(s, f, sig).on))
  }

  /** The fan-out to the filters fs: every knote of the signum there counts one
      more fire, and the enabled ones are pending. */
  ghost predicate Fanned(s: State, t: State, sig: int, fs: seq<nat>) {
    && t == s.(knotes := t.knotes, pending := t.pending, fired := t.fired)
    && Bumped(s.knotes, t.knotes, Hits(s, sig, fs)) && Counted(s.fired, t.fired, Hits(s, sig, fs))
    && Pended(s, t, sig, fs)
  }

  /** The knotes of a pair are those on its lists. */
  lemma ListsAreHits(s: State, f: nat, sig: int)
    requires Placed(s)
    ensures var l := LinkOf(s, f, sig); Elems(l.on) !! Elems(l.off) && Elems(l.on) + Elems(l.off) == Hits(s, sig, [f])
  {
    var l := LinkOf(s, f, sig);
    assert LinkOk(s, f, sig);
    forall k | k in s.knotes && s.knotes[k].filt == f && s.knotes[k].sig == sig ensures k in l.on <==> k !in l.off {
      assert On(s, k) <==> !IsOff(s, k);
    }
  }

  lemma LinkPends(s: State, f: nat, sig: int)
    requires forall g :: Distinct(PendingOf(s, g))
    ensures Pended(s, DispatchLink(s, f, sig), sig, [f])
  {
    PendsOnce(PendingOf(s, f), LinkOf(s, f, sig).on);
    var t := DispatchLink(s, f, sig);
    assert forall g ::
      PendingOf(t, g) == if g == f then PendAll(PendingOf(s, f), LinkOf(s, f, sig).on) else PendingOf(s, g);
  }

  lemma LinkFans(s: State, f: nat, sig: int)
    requires Placed(s) && forall g :: Distinct(PendingOf(s, g))
    ensures Fanned(s, DispatchLink(s, f, sig), sig, [f])
  {
    var l := LinkOf(s, f, sig);
    assert LinkOk(s, f, sig);
    ListsAreHits(s, f, sig);
    BumpsOnce(s.knotes, l.on);
    BumpsOnce(BumpAll(s.knotes, l.on), l.off);
    CountsOnce(s.fired, l.on);
    CountsOnce(Count(s.fired, l.on), l.off);
    LinkPends(s, f, sig);
  }

  lemma TableSame(s: State, t: State)
    requires Watched(s) && t.table == s.table && t.watch == s.watch
    ensures Watched(t)
  {
    assert forall sig :: TableOf(t, sig) == TableOf(s, sig);
  }

  /** Only the counters of the knotes changed. */
  ghost predicate SameLinks(s: State, t: State) {
    && t.links == s.links && t.table == s.table && t.knotes.Keys == s.knotes.Keys
    && forall k :: k in s.knotes ==> t.knotes[k].filt == s.knotes[k].filt && t.knotes[k].sig == s.knotes[k].sig
  }

  lemma LinksPlaced(s: State, t: State)
    requires Placed(s) && SameLinks(s, t)
    ensures Placed(t)
  {
    forall f: nat, sig: int ensures LinkOk(t, f, sig) {
      assert LinkOk(s, f, sig);
    }
    forall k | k in t.knotes ensures On(t, k) <==> !IsOff(t, k) {
      assert On(s, k) <==> !IsOff(s, k);
    }
  }

  lemma FanTwice(s: State, m: State, t: State, sig: int, f: nat, fs: seq<nat>)
    requires Fanned(s, m, sig, [f]) && Fanned(m, t, sig, fs) && f !in fs
    ensures Fanned(s, t, sig, [f] + fs)
  {
    assert forall g :: g in [f] + fs <==> g in [f] || g in fs;
    assert Hits(m, sig, fs) == Hits(s, sig, fs) && Hits(s, sig, [f] + fs) == Hits(s, sig, [f]) + Hits(s, sig, fs);
    assert forall g :: LinkOf(m, g, sig) == LinkOf(s, g, sig);
  }

  lemma {:induction false} AllFan(s: State, fs: seq<nat>, sig: int)
    requires Placed(s) && Distinct(fs) && forall g :: Distinct(PendingOf(s, g))
    ensures Fanned(s, DispatchAll(s, fs, sig), sig, fs)
    decreases |fs|
  {
    if fs == [] {
      assert Hits(s, sig, fs) == {};
    } else {
      var m := DispatchLink(s, fs[0], sig);
      FirstOnly(fs);
      LinkFans(s, fs[0], sig);
      LinksPlaced(s, m);
      AllFan(m, fs[1..], sig);
      FanTwice(s, m, DispatchAll(s, fs, sig), sig, fs[0], fs[1..]);
      assert [fs[0]] + fs[1..] == fs;
    }
  }

  /** Every knote of the signum, in every kqueue, is hit exactly once. */
  lemma DispatchFans(s: State, sig: int)
    requires Core(s) && 0 < sig < SIGNAL_MAX
    ensures Fanned(s, Dispatch(s, sig), sig, TableOf(s, sig))
    ensures forall k :: k in s.knotes ==> (Hit(s, k, sig, TableOf(s, sig)) <==> s.knotes[k].sig == sig)
  {
    forall g ensures Distinct(PendingOf(s, g)) {
      assert PendingOk(s, g);
    }
    AllFan(s, TableOf(s, sig), sig);
    forall k | k in s.knotes && s.knotes[k].sig == sig ensures s.knotes[k].filt in TableOf(s, sig) {
      assert LinkOk(s, s.knotes[k].filt, sig) && (On(s, k) || IsOff(s, k));
    }
  }

  lemma FannedPends(s: State, t: State, sig: int, fs: seq<nat>, f: nat)
    requires PendingOk(s, f) && LinkOk(s, f, sig) && Fanned(s, t, sig, fs)
    ensures PendingOk(t, f)
  {
    forall k | k in PendingOf(t, f) ensures k in t.knotes && t.knotes[k].filt == f && On(t, k) {
      assert k in s.knotes && s.knotes[k].filt == f && On(s, k);
    }
  }

  lemma BumpBalances(s: State, t: State, hits: set<nat>, k: nat)
    requires k in s.knotes && k in s.fired && k in s.reported && Balanced(s, k)
    requires Bumped(s.knotes, t.knotes, hits) && Counted(s.fired, t.fired, hits) && t.reported == s.reported
    ensures k in t.knotes && k in t.fired && Balanced(t, k)
  {
    OneMore(s.fired[k], s.reported[k], s.knotes[k].count);
  }

  lemma FannedCore(s: State, t: State, sig: int, fs: seq<nat>)
    requires Core(s) && Fanned(s, t, sig, fs)
    ensures Core(t)
  {
    LinksPlaced(s, t);
    TableSame(s, t);
    forall f ensures PendingOk(t, f) {
      assert PendingOk(s, f) && LinkOk(s, f, sig);
      FannedPends(s, t, sig, fs, f);
    }
    forall k | k in t.knotes ensures Balanced(t, k) {
      BumpBalances(s, t, Hits(s, sig, fs), k);
    }
  }

  lemma DispatchCore(s: State, sig: int)
    requires Core(s)
    ensures Core(Dispatch(s, sig))
  {
    if 0 < sig < SIGNAL_MAX {
      DispatchFans(s, sig);
      FannedCore(s, Dispatch(s, sig), sig, TableOf(s, sig));
    }
  }

  lemma OneMore(fired: nat, reported: nat, count: nat)
    requires fired % WRAP == (reported + count) % WRAP
    ensures (fired + 1) % WRAP == (reported + (count + 1) % WRAP) % WRAP
  {
    var a, b, q := fired / WRAP, (reported + count) / WRAP, (count + 1) / WRAP;
    assert fired + 1 == reported + (count + 1) % WRAP + (a - b + q) * WRAP;
    Turns(reported + (count + 1) % WRAP, a - b + q);
  }

  lemma Turns(x: nat, k: int)
    requires x + k * WRAP >= 0
    ensures (x + k * WRAP) % WRAP == x % WRAP
  {
  }

  /** No knote of the signum has a counter about to wrap. */
  ghost predicate Room(s: State, sig: int) {
    forall k :: k in s.knotes && s.knotes[k].sig == sig ==> s.knotes[k].count < WRAP - 1
  }

  lemma FannedExact(s: State, t: State, sig: int, fs: seq<nat>, k: nat)
    requires k in s.knotes && k in s.fired && k in s.reported && Exact(s, k) && Fanned(s, t, sig, fs)
    requires LinkOk(s, s.knotes[k].filt, sig) && s.knotes[k].count < WRAP
    requires Hit(s, k, sig, fs) <==> s.knotes[k].sig == sig
    ensures k in t.knotes && k in t.fired && k in t.reported
    ensures Exact(t, k) <==> (s.knotes[k].sig == sig ==> s.knotes[k].count < WRAP - 1)
  {
    assert On(t, k) == On(s, k);
  }

  /** A fire is kept exactly while its counter has room. */
  lemma DispatchExact(s: State, sig: int)
    requires Inv(s) && 0 < sig < SIGNAL_MAX
    ensures Inv(Dispatch(s, sig)) <==> Room(s, sig)
  {
    var t := Dispatch(s, sig);
    DispatchCore(s, sig);
    DispatchFans(s, sig);
    forall k | k in s.knotes ensures Exact(t, k) <==> (s.knotes[k].sig == sig ==> s.knotes[k].count < WRAP - 1) {
      FannedExact(s, t, sig, TableOf(s, sig), k);
    }
  }

  // ----- enable and disable ------------------------------------------------------------------------

  /** The lists of the other pairs are untouched; at k's pair only k moved. */
  ghost predicate Moved(s: State, t: State, k: nat, on: bool)
    requires k in s.knotes
  {
    var n := s.knotes[k];
    var l, m := LinkOf(s, n.filt, n.sig), LinkOf(t, n.filt, n.sig);
    && t == s.(links := t.links, pending := t.pending)
    && (forall f: nat, sig: int :: (f, sig) != (n.filt, n.sig) ==> LinkOf(t, f, sig) == LinkOf(s, f, sig))
    && Distinct(m.on) && Distinct(m.off)
    && (forall j :: j in m.on <==> if j == k then on else j in l.on)
    && (forall j :: j in m.off <==> if j == k then !on else j in l.off)
  }

  lemma UnlinkOne(l: Link, k: nat)
    requires Distinct(l.on) && Distinct(l.off) && (k in l.on <==> k !in l.off)
    ensures var u := Unlinked(l, k);
      && Distinct(u.on) && Distinct(u.off) && Distinct([k] + u.on) && Distinct([k] + u.off)
      && (forall j :: j in u.on <==> j in l.on && j != k)
      && (forall j :: j in u.off <==> j in l.off && j != k)
  {
    var u := Unlinked(l, k);
    DropOne(l.on, k);
    DropOne(l.off, k);
    PendOne(u.on, k);
    PendOne(u.off, k);
  }

  lemma RelinkMoves(s: State, t: State, k: nat, on: bool, u: Link)
    requires k in s.knotes && t == s.(links := t.links, pending := t.pending)
    requires t.links ==
      s.links[(s.knotes[k].filt, s.knotes[k].sig) := if on then u.(on := [k] + u.on) else u.(off := [k] + u.off)]
    requires Distinct(u.on) && Distinct(u.off) && Distinct([k] + u.on) && Distinct([k] + u.off)
    requires var l := LinkOf(s, s.knotes[k].filt, s.knotes[k].sig);
      && (forall j :: j in u.on <==> j in l.on && j != k)
      && (forall j :: j in u.off <==> j in l.off && j != k)
    ensures Moved(s, t, k, on)
  {
    var m := LinkOf(t, s.knotes[k].filt, s.knotes[k].sig);
    assert forall j :: j in [k] + u.on <==> j == k || j in u.on;
    assert forall j :: j in [k] + u.off <==> j == k || j in u.off;
  }

  lemma UnlinkHere(s: State, k: nat)
    requires Placed(s) && k in s.knotes
    ensures var l := LinkOf(s, s.knotes[k].filt, s.knotes[k].sig);
      Distinct(l.on) && Distinct(l.off) && (k in l.on <==> k !in l.off)
  {
    assert LinkOk(s, s.knotes[k].filt, s.knotes[k].sig) && (On(s, k) <==> !IsOff(s, k));
  }

  lemma EnableMoves(s: State, k: nat)
    requires Placed(s) && k in s.knotes
    ensures Moved(s, Enable(s, k), k, true)
  {
    var l := LinkOf(s, s.knotes[k].filt, s.knotes[k].sig);
    UnlinkHere(s, k);
    UnlinkOne(l, k);
    RelinkMoves(s, Enable(s, k), k, true, Unlinked(l, k));
  }

  lemma DisableMoves(s: State, k: nat)
    requires Placed(s) && k in s.knotes
    ensures Moved(s, Disable(s, k), k, false)
  {
    var l := LinkOf(s, s.knotes[k].filt, s.knotes[k].sig);
    UnlinkHere(s, k);
    UnlinkOne(l, k);
    RelinkMoves(s, Disable(s, k), k, false, Unlinked(l, k));
  }

  lemma MovedOn(s: State, t: State, k: nat, on: bool, j: nat)
    requires k in s.knotes && j in s.knotes && Moved(s, t, k, on)
    ensures On(t, j) <==> if j == k then on else On(s, j)
    ensures IsOff(t, j) <==> if j == k then !on else IsOff(s, j)
  {
  }

  lemma MovedPlaced(s: State, t: State, k: nat, on: bool)
    requires Placed(s) && k in s.knotes && Moved(s, t, k, on)
    ensures Placed(t)
  {
    var n := s.knotes[k];
    forall f: nat, sig: int ensures LinkOk(t, f, sig) {
      assert LinkOk(s, f, sig);
      assert (On(s, k) <==> !IsOff(s, k)) && TableOf(t, sig) == TableOf(s, sig);
      if (f, sig) == (n.filt, n.sig) {
        var m := LinkOf(t, f, sig);
        assert k in m.on || k in m.off;
      }
    }
    forall j | j in t.knotes ensures On(t, j) <==> !IsOff(t, j) {
      MovedOn(s, t, k, on, j);
    }
  }

  /** ... and k is pending afterwards only if it says so. */
  ghost predicate Repended(s: State, t: State, k: nat, p: bool)
    requires k in s.knotes
  {
    && (forall f :: f != s.knotes[k].filt ==> PendingOf(t, f) == PendingOf(s, f))
    && Distinct(PendingOf(t, s.knotes[k].filt))
    && (forall j :: j in PendingOf(t, s.knotes[k].filt) <==> if j == k then p else j in PendingOf(s, s.knotes[k].filt))
  }

  lemma EnablePends(s: State, k: nat)
    requires Core(s) && k in s.knotes
    ensures Repended(s, Enable(s, k), k, s.knotes[k].count > 0 || k in PendingOf(s, s.knotes[k].filt))
  {
    var f := s.knotes[k].filt;
    assert PendingOk(s, f);
    PendOne(PendingOf(s, f), k);
  }

  lemma DisablePends(s: State, k: nat)
    requires Core(s) && k in s.knotes
    ensures Repended(s, Disable(s, k), k, false)
  {
    var f := s.knotes[k].filt;
    assert PendingOk(s, f);
    DropOne(PendingOf(s, f), k);
  }

  lemma MovedPending(s: State, t: State, k: nat, on: bool, p: bool, f: nat)
    requires Core(s) && k in s.knotes && Moved(s, t, k, on) && Repended(s, t, k, p) && (p ==> on)
    ensures PendingOk(t, f)
  {
    assert PendingOk(s, f);
    forall j | j in PendingOf(t, f) ensures j in t.knotes && t.knotes[j].filt == f && On(t, j) {
      MovedOn(s, t, k, on, if j in s.knotes then j else k);
    }
  }

  lemma MovedPendings(s: State, t: State, k: nat, on: bool, p: bool)
    requires Core(s) && k in s.knotes && Moved(s, t, k, on) && Repended(s, t, k, p) && (p ==> on)
    ensures forall f :: PendingOk(t, f)
  {
    forall f ensures PendingOk(t, f) {
      MovedPending(s, t, k, on, p, f);
    }
  }

  lemma BalancesSame(s: State, t: State)
    requires Sized(s) && (forall k :: k in s.knotes ==> Balanced(s, k))
    requires t.fired == s.fired && t.reported == s.reported && t.knotes.Keys == s.knotes.Keys
    requires forall k :: k in s.knotes ==> t.knotes[k].count == s.knotes[k].count
    ensures Sized(t) && forall k :: k in t.knotes ==> Balanced(t, k)
  {
    forall k | k in t.knotes ensures Balanced(t, k) {
      assert Balanced(s, k);
    }
  }

  lemma MovedCore(s: State, t: State, k: nat, on: bool, p: bool)
    requires Core(s) && k in s.knotes && Moved(s, t, k, on) && Repended(s, t, k, p) && (p ==> on)
    ensures Core(t)
  {
    MovedPlaced(s, t, k, on);
    TableSame(s, t);
    MovedPendings(s, t, k, on, p);
    BalancesSame(s, t);
  }

  lemma MovedExact(s: State, t: State, k: nat, on: bool, p: bool)
    requires Inv(s) && k in s.knotes && Moved(s, t, k, on) && Repended(s, t, k, p)
    requires p <==> on && s.knotes[k].count > 0
    ensures Inv(t)
  {
    MovedCore(s, t, k, on, p);
    forall j | j in t.knotes ensures Exact(t, j) {
      assert Exact(s, j);
      MovedOn(s, t, k, on, j);
    }
  }

  lemma EnableKeeps(s: State, k: nat)
    requires Core(s) && k in s.knotes
    ensures Core(Enable(s, k)) && On(Enable(s, k), k) && (Inv(s) ==> Inv(Enable(s, k)))
  {
    var t, n := Enable(s, k), s.knotes[k];
    EnableMoves(s, k);
    EnablePends(s, k);
    MovedCore(s, t, k, true, n.count > 0 || k in PendingOf(s, n.filt));
    MovedOn(s, t, k, true, k);
    if Inv(s) {
      assert Exact(s, k);
      MovedExact(s, t, k, true, n.count > 0);
    }
  }

  lemma DisableKeeps(s: State, k: nat)
    requires Core(s) && k in s.knotes
    ensures Core(Disable(s, k)) && IsOff(Disable(s, k), k) && (Inv(s) ==> Inv(Disable(s, k)))
  {
    var t := Disable(s, k);
    DisableMoves(s, k);
    DisablePends(s, k);
    MovedCore(s, t, k, false, false);
    MovedOn(s, t, k, false, k);
    if Inv(s) {
      MovedExact(s, t, k, false, false);
    }
  }

  // ----- copyout -------------------------------------------------------------------------------------

  /** The knotes ks were reported and start again at zero. */
  ghost predicate Emptied(s: State, t: State, f: nat, ks: seq<nat>) {
    && t == s.(knotes := t.knotes, pending := t.pending, reported := t.reported)
    && t.knotes.Keys == s.knotes.Keys && t.reported.Keys == s.reported.Keys
    && (forall k :: k in s.knotes ==> t.knotes[k] == if k in ks then s.knotes[k].(count := 0) else s.knotes[k])
    && (forall k :: k in s.reported && k in s.knotes ==>
          t.reported[k] == if k in ks then s.reported[k] + s.knotes[k].count else s.reported[k])
    && (forall g :: g != f ==> PendingOf(t, g) == PendingOf(s, g))
    && Distinct(PendingOf(t, f))
    && (forall k :: k in PendingOf(t, f) <==> k in PendingOf(s, f) && k !in ks)
  }

  lemma SplitList(p: seq<nat>, n: nat)
    requires Distinct(p) && n <= |p|
    ensures Distinct(p[n..]) && forall k :: k in p[n..] <==> k in p && k !in p[..n]
  {
    assert p == p[..n] + p[n..];
    assert forall i :: n <= i < |p| ==> p[n..][i - n] == p[i] && p[i] !in p[..n];
  }

  lemma CopyoutEmpties(s: State, f: nat, nevents: nat)
    requires PendingOk(s, f) && Sized(s)
    ensures Emptied(s, Copyout(s, f, nevents), f, PendingOf(s, f)[..Taken(s, f, nevents)])
  {
    var p, n := PendingOf(s, f), Taken(s, f, nevents);
    var t := Copyout(s, f, nevents);
    Zeroed(s.knotes, p[..n]);
    SplitList(p, n);
    assert PendingOf(t, f) == p[n..] && forall g :: g != f ==> PendingOf(t, g) == PendingOf(s, g);
  }

  /** The first nevents pending knotes of f, all of them if there is room, leave the
      list and have their counts reported; nothing else changes. */
  lemma CopyoutTakes(s: State, f: nat, nevents: nat)
    requires PendingOk(s, f) && Sized(s)
    ensures var t, p := Copyout(s, f, nevents), PendingOf(s, f);
      && (nevents >= |p| ==> PendingOf(t, f) == [] && Emptied(s, t, f, p))
      && (nevents < |p| ==> PendingOf(t, f) == p[nevents..] && Emptied(s, t, f, p[..nevents]))
  {
    var p := PendingOf(s, f);
    CopyoutEmpties(s, f, nevents);
    assert p[..|p|] == p && p[|p|..] == [];
  }

  /** With room for all of them, every fire of an enabled knote has been reported. */
  lemma CopyoutReports(s: State, f: nat, nevents: nat, k: nat)
    requires Inv(s) && nevents >= |PendingOf(s, f)| && k in s.knotes && s.knotes[k].filt == f && On(s, k)
    ensures var t := Copyout(s, f, nevents);
      k in t.reported && k in t.fired && t.reported[k] == t.fired[k] && k in t.knotes && t.knotes[k].count == 0
  {
    assert PendingOk(s, f) && Exact(s, k);
    CopyoutTakes(s, f, nevents);
  }

  lemma EmptiedPends(s: State, t: State, f: nat, ks: seq<nat>, g: nat)
    requires PendingOk(s, g) && Emptied(s, t, f, ks)
    ensures PendingOk(t, g)
  {
    assert forall k :: k in s.knotes ==> On(t, k) == On(s, k);
  }

  lemma EmptiedBalances(s: State, t: State, f: nat, ks: seq<nat>, k: nat)
    requires k in s.knotes && k in s.fired && k in s.reported && Balanced(s, k) && Emptied(s, t, f, ks)
    ensures k in t.knotes && k in t.reported && Balanced(t, k)
  {
    assert t.reported[k] + t.knotes[k].count == s.reported[k] + s.knotes[k].count;
  }

  lemma EmptiedCore(s: State, t: State, f: nat, ks: seq<nat>)
    requires Core(s) && Emptied(s, t, f, ks)
    ensures Core(t)
  {
    LinksPlaced(s, t);
    TableSame(s, t);
    forall g ensures PendingOk(t, g) {
      assert PendingOk(s, g);
      EmptiedPends(s, t, f, ks, g);
    }
    forall k | k in s.knotes ensures Balanced(t, k) {
      EmptiedBalances(s, t, f, ks, k);
    }
  }

  lemma EmptiedExact(s: State, t: State, f: nat, ks: seq<nat>, k: nat)
    requires k in s.knotes && k in s.fired && k in s.reported && Exact(s, k) && Emptied(s, t, f, ks)
    requires k in ks ==> s.knotes[k].filt == f && k in PendingOf(s, f)
    ensures k in t.knotes && k in t.reported && Exact(t, k)
  {
    assert On(t, k) == On(s, k);
  }

  lemma CopyoutKeeps(s: State, f: nat, nevents: nat)
    requires Core(s)
    ensures Core(Copyout(s, f, nevents)) && (Inv(s) ==> Inv(Copyout(s, f, nevents)))
  {
    var t, ks := Copyout(s, f, nevents), PendingOf(s, f)[..Taken(s, f, nevents)];
    CopyoutEmpties(s, f, nevents);
    EmptiedCore(s, t, f, ks);
    assert PendingOk(s, f);
    if Inv(s) {
      forall k | k in t.knotes ensures Exact(t, k) {
        EmptiedExact(s, t, f, ks, k);
      }
    }
  }

  // ----- create and delete -----------------------------------------------------------------------------

  predicate Created(s: State, sig: int, watched: bool) {
    !Refused(s, sig) && (TableOf(s, sig) != [] || watched)
  }

  lemma CreateLinks(s: State, k: nat, f: nat, sig: int, watched: bool, g: nat, q: int)
    requires Core(s) && k !in s.knotes && Created(s, sig, watched)
    ensures LinkOk(Create(s, k, f, sig, watched), g, q)
  {
    var t := Create(s, k, f, sig, watched);
    assert LinkOk(s, g, q) && LinkOk(s, f, sig);
    PendOne(LinkOf(s, f, sig).on, k);
    assert TableOf(t, q) == if q == sig then Pend(TableOf(s, sig), f) else TableOf(s, q);
    assert forall h :: h in Pend(TableOf(s, sig), f) <==> h in TableOf(s, sig) || h == f;
    assert LinkOf(t, g, q) ==
      if (g, q) == (f, sig) then Link([k] + LinkOf(s, f, sig).on, LinkOf(s, f, sig).off) else LinkOf(s, g, q);
  }

  lemma CreateOn(s: State, k: nat, f: nat, sig: int, watched: bool, j: nat)
    requires Core(s) && k !in s.knotes && Created(s, sig, watched) && (j in s.knotes || j == k)
    ensures var t := Create(s, k, f, sig, watched);
      && (On(t, j) <==> j == k || On(s, j))
      && (IsOff(t, j) <==> j != k && IsOff(s, j))
  {
    assert LinkOk(s, f, sig);
  }

  lemma CreateWatched(s: State, k: nat, f: nat, sig: int, watched: bool)
    requires Core(s) && k !in s.knotes && Created(s, sig, watched)
    ensures Watched(Create(s, k, f, sig, watched))
  {
    var t := Create(s, k, f, sig, watched);
    PendOne(TableOf(s, sig), f);
    forall q ensures Distinct(TableOf(t, q)) && (q in t.watch <==> TableOf(t, q) != [])
             ensures TableOf(t, q) != [] ==> 0 < q < SIGNAL_MAX
    {
      assert TableOf(t, q) == if q == sig then Pend(TableOf(s, sig), f) else TableOf(s, q);
      assert Distinct(TableOf(s, q)) && (q in s.watch <==> TableOf(s, q) != []);
    }
  }

  lemma CreatePlaced(s: State, k: nat, f: nat, sig: int, watched: bool)
    requires Core(s) && k !in s.knotes && Created(s, sig, watched)
    ensures Placed(Create(s, k, f, sig, watched))
  {
    var t := Create(s, k, f, sig, watched);
    forall g: nat, q: int ensures LinkOk(t, g, q) {
      CreateLinks(s, k, f, sig, watched, g, q);
    }
    forall j | j in t.knotes ensures On(t, j) <==> !IsOff(t, j) {
      CreateOn(s, k, f, sig, watched, j);
      assert j != k ==> (On(s, j) <==> !IsOff(s, j));
    }
  }

  lemma CreatePends(s: State, k: nat, f: nat, sig: int, watched: bool, g: nat)
    requires Core(s) && k !in s.knotes && Created(s, sig, watched)
    ensures PendingOk(Create(s, k, f, sig, watched), g)
  {
    var t := Create(s, k, f, sig, watched);
    assert PendingOk(s, g) && PendingOf(t, g) == PendingOf(s, g);
    forall j | j in PendingOf(t, g) ensures On(t, j) {
      CreateOn(s, k, f, sig, watched, j);
    }
  }

  lemma CreateKeeps(s: State, k: nat, f: nat, sig: int, watched: bool)
    requires Core(s) && k !in s.knotes && Created(s, sig, watched)
    ensures Core(Create(s, k, f, sig, watched))
  {
    var t := Create(s, k, f, sig, watched);
    CreatePlaced(s, k, f, sig, watched);
    CreateWatched(s, k, f, sig, watched);
    forall g ensures PendingOk(t, g) {
      CreatePends(s, k, f, sig, watched, g);
    }
    CreateBalances(s, k, f, sig, watched);
  }

  lemma CreateBalances(s: State, k: nat, f: nat, sig: int, watched: bool)
    requires Sized(s) && k !in s.knotes && Created(s, sig, watched)
    requires forall j :: j in s.knotes ==> Balanced(s, j)
    ensures var t := Create(s, k, f, sig, watched); Sized(t) && forall j :: j in t.knotes ==> Balanced(t, j)
  {
    var t := Create(s, k, f, sig, watched);
    forall j | j in t.knotes ensures Balanced(t, j) {
      assert j != k ==> Balanced(s, j);
    }
  }

  lemma CreateExact(s: State, k: nat, f: nat, sig: int, watched: bool)
    requires Inv(s) && k !in s.knotes && Created(s, sig, watched)
    ensures Inv(Create(s, k, f, sig, watched))
  {
    var t := Create(s, k, f, sig, watched);
    CreateKeeps(s, k, f, sig, watched);
    assert PendingOk(s, f);
    forall j | j in t.knotes ensures Exact(t, j) {
      CreateOn(s, k, f, sig, watched, j);
      assert j != k ==> Exact(s, j);
      assert PendingOf(t, t.knotes[j].filt) == PendingOf(s, t.knotes[j].filt);
    }
  }

  lemma DeleteTable(s: State, k: nat, q: int)
    requires Core(s) && k in s.knotes
    ensures var t, n := Delete(s, k), s.knotes[k];
      var l := Unlinked(LinkOf(s, n.filt, n.sig), k);
      && Distinct(TableOf(t, q)) && (q != n.sig ==> TableOf(t, q) == TableOf(s, q))
      && (forall g :: g in TableOf(t, n.sig) <==> g in TableOf(s, n.sig) && (g == n.filt ==> l != Link([], [])))
  {
    var n := s.knotes[k];
    assert Distinct(TableOf(s, q)) && Distinct(TableOf(s, n.sig));
    assert LinkOk(s, n.filt, n.sig) && (On(s, k) || IsOff(s, k));
    DropOne(TableOf(s, n.sig), n.filt);
  }

  lemma DeleteLinks(s: State, k: nat, g: nat, q: int)
    requires Core(s) && k in s.knotes
    ensures LinkOk(Delete(s, k), g, q)
  {
    var t, n := Delete(s, k), s.knotes[k];
    var l := LinkOf(s, n.filt, n.sig);
    assert LinkOk(s, g, q) && LinkOk(s, n.filt, n.sig) && (On(s, k) <==> !IsOff(s, k));
    UnlinkOne(l, k);
    DeleteTable(s, k, q);
    assert LinkOf(t, g, q) == if (g, q) == (n.filt, n.sig) then Unlinked(l, k) else LinkOf(s, g, q);
  }

  lemma DeleteOn(s: State, k: nat, j: nat)
    requires Placed(s) && k in s.knotes && j in s.knotes && j != k
    ensures j in Delete(s, k).knotes && (On(Delete(s, k), j) <==> On(s, j)) && (IsOff(Delete(s, k), j) <==> IsOff(s, j))
  {
    UnlinkHere(s, k);
    UnlinkOne(LinkOf(s, s.knotes[k].filt, s.knotes[k].sig), k);
  }

  lemma DeleteWatched(s: State, k: nat)
    requires Core(s) && k in s.knotes
    ensures Watched(Delete(s, k))
  {
    var t, n := Delete(s, k), s.knotes[k];
    forall q ensures Distinct(TableOf(t, q)) && (q in t.watch <==> TableOf(t, q) != [])
             ensures TableOf(t, q) != [] ==> 0 < q < SIGNAL_MAX
    {
      DeleteTable(s, k, q);
      assert (q in s.watch <==> TableOf(s, q) != []) && (TableOf(s, q) != [] ==> 0 < q < SIGNAL_MAX);
      assert TableOf(t, q) != [] ==> TableOf(t, q)[0] in TableOf(t, q);
      assert LinkOk(s, n.filt, n.sig) && (On(s, k) || IsOff(s, k));
    }
  }

  lemma DeletePends(s: State, k: nat, g: nat)
    requires Core(s) && k in s.knotes
    ensures PendingOk(Delete(s, k), g)
    ensures forall j :: j in PendingOf(Delete(s, k), g) <==> j in PendingOf(s, g) && j != k
  {
    var t, n := Delete(s, k), s.knotes[k];
    assert PendingOk(s, g) && PendingOk(s, n.filt);
    DropOne(PendingOf(s, n.filt), k);
    assert PendingOf(t, g) == if g == n.filt then Drop(PendingOf(s, g), k) else PendingOf(s, g);
    forall j | j in PendingOf(t, g) ensures j in t.knotes && t.knotes[j].filt == g && On(t, j) {
      DeleteOn(s, k, j);
    }
  }

  lemma DeletePlaced(s: State, k: nat)
    requires Core(s) && k in s.knotes
    ensures Placed(Delete(s, k))
  {
    var t := Delete(s, k);
    forall g: nat, q: int ensures LinkOk(t, g, q) {
      DeleteLinks(s, k, g, q);
    }
    forall j | j in t.knotes ensures On(t, j) <==> !IsOff(t, j) {
      DeleteOn(s, k, j);
      assert On(s, j) <==> !IsOff(s, j);
    }
  }

  lemma DeleteKeeps(s: State, k: nat)
    requires Core(s) && k in s.knotes
    ensures Core(Delete(s, k))
  {
    var t := Delete(s, k);
    DeletePlaced(s, k);
    DeleteWatched(s, k);
    forall g ensures PendingOk(t, g) {
      DeletePends(s, k, g);
    }
    DeleteBalances(s, k);
  }

  lemma DeleteBalances(s: State, k: nat)
    requires Sized(s) && k in s.knotes && forall j :: j in s.knotes ==> Balanced(s, j)
    ensures var t := Delete(s, k); Sized(t) && forall j :: j in t.knotes ==> Balanced(t, j)
  {
    var t := Delete(s, k);
    forall j | j in t.knotes ensures Balanced(t, j) {
      assert Balanced(s, j);
    }
  }

  lemma DeleteExact(s: State, k: nat)
    requires Inv(s) && k in s.knotes
    ensures Inv(Delete(s, k))
  {
    var t := Delete(s, k);
    DeleteKeeps(s, k);
    forall j | j in t.knotes ensures Exact(t, j) {
      DeleteOn(s, k, j);
      DeletePends(s, k, s.knotes[j].filt);
      assert Exact(s, j);
    }
  }

  // ----- whole runs --------------------------------------------------------------------------------------

  /** knote_enable and knote_disable consult EV_DISABLE, not the lists. */
  ghost function KnEnable(s: State, k: nat): State
    requires k in s.knotes
  {
    if s.knotes[k].disabled then Flag(Enable(s, k), k, false) else s
  }

  ghost function KnDisable(s: State, k: nat): State
    requires k in s.knotes
  {
    if s.knotes[k].disabled then s else Flag(Disable(s, k), k, true)
  }

  datatype Step =
    | Fire(sig: int)
    | New(k: nat, f: nat, sig: int, watched: bool)
    | Remove(k: nat)
    | TurnOn(k: nat)
    | TurnOff(k: nat)
    | Modify(k: nat, disabled: bool) // kn_modify overwrites kev.flags
    | Report(f: nat, nevents: nat)

  ghost predicate Enabled(s: State, a: Step) {
    match a
    case New(k, _, _, _) => k !in s.knotes
    case Remove(k) => k in s.knotes
    case TurnOn(k) => k in s.knotes
    case TurnOff(k) => k in s.knotes
    case Modify(k, _) => k in s.knotes
    case _ => true
  }

  ghost function After(s: State, a: Step): State
    requires Enabled(s, a)
  {
    match a
    case Fire(sig) => Dispatch(s, sig)
    case New(k, f, sig, watched) => Create(s, k, f, sig, watched)
    case Remove(k) => Delete(s, k)
    case TurnOn(k) => KnEnable(s, k)
    case TurnOff(k) => KnDisable(s, k)
    case Modify(k, disabled) => Flag(s, k, disabled)
    case Report(f, nevents) => Copyout(s, f, nevents)
  }

  lemma FlagOn(s: State, k: nat, d: bool, j: nat)
    requires k in s.knotes && j in s.knotes
    ensures var t := Flag(s, k, d); (On(t, j) <==> On(s, j)) && (IsOff(t, j) <==> IsOff(s, j))
  {
  }

  lemma FlagCore(s: State, k: nat, d: bool)
    requires Core(s) && k in s.knotes
    ensures Core(Flag(s, k, d))
  {
    var t := Flag(s, k, d);
    LinksPlaced(s, t);
    TableSame(s, t);
    BalancesSame(s, t);
    forall f ensures PendingOk(t, f) {
      assert PendingOk(s, f);
    }
  }

  lemma FlagExact(s: State, k: nat, d: bool, j: nat)
    requires k in s.knotes && j in s.knotes && j in s.fired && j in s.reported && Exact(s, j)
    ensures Exact(Flag(s, k, d), j)
  {
    FlagOn(s, k, d, j);
  }

  lemma FlagKeeps(s: State, k: nat, d: bool)
    requires Core(s) && k in s.knotes
    ensures Core(Flag(s, k, d)) && (Inv(s) ==> Inv(Flag(s, k, d)))
  {
    var t := Flag(s, k, d);
    FlagCore(s, k, d);
    if Inv(s) {
      forall j | j in t.knotes ensures Exact(t, j) {
        FlagExact(s, k, d, j);
      }
    }
  }

  lemma StepKeeps(s: State, a: Step)
    requires Core(s) && Enabled(s, a)
    ensures Core(After(s, a))
    ensures Inv(s) && (a.Fire? && 0 < a.sig < SIGNAL_MAX ==> Room(s, a.sig)) ==> Inv(After(s, a))
  {
    match a
    case Fire(sig) =>
      DispatchCore(s, sig);
      if Inv(s) && 0 < sig < SIGNAL_MAX {
        DispatchExact(s, sig);
      }
    case New(k, f, sig, watched) =>
      if Created(s, sig, watched) {
        CreateKeeps(s, k, f, sig, watched);
        if Inv(s) {
          CreateExact(s, k, f, sig, watched);
        }
      }
    case Remove(k) =>
      DeleteKeeps(s, k);
      if Inv(s) {
        DeleteExact(s, k);
      }
    case TurnOn(k) =>
      EnableKeeps(s, k);
      FlagKeeps(Enable(s, k), k, false);
    case TurnOff(k) =>
      DisableKeeps(s, k);
      FlagKeeps(Disable(s, k), k, true);
    case Modify(k, d) => FlagKeeps(s, k, d);
    case Report(f, nevents) => CopyoutKeeps(s, f, nevents);
  }

  ghost function Start(reserved: bool): State {
    State(map[], map[], map[], map[], {}, reserved, map[], map[])
  }

  ghost predicate Run(ss: seq<State>, steps: seq<Step>) {
    && |ss| == |steps| + 1 && ss[0] == Start(ss[0].reserved)
    && forall i :: 0 <= i < |steps| ==> Enabled(ss[i], steps[i]) && ss[i + 1] == After(ss[i], steps[i])
  }

  /** No counter is about to wrap when its signal fires. */
  ghost predicate Roomy(ss: seq<State>, steps: seq<Step>)
    requires |ss| == |steps| + 1
  {
    forall i :: 0 <= i < |steps| && steps[i].Fire? && 0 < steps[i].sig < SIGNAL_MAX ==> Room(ss[i], steps[i].sig)
  }

  lemma StartInv(reserved: bool)
    ensures Inv(Start(reserved))
  {
    var s := Start(reserved);
    forall f: nat, sig: int ensures LinkOk(s, f, sig) && TableOf(s, sig) == [] {
      assert LinkOf(s, f, sig) == Link([], []);
    }
    forall f ensures PendingOk(s, f) {
      assert PendingOf(s, f) == [];
    }
  }

  /** In every interleaving each knote is on exactly one list, a signum is watched
      exactly while some filter has a knote for it, and the fires dispatched to a
      knote equal what was reported plus its counter, modulo 2^32. */
  lemma {:induction false} RunKeeps(ss: seq<State>, steps: seq<Step>)
    requires Run(ss, steps)
    ensures Core(ss[|steps|]) && (Roomy(ss, steps) ==> Inv(ss[|steps|]))
  {
    if steps == [] {
      StartInv(ss[0].reserved);
    } else {
      var m := |steps| - 1;
      RunKeeps(ss[..|steps|], steps[..m]);
      StepKeeps(ss[m], steps[m]);
    }
  }

  /** Without a wrap the balance is exact, and what is pending is exactly what is
      enabled and has something to report. */
  lemma RunConserves(ss: seq<State>, steps: seq<Step>, k: nat)
    requires Run(ss, steps) && Roomy(ss, steps) && k in ss[|steps|].knotes
    ensures var s := ss[|steps|];
      && k in s.fired && k in s.reported && s.fired[k] == s.reported[k] + s.knotes[k].count
      && (k in PendingOf(s, s.knotes[k].filt) <==> On(s, k) && s.knotes[k].count > 0)
  {
    RunKeeps(ss, steps);
    assert Exact(ss[|steps|], k);
  }

  /** The platform watches a signum exactly while a knote asks for it. */
  lemma WatchedByKnotes(s: State, sig: int)
    requires Core(s)
    ensures sig in s.watch <==> exists k :: k in s.knotes && s.knotes[k].sig == sig
  {
    assert sig in s.watch <==> TableOf(s, sig) != [];
    if TableOf(s, sig) != [] {
      var f := TableOf(s, sig)[0];
      assert LinkOk(s, f, sig) && f in TableOf(s, sig);
      var l := LinkOf(s, f, sig);
      var k := if l.on != [] then l.on[0] else l.off[0];
      assert k in s.knotes;
    }
    if k :| k in s.knotes && s.knotes[k].sig == sig {
      assert LinkOk(s, s.knotes[k].filt, sig) && (On(s, k) || IsOff(s, k));
    }
  }

  // ----- EV_DISABLE and the lists -------------------------------------------------------------------------

  /** EV_DISABLE says which list the knote is on. */
  ghost predicate FlagOk(s: State, k: nat)
    requires k in s.knotes
  {
    s.knotes[k].disabled <==> IsOff(s, k)
  }

  lemma TurnKeepsFlag(s: State, k: nat)
    requires Core(s) && k in s.knotes && FlagOk(s, k)
    ensures FlagOk(KnEnable(s, k), k) && FlagOk(KnDisable(s, k), k)
    ensures !IsOff(KnEnable(s, k), k) && IsOff(KnDisable(s, k), k)
  {
    assert On(s, k) <==> !IsOff(s, k);
    EnableMoves(s, k);
    DisableMoves(s, k);
    MovedOn(s, Enable(s, k), k, true, k);
    MovedOn(s, Disable(s, k), k, false, k);
    FlagOn(Enable(s, k), k, false, k);
    FlagOn(Disable(s, k), k, true, k);
  }

  /** kn_modify keeps it exactly when it does not change the flag; a modify that
      clears the flag makes the next EV_ENABLE a no-op. */
  lemma ModifyExact(s: State, k: nat, d: bool)
    requires Core(s) && k in s.knotes && FlagOk(s, k)
    ensures FlagOk(Flag(s, k, d), k) <==> d == s.knotes[k].disabled
    ensures IsOff(KnEnable(Flag(s, k, d), k), k) <==> s.knotes[k].disabled && !d
  {
    var t := Flag(s, k, d);
    FlagOn(s, k, d, k);
    FlagKeeps(s, k, d);
    if d {
      EnableMoves(t, k);
      MovedOn(t, Enable(t, k), k, true, k);
      FlagOn(Enable(t, k), k, false, k);
      assert On(Enable(t, k), k) && !IsOff(Enable(t, k), k);
    }
  }
}
