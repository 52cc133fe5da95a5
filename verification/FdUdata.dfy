/** The udatas that epoll_update hands to the kernel and to the deferred-free
    list (src/linux/platform.c), over every run of the filters. */
module FdUdata {
  import opened FdMux
  import opened Lists

  // ----- every run -------------------------------------------------------------------------

  lemma DelDetaches(s: State, k: nat)
    requires Rooted(s, k)
    ensures !Del(s, k, true).state.knotes[k].attached
  {
  }

  lemma CreateShaped(s: State, k: nat, n: Knote)
    requires Shaped(s) && Absent(s, k, n) && Rooted(With(s, k, n), k)
    ensures Shaped(Created(s, k, n).state)
  {
    var s0 := With(s, k, n);
    WithKeeps(s, k, n);
    AddShaped(s0, k);
    var r := Add(s0, k);
    if !AddGoes(s0, k) {
      AddRefused(s0, k);
      DropKeeps(r.state, k);
    } else {
      AddDone(s0, k);
      DelShaped(r.state, k, false);
    }
  }

  lemma StepShaped(s: State, op: Op)
    requires Shaped(s) && Enabled(s, op)
    ensures Shaped(After(s, op))
  {
    match op
    case Create(k, n) => CreateShaped(s, k, n);
    case Enable(k) =>
      AddShaped(s, k);
      MarkKeeps(Add(s, k).state, k, false);
    case Disable(k) =>
      DelShaped(s, k, false);
      MarkKeeps(Del(s, k, false).state, k, true);
    case Delete(k) =>
      DelShaped(s, k, true);
      DelDetaches(s, k);
      DropKeeps(Del(s, k, true).state, k);
    case Close(fd) =>
      ShapeIgnoresKernel(s, s.kernel - {fd});
      ShapeIgnoresOpen(s.(kernel := s.kernel - {fd}), s.open - {fd});
    case Open(fd) => ShapeIgnoresOpen(s, s.open + {fd});
  }

  lemma {:induction false} RunShaped(ss: seq<State>, ops: seq<Op>)
    requires Run(ss, ops)
    ensures Shaped(ss[|ops|])
  {
    if ops != [] {
      var m := |ops| - 1;
      RunShaped(ss[..|ops|], ops[..m]);
      StepShaped(ss[m], ops[m]);
    }
  }

  /** At the end of every run, whatever was added disabled, closed or refused, an
      fd_state is in the tree exactly while a knote is attached. */
  lemma RunAttached(ss: seq<State>, ops: seq<Op>, fd: int)
    requires Run(ss, ops)
    ensures var s := ss[|ops|];
      fd in s.tree <==> exists k :: k in s.knotes && s.knotes[k].fd == fd && s.knotes[k].attached
  {
    RunShaped(ss, ops);
    TreeIsAttached(ss[|ops|], fd);
  }

  // ----- registered and deferred udatas -----------------------------------------------------

  /** What is registered for fd is the udata of its fd_state, or waits to be freed. */
  ghost predicate KnownAt(s: State, fd: int) {
    fd in s.kernel ==>
      && fd in s.open && s.kernel[fd].udata < s.supply
      && ((fd in s.tree && s.kernel[fd].udata == s.tree[fd].udata) || s.kernel[fd].udata in s.deferred)
  }

  ghost predicate Known(s: State) {
    forall fd :: KnownAt(s, fd)
  }

  /** The premise of the reclamation protocol: nothing registered is waiting to be
      freed. */
  ghost predicate Clear(s: State) {
    forall fd :: ClearAt(s, fd)
  }

  ghost predicate ClearAt(s: State, fd: int) {
    fd in s.kernel ==> s.kernel[fd].udata !in s.deferred
  }

  function Other(d: Dir): Dir {
    if d.Read? then Write else Read
  }

  /** The kernel watches fd although no knote of it is enabled, and no knote of the
      other direction keeps its fd_state. */
  ghost predicate Lonely(s: State, k: nat)
    requires k in s.knotes
  {
    var n := s.knotes[k];
    n.fd in s.kernel && n.fd in s.tree && FdState(s, n.fd, false) == NONE && Slot(s.tree[n.fd], Other(n.dir)).None?
  }

  /** EV_ENABLE of the one knote of a descriptor that the kernel watches already is
      answered by EEXIST, and EV_DELETE of it leaves the registration: both defer
      the udata that the kernel still holds. */
  ghost predicate Strands(s: State, op: Op) {
    match op
    case Enable(k) => k in s.knotes && s.knotes[k].disabled && Lonely(s, k)
    case Delete(k) => k in s.knotes && Off(s.knotes[k]) && s.knotes[k].attached && Lonely(s, k)
    case _ => false
  }

  /** A change at one descriptor that defers at most the udata of its fd_state. */
  ghost predicate Steady(s: State, t: State, k: nat, fd: int) {
    && Local(s, t, k, fd) && t.supply >= s.supply
    && (t.deferred == s.deferred || t.deferred == s.deferred + [FdsFor(s, fd).udata])
  }

  lemma KnownElsewhere(s: State, t: State, k: nat, fd: int, g: int)
    requires Shaped(s) && KnownAt(s, g) && Steady(s, t, k, fd) && g != fd
    ensures KnownAt(t, g) && (ClearAt(s, g) ==> ClearAt(t, g))
  {
    assert forall u :: u in t.deferred ==> u in s.deferred || u == FdsFor(s, fd).udata;
    assert forall u :: u in s.deferred ==> u in t.deferred;
  }

  lemma KnownLocally(s: State, t: State, k: nat, fd: int)
    requires Shaped(s) && Known(s) && Steady(s, t, k, fd) && KnownAt(t, fd)
    ensures Known(t) && (Clear(s) ==> (Clear(t) <==> ClearAt(t, fd)))
  {
    forall g | g != fd ensures KnownAt(t, g) && (ClearAt(s, g) ==> ClearAt(t, g)) {
      assert KnownAt(s, g);
      KnownElsewhere(s, t, k, fd, g);
    }
  }

  // ----- EPOLL_CTL_ADD ---------------------------------------------------------------------

  /** The registration is refused although the kernel has one: EEXIST. */
  lemma AddAt(s: State, k: nat)
    requires Shaped(s) && Rooted(s, k) && KnownAt(s, s.knotes[k].fd) && ClearAt(s, s.knotes[k].fd)
    requires !Has(FdState(s, s.knotes[k].fd, false), s.knotes[k].dir)
    ensures KnownAt(Add(s, k).state, s.knotes[k].fd)
    ensures ClearAt(Add(s, k).state, s.knotes[k].fd) <==> !Lonely(s, k)
  {
    var n, t := s.knotes[k], Add(s, k).state;
    AddDeferred(s, k);
    assert forall u :: u in t.deferred <==> u in s.deferred || (t.deferred != s.deferred && u == FdsFor(s, n.fd).udata);
  }

  lemma AddDeferred(s: State, k: nat)
    requires Shaped(s) && Rooted(s, k) && !Has(FdState(s, s.knotes[k].fd, false), s.knotes[k].dir)
    ensures var t, n := Add(s, k).state, s.knotes[k];
      var last := FdState(s, n.fd, false) == NONE && Slot(FdsFor(s, n.fd), Other(n.dir)).None?;
      && t.supply >= s.supply
      && t.deferred == if !AddGoes(s, k) && last then s.deferred + [FdsFor(s, n.fd).udata] else s.deferred
  {
  }

  lemma AddKnown(s: State, k: nat)
    requires Shaped(s) && Rooted(s, k) && Known(s)
    requires !Has(FdState(s, s.knotes[k].fd, false), s.knotes[k].dir)
    ensures Known(Add(s, k).state) && (Clear(s) ==> (Clear(Add(s, k).state) <==> !Lonely(s, k)))
  {
    var t, fd := Add(s, k).state, s.knotes[k].fd;
    AddLocal(s, k);
    AddDeferred(s, k);
    AddKnownAt(s, k);
    KnownLocally(s, t, k, fd);
    if Clear(s) {
      AddAt(s, k);
    }
  }

  lemma AddKnownAt(s: State, k: nat)
    requires Shaped(s) && Rooted(s, k) && KnownAt(s, s.knotes[k].fd)
    requires !Has(FdState(s, s.knotes[k].fd, false), s.knotes[k].dir)
    ensures KnownAt(Add(s, k).state, s.knotes[k].fd)
  {
    var n, t := s.knotes[k], Add(s, k).state;
    AddDeferred(s, k);
    assert forall u :: u in s.deferred ==> u in t.deferred;
  }

  // ----- EPOLL_CTL_DEL ---------------------------------------------------------------------

  lemma DelDeferred(s: State, k: nat, delete: bool)
    requires Shaped(s) && Rooted(s, k)
    ensures var t, n := Del(s, k, delete).state, s.knotes[k];
      && t.supply == s.supply
      && (t.deferred == s.deferred || t.deferred == s.deferred + [FdsFor(s, n.fd).udata])
  {
  }

  lemma DelKnownAt(s: State, k: nat, delete: bool)
    requires Shaped(s) && Rooted(s, k) && KnownAt(s, s.knotes[k].fd)
    ensures KnownAt(Del(s, k, delete).state, s.knotes[k].fd)
  {
    var n, t := s.knotes[k], Del(s, k, delete).state;
    DelDeferred(s, k, delete);
    assert forall u :: u in s.deferred ==> u in t.deferred;
    assert t.deferred != s.deferred ==> t.deferred[|s.deferred|] in t.deferred;
  }

  /** Deleting a knote that is off does not touch the kernel. */
  lemma DelAt(s: State, k: nat, delete: bool)
    requires Shaped(s) && Rooted(s, k) && KnownAt(s, s.knotes[k].fd) && ClearAt(s, s.knotes[k].fd)
    ensures ClearAt(Del(s, k, delete).state, s.knotes[k].fd) <==> !(delete && Strands(s, Delete(k)))
  {
    var n, t := s.knotes[k], Del(s, k, delete).state;
    DelDeferred(s, k, delete);
    assert forall u :: u in t.deferred <==> u in s.deferred || (t.deferred != s.deferred && u == FdsFor(s, n.fd).udata);
  }

  lemma DelKnown(s: State, k: nat, delete: bool)
    requires Shaped(s) && Rooted(s, k) && Known(s)
    ensures Known(Del(s, k, delete).state)
    ensures Clear(s) ==> (Clear(Del(s, k, delete).state) <==> !(delete && Strands(s, Delete(k))))
  {
    var t, fd := Del(s, k, delete).state, s.knotes[k].fd;
    DelLocal(s, k, delete);
    DelDeferred(s, k, delete);
    DelKnownAt(s, k, delete);
    KnownLocally(s, t, k, fd);
    if Clear(s) {
      DelAt(s, k, delete);
    }
  }

  // ----- exactly which steps strand a udata ----------------------------------------------------

  /** Only the tree, the kernel and the lists of udatas matter. */
  lemma SameUdatas(s: State, t: State)
    requires t == s.(knotes := t.knotes)
    ensures (Known(s) ==> Known(t)) && (Clear(s) <==> Clear(t))
  {
    assert forall fd :: KnownAt(s, fd) ==> KnownAt(t, fd);
    assert forall fd :: ClearAt(s, fd) <==> ClearAt(t, fd);
  }

  lemma CreateClear(s: State, k: nat, n: Knote)
    requires Shaped(s) && Known(s) && Absent(s, k, n) && Rooted(With(s, k, n), k)
    ensures Known(Created(s, k, n).state) && (Clear(s) ==> Clear(Created(s, k, n).state))
  {
    var s0 := With(s, k, n);
    WithKeeps(s, k, n);
    SameUdatas(s, s0);
    if n.fd in s.open {
      var t := Add(s0, k).state;
      AddShaped(s0, k);
      AddKnown(s0, k);
      assert !Lonely(s0, k);
      SameUdatas(t, Dropped(t, k));
      DelKnown(t, k, false);
    }
  }

  lemma EnableClear(s: State, k: nat)
    requires Shaped(s) && Known(s) && Rooted(s, k)
    ensures Known(EnabledNow(s, k).state) && (Clear(s) ==> (Clear(EnabledNow(s, k).state) <==> !Strands(s, Enable(k))))
  {
    if s.knotes[k].disabled {
      AddKnown(s, k);
      SameUdatas(Add(s, k).state, Marked(Add(s, k).state, k, false));
    }
  }

  lemma TakeClear(s: State, k: nat, delete: bool)
    requires Shaped(s) && Known(s) && Rooted(s, k)
    ensures var t := if delete then DeletedNow(s, k).state else DisabledNow(s, k).state;
      Known(t) && (Clear(s) ==> (Clear(t) <==> !(delete && Strands(s, Delete(k)))))
  {
    var t := Del(s, k, delete).state;
    DelKnown(s, k, delete);
    SameUdatas(t, Marked(t, k, true));
    SameUdatas(t, Dropped(t, k));
  }

  /** Every step keeps registered and deferred udatas apart, except exactly those. */
  lemma StepClear(s: State, op: Op)
    requires Shaped(s) && Known(s) && Enabled(s, op)
    ensures Known(After(s, op)) && (Clear(s) ==> (Clear(After(s, op)) <==> !Strands(s, op)))
  {
    match op
    case Create(k, n) => CreateClear(s, k, n);
    case Enable(k) => EnableClear(s, k);
    case Disable(k) => TakeClear(s, k, false);
    case Delete(k) => TakeClear(s, k, true);
    case Close(fd) =>
      var t := After(s, op);
      assert forall g :: KnownAt(s, g) ==> KnownAt(t, g);
      assert forall g :: ClearAt(s, g) ==> ClearAt(t, g);
    case Open(fd) =>
      var t := After(s, op);
      assert forall g :: KnownAt(s, g) ==> KnownAt(t, g);
      assert forall g :: ClearAt(s, g) ==> ClearAt(t, g);
  }

  lemma {:induction false} RunKnown(ss: seq<State>, ops: seq<Op>)
    requires Run(ss, ops)
    ensures Known(ss[|ops|])
  {
    if ops != [] {
      var m := |ops| - 1;
      RunKnown(ss[..|ops|], ops[..m]);
      RunShaped(ss[..|ops|], ops[..m]);
      StepClear(ss[m], ops[m]);
    }
  }

  lemma RunStep(ss: seq<State>, ops: seq<Op>, i: nat)
    requires Run(ss, ops) && i < |ops| && Clear(ss[i])
    ensures Clear(ss[i + 1]) <==> !Strands(ss[i], ops[i])
  {
    RunKnown(ss[..i + 1], ops[..i]);
    RunShaped(ss[..i + 1], ops[..i]);
    StepClear(ss[i], ops[i]);
  }

  /** Registered and deferred udatas are apart all along a run if and only if no
      step of it strands one. */
  lemma RunClear(ss: seq<State>, ops: seq<Op>)
    requires Run(ss, ops)
    ensures (forall i :: 0 <= i <= |ops| ==> Clear(ss[i])) <==> (forall i :: 0 <= i < |ops| ==> !Strands(ss[i], ops[i]))
  {
    if forall i :: 0 <= i <= |ops| ==> Clear(ss[i]) {
      forall i | 0 <= i < |ops| ensures !Strands(ss[i], ops[i]) {
        RunStep(ss, ops, i);
      }
    }
    if forall i :: 0 <= i < |ops| ==> !Strands(ss[i], ops[i]) {
      assert Clear(START);
      for k := 0 to |ops|
        invariant forall i :: 0 <= i <= k ==> Clear(ss[i])
      {
        RunStep(ss, ops, k);
      }
    }
  }

  /** Then no two descriptors share a udata either. */
  lemma RunApart(ss: seq<State>, ops: seq<Op>, f: int, g: int)
    requires Run(ss, ops) && f != g && f in ss[|ops|].kernel && g in ss[|ops|].kernel
    requires forall i :: 0 <= i < |ops| ==> !Strands(ss[i], ops[i])
    ensures ss[|ops|].kernel[f].udata != ss[|ops|].kernel[g].udata
  {
    var s := ss[|ops|];
    RunClear(ss, ops);
    RunKnown(ss, ops);
    RunShaped(ss, ops);
    assert Clear(s) && KnownAt(s, f) && KnownAt(s, g) && ClearAt(s, f) && ClearAt(s, g);
  }

  /** While the mask is exact no step does. */
  lemma ValidStrandsNothing(s: State, op: Op)
    requires Valid(s)
    ensures !Strands(s, op)
  {
    assert forall fd :: fd in s.kernel ==> Agrees(s, fd);
  }

  /** So runs in which nothing is added disabled never come to it. */
  lemma PlainRunClear(ss: seq<State>, ops: seq<Op>)
    requires Run(ss, ops) && Plain(ops)
    ensures Clear(ss[|ops|])
  {
    forall i | 0 <= i < |ops| ensures !Strands(ss[i], ops[i]) {
      RunValid(ss[..i + 1], ops[..i], 0);
      ValidStrandsNothing(ss[i], ops[i]);
    }
    RunClear(ss, ops);
    assert Clear(ss[|ops|]);
  }

  // ----- no udata is lost ------------------------------------------------------------------------

  ghost predicate HasOwner(s: State, u: nat) {
    u in s.deferred || exists fd :: fd in s.tree && s.tree[fd].udata == u
  }

  /** Every udata ever allocated belongs to an fd_state or waits to be freed, once. */
  ghost predicate Conserved(s: State) {
    Distinct(s.deferred) && forall u: nat :: u < s.supply ==> HasOwner(s, u)
  }

  lemma SameOwners(s: State, t: State)
    requires Conserved(s) && t.tree == s.tree && t.deferred == s.deferred && t.supply == s.supply
    ensures Conserved(t)
  {
    assert forall u :: HasOwner(s, u) ==> HasOwner(t, u);
  }

  lemma AttachConserves(s: State, k: nat)
    requires Conserved(s) && k in s.knotes
    ensures Conserved(Attach(s, k))
  {
    var t, fd := Attach(s, k), s.knotes[k].fd;
    forall u: nat | u < t.supply ensures HasOwner(t, u) {
      if u < s.supply && u !in s.deferred {
        assert HasOwner(s, u);
        var g :| g in s.tree && s.tree[g].udata == u;
        assert g in t.tree && t.tree[g].udata == u;
      } else if u !in s.deferred {
        assert t.tree[fd].udata == u;
      }
    }
  }

  lemma DetachConserves(s: State, k: nat)
    requires Conserved(s) && Owned(s) && k in s.knotes && s.knotes[k].fd in s.tree
    ensures Conserved(Detach(s, k))
  {
    var t, fd := Detach(s, k), s.knotes[k].fd;
    assert forall u :: u in s.deferred ==> u in t.deferred;
    forall u: nat | u < t.supply ensures HasOwner(t, u) {
      assert HasOwner(s, u);
      if u !in s.deferred {
        var g :| g in s.tree && s.tree[g].udata == u;
        if g in t.tree {
          assert t.tree[g].udata == u;
        } else {
          assert t.deferred[|s.deferred|] == u;
        }
      }
    }
    JoinDistinct(s.deferred, [s.tree[fd].udata]);
  }

  lemma AddConserves(s: State, k: nat)
    requires Shaped(s) && Conserved(s) && Rooted(s, k)
    ensures Conserved(Add(s, k).state)
  {
    var a, t := Attach(s, k), Add(s, k).state;
    AttachConserves(s, k);
    AttachKeeps(s, k);
    DetachConserves(a, k);
    if t.tree == a.tree && t.deferred == a.deferred && t.supply == a.supply {
      SameOwners(a, t);
    }
  }

  lemma DelConserves(s: State, k: nat, delete: bool)
    requires Shaped(s) && Conserved(s) && Rooted(s, k)
    ensures Conserved(Del(s, k, delete).state)
  {
    var t := Del(s, k, delete).state;
    if t.tree == s.tree && t.deferred == s.deferred {
      SameOwners(s, t);
    } else {
      DetachConserves(s, k);
      SameOwners(Detach(s, k), t);
    }
  }

  lemma CreateConserves(s: State, k: nat, n: Knote)
    requires Shaped(s) && Conserved(s) && Absent(s, k, n) && Rooted(With(s, k, n), k)
    ensures Conserved(Created(s, k, n).state)
  {
    var s0 := With(s, k, n);
    var r := Add(s0, k);
    WithKeeps(s, k, n);
    SameOwners(s, s0);
    AddConserves(s0, k);
    SameOwners(r.state, Dropped(r.state, k));
    AddShaped(s0, k);
    DelConserves(r.state, k, false);
  }

  lemma StepConserves(s: State, op: Op)
    requires Shaped(s) && Conserved(s) && Enabled(s, op)
    ensures Conserved(After(s, op))
  {
    match op
    case Create(k, n) => CreateConserves(s, k, n);
    case Enable(k) =>
      AddConserves(s, k);
      SameOwners(Add(s, k).state, Marked(Add(s, k).state, k, false));
    case Disable(k) =>
      DelConserves(s, k, false);
      SameOwners(Del(s, k, false).state, Marked(Del(s, k, false).state, k, true));
    case Delete(k) =>
      DelConserves(s, k, true);
      SameOwners(Del(s, k, true).state, After(s, op));
    case Close(_) => SameOwners(s, After(s, op));
    case Open(_) => SameOwners(s, After(s, op));
  }

  /** In every run, none is forgotten. */
  lemma {:induction false} RunConserves(ss: seq<State>, ops: seq<Op>)
    requires Run(ss, ops)
    ensures Conserved(ss[|ops|])
  {
    if ops != [] {
      var m := |ops| - 1;
      RunConserves(ss[..|ops|], ops[..m]);
      RunShaped(ss[..|ops|], ops[..m]);
      StepConserves(ss[m], ops[m]);
    }
  }
}
