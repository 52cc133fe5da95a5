/** One epoll registration shared by the read and the write knote of a
    descriptor: epoll_update and its callers (src/linux/platform.c,
    src/linux/read.c, src/linux/write.c).

    Knotes, descriptors and udatas are named by numbers; the kernel's interest
    list is a map from descriptors to what was registered. */
module FdMux {
  import opened Lists

  datatype Dir = Read | Write

  /** EPOLLIN, EPOLLOUT and the option bits EPOLLET and EPOLLRDHUP. */
  datatype Ev = Ev(rd: bool, wr: bool, et: bool, rdhup: bool)

  const NONE := Ev(false, false, false, false)

  function Bit(d: Dir): Ev {
    Ev(d.Read?, d.Write?, false, false)
  }

  predicate Has(e: Ev, d: Dir) {
    if d.Read? then e.rd else e.wr
  }

  function Or(a: Ev, b: Ev): Ev {
    Ev(a.rd || b.rd, a.wr || b.wr, a.et || b.et, a.rdhup || b.rdhup)
  }

  function AndNot(a: Ev, b: Ev): Ev {
    Ev(a.rd && !b.rd, a.wr && !b.wr, a.et && !b.et, a.rdhup && !b.rdhup)
  }

  function InOut(e: Ev): Ev {
    e.(et := false, rdhup := false)
  }

  function Events(d: Dir, clear: bool): Ev {
    if d.Read? then Ev(true, false, clear, true) else Ev(false, true, clear, false)
  }

  datatype Knote = Knote(fd: int, dir: Dir, clear: bool, disabled: bool, eof: bool, attached: bool)
  datatype Fds = Fds(read: Option<nat>, write: Option<nat>, udata: nat)
  datatype Reg = Reg(ev: Ev, udata: nat)

  function Slot(f: Fds, d: Dir): Option<nat> {
    if d.Read? then f.read else f.write
  }

  function WithSlot(f: Fds, d: Dir, o: Option<nat>): Fds {
    if d.Read? then f.(read := o) else f.(write := o)
  }

  datatype State = State(knotes: map<nat, Knote>, tree: map<int, Fds>, kernel: map<int, Reg>, open: set<int>,
                         deferred: seq<nat>, supply: nat)

  predicate Off(n: Knote) {
    n.disabled || n.eof
  }

  // ----- the kernel ----------------------------------------------------------------

  datatype Ctl = CtlAdd | CtlMod | CtlDel
  datatype Errno = Success | EBADF | ENOENT | EEXIST

  function CtlError(kernel: map<int, Reg>, open: set<int>, op: Ctl, fd: int): Errno {
    if fd !in open then EBADF
    else if op.CtlAdd? then (if fd in kernel then EEXIST else Success)
    else if fd !in kernel then ENOENT else Success
  }

  function CtlDone(kernel: map<int, Reg>, op: Ctl, fd: int, reg: Reg): map<int, Reg> {
    if op.CtlDel? then kernel - {fd} else kernel[fd := reg]
  }

  // ----- fd_state ------------------------------------------------------------------

  predicate SlotIs(knotes: map<nat, Knote>, o: Option<nat>, off: bool) {
    o.Some? && o.value in knotes && off == Off(knotes[o.value])
  }

  /** epoll_fd_state: which directions of fd have an enabled (or a disabled) knote. */
  function FdState(s: State, fd: int, off: bool): Ev {
    if fd !in s.tree then NONE
    else Ev(SlotIs(s.knotes, s.tree[fd].read, off), SlotIs(s.knotes, s.tree[fd].write, off), false, false)
  }

  // ----- what must hold --------------------------------------------------------------

  /** A slot names an attached knote of that descriptor and direction. */
  ghost predicate SlotOk(s: State, fd: int, d: Dir) {
    fd in s.tree && Slot(s.tree[fd], d).Some? ==>
      var k := Slot(s.tree[fd], d).value;
      k in s.knotes && s.knotes[k].fd == fd && s.knotes[k].dir == d && s.knotes[k].attached
  }

  ghost predicate Attached(s: State, k: nat)
    requires k in s.knotes
  {
    var n := s.knotes[k];
    n.attached && n.fd in s.tree && Slot(s.tree[n.fd], n.dir) == Some(k)
  }

  ghost predicate Linked(s: State) {
    && (forall fd, d :: SlotOk(s, fd, d))
    && (forall fd :: fd in s.tree ==> s.tree[fd].read.Some? || s.tree[fd].write.Some?)
    && (forall k :: k in s.knotes && s.knotes[k].attached ==> Attached(s, k))
  }

  /** At most one knote per filter and descriptor: the knote index is a set. */
  ghost predicate Unique(knotes: map<nat, Knote>) {
    forall j, k ::
      j in knotes && k in knotes && knotes[j].fd == knotes[k].fd && knotes[j].dir == knotes[k].dir ==> j == k
  }

  ghost predicate Owned(s: State) {
    && (forall u :: u in s.deferred ==> u < s.supply)
    && (forall fd :: fd in s.tree ==> s.tree[fd].udata < s.supply && s.tree[fd].udata !in s.deferred)
    && (forall f, g :: f in s.tree && g in s.tree && s.tree[f].udata == s.tree[g].udata ==> f == g)
  }

  ghost predicate Shaped(s: State) {
    Linked(s) && Unique(s.knotes) && Owned(s)
  }

  /** What the kernel has for fd is the union of the enabled knotes attached to
      it, under the udata of the fd_state in the tree. */
  ghost predicate Agrees(s: State, fd: int) {
    fd in s.kernel ==>
      && InOut(s.kernel[fd].ev) == FdState(s, fd, false) != NONE
      && s.kernel[fd].udata == s.tree[fd].udata
  }

  /** The descriptor was closed under an enabled knote. */
  ghost predicate Lost(s: State, fd: int) {
    fd !in s.kernel && FdState(s, fd, false) != NONE
  }

  ghost predicate Valid(s: State) {
    && Shaped(s)
    && (forall fd :: fd in s.kernel ==> Agrees(s, fd) && fd in s.open)
    && (forall k :: k in s.knotes ==> !s.knotes[k].eof && (s.knotes[k].disabled || s.knotes[k].attached))
  }

  /** The reference: no slot and no tree, only the knotes themselves. */
  ghost predicate Wanted(s: State, fd: int, d: Dir) {
    exists k :: k in s.knotes && s.knotes[k].fd == fd && s.knotes[k].dir == d && !Off(s.knotes[k])
  }

  /** The mask refines the union of the enabled knotes, unless fd is lost. */
  lemma MaskIsUnion(s: State, fd: int, d: Dir)
    requires Valid(s) && !Lost(s, fd)
    ensures (fd in s.kernel && Has(s.kernel[fd].ev, d)) <==> Wanted(s, fd, d)
  {
    StateIsWanted(s, fd, d);
  }

  lemma StateIsWanted(s: State, fd: int, d: Dir)
    requires Valid(s)
    ensures Has(FdState(s, fd, false), d) <==> Wanted(s, fd, d)
  {
    if Has(FdState(s, fd, false), d) {
      assert SlotOk(s, fd, d);
      assert Slot(s.tree[fd], d).value in s.knotes;
    }
    if Wanted(s, fd, d) {
      var k :| k in s.knotes && s.knotes[k].fd == fd && s.knotes[k].dir == d && !Off(s.knotes[k]);
      assert Attached(s, k);
    }
  }

  /** An fd_state exists exactly while a knote is attached. */
  lemma TreeIsAttached(s: State, fd: int)
    requires Linked(s)
    ensures fd in s.tree <==> exists k :: k in s.knotes && s.knotes[k].fd == fd && s.knotes[k].attached
  {
    if fd in s.tree {
      assert SlotOk(s, fd, Read) && SlotOk(s, fd, Write);
      var k := if s.tree[fd].read.Some? then s.tree[fd].read.value else s.tree[fd].write.value;
      assert k in s.knotes;
    }
  }

  /** A udata handed to epoll_udata_defer_free is not registered any more, which
      is how Epochs.Delete takes it out of the kernel; no two descriptors share one. */
  lemma RegisteredNotDeferred(s: State, f: int, g: int)
    requires Valid(s) && f in s.kernel && g in s.kernel
    ensures s.kernel[f].udata !in s.deferred && (f != g ==> s.kernel[f].udata != s.kernel[g].udata)
  {
    assert Agrees(s, f) && Agrees(s, g);
  }

  // ----- attaching and detaching ----------------------------------------------------

  /** The fd_state of fd, or the empty one that would be allocated for it. */
  function FdsFor(s: State, fd: int): Fds {
    if fd in s.tree then s.tree[fd] else Fds(None, None, s.supply)
  }

  function Attach(s: State, k: nat): State
    requires k in s.knotes
  {
    var n := s.knotes[k];
    s.(knotes := s.knotes[k := n.(attached := true)],
       tree := s.tree[n.fd := WithSlot(FdsFor(s, n.fd), n.dir, Some(k))],
       supply := if n.fd in s.tree then s.supply else s.supply + 1)
  }

  function Detach(s: State, k: nat): State
    requires k in s.knotes && s.knotes[k].fd in s.tree
  {
    var n := s.knotes[k];
    var f := WithSlot(s.tree[n.fd], n.dir, None);
    var t := s.(knotes := s.knotes[k := n.(attached := false)]);
    if f.read.None? && f.write.None? then t.(tree := s.tree - {n.fd}, deferred := s.deferred + [f.udata])
    else t.(tree := s.tree[n.fd := f])
  }

  lemma AttachSlots(s: State, k: nat)
    requires Shaped(s) && k in s.knotes
    ensures Linked(Attach(s, k))
  {
    var t, n := Attach(s, k), s.knotes[k];
    forall fd, d ensures SlotOk(t, fd, d) {
      assert SlotOk(s, fd, d);
    }
    forall j | j in t.knotes && t.knotes[j].attached ensures Attached(t, j) {
      assert j != k ==> Attached(s, j);
    }
  }

  lemma AttachKeeps(s: State, k: nat)
    requires Shaped(s) && k in s.knotes
    ensures Shaped(Attach(s, k))
  {
    AttachSlots(s, k);
  }

  lemma DetachSlots(s: State, k: nat)
    requires Shaped(s) && k in s.knotes && Attached(s, k)
    ensures Linked(Detach(s, k))
  {
    var t, n := Detach(s, k), s.knotes[k];
    forall fd, d ensures SlotOk(t, fd, d) {
      assert SlotOk(s, fd, d);
    }
    forall j | j in t.knotes && t.knotes[j].attached ensures Attached(t, j) {
      assert j != k && Attached(s, j);
    }
  }

  lemma DetachKeeps(s: State, k: nat)
    requires Shaped(s) && k in s.knotes && Attached(s, k)
    ensures Shaped(Detach(s, k))
  {
    DetachSlots(s, k);
    assert forall u :: u in Detach(s, k).deferred ==> u in s.deferred || u == s.tree[s.knotes[k].fd].udata;
  }

  // ----- epoll_update -----------------------------------------------------------------

  /** k alone may hold its slot, and its kn_fds is set just then. */
  predicate Rooted(s: State, k: nat) {
    && k in s.knotes
    && var n := s.knotes[k];
      if n.fd in s.tree && Slot(s.tree[n.fd], n.dir).Some?
      then n.attached && Slot(s.tree[n.fd], n.dir) == Some(k) && s.tree[n.fd].read != s.tree[n.fd].write
      else !n.attached && (n.fd in s.tree ==> Some(k) !in {s.tree[n.fd].read, s.tree[n.fd].write})
  }

  datatype Outcome = Outcome(state: State, ok: bool)

  /** EPOLL_CTL_ADD, as kn_create and kn_enable call it. */
  function Add(s: State, k: nat): (r: Outcome)
    requires Rooted(s, k)
    ensures Rooted(r.state, k)
  {
    var n := s.knotes[k];
    var have, a := FdState(s, n.fd, false), Attach(s, k);
    var reg := Reg(Or(have, Events(n.dir, n.clear)), a.tree[n.fd].udata);
    var op := if have == NONE then CtlAdd else CtlMod;
    if Has(have, n.dir) then Outcome(s, true)
    else if CtlError(s.kernel, s.open, op, n.fd).Success? then
      Outcome(a.(kernel := CtlDone(s.kernel, op, n.fd, reg)), true)
    else Outcome(if have == NONE then Detach(a, k) else s, false)
  }

  /** EPOLL_CTL_DEL, as kn_disable (delete false) and kn_delete (delete true) call it. */
  function Del(s: State, k: nat, delete: bool): (r: Outcome)
    requires Rooted(s, k)
    ensures Rooted(r.state, k)
  {
    var n := s.knotes[k];
    var have := FdState(s, n.fd, false);
    var want := AndNot(have, Bit(n.dir));
    if have == want then
      Outcome(if delete && Has(FdState(s, n.fd, true), n.dir) then Detach(s, k) else s, true)
    else
      var op := if want == NONE then CtlDel else CtlMod;
      if CtlError(s.kernel, s.open, op, n.fd).Success? then
        var t := s.(kernel := CtlDone(s.kernel, op, n.fd, Reg(want, s.tree[n.fd].udata)));
        Outcome(if delete then Detach(t, k) else t, true)
      else Outcome(Detach(s, k), true)
  }

  /** The same, except for k and for what fd has in the tree and in the kernel. */
  ghost predicate Local(s: State, t: State, k: nat, fd: int) {
    && t.open == s.open
    && (forall j :: j != k ==> (j in t.knotes <==> j in s.knotes))
    && (forall j :: j != k && j in s.knotes ==> t.knotes[j] == s.knotes[j])
    && (forall g :: g != fd ==> (g in t.tree <==> g in s.tree) && (g in t.kernel <==> g in s.kernel))
    && (forall g :: g != fd && g in s.tree ==> t.tree[g] == s.tree[g])
    && (forall g :: g != fd && g in s.kernel ==> t.kernel[g] == s.kernel[g])
  }

  /** A change local to k leaves every other descriptor's mask alone. */
  lemma Elsewhere(s: State, t: State, k: nat, fd: int, g: int, off: bool)
    requires Linked(s) && Local(s, t, k, fd) && g != fd
    requires k in s.knotes ==> s.knotes[k].fd == fd
    ensures FdState(t, g, off) == FdState(s, g, off)
  {
    assert SlotOk(s, g, Read) && SlotOk(s, g, Write);
  }

  lemma ShapeIgnoresKernel(s: State, kernel: map<int, Reg>)
    requires Shaped(s)
    ensures Shaped(s.(kernel := kernel))
  {
    var t := s.(kernel := kernel);
    assert forall fd, d :: SlotOk(s, fd, d) ==> SlotOk(t, fd, d);
    assert forall k :: k in s.knotes && Attached(s, k) ==> Attached(t, k);
  }

  lemma AddShaped(s: State, k: nat)
    requires Shaped(s) && Rooted(s, k)
    ensures Shaped(Add(s, k).state)
  {
    var a := Attach(s, k);
    AttachKeeps(s, k);
    DetachKeeps(a, k);
    ShapeIgnoresKernel(a, Add(s, k).state.kernel);
  }

  lemma AttachLocal(s: State, k: nat)
    requires k in s.knotes
    ensures Local(s, Attach(s, k), k, s.knotes[k].fd)
  {
  }

  lemma DetachLocal(s: State, k: nat)
    requires k in s.knotes && s.knotes[k].fd in s.tree
    ensures Local(s, Detach(s, k), k, s.knotes[k].fd)
  {
  }

  lemma AddLocal(s: State, k: nat)
    requires Rooted(s, k)
    ensures Local(s, Add(s, k).state, k, s.knotes[k].fd)
  {
    AttachLocal(s, k);
    DetachLocal(Attach(s, k), k);
  }

  lemma DelLocal(s: State, k: nat, delete: bool)
    requires Rooted(s, k)
    ensures Local(s, Del(s, k, delete).state, k, s.knotes[k].fd)
  {
    var n := s.knotes[k];
    if n.attached {
      DetachLocal(s, k);
    }
  }

  lemma DelShaped(s: State, k: nat, delete: bool)
    requires Shaped(s) && Rooted(s, k)
    ensures Shaped(Del(s, k, delete).state)
  {
    var r := Del(s, k, delete);
    if s.knotes[k].attached {
      DetachKeeps(s, k);
      ShapeIgnoresKernel(Detach(s, k), r.state.kernel);
      ShapeIgnoresKernel(s, r.state.kernel);
    }
  }

  predicate AddGoes(s: State, k: nat)
    requires k in s.knotes
  {
    var n := s.knotes[k];
    n.fd in s.open && (n.fd in s.kernel <==> FdState(s, n.fd, false) != NONE)
  }

  lemma AddDone(s: State, k: nat)
    requires Rooted(s, k) && !Has(FdState(s, s.knotes[k].fd, false), s.knotes[k].dir) && AddGoes(s, k)
    ensures var r, n := Add(s, k), s.knotes[k];
      && r.ok && r.state.knotes[k] == n.(attached := true) && n.fd in r.state.kernel && n.fd in r.state.tree
      && r.state.kernel[n.fd] == Reg(Or(FdState(s, n.fd, false), Events(n.dir, n.clear)), r.state.tree[n.fd].udata)
      && r.state.tree[n.fd] == WithSlot(FdsFor(s, n.fd), n.dir, Some(k))
  {
  }

  lemma AddRefused(s: State, k: nat)
    requires Shaped(s) && Rooted(s, k) && !Has(FdState(s, s.knotes[k].fd, false), s.knotes[k].dir) && !AddGoes(s, k)
    ensures var r, n := Add(s, k), s.knotes[k];
      && !r.ok && r.state.kernel == s.kernel
      && r.state.knotes[k] == n.(attached := n.attached && FdState(s, n.fd, false) != NONE)
  {
  }

  // ----- the filter operations ----------------------------------------------------------

  function Marked(s: State, k: nat, disabled: bool): State
    requires k in s.knotes
  {
    s.(knotes := s.knotes[k := s.knotes[k].(disabled := disabled)])
  }

  function Dropped(s: State, k: nat): State {
    s.(knotes := s.knotes - {k})
  }

  /** EV_ADD of a new knote.  A closed descriptor is noticed first, when its type
      is asked for.  A knote added disabled is armed first and then disabled, with
      EV_DISABLE already in its flags. */
  function Created(s: State, k: nat, n: Knote): Outcome
    requires Rooted(With(s, k, n), k)
  {
    var r := Add(With(s, k, n), k);
    if n.fd !in s.open then Outcome(s, false)
    else if !r.ok then Outcome(Dropped(r.state, k), false)
    else if n.disabled then Del(r.state, k, false)
    else r
  }

  /** knote_enable, knote_disable and knote_delete. */
  function EnabledNow(s: State, k: nat): Outcome
    requires Rooted(s, k)
  {
    var r := Add(s, k);
    if !s.knotes[k].disabled then Outcome(s, true)
    else if r.ok then Outcome(Marked(r.state, k, false), true)
    else r
  }

  function DisabledNow(s: State, k: nat): Outcome
    requires Rooted(s, k)
  {
    var r := Del(s, k, false);
    if s.knotes[k].disabled then Outcome(s, true)
    else if r.ok then Outcome(Marked(r.state, k, true), true)
    else r
  }

  function DeletedNow(s: State, k: nat): Outcome
    requires Rooted(s, k)
  {
    var r := Del(s, k, true);
    Outcome(Dropped(r.state, k), r.ok)
  }

  // ----- each keeps the mask --------------------------------------------------------------

  lemma MarkKeeps(s: State, k: nat, disabled: bool)
    requires Shaped(s) && k in s.knotes
    ensures Shaped(Marked(s, k, disabled))
  {
    var t := Marked(s, k, disabled);
    assert forall fd, d :: SlotOk(s, fd, d) ==> SlotOk(t, fd, d);
    assert forall j :: j in s.knotes && Attached(s, j) ==> Attached(t, j);
  }

  lemma DropKeeps(s: State, k: nat)
    requires Shaped(s) && (k in s.knotes ==> !s.knotes[k].attached)
    ensures Shaped(Dropped(s, k))
  {
    var t := Dropped(s, k);
    assert forall fd, d :: SlotOk(s, fd, d) ==> SlotOk(t, fd, d);
    assert forall j :: j in t.knotes && Attached(s, j) ==> Attached(t, j);
  }

  lemma ShapedRoots(s: State, k: nat)
    requires Shaped(s) && k in s.knotes
    ensures Rooted(s, k)
  {
    var n := s.knotes[k];
    assert SlotOk(s, n.fd, Read) && SlotOk(s, n.fd, Write);
    assert n.attached ==> Attached(s, k);
  }

  ghost predicate Fine(s: State, k: nat) {
    k in s.knotes ==> !s.knotes[k].eof && (s.knotes[k].disabled || s.knotes[k].attached)
  }

  /** The step kept the invariant and lost no registration. */
  ghost predicate Kept(s: State, t: State) {
    Valid(t) && forall g :: Lost(t, g) ==> Lost(s, g)
  }

  /** A change local to one knote need only be checked at its descriptor. */
  lemma LocalKept(s: State, t: State, k: nat, fd: int)
    requires Valid(s) && Shaped(t) && Local(s, t, k, fd) && (k in s.knotes ==> s.knotes[k].fd == fd)
    requires Agrees(t, fd) && (fd in t.kernel ==> fd in t.open) && Fine(t, k) && (Lost(t, fd) ==> Lost(s, fd))
    ensures Kept(s, t)
  {
    forall g | g != fd ensures Lost(t, g) == Lost(s, g) && (g in t.kernel ==> Agrees(t, g) && g in t.open) {
      Elsewhere(s, t, k, fd, g, false);
      assert g in s.kernel ==> Agrees(s, g) && g in s.open;
    }
    assert forall j :: j in t.knotes ==> Fine(t, j) by {
      assert forall j :: j in s.knotes ==> Fine(s, j);
    }
  }

  /** The directions of fd after k was attached and, then or before, marked. */
  lemma StateWith(s: State, t: State, k: nat, n: Knote)
    requires Shaped(s) && Local(s, t, k, n.fd) && k in t.knotes && t.knotes[k] == n
    requires k in s.knotes ==> s.knotes[k].fd == n.fd && s.knotes[k].dir == n.dir
    requires n.fd in t.tree && t.tree[n.fd] == WithSlot(FdsFor(s, n.fd), n.dir, Some(k))
    ensures FdState(t, n.fd, false) ==
      if Off(n) then AndNot(FdState(s, n.fd, false), Bit(n.dir)) else Or(FdState(s, n.fd, false), Bit(n.dir))
  {
    assert SlotOk(s, n.fd, Read) && SlotOk(s, n.fd, Write);
  }

  /** ... and after it was detached or marked disabled. */
  lemma StateWithout(s: State, t: State, k: nat, fd: int, d: Dir)
    requires Shaped(s) && Local(s, t, k, fd) && Rooted(s, k) && s.knotes[k].fd == fd && s.knotes[k].dir == d
    requires k in t.knotes ==> Off(t.knotes[k])
    requires FdsFor(t, fd).(udata := 0) in {FdsFor(s, fd).(udata := 0), WithSlot(FdsFor(s, fd), d, None).(udata := 0)}
    ensures FdState(t, fd, false) == AndNot(FdState(s, fd, false), Bit(d))
  {
    assert SlotOk(s, fd, Read) && SlotOk(s, fd, Write);
    var f := FdsFor(t, fd);
    assert fd in t.tree ==> f == t.tree[fd];
  }

  lemma EnableGoes(s: State, k: nat)
    requires Valid(s) && Rooted(s, k) && s.knotes[k].disabled && AddGoes(s, k)
    ensures Kept(s, EnabledNow(s, k).state) && EnabledNow(s, k).ok
  {
    var r, n := Add(s, k), s.knotes[k];
    AddShaped(s, k);
    AddLocal(s, k);
    var t := EnabledNow(s, k).state;
    AddDone(s, k);
    MarkKeeps(r.state, k, false);
    StateWith(s, t, k, n.(attached := true, disabled := false));
    LocalKept(s, t, k, n.fd);
  }

  lemma EnableRefused(s: State, k: nat)
    requires Valid(s) && Rooted(s, k) && s.knotes[k].disabled && !AddGoes(s, k)
    ensures Kept(s, EnabledNow(s, k).state) && !EnabledNow(s, k).ok
  {
    var t, n := EnabledNow(s, k).state, s.knotes[k];
    AddShaped(s, k);
    AddLocal(s, k);
    AddRefused(s, k);
    LocalKept(s, t, k, n.fd);
  }

  lemma DelLive(s: State, k: nat, delete: bool)
    requires Valid(s) && Rooted(s, k) && !s.knotes[k].disabled
    ensures var r, n := Del(s, k, delete), s.knotes[k];
      var want := AndNot(FdState(s, n.fd, false), Bit(n.dir));
      && r.ok && r.state.knotes[k] == n.(attached := !delete && !Lost(s, n.fd))
      && (n.fd in r.state.kernel <==> n.fd in s.kernel && want != NONE)
      && (n.fd in r.state.kernel ==> r.state.kernel[n.fd] == Reg(want, s.tree[n.fd].udata))
      && (n.fd in r.state.tree ==> n.fd in s.tree && r.state.tree[n.fd].udata == s.tree[n.fd].udata)
      && FdsFor(r.state, n.fd).(udata := 0) in
           {FdsFor(s, n.fd).(udata := 0), WithSlot(FdsFor(s, n.fd), n.dir, None).(udata := 0)}
  {
    assert Fine(s, k) && (s.knotes[k].fd in s.kernel ==> Agrees(s, s.knotes[k].fd));
  }

  lemma DisableKeeps(s: State, k: nat)
    requires Valid(s) && Rooted(s, k)
    ensures Kept(s, DisabledNow(s, k).state) && DisabledNow(s, k).ok
  {
    var r, n := Del(s, k, false), s.knotes[k];
    if !n.disabled {
      DelShaped(s, k, false);
      DelLocal(s, k, false);
      DelLive(s, k, false);
      MarkKeeps(r.state, k, true);
      var t := Marked(r.state, k, true);
      StateWithout(s, t, k, n.fd, n.dir);
      LocalKept(s, t, k, n.fd);
    }
  }

  lemma DelOff(s: State, k: nat)
    requires Valid(s) && Rooted(s, k) && s.knotes[k].disabled
    ensures var r, n := Del(s, k, true), s.knotes[k];
      && r.ok && r.state.knotes[k] == n.(attached := false) && r.state.kernel == s.kernel
      && (n.fd in r.state.tree ==> n.fd in s.tree && r.state.tree[n.fd].udata == s.tree[n.fd].udata)
      && FdsFor(r.state, n.fd).(udata := 0) in
           {FdsFor(s, n.fd).(udata := 0), WithSlot(FdsFor(s, n.fd), n.dir, None).(udata := 0)}
      && AndNot(FdState(s, n.fd, false), Bit(n.dir)) == FdState(s, n.fd, false)
  {
  }

  /** Deletion always succeeds and never leaves the knote in a slot. */
  lemma DeleteKeeps(s: State, k: nat)
    requires Valid(s) && Rooted(s, k)
    ensures Kept(s, DeletedNow(s, k).state) && DeletedNow(s, k).ok
  {
    var r, n, t := Del(s, k, true), s.knotes[k], DeletedNow(s, k).state;
    DelShaped(s, k, true);
    DelLocal(s, k, true);
    if n.disabled {
      DelOff(s, k);
      assert n.fd in s.kernel ==> Agrees(s, n.fd);
    } else {
      DelLive(s, k, true);
    }
    DropKeeps(r.state, k);
    StateWithout(s, t, k, n.fd, n.dir);
    LocalKept(s, t, k, n.fd);
  }

  // ----- creation ---------------------------------------------------------------------------

  ghost predicate Absent(s: State, k: nat, n: Knote) {
    && k !in s.knotes && !n.attached
    && forall j :: j in s.knotes ==> s.knotes[j].fd != n.fd || s.knotes[j].dir != n.dir
  }

  function With(s: State, k: nat, n: Knote): State {
    s.(knotes := s.knotes[k := n])
  }

  lemma WithKeeps(s: State, k: nat, n: Knote)
    requires Shaped(s) && Absent(s, k, n)
    ensures Shaped(With(s, k, n)) && Rooted(With(s, k, n), k)
    ensures FdState(With(s, k, n), n.fd, false) == FdState(s, n.fd, false) && !Has(FdState(s, n.fd, false), n.dir)
  {
    var t := With(s, k, n);
    assert forall fd, d :: SlotOk(s, fd, d) ==> SlotOk(t, fd, d);
    assert forall j :: j in s.knotes && Attached(s, j) ==> Attached(t, j);
    assert SlotOk(s, n.fd, Read) && SlotOk(s, n.fd, Write);
  }

  /** A new knote is armed exactly when its descriptor is open and not lost. */
  lemma CreateOk(s: State, k: nat, n: Knote)
    requires Valid(s) && Absent(s, k, n)
    ensures Rooted(With(s, k, n), k)
    ensures Created(s, k, n).ok <==> n.fd in s.open && !Lost(s, n.fd)
    ensures Created(s, k, n).ok ==> Created(s, k, n).state == Add(With(s, k, n), k).state
  {
    var s0 := With(s, k, n);
    WithKeeps(s, k, n);
    assert n.fd in s.kernel ==> Agrees(s, n.fd);
    if n.fd !in s.open {
    } else if AddGoes(s0, k) {
      AddDone(s0, k);
      AddShaped(s0, k);
      AddLocal(s0, k);
      if n.disabled {
        StateWith(s0, Add(s0, k).state, k, n.(attached := true));
      }
    } else {
      AddRefused(s0, k);
    }
  }

  lemma CreateArms(s: State, k: nat, n: Knote)
    requires Valid(s) && Absent(s, k, n) && n.fd in s.open && !Lost(s, n.fd)
    ensures Rooted(With(s, k, n), k)
    ensures var t := Created(s, k, n).state; Agrees(t, n.fd) <==> !Off(n)
    ensures !Off(n) ==> Kept(s, Created(s, k, n).state)
  {
    WithKeeps(s, k, n);
    CreateOk(s, k, n);
    var s0, t := With(s, k, n), Add(With(s, k, n), k).state;
    assert n.fd in s.kernel ==> Agrees(s, n.fd);
    AddDone(s0, k);
    AddShaped(s0, k);
    AddLocal(s0, k);
    StateWith(s0, t, k, n.(attached := true));
    if !Off(n) {
      LocalKept(s, t, k, n.fd);
    }
  }

  /** A refused knote leaves no trace. */
  lemma CreateRefused(s: State, k: nat, n: Knote)
    requires Valid(s) && Absent(s, k, n) && !(n.fd in s.open && !Lost(s, n.fd))
    ensures Rooted(With(s, k, n), k) && Created(s, k, n) == Outcome(s, false)
  {
    WithKeeps(s, k, n);
    if n.fd in s.open {
      AddRefused(With(s, k, n), k);
      assert With(s, k, n).knotes - {k} == s.knotes;
    }
  }

  /** EV_ADD keeps the mask equal to the enabled knotes exactly when it does not
      carry EV_DISABLE (or EV_EOF), or is refused. */
  lemma CreateExact(s: State, k: nat, n: Knote)
    requires Valid(s) && Absent(s, k, n)
    ensures Rooted(With(s, k, n), k)
    ensures Kept(s, Created(s, k, n).state) <==> !Off(n) || n.fd !in s.open || Lost(s, n.fd)
  {
    if n.fd in s.open && !Lost(s, n.fd) {
      CreateArms(s, k, n);
      CreateOk(s, k, n);
      AddDone(With(s, k, n), k);
    } else {
      CreateRefused(s, k, n);
    }
  }

  lemma EnableExact(s: State, k: nat)
    requires Valid(s) && Rooted(s, k)
    ensures Kept(s, EnabledNow(s, k).state)
    ensures EnabledNow(s, k).ok <==> !s.knotes[k].disabled || (s.knotes[k].fd in s.open && !Lost(s, s.knotes[k].fd))
  {
    var n := s.knotes[k];
    assert n.fd in s.kernel ==> Agrees(s, n.fd);
    if n.disabled {
      if AddGoes(s, k) {
        EnableGoes(s, k);
      } else {
        EnableRefused(s, k);
      }
    }
  }

  /** EBADF and ENOENT: the knote is detached, and the descriptor stays lost only
      while its other direction is wanted. */
  lemma LostRecovers(s: State, k: nat)
    requires Valid(s) && Rooted(s, k) && !s.knotes[k].disabled && Lost(s, s.knotes[k].fd)
    ensures var t, n := DisabledNow(s, k).state, s.knotes[k];
      && k in t.knotes && t.knotes[k] == n.(attached := false, disabled := true) && t.kernel == s.kernel
      && (Lost(t, n.fd) <==> FdState(s, n.fd, false) != Bit(n.dir))
  {
    var r, n := Del(s, k, false), s.knotes[k];
    var t := Marked(r.state, k, true);
    DelLocal(s, k, false);
    DelLive(s, k, false);
    StateWithout(s, t, k, n.fd, n.dir);
    assert Fine(s, k) && Has(FdState(s, n.fd, false), n.dir);
  }

  // ----- whole runs ---------------------------------------------------------------------------

  datatype Op =
    | Create(k: nat, n: Knote)
    | Enable(k: nat)
    | Disable(k: nat)
    | Delete(k: nat)
    | Close(fd: int)
    | Open(fd: int)

  ghost predicate Enabled(s: State, op: Op) {
    match op
    case Create(k, n) => Absent(s, k, n) && Rooted(With(s, k, n), k)
    case Enable(k) => Rooted(s, k)
    case Disable(k) => Rooted(s, k)
    case Delete(k) => Rooted(s, k)
    case _ => true
  }

  /** That only asks for a knote of the index, or a new one. */
  lemma EnabledMeans(s: State, op: Op)
    requires Shaped(s)
    ensures Enabled(s, op) <==>
      match op
      case Create(k, n) => Absent(s, k, n)
      case Close(_) => true
      case Open(_) => true
      case _ => op.k in s.knotes
  {
    match op
    case Create(k, n) =>
      if Absent(s, k, n) {
        WithKeeps(s, k, n);
      }
    case Close(_) =>
    case Open(_) =>
    case _ =>
      if op.k in s.knotes {
        ShapedRoots(s, op.k);
      }
  }

  ghost function After(s: State, op: Op): State
    requires Enabled(s, op)
  {
    match op
    case Create(k, n) => Created(s, k, n).state
    case Enable(k) => EnabledNow(s, k).state
    case Disable(k) => DisabledNow(s, k).state
    case Delete(k) => DeletedNow(s, k).state
    case Close(fd) => s.(open := s.open - {fd}, kernel := s.kernel - {fd})
    case Open(fd) => s.(open := s.open + {fd})
  }

  const START := State(map[], map[], map[], {}, [], 0)

  /** The states of a run, each an enabled step from the one before. */
  ghost predicate Run(ss: seq<State>, ops: seq<Op>) {
    && |ss| == |ops| + 1 && ss[0] == START
    && forall i :: 0 <= i < |ops| ==> Enabled(ss[i], ops[i]) && ss[i + 1] == After(ss[i], ops[i])
  }

  lemma CloseKeeps(s: State, fd: int)
    requires Valid(s)
    ensures var t := After(s, Close(fd)); Valid(t) && forall g :: Lost(t, g) ==> Lost(s, g) || g == fd
  {
    var t := After(s, Close(fd));
    ShapeIgnoresKernel(s, t.kernel);
    ShapeIgnoresOpen(s.(kernel := t.kernel), t.open);
    assert forall g :: FdState(t, g, false) == FdState(s, g, false);
    assert forall g :: g in t.kernel ==> Agrees(s, g);
  }

  lemma ShapeIgnoresOpen(s: State, open: set<int>)
    requires Shaped(s)
    ensures Shaped(s.(open := open))
  {
    var t := s.(open := open);
    assert forall fd, d :: SlotOk(s, fd, d) ==> SlotOk(t, fd, d);
    assert forall k :: k in s.knotes && Attached(s, k) ==> Attached(t, k);
  }

  lemma OpenKeeps(s: State, fd: int)
    requires Valid(s)
    ensures Kept(s, After(s, Open(fd)))
  {
    var t := After(s, Open(fd));
    ShapeIgnoresOpen(s, t.open);
    assert forall g :: FdState(t, g, false) == FdState(s, g, false);
    assert forall g :: g in t.kernel ==> Agrees(s, g);
  }

  lemma StepKeeps(s: State, op: Op, fd: int)
    requires Valid(s) && Enabled(s, op) && (op.Create? ==> !Off(op.n))
    ensures Valid(After(s, op)) && (Lost(After(s, op), fd) ==> Lost(s, fd) || op == Close(fd))
  {
    match op
    case Create(k, n) => CreateExact(s, k, n);
    case Enable(k) => EnableExact(s, k);
    case Disable(k) => DisableKeeps(s, k);
    case Delete(k) => DeleteKeeps(s, k);
    case Close(g) => CloseKeeps(s, g);
    case Open(g) => OpenKeeps(s, g);
  }

  lemma {:induction false} RunValid(ss: seq<State>, ops: seq<Op>, fd: int)
    requires Run(ss, ops) && Plain(ops)
    ensures Valid(ss[|ops|]) && (Lost(ss[|ops|], fd) ==> Close(fd) in ops)
  {
    var m := |ops| - 1;
    if ops != [] {
      RunValid(ss[..|ops|], ops[..m], fd);
      StepKeeps(ss[m], ops[m], fd);
    }
  }

  /** No EV_ADD of the run carries EV_DISABLE or EV_EOF. */
  ghost predicate Plain(ops: seq<Op>) {
    forall i :: 0 <= i < |ops| && ops[i].Create? ==> !Off(ops[i].n)
  }

  /** After every such run, closes and reopens included, the kernel watches
      exactly the enabled knotes of fd, if and only if fd is not lost. */
  lemma RunMask(ss: seq<State>, ops: seq<Op>, fd: int)
    requires Run(ss, ops) && Plain(ops)
    ensures var s := ss[|ops|];
      (forall d :: (fd in s.kernel && Has(s.kernel[fd].ev, d)) <==> Wanted(s, fd, d)) <==> !Lost(s, fd)
  {
    var s := ss[|ops|];
    RunValid(ss, ops, fd);
    forall d ensures Has(FdState(s, fd, false), d) <==> Wanted(s, fd, d) {
      StateIsWanted(s, fd, d);
    }
    if Lost(s, fd) {
      var d := if FdState(s, fd, false).rd then Read else Write;
      assert Wanted(s, fd, d);
    } else {
      forall d ensures (fd in s.kernel && Has(s.kernel[fd].ev, d)) <==> Wanted(s, fd, d) {
        MaskIsUnion(s, fd, d);
      }
    }
  }

  // ----- the option bits -------------------------------------------------------------------------

  /** Every option j asked for is set in the registration. */
  ghost predicate Covers(s: State, j: nat)
    requires j in s.knotes
  {
    var n := s.knotes[j];
    var e := Events(n.dir, n.clear);
    n.fd in s.kernel && (e.et ==> s.kernel[n.fd].ev.et) && (e.rdhup ==> s.kernel[n.fd].ev.rdhup)
  }

  /** Arming one direction keeps the other's options only if it has them itself. */
  lemma EnableOptions(s: State, k: nat, j: nat)
    requires Valid(s) && Rooted(s, k) && s.knotes[k].disabled && s.knotes[k].fd in s.open && !Lost(s, s.knotes[k].fd)
    requires j in s.knotes && j != k && !s.knotes[j].disabled && s.knotes[j].fd == s.knotes[k].fd
    ensures var a, b := s.knotes[j], s.knotes[k];
      j in EnabledNow(s, k).state.knotes &&
      (Covers(EnabledNow(s, k).state, j) <==> (a.clear ==> b.clear) && a.dir.Write?)
  {
    var n := s.knotes[k];
    assert n.fd in s.kernel ==> Agrees(s, n.fd);
    assert Fine(s, j) && Attached(s, j);
    AddLocal(s, k);
    AddDone(s, k);
  }

  /** The same when the second knote is added. */
  lemma CreateOptions(s: State, k: nat, n: Knote, j: nat)
    requires Valid(s) && Absent(s, k, n) && n.fd in s.open && !Lost(s, n.fd)
    requires j in s.knotes && !s.knotes[j].disabled && s.knotes[j].fd == n.fd
    ensures Rooted(With(s, k, n), k) && j in Created(s, k, n).state.knotes
    ensures Covers(Created(s, k, n).state, j) <==> (s.knotes[j].clear ==> n.clear) && s.knotes[j].dir.Write?
  {
    var s0 := With(s, k, n);
    WithKeeps(s, k, n);
    CreateOk(s, k, n);
    assert n.fd in s.kernel ==> Agrees(s, n.fd);
    assert Fine(s, j) && Attached(s, j);
    AddLocal(s0, k);
    AddDone(s0, k);
  }

  /** Disarming one direction keeps the other's options only if it has none. */
  lemma DisableOptions(s: State, k: nat, j: nat)
    requires Valid(s) && Rooted(s, k) && !s.knotes[k].disabled && !Lost(s, s.knotes[k].fd)
    requires j in s.knotes && j != k && !s.knotes[j].disabled && s.knotes[j].fd == s.knotes[k].fd
    ensures j in DisabledNow(s, k).state.knotes &&
      (Covers(DisabledNow(s, k).state, j) <==> s.knotes[j].dir.Write? && !s.knotes[j].clear)
  {
    var n := s.knotes[k];
    assert Fine(s, k) && Fine(s, j) && Attached(s, j);
    assert n.fd in s.kernel ==> Agrees(s, n.fd);
    DelLocal(s, k, false);
    DelLive(s, k, false);
  }
}
