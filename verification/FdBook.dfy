/** What the program asked for, kept apart from how epoll_update does it: a list
    of knotes, and the open descriptors.  Every run of the filters agrees with it,
    and the kernel watches what it says. */
module FdBook {
  import opened FdMux
  import opened Lists

  datatype Book = Book(index: map<nat, Knote>, open: set<int>)

  /** One call, and whether it was answered with success. */
  function Noted(b: Book, op: Op, ok: bool): Book {
    match op
    case Create(k, n) => if ok then b.(index := b.index[k := n]) else b
    case Enable(k) => if ok && k in b.index then b.(index := b.index[k := b.index[k].(disabled := false)]) else b
    case Disable(k) => if k in b.index then b.(index := b.index[k := b.index[k].(disabled := true)]) else b
    case Delete(k) => b.(index := b.index - {k})
    case Close(fd) => b.(open := b.open - {fd})
    case Open(fd) => b.(open := b.open + {fd})
  }

  ghost predicate Answered(s: State, op: Op)
    requires Enabled(s, op)
  {
    match op
    case Create(k, n) => Created(s, k, n).ok
    case Enable(k) => EnabledNow(s, k).ok
    case _ => true
  }

  /** The knotes are those of the book; only the link to the fd_state is not in it. */
  ghost predicate Matches(s: State, b: Book) {
    && s.open == b.open && s.knotes.Keys == b.index.Keys
    && forall k :: k in s.knotes ==> s.knotes[k].(attached := false) == b.index[k]
  }

  // ----- each operation, on the index --------------------------------------------------------

  /** s and t differ at most in where k is linked and in one flag of it. */
  ghost predicate Flagged(s: State, t: State, k: nat, disabled: bool)
    requires k in s.knotes
  {
    k in t.knotes && t.knotes == s.knotes[k := s.knotes[k].(disabled := disabled, attached := t.knotes[k].attached)]
  }

  lemma LocalFlags(s: State, t: State, k: nat)
    requires k in s.knotes && k in t.knotes && Local(s, t, k, s.knotes[k].fd)
    requires t.knotes[k] == s.knotes[k].(attached := t.knotes[k].attached)
    ensures t.open == s.open && Flagged(s, t, k, s.knotes[k].disabled)
  {
  }

  lemma AddFlags(s: State, k: nat)
    requires Rooted(s, k)
    ensures Add(s, k).state.open == s.open && Flagged(s, Add(s, k).state, k, s.knotes[k].disabled)
  {
    AddLocal(s, k);
    LocalFlags(s, Add(s, k).state, k);
  }

  lemma DelFlags(s: State, k: nat, delete: bool)
    requires Rooted(s, k)
    ensures Del(s, k, delete).state.open == s.open && Flagged(s, Del(s, k, delete).state, k, s.knotes[k].disabled)
  {
    DelLocal(s, k, delete);
    LocalFlags(s, Del(s, k, delete).state, k);
  }

  lemma EnableFlags(s: State, k: nat)
    requires Rooted(s, k)
    ensures var r := EnabledNow(s, k);
      r.state.open == s.open && Flagged(s, r.state, k, s.knotes[k].disabled && !r.ok)
  {
    AddFlags(s, k);
    assert s.knotes[k := s.knotes[k]] == s.knotes;
  }

  lemma DisableFlags(s: State, k: nat)
    requires Rooted(s, k)
    ensures var r := DisabledNow(s, k); r.ok && r.state.open == s.open && Flagged(s, r.state, k, true)
  {
    DelFlags(s, k, false);
    assert s.knotes[k := s.knotes[k]] == s.knotes;
  }

  lemma DeleteDrops(s: State, k: nat)
    requires Rooted(s, k)
    ensures var r := DeletedNow(s, k); r.ok && r.state.open == s.open && r.state.knotes == s.knotes - {k}
  {
    DelFlags(s, k, true);
  }

  lemma CreateStores(s: State, k: nat, n: Knote)
    requires k !in s.knotes && Rooted(With(s, k, n), k)
    ensures var r := Created(s, k, n);
      && r.state.open == s.open && (k in r.state.knotes <==> r.ok)
      && r.state.knotes == if r.ok then s.knotes[k := n.(attached := r.state.knotes[k].attached)] else s.knotes
  {
    var s0 := With(s, k, n);
    AddFlags(s0, k);
    if Add(s0, k).ok && n.disabled {
      DelFlags(Add(s0, k).state, k, false);
    }
    assert s0.knotes - {k} == s.knotes;
  }

  lemma FlagMatches(s: State, t: State, b: Book, k: nat, d: bool)
    requires Matches(s, b) && k in s.knotes && Flagged(s, t, k, d) && t.open == s.open
    ensures Matches(t, b.(index := b.index[k := b.index[k].(disabled := d)]))
  {
  }

  lemma EnableBook(s: State, k: nat, b: Book)
    requires Rooted(s, k) && Matches(s, b)
    ensures Matches(EnabledNow(s, k).state, Noted(b, Enable(k), EnabledNow(s, k).ok))
  {
    var r := EnabledNow(s, k);
    EnableFlags(s, k);
    FlagMatches(s, r.state, b, k, s.knotes[k].disabled && !r.ok);
    assert b.index[k := b.index[k]] == b.index;
  }

  lemma CreateBook(s: State, k: nat, n: Knote, b: Book)
    requires k !in s.knotes && !n.attached && Rooted(With(s, k, n), k) && Matches(s, b)
    ensures Matches(Created(s, k, n).state, Noted(b, Create(k, n), Created(s, k, n).ok))
  {
    CreateStores(s, k, n);
  }

  lemma StepBook(s: State, op: Op, b: Book)
    requires Enabled(s, op) && Matches(s, b)
    ensures Matches(After(s, op), Noted(b, op, Answered(s, op)))
  {
    match op
    case Create(k, n) => CreateBook(s, k, n, b);
    case Enable(k) => EnableBook(s, k, b);
    case Disable(k) =>
      DisableFlags(s, k);
      FlagMatches(s, DisabledNow(s, k).state, b, k, true);
    case Delete(k) => DeleteDrops(s, k);
    case Close(_) =>
    case Open(_) =>
  }

  // ----- whole runs ----------------------------------------------------------------------------

  ghost function BookOf(ss: seq<State>, ops: seq<Op>): Book
    requires Run(ss, ops)
    decreases |ops|
  {
    var m := |ops| - 1;
    if ops == [] then Book(map[], {})
    else Noted(BookOf(ss[..|ops|], ops[..m]), ops[m], Answered(ss[m], ops[m]))
  }

  lemma {:induction false} RunBook(ss: seq<State>, ops: seq<Op>)
    requires Run(ss, ops)
    ensures Matches(ss[|ops|], BookOf(ss, ops))
    decreases |ops|
  {
    if ops != [] {
      var m := |ops| - 1;
      RunBook(ss[..|ops|], ops[..m]);
      StepBook(ss[m], ops[m], BookOf(ss[..|ops|], ops[..m]));
    }
  }

  /** Somebody asked for events of direction d on fd and still wants them. */
  ghost predicate Asked(b: Book, fd: int, d: Dir) {
    exists k :: k in b.index && b.index[k].fd == fd && b.index[k].dir == d && !b.index[k].disabled
  }

  ghost predicate Armed(s: State, fd: int, d: Dir) {
    fd in s.kernel && Has(s.kernel[fd].ev, d)
  }

  ghost predicate Watches(s: State, b: Book, fd: int) {
    forall d :: Armed(s, fd, d) <==> Asked(b, fd, d)
  }

  lemma AskedIsWanted(s: State, b: Book, fd: int, d: Dir)
    requires Valid(s) && Matches(s, b)
    ensures Wanted(s, fd, d) <==> Asked(b, fd, d)
  {
    assert forall k :: k in s.knotes ==> Off(s.knotes[k]) == b.index[k].disabled;
    if Wanted(s, fd, d) {
      var k :| k in s.knotes && s.knotes[k].fd == fd && s.knotes[k].dir == d && !Off(s.knotes[k]);
      assert k in b.index;
    }
    if Asked(b, fd, d) {
      var k :| k in b.index && b.index[k].fd == fd && b.index[k].dir == d && !b.index[k].disabled;
      assert k in s.knotes;
    }
  }

  /** After every run in which nothing is added disabled the kernel watches exactly
      what the program asked for, if and only if fd is not lost. */
  lemma RunWatches(ss: seq<State>, ops: seq<Op>, fd: int)
    requires Run(ss, ops) && Plain(ops)
    ensures Watches(ss[|ops|], BookOf(ss, ops), fd) <==> !Lost(ss[|ops|], fd)
  {
    RunBook(ss, ops);
    RunValid(ss, ops, fd);
    BookWatches(ss[|ops|], BookOf(ss, ops), fd);
  }

  lemma BookWatches(s: State, b: Book, fd: int)
    requires Valid(s) && Matches(s, b)
    ensures Watches(s, b, fd) <==> !Lost(s, fd)
  {
    if Lost(s, fd) {
      var d := if FdState(s, fd, false).rd then Read else Write;
      StateIsWanted(s, fd, d);
      AskedIsWanted(s, b, fd, d);
    } else {
      forall d ensures Armed(s, fd, d) <==> Asked(b, fd, d) {
        MaskIsUnion(s, fd, d);
        AskedIsWanted(s, b, fd, d);
      }
    }
  }

  // ----- each operation, in the kernel -----------------------------------------------------------

  lemma NotArmed(t: State, fd: int, d: Dir)
    requires Valid(t) && !Wanted(t, fd, d)
    ensures !Armed(t, fd, d)
  {
    if fd in t.kernel {
      MaskIsUnion(t, fd, d);
    }
  }

  /** After EV_DELETE no direction is registered for the knote. */
  lemma DeleteDisarms(s: State, k: nat)
    requires Valid(s) && Rooted(s, k)
    ensures var t := DeletedNow(s, k).state;
      t.knotes == s.knotes - {k} && !Armed(t, s.knotes[k].fd, s.knotes[k].dir)
  {
    DeleteKeeps(s, k);
    DeleteDrops(s, k);
    NotArmed(DeletedNow(s, k).state, s.knotes[k].fd, s.knotes[k].dir);
  }

  lemma DisableDisarms(s: State, k: nat)
    requires Valid(s) && Rooted(s, k)
    ensures var t := DisabledNow(s, k).state;
      Flagged(s, t, k, true) && !Armed(t, s.knotes[k].fd, s.knotes[k].dir)
  {
    DisableKeeps(s, k);
    DisableFlags(s, k);
    NotArmed(DisabledNow(s, k).state, s.knotes[k].fd, s.knotes[k].dir);
  }

  /** A successful EV_ENABLE of a disabled knote arms it, with its own options. */
  lemma EnableArms(s: State, k: nat)
    requires Valid(s) && Rooted(s, k)
    ensures var r, n := EnabledNow(s, k), s.knotes[k];
      && Flagged(s, r.state, k, n.disabled && !r.ok)
      && (n.disabled && r.ok ==> Armed(r.state, n.fd, n.dir) && Covers(r.state, k))
      && (!n.disabled || !r.ok ==> r.state.kernel == s.kernel)
  {
    var n := s.knotes[k];
    EnableExact(s, k);
    EnableFlags(s, k);
    assert n.fd in s.kernel ==> Agrees(s, n.fd);
    if n.disabled {
      if AddGoes(s, k) {
        AddDone(s, k);
      } else {
        AddRefused(s, k);
      }
    }
  }

  /** So does EV_ADD. */
  lemma CreateArmsOwn(s: State, k: nat, n: Knote)
    requires Valid(s) && Absent(s, k, n) && n.fd in s.open && !Lost(s, n.fd)
    ensures Rooted(With(s, k, n), k) && k in Created(s, k, n).state.knotes
    ensures Armed(Created(s, k, n).state, n.fd, n.dir) && Covers(Created(s, k, n).state, k)
  {
    WithKeeps(s, k, n);
    CreateOk(s, k, n);
    assert n.fd in s.kernel ==> Agrees(s, n.fd);
    AddDone(With(s, k, n), k);
  }
}
