/** epoll_update in the shape the source gives it: the fd_state tree, the knotes'
    flags and the kernel's interest list changed in place.  Each method computes
    the function of FdMux named in its contract. */
module EpollMux {
  import opened FdBook
  import opened FdMux
  import opened Lists

  class Mux {
    var knotes: map<nat, Knote>
    var tree: map<int, Fds>
    var kernel: map<int, Reg>
    var open: set<int>
    var deferred: seq<nat>
    var supply: nat

    ghost function View(): State
      reads this
    {
      State(knotes, tree, kernel, open, deferred, supply)
    }

    constructor ()
      ensures View() == START && Valid(View())
    {
      knotes, tree, kernel, open, deferred, supply := map[], map[], map[], {}, [], 0;
    }

    /** epoll_ctl(2), the only call that can fail. */
    method EpollCtl(op: Ctl, fd: int, ev: Ev, udata: nat) returns (err: Errno)
      modifies `kernel
      ensures err == CtlError(old(kernel), open, op, fd)
      ensures kernel == if err.Success? then CtlDone(old(kernel), op, fd, Reg(ev, udata)) else old(kernel)
    {
      err := CtlError(kernel, open, op, fd);
      if err.Success? {
        kernel := CtlDone(kernel, op, fd, Reg(ev, udata));
      }
    }

    /** The slot must be free or hold k already, as the source asserts. */
    method FdStateMod(k: nat, ev: Ev)
      requires k in knotes && ev == Bit(knotes[k].dir)
      requires knotes[k].fd in tree ==> Slot(tree[knotes[k].fd], knotes[k].dir) in {None, Some(k)}
      modifies `knotes, `tree, `supply
      ensures View() == Attach(old(View()), k)
    {
      var fd := knotes[k].fd;
      if fd !in tree {
        tree := tree[fd := Fds(None, None, supply)];
        supply := supply + 1;
      }
      if ev.rd {
        tree := tree[fd := tree[fd].(read := Some(k))];
      }
      if ev.wr {
        tree := tree[fd := tree[fd].(write := Some(k))];
      }
      knotes := knotes[k := knotes[k].(attached := true)];
    }

    /** kn_fds and the slot must be set, as the source asserts. */
    method FdStateDel(k: nat, ev: Ev)
      requires k in knotes && ev == Bit(knotes[k].dir)
      requires knotes[k].attached && knotes[k].fd in tree && Slot(tree[knotes[k].fd], knotes[k].dir).Some?
      modifies `knotes, `tree, `deferred
      ensures View() == Detach(old(View()), k)
    {
      var fd := knotes[k].fd;
      var fds := tree[fd];
      if ev.rd {
        fds := fds.(read := None);
      }
      if ev.wr {
        fds := fds.(write := None);
      }
      if fds.read.None? && fds.write.None? {
        tree := tree - {fd};
        deferred := deferred + [fds.udata];
      } else {
        tree := tree[fd := fds];
      }
      knotes := knotes[k := knotes[k].(attached := false)];
    }

    /** After a failed call: a knote that was not wanted any more is detached. */
    method Recover(opn: Ctl, k: nat, haveEv: Ev, wantEv: Ev) returns (rv: int)
      requires Rooted(View(), k) && knotes[k].fd in tree
      requires opn.CtlAdd? ==> knotes[k].attached && AndNot(wantEv, haveEv) == Bit(knotes[k].dir)
      modifies `knotes, `tree, `deferred
      ensures rv in {0, -1}
      ensures opn.CtlAdd? ==> rv == -1 && View() == Detach(old(View()), k)
      ensures !opn.CtlAdd? ==> (rv == 0 <==> old(knotes[k].attached) && !Has(wantEv, old(knotes[k].dir)))
      ensures !opn.CtlAdd? ==> View() == if rv == 0 then Detach(old(View()), k) else old(View())
    {
      if opn.CtlAdd? {
        FdStateDel(k, AndNot(wantEv, haveEv));
        return -1;
      }
      var fds := tree[knotes[k].fd];
      var knEv := if fds.read == Some(k) then Bit(Read) else if fds.write == Some(k) then Bit(Write) else NONE;
      knEv := AndNot(knEv, wantEv);
      if knEv != NONE {
        FdStateDel(k, knEv);
        return 0;
      }
      return -1;
    }

    /** After a successful one. */
    method Settle(opn: Ctl, k: nat, haveEv: Ev, wantEv: Ev, delete: bool)
      requires Rooted(View(), k)
      requires AndNot(wantEv, haveEv) in {NONE, Bit(knotes[k].dir)}
      requires opn.CtlMod? && AndNot(wantEv, haveEv) != NONE ==> !delete
      requires delete && !opn.CtlAdd? ==> knotes[k].attached && AndNot(haveEv, wantEv) == Bit(knotes[k].dir)
      modifies `knotes, `tree, `deferred, `supply
      ensures View() ==
        if opn.CtlMod? && AndNot(wantEv, haveEv) != NONE then Attach(old(View()), k)
        else if delete && !opn.CtlAdd? then Detach(old(View()), k)
        else old(View())
    {
      if opn.CtlDel? && delete {
        FdStateDel(k, AndNot(haveEv, wantEv));
      } else if opn.CtlMod? {
        var add, del := AndNot(wantEv, haveEv), AndNot(haveEv, wantEv);
        if add != NONE {
          FdStateMod(k, add);
        }
        if del != NONE && delete {
          FdStateDel(k, del);
        }
      }
    }

    /** The fd_state it hands to the kernel, and reads back on an error, exists. */
    method EpollUpdate(op: Ctl, k: nat, ev: Ev, delete: bool) returns (rv: int)
      requires Rooted(View(), k)
      requires if op.CtlAdd? then ev == Events(knotes[k].dir, knotes[k].clear) && !delete
               else op.CtlDel? && ev == Bit(knotes[k].dir)
      modifies `knotes, `tree, `kernel, `deferred, `supply
      ensures rv in {0, -1}
      ensures op.CtlAdd? ==> Outcome(View(), rv == 0) == Add(old(View()), k)
      ensures op.CtlDel? ==> Outcome(View(), rv == 0) == Del(old(View()), k, delete)
    {
      var fd := knotes[k].fd;
      var haveEv := FdState(State(knotes, tree, kernel, open, deferred, supply), fd, false);
      var want;
      if op.CtlAdd? {
        want := Or(haveEv, ev);
      } else {
        want := AndNot(haveEv, ev);
        if delete {
          var off := FdState(State(knotes, tree, kernel, open, deferred, supply), fd, true);
          if Has(off, knotes[k].dir) {
            FdStateDel(k, ev);
          }
        }
      }
      var wantEv := InOut(want);
      var opn;
      if haveEv == NONE && wantEv != NONE {
        opn := CtlAdd;
        FdStateMod(k, AndNot(wantEv, haveEv));
      } else if haveEv != NONE && wantEv == NONE {
        opn := CtlDel;
      } else if haveEv != wantEv {
        opn := CtlMod;
      } else {
        return 0;
      }
      var err := EpollCtl(opn, fd, want, tree[fd].udata);
      if !err.Success? {
        rv := Recover(opn, k, haveEv, wantEv);
      } else {
        Settle(opn, k, haveEv, wantEv, delete);
        rv := 0;
      }
    }

    /** kevent_copyin_one, EV_ADD of a new knote: the mask survives unless the
        knote is armed with EV_DISABLE or EV_EOF already in its flags. */
    method Create(k: nat, n: Knote) returns (rv: int)
      requires Valid(View()) && Absent(View(), k, n)
      modifies this
      ensures Rooted(With(old(View()), k, n), k) && Outcome(View(), rv == 0) == Created(old(View()), k, n)
      ensures rv == 0 <==> n.fd in old(open) && !Lost(old(View()), n.fd)
      ensures k in knotes <==> rv == 0
      ensures rv == 0 ==> knotes == old(knotes)[k := n.(attached := knotes[k].attached)]
      ensures rv == 0 ==> Armed(View(), n.fd, n.dir) && Covers(View(), k)
      ensures rv != 0 ==> View() == old(View())
      ensures Kept(old(View()), View()) <==> !Off(n) || rv != 0
    {
      CreateExact(View(), k, n);
      if !(n.fd in open && !Lost(View(), n.fd)) {
        CreateRefused(View(), k, n);
      }
      CreateOk(View(), k, n);
      CreateStores(View(), k, n);
      if n.fd in open && !Lost(View(), n.fd) {
        CreateArmsOwn(View(), k, n);
      }
      if n.fd !in open {
        return -1;
      }
      knotes := knotes[k := n];
      rv := EpollUpdate(CtlAdd, k, Events(n.dir, n.clear), false);
      if rv < 0 {
        knotes := knotes - {k};
      } else if n.disabled {
        rv := EpollUpdate(CtlDel, k, Bit(n.dir), false);
      }
    }

    method Enable(k: nat) returns (rv: int)
      requires Valid(View()) && Rooted(View(), k)
      modifies this
      ensures Kept(old(View()), View()) && Outcome(View(), rv == 0) == EnabledNow(old(View()), k)
      ensures rv == 0 <==> old(!knotes[k].disabled || (knotes[k].fd in open && !Lost(View(), knotes[k].fd)))
      ensures Flagged(old(View()), View(), k, old(knotes[k].disabled) && rv != 0)
      ensures old(knotes[k].disabled) && rv == 0 ==> Armed(View(), knotes[k].fd, knotes[k].dir) && Covers(View(), k)
    {
      EnableExact(View(), k);
      EnableArms(View(), k);
      if !knotes[k].disabled {
        return 0;
      }
      rv := EpollUpdate(CtlAdd, k, Events(knotes[k].dir, knotes[k].clear), false);
      if rv == 0 {
        knotes := knotes[k := knotes[k].(disabled := false)];
      }
    }

    method Disable(k: nat) returns (rv: int)
      requires Valid(View()) && Rooted(View(), k)
      modifies this
      ensures Kept(old(View()), View()) && rv == 0 && View() == DisabledNow(old(View()), k).state
      ensures Flagged(old(View()), View(), k, true) && !Armed(View(), old(knotes[k].fd), old(knotes[k].dir))
    {
      DisableKeeps(View(), k);
      DisableDisarms(View(), k);
      if knotes[k].disabled {
        return 0;
      }
      rv := EpollUpdate(CtlDel, k, Bit(knotes[k].dir), false);
      if rv == 0 {
        knotes := knotes[k := knotes[k].(disabled := true)];
      }
    }

    method Delete(k: nat) returns (rv: int)
      requires Valid(View()) && Rooted(View(), k)
      modifies this
      ensures Kept(old(View()), View()) && rv == 0 && View() == DeletedNow(old(View()), k).state
      ensures knotes == old(knotes) - {k} && !Armed(View(), old(knotes[k].fd), old(knotes[k].dir))
    {
      DeleteKeeps(View(), k);
      DeleteDisarms(View(), k);
      rv := EpollUpdate(CtlDel, k, Bit(knotes[k].dir), true);
      knotes := knotes - {k};
    }
  }
}
