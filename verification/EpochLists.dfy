/** The in-place form of the reclamation lists: the fields of struct kqueue that
    src/linux/platform.c updates under kq_mtx.  Every method computes the
    function of the same name in Epochs, where the protocol is proved. */
module EpochLists {
  import opened Epochs

  class Reclaimer {
    var next: nat
    var inflight: seq<Caller>
    var deferred: seq<Stale>
    /** The udatas passed to free(), in order. */
    var freed: seq<nat>

    ghost function View(): Kq
      reads this
    {
      Kq(next, inflight, deferred)
    }

    constructor ()
      ensures View() == INIT.kq && freed == INIT.freed
    {
      next, inflight, deferred, freed := 0, [], [], [];
    }

    method Defer(u: nat)
      modifies `deferred
      ensures View() == DeferFree(old(View()), u)
    {
      deferred := deferred + [Stale(u, next)];
    }

    method FreeHead()
      requires deferred != []
      modifies `deferred, `freed
      ensures deferred == old(deferred)[1..] && freed == old(freed) + [old(deferred)[0].ud]
    {
      freed, deferred := freed + [deferred[0].ud], deferred[1..];
    }

    /** The first n stale udatas have been freed since. */
    ghost predicate Taken(d: seq<Stale>, f: seq<nat>, n: nat)
      reads this
    {
      n <= |d| && deferred == d[n..] && freed == f + Names(d[..n])
    }

    lemma TakeOne(d: seq<Stale>, f: seq<nat>, n: nat)
      requires n < |d|
      ensures f + Names(d[..n]) + [d[n].ud] == f + Names(d[..n + 1]) && d[n..][1..] == d[n + 1..]
    {
      assert Names(d[..n]) + [d[n].ud] == Names(d[..n + 1]);
    }

    method Sweep()
      modifies `deferred, `freed
      ensures View() == Swept(old(View()))
      ensures freed == old(freed) + Names(old(deferred)[..SweepCount(old(View()))])
    {
      ghost var k, f, n := View(), freed, 0;
      if inflight == [] {
        while deferred != []
          invariant Taken(k.deferred, f, n)
          decreases |deferred|
        {
          TakeOne(k.deferred, f, n);
          FreeHead();
          n := n + 1;
        }
      } else {
        var oldest := inflight[0];
        while deferred != [] && deferred[0].boundary < oldest.epoch
          invariant Taken(k.deferred, f, n)
          invariant forall i :: 0 <= i < n ==> k.deferred[i].boundary < oldest.epoch
          decreases |deferred|
        {
          TakeOne(k.deferred, f, n);
          FreeHead();
          n := n + 1;
        }
      }
      assert n < |k.deferred| ==> !Eligible(k, k.deferred[n]);
      assert n == SweepCount(k);
    }

    method RebaseInflight(base: int)
      modifies `inflight
      ensures |inflight| == |old(inflight)|
      ensures forall i :: 0 <= i < |inflight| ==>
        inflight[i] == old(inflight)[i].(epoch := Minus(old(inflight)[i].epoch, base))
    {
      for i := 0 to |inflight|
        invariant |inflight| == |old(inflight)|
        invariant forall j :: 0 <= j < i ==>
          inflight[j] == old(inflight)[j].(epoch := Minus(old(inflight)[j].epoch, base))
        invariant forall j :: i <= j < |inflight| ==> inflight[j] == old(inflight)[j]
      {
        inflight := inflight[i := inflight[i].(epoch := Minus(inflight[i].epoch, base))];
      }
    }

    method RebaseDeferred(base: int)
      modifies `deferred
      ensures |deferred| == |old(deferred)|
      ensures forall i :: 0 <= i < |deferred| ==>
        deferred[i] == old(deferred)[i].(boundary := Minus(old(deferred)[i].boundary, base))
    {
      for i := 0 to |deferred|
        invariant |deferred| == |old(deferred)|
        invariant forall j :: 0 <= j < i ==>
          deferred[j] == old(deferred)[j].(boundary := Minus(old(deferred)[j].boundary, base))
        invariant forall j :: i <= j < |deferred| ==> deferred[j] == old(deferred)[j]
      {
        deferred := deferred[i := deferred[i].(boundary := Minus(deferred[i].boundary, base))];
      }
    }

    method Rebase()
      modifies `next, `inflight, `deferred
      ensures View() == Rebased(old(View()))
    {
      var base: int := if inflight != [] then inflight[0].epoch - 1 else next;
      RebaseInflight(base);
      RebaseDeferred(base);
      next := Minus(next, base);
    }

    method Enter(c: nat)
      modifies `next, `inflight, `deferred
      ensures View() == Entered(old(View()), c)
    {
      if next == UINT64_MAX {
        Rebase();
      }
      next := (next + 1) % (UINT64_MAX + 1);
      inflight := inflight + [Caller(c, next)];
    }

    method Exit(c: nat)
      modifies `inflight, `deferred, `freed
      ensures View() == Exited(old(View()), c)
      ensures var k := old(View()).(inflight := Remove(old(inflight), c));
        freed == old(freed) + Names(k.deferred[..SweepCount(k)])
    {
      inflight := Remove(inflight, c);
      Sweep();
    }

    /** linux_kqueue_free: nobody is in flight, so the whole list goes. */
    method FreeAll()
      requires inflight == []
      modifies `deferred, `freed
      ensures deferred == [] && freed == old(freed) + Names(old(deferred))
    {
      ghost var d, f, n := deferred, freed, 0;
      while deferred != []
        invariant Taken(d, f, n)
        decreases |deferred|
      {
        TakeOne(d, f, n);
        FreeHead();
        n := n + 1;
      }
      assert d[..n] == d;
    }
  }
}
