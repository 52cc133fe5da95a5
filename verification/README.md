# libkqueue: a verified model

libkqueue gives programs the BSD `kqueue()`/`kevent()` interface on systems
that lack it. This project models the parts of it where lifetimes, locks and
indexes meet, and proves what its comments promise about them.

| modules | what they model |
|---|---|
| `RbShape`, `RbLinks`, `RbBalance`, `RbTree`, `RbRuns` | the intrusive red-black tree that indexes knotes, `fd_state`s and timers, on the heap, with parent pointers, both fix-up loops and the safe traversal |
| `RbIndex` | objects that carry an entry of such a tree, and what the tree says about them |
| `Epochs`, `EpochLists`, `EpochWraps` | deferred reclamation of epoll udatas: epochs, the in-flight and deferred lists, the head-only sweep, the counter rebase |
| `FdMux`, `EpollMux` | one epoll registration shared by the read and the write knote of a descriptor (`epoll_update`) |
| `FdBook`, `FdUdata`, `FdRuns` | what the program asked for against what the kernel watches, which udatas are registered while they wait to be freed, over every run, and the runs where something fails |
| `Lifecycle`, `LifecycleRuns`, `KqMap` | `kqueue_free` against callers inside `kevent()`, descriptor reuse, the compare-and-swap map, `kq_list` and `kq_cnt` |
| `Drain`, `DrainRuns`, `MonitorThread` | close detection by the monitoring thread and `libkqueue_drain_pending_close` |
| `Signals`, `SignalBook`, `SignalTable`, `SignalRuns` | fan-out of signals to knotes, the pending lists and the fire counters |
| `Timers`, `TimerQueue` | the POSIX deadline queue over its red-black tree, its catch-up loop and the `pselect` timeout |
| `Copyin` | the changelist loop of `kevent()` when both lists share memory |
| `KnoteIndex` | `kq_knote_count`, `kq_always_ready` and the knote tree of a filter |
| `Lists` | what the others share: the counter width, lists without repetition |

Code that changes structures in place is modelled by classes (`RbTree.Head`,
`EpochLists.Reclaimer`, `EpollMux.Mux`, `KqMap.Map`, `MonitorThread.Thread`,
`SignalTable.Table`, `TimerQueue.Queue`, `KnoteIndex.Kqueue`,
`KnoteIndex.Filter`) and by methods
over arrays; each method is proved equal to a function on values, and the
module named first in each pair proves the protocol about those functions.
Races are state machines: a step is what one thread does under one lock, and
the theorems speak of every sequence of steps. `FdBook`, `LifecycleRuns`,
`DrainRuns` and `SignalBook` tell from the list of calls alone what the state
must be, and prove that every run ends there.

Clocks, `epoll_wait`, the answers of `epoll_ctl` and of `sig_platform_add`, and
the kqueue behind `kevent_copyin_one` are parameters or steps of the
environment. Knotes, timers, kqueues, callers, udatas and descriptors are
numbers; the entries of a tree are objects, one per knote or timer. Integers are
unbounded except where a width matters: the 64-bit epoch (`Epochs.UINT64_MAX`)
and the two 32-bit fire counters (`Lists.WRAP`).

## What turned out not to hold, and exactly when it does

* The epoch counter is rebased before it wraps, but a caller that entered at
  epoch 1 and is still inside when the counter reaches its maximum leaves no
  room: the next entry gets epoch 0. `Epochs.WrapExact`: the invariant survives
  an entry if and only if the counter is below its maximum, nobody is in flight,
  or the oldest caller's epoch exceeds 1. `EpochWraps.PassingExact`: a caller that
  enters, deletes a registration and leaves has a udata freed in somebody's buffer
  if and only if that condition fails, no other udata is waiting, and somebody has
  that one. `EpochWraps.UnsafeRun`: every run can be continued to such an end. The
  comment on the rebase promises the order unconditionally; the code needs the
  condition.
* A read or write knote added with EV_DISABLE (or EV_EOF) in its flags stays
  armed in the kernel: the disable step sees nothing enabled to remove. The
  comment in `kevent_copyin_one` speaks of a brief window. `FdMux.CreateExact`
  gives the condition, `FdRuns.ArmedWhileDisabled` the run.
* Such a knote's next EV_ENABLE gets EEXIST, and its EV_DELETE makes no call:
  both queue for freeing a udata that the kernel still holds
  (`FdRuns.DeferredWhileRegistered`), which the reclamation protocol takes for
  granted never happens. `FdUdata.StepClear`: a step of any kind keeps
  registered and deferred udatas apart if and only if it is not an enable or a
  delete of the only knote of a descriptor that is watched although no knote of
  it is enabled. `FdUdata.RunClear` says so of whole runs;
  `FdUdata.PlainRunClear`: nothing added disabled, nothing stranded.
* `epoll_update` says that it preserves option flags. Adding or enabling the
  second direction of a descriptor replaces the first one's EPOLLET and
  EPOLLRDHUP, and disarming one clears both: `FdMux.CreateOptions`,
  `FdMux.EnableOptions`, `FdMux.DisableOptions`; `FdRuns.RdhupLost` is a run that
  loses EPOLLRDHUP.
* A descriptor closed under an enabled knote loses its registration; until that
  knote is disabled or deleted, a knote for the other direction cannot be added,
  even if the number was reopened: `FdMux.CreateOk`, `FdMux.LostRecovers`, and
  the run `FdRuns.ReopenedRefused`.
* A signal or timer counter that reaches 2^32 between two deliveries starts
  again at zero. `Signals.DispatchExact` and `Timers.FiredExact` give the
  condition for one step, `SignalRuns.RunExact` for one knote over a whole run;
  `SignalRuns.FiresLost` is a run of 2^32 fires of which none is left,
  `Timers.FiresLost` a one-nanosecond timer checked five seconds late.
* A modify of a disabled signal knote overwrites EV_DISABLE; the next EV_ENABLE
  then does nothing and the knote stays on the disabled list:
  `Signals.ModifyExact`, and the run `SignalRuns.StaysDisabled`.
* An eventlist may share memory with the changelist if and only if it does not
  start inside it: `Copyin.AliasSafe`, `Copyin.OverlapUnsafe`. The code comments
  mention only the case of one array.

## Model

| member | source | states |
|---|---|---|
| `RbTree.Head.constructor` | src/common/tree.h:299-304 | an empty tree is a valid red-black tree |
| `RbTree.Head.RotateLeft` | src/common/tree.h:338-356 | the rotated picture is linked in both directions, from any place in the tree, the root pointer included |
| `RbTree.Head.RotateRight` | src/common/tree.h:358-376 | the mirror image |
| `RbTree.Head.InsertFixLeft` | src/common/tree.h:410-426 | one pass of the insert fix-up: either the red-red conflict is gone or it sits exactly two levels up, with nodes, contents, order and black heights kept |
| `RbTree.Head.InsertFixRight` | src/common/tree.h:427-442 | the mirror image |
| `RbTree.Head.InsertColor` | src/common/tree.h:403-445 | from one red node under a red parent, the loop ends with a red-black tree of the same contents and nodes |
| `RbTree.Head.RemoveFixLeft` | src/common/tree.h:453-485 | one pass of the remove fix-up on the left: the missing black node is repaid or moves one level up |
| `RbTree.Head.RemoveFixRight` | src/common/tree.h:486-518 | the mirror image |
| `RbTree.Head.RemoveColor` | src/common/tree.h:447-523 | from one missing black node, the loop ends with a red-black tree of the same contents |
| `RbBalance.SiblingExistsLeft` | src/common/tree.h:455-466 | the sibling, and after a rotation its replacement, is never NULL where the fix-up dereferences it |
| `RbBalance.SiblingExistsRight` | src/common/tree.h:488-499 | the mirror image |
| `RbTree.Head.Descend` | src/common/tree.h:597-609 | the descent finds the node with the key, or the one place where it belongs |
| `RbTree.Head.Insert` | src/common/tree.h:593-621 | every search-tree and red-black property survives; the sorted entry list gains exactly the new node, or an equal key is returned and nothing changes |
| `RbTree.Head.Splice` | src/common/tree.h:575-585 | a node with one child is bypassed; everything else stays linked |
| `RbTree.Head.RemoveTwo` | src/common/tree.h:534-574 | a node with two children: found its successor, swapped it in, repaired the colours; the list loses exactly that node |
| `RbTree.Head.SwapOut` | src/common/tree.h:539-567 | the successor leaves its place and takes over the links and colour of the removed node |
| `RbTree.Head.Remove` | src/common/tree.h:525-590 | every search-tree and red-black property survives; the sorted entry list loses exactly that node |
| `RbTree.Head.Find` | src/common/tree.h:624-639 | returns the node with the key, and NULL only if there is none |
| `RbTree.Head.Min` | src/common/tree.h:706-719 | the first entry in key order, NULL for the empty tree |
| `RbTree.Head.Next` | src/common/tree.h:663-682 | the entry after the given one in key order, by way of the right subtree or of the parents |
| `RbTree.Head.ForeachSafe` | src/common/tree.h:743-746 | every node is visited once, in key order, although the body removes any of them; the others remain |
| `RbBalance.KeepNone` | src/common/knote.c:98-107 | a traversal that removes every node leaves nothing |
| `RbRuns.Replay` | src/common/tree.h:402-719 | after any run of additions and removals by key the tree is a valid red-black tree holding exactly the keys added and not removed since |
| `RbRuns.AddKey` | src/common/knote.c:76-96 | lookup, then insertion of a new node: the key set gains the key |
| `RbRuns.DropKey` | src/common/knote.c:148-168 | lookup, then removal: the key set loses the key, and no other entry shares the node |
| `RbRuns.HeightBound` | src/posix/timer.c:205-209 | the logarithmic cost claimed of the tree: no path exceeds twice the black height, and the number of nodes is exponential in it |
| `RbIndex.Index.Link` | src/posix/timer.c:187-194 | RB_INSERT of an object under the key its entry holds: the linked keys gain exactly that one; no linked key may equal it |
| `RbIndex.Index.Unlink` | src/posix/timer.c:196-203 | RB_REMOVE: the linked keys lose exactly that object |
| `RbIndex.Index.SetKey` | src/posix/timer.c:77-85 | what the comparator reads may change only in an entry that is not linked, else the tree would lose its order |
| `RbIndex.Index.Min` | src/common/tree.h:706-719 | the object with the strictly least linked key, found by walking the tree |
| `RbIndex.Index.Next` | src/common/tree.h:663-682 | the object with the next linked key |
| `Epochs.SweepCount` | src/linux/platform.c:950-975 | the sweep takes the longest eligible prefix of the deferred list |
| `Epochs.SweepExact` | src/linux/platform.c:931-949 | on sorted lists that prefix is exactly the udatas below every epoch in flight |
| `Epochs.RebaseShifts` | src/linux/platform.c:977-1012 | the rebase never underflows and moves every live value by the same amount |
| `Epochs.EnteredShifts` | src/linux/platform.c:1022-1033 | entering keeps every difference between epochs and gives the caller the largest |
| `Epochs.EnterKeeps` | src/linux/platform.c:1022-1033 | both lists stay sorted, bounded and covering |
| `Epochs.DeleteKeeps` | src/linux/platform.c:908-929 | a deferred udata waits for every caller that may hold it |
| `Epochs.ExitKeeps` | src/linux/platform.c:1043-1052 | what the sweep frees no caller in flight holds |
| `Epochs.StepKeeps` | src/linux/platform.c:908-1052 | the invariant survives every step of any thread |
| `Epochs.InvIsSafe` | src/linux/platform.c:1263-1290 | a udata in a caller's buffer is not freed, and one that is not stale still has its container |
| `Epochs.RunSafe` | src/linux/platform.h:290-346 | the same at the end of every run in which the counter does not wrap |
| `Epochs.WrapExact` | src/linux/platform.c:1022-1033 | an entry keeps the invariant if and only if the rebase makes room |
| `EpochWraps.PassingExact` | src/linux/platform.c:908-1052 | in every state of the invariant: after a caller entered, deleted a registration and left, all buffers are safe if and only if the entry did not wrap, another udata is waiting, or nobody has that udata |
| `EpochWraps.UnsafeRun` | src/linux/platform.c:977-1030 | every run without a wrap can be continued to one that ends with a freed udata in a buffer |
| `Epochs.WaitsForSomebody` | src/linux/platform.c:908-975 | with nobody in flight nothing is deferred |
| `Epochs.DeferredInOrder` | src/linux/platform.c:908-929 | deleting what is left, one by one, queues the udatas in that order behind those already waiting |
| `Epochs.FreedExactlyOnce` | src/linux/platform.c:735-829 | after every run without a wrap that ends with nobody inside: when the remaining udatas are deferred one by one, in any order, and the list is then freed, every udata ever registered has been freed once and no buffer can reach one |
| `Epochs.RunRefines` | src/linux/platform.c:977-1030 | every run frees the same udatas, in the same order, as on a counter without bound |
| `EpochLists.Reclaimer.constructor` | src/linux/platform.c:583-585 | the lists start empty at epoch 0 |
| `EpochLists.Reclaimer.Defer` | src/linux/platform.c:908-929 | the udata joins the tail with the current epoch |
| `EpochLists.Reclaimer.Sweep` | src/linux/platform.c:950-975 | both loops free exactly the eligible prefix, in order |
| `EpochLists.Reclaimer.Rebase` | src/linux/platform.c:991-1012 | both walks subtract the base from every epoch, in 64-bit arithmetic |
| `EpochLists.Reclaimer.Enter` | src/linux/platform.c:1022-1033 | rebase if at the limit, next epoch, tail of the in-flight list |
| `EpochLists.Reclaimer.Exit` | src/linux/platform.c:1043-1052 | the caller leaves, then the sweep |
| `EpochLists.Reclaimer.FreeAll` | src/linux/platform.c:808-816 | the final loop frees the whole list in order |
| `FdMux.MaskIsUnion` | src/linux/platform.c:1733-1756 | the kernel's mask for a descriptor is the union of its enabled knotes, unless the descriptor was closed under them |
| `FdMux.TreeIsAttached` | src/linux/platform.c:1771-1881 | an `fd_state` is in the tree if and only if a knote is attached |
| `FdMux.RegisteredNotDeferred` | src/linux/platform.c:1865-1876 | while masks are exact, a udata queued for deferred free is registered nowhere, and no two descriptors share one |
| `FdMux.AttachKeeps` | src/linux/platform.c:1771-1832 | slots, knotes and udatas stay in agreement |
| `FdMux.DetachKeeps` | src/linux/platform.c:1840-1881 | so they do when a knote leaves; the last one takes the `fd_state` along |
| `FdMux.CreateOk` | src/linux/read.c:158-232 | a new knote is accepted if and only if its descriptor is open and not lost |
| `FdMux.CreateExact` | src/common/kevent.c:208-246 | adding keeps the mask exact if and only if the knote is not added disabled, or is refused |
| `FdMux.CreateRefused` | src/linux/read.c:158-163 | a knote refused, because its descriptor is closed or because it is lost, leaves no trace at all |
| `FdMux.EnableExact` | src/linux/write.c:254-267 | enabling keeps the mask exact and succeeds if and only if the descriptor is open and not lost |
| `FdMux.DisableKeeps` | src/linux/read.c:331-344 | disabling always succeeds and keeps the mask exact |
| `FdMux.DeleteKeeps` | src/linux/read.c:280-314 | deleting always succeeds, keeps the mask exact and leaves no slot pointing at the knote |
| `FdMux.LostRecovers` | src/linux/platform.c:2008-2040 | on EBADF or ENOENT the knote is detached, and the descriptor stays lost only for its other direction |
| `FdMux.StepKeeps` | src/linux/platform.c:1908-2076 | every operation, and every close and reopen by the program, keeps all of this |
| `FdMux.EnabledMeans` | src/common/kevent.c:206-253 | a step asks for no more than a knote of the index, or for one that is not in it |
| `FdMux.RunMask` | src/linux/platform.c:1908-2076 | after every run in which nothing is added disabled, with any closes and reopens: the kernel watches exactly the enabled knotes of a descriptor if and only if it was not closed under one that is still enabled |
| `FdBook.RunBook` | src/common/kevent.c:204-290 | after every run the knotes and their flags are exactly what the answered calls say, whatever happened in the kernel |
| `FdBook.RunWatches` | src/linux/platform.c:1908-2076 | after every run in which nothing is added disabled, the kernel watches exactly what the calls asked for on a descriptor if and only if it is not lost |
| `FdBook.CreateStores` | src/common/kevent.c:208-233 | the index gains exactly the new knote, or nothing when refused |
| `FdBook.CreateArmsOwn` | src/linux/read.c:158-232 | an accepted knote is armed for its direction with its own options |
| `FdBook.EnableArms` | src/common/knote.c:209-223 | a successful enable of a disabled knote clears the flag and arms its direction with its options; no other knote changes; otherwise the kernel is left alone |
| `FdBook.DisableDisarms` | src/common/knote.c:187-207 | afterwards the knote is in the index with the flag set, its direction is not registered, and no other knote changed |
| `FdBook.DeleteDisarms` | src/common/knote.c:148-185 | afterwards the index is the old one without the knote, and its direction is not registered |
| `FdMux.EnableOptions` | src/linux/platform.c:1931-1933 | arming one direction keeps the other's option bits if and only if the other is the write side and asks for no more |
| `FdMux.CreateOptions` | src/linux/platform.c:1931-1933 | so does adding the second direction |
| `FdMux.DisableOptions` | src/linux/platform.c:1935-1936 | disarming one keeps the other's option bits if and only if it has none |
| `FdUdata.RunAttached` | src/linux/platform.c:1771-1881 | after every run, without exception, an `fd_state` is in the tree if and only if a knote is attached |
| `FdUdata.StepShaped` | src/linux/platform.c:1908-2076 | slots, knotes and the ownership of udatas survive every operation, even where the mask is not exact |
| `FdUdata.StepClear` | src/linux/platform.c:1840-2043 | an operation keeps every registered udata out of the deferred list if and only if it is not an enable or delete of the only knote of a descriptor watched for nobody |
| `FdUdata.RunClear` | src/linux/platform.c:1840-2043 | registered and deferred udatas are apart all along a run if and only if no step of it is one of those |
| `FdUdata.RunApart` | src/linux/platform.c:1771-1832 | then no two descriptors are registered under one udata |
| `FdUdata.PlainRunClear` | src/common/kevent.c:235-246 | they are apart after every run in which nothing is added disabled |
| `FdUdata.RunConserves` | src/linux/platform.c:1771-1881 | after every run each udata ever allocated belongs to an `fd_state` or is on the deferred list, once |
| `FdRuns.ArmedWhileDisabled` | src/common/kevent.c:235-246 | a run: a knote added disabled is armed in the kernel and wanted by nobody |
| `FdRuns.DeferredWhileRegistered` | src/linux/platform.c:2004-2006 | a run: enabling it, or deleting it, defers the udata that the kernel still holds |
| `FdRuns.RdhupLost` | src/linux/platform.c:1931-1933 | a run: adding the write knote takes EPOLLRDHUP from the read knote |
| `FdRuns.ReopenedRefused` | src/linux/platform.c:2008-2040 | a run: closed under a read knote and opened again, the descriptor refuses a write knote |
| `EpollMux.Mux.FdStateMod` | src/linux/platform.c:1771-1832 | find or allocate, fill the slot, link the knote; the asserted slot conditions suffice |
| `EpollMux.Mux.FdStateDel` | src/linux/platform.c:1840-1881 | clear the slot; the last one removes the `fd_state` and defers its udata |
| `EpollMux.Mux.Recover` | src/linux/platform.c:2000-2043 | what each failed call leaves behind |
| `EpollMux.Mux.Settle` | src/linux/platform.c:2046-2073 | what each successful call changes |
| `EpollMux.Mux.EpollUpdate` | src/linux/platform.c:1908-2076 | the whole function equals its two specifications; every asserted condition holds and the `fd_state` it passes to the kernel is never NULL |
| `EpollMux.Mux.Create` | src/common/kevent.c:208-246 | the whole new state, the return value, the knote in the index and its direction armed with its options, survival of the mask in both directions; a failure changes nothing |
| `EpollMux.Mux.Enable` | src/common/knote.c:209-223 | no-op when enabled; else the whole new state, exactly when it succeeds, and then the flag cleared and the direction armed |
| `EpollMux.Mux.Disable` | src/common/knote.c:187-207 | no-op when disabled; else the whole new state, the flag set and the direction not registered |
| `EpollMux.Mux.Delete` | src/common/knote.c:148-185 | the knote, and no other, leaves the index, its direction is not registered, and the mask stays exact |
| `Lifecycle.InvIsSafe` | src/common/kqueue.c:279-381 | teardown at most once, and never under a thread that can reach the kqueue |
| `Lifecycle.TornOrHeld` | src/common/kevent.c:620-658 | a kqueue handed to `kqueue_free` has been torn down if and only if no thread holds it |
| `Lifecycle.FreeBeginKeeps` | src/common/kqueue.c:292-314 | unlinking keeps list, count, map and every caller's view |
| `Lifecycle.FreeEndKeeps` | src/common/kqueue.c:316-353 | deferring behind callers, or tearing down, keeps the invariant |
| `Lifecycle.FreeUnmaps` | src/common/kqueue.c:307-314 | freeing takes the kqueue's own slot and never another owner's |
| `Lifecycle.ExitKeeps` | src/common/kevent.c:625-652 | the last caller out, and only that one, owes the teardown |
| `Lifecycle.FinishKeeps` | src/common/kqueue.c:365-381 | completing a deferred free keeps the invariant |
| `Lifecycle.CreateKeeps` | src/common/kqueue.c:447-485 | reuse of a descriptor number evicts the stale kqueue from the map and leaves it listed |
| `Lifecycle.RunSafe` | src/common/kqueue.c:292-493 | in every interleaving: safety, slots that name listed kqueues of that id not being freed, and a count equal to the length of the list; `LifecycleRuns.RunFinds` says which kqueue |
| `Lifecycle.RunTearsDown` | src/common/kevent.c:481-658 | in every interleaving: handed over and left by all, exactly one teardown has happened |
| `LifecycleRuns.RunFinds` | src/common/kevent.c:484-493 | in every run a lookup of a number finds a kqueue if and only if it is the one created last under that number and nobody has begun to free it; otherwise it finds nothing |
| `LifecycleRuns.RunServes` | src/common/kevent.c:481-658 | whichever kqueue a thread has locked, is in flight in or leaves, it is the one its last lookup led to |
| `LifecycleRuns.RunMaps` | src/common/kqueue.c:404-407 | the map holds for each number exactly that kqueue |
| `LifecycleRuns.RunLists` | src/common/kqueue.c:292-493 | a kqueue is listed from its creation until it is handed to `kqueue_free` |
| `LifecycleRuns.RunTears` | src/common/kqueue.c:279-381 | after `kqueue_free` was called it is torn down exactly once, as soon as no thread has it any more |
| `LifecycleRuns.Reused` | src/common/kqueue.c:468-485 | a run: a number used again leads to the new kqueue while the old one is still listed |
| `KqMap.Map.Insert` | src/common/map.c:77-92 | takes an empty slot in range, else fails and changes nothing |
| `KqMap.Map.Remove` | src/common/map.c:94-107 | empties the slot if and only if it holds that pointer |
| `KqMap.Map.Lookup` | src/common/map.c:125-132 | the slot, NULL out of range |
| `KqMap.Map.Delete` | src/common/map.c:134-141 | empties the slot and returns what it held, or reports a bad index |
| `KqMap.Registry.Publish` | src/common/kqueue.c:468-485 | evict, insert, list and count together, or nothing when the id is out of range |
| `KqMap.Registry.Unlink` | src/common/kqueue.c:305-314 | count, list and map as `kqueue_free` leaves them |
| `Drain.StepKeeps` | src/linux/platform.c:220-342 | every pointer in the monitor's batch is a listed kqueue, closed and not yet freed; a waiting drainer whose generation stands still has a readable eventfd |
| `Drain.FreesListed` | src/linux/platform.c:207-215 | no two pointers handed to `kqueue_free` are the same and each is listed |
| `Drain.PassDrains` | src/linux/platform.c:289-315 | one drain pass leaves no closed kqueue unhanded |
| `Drain.RunKeeps` | src/linux/platform.c:220-342 | the invariant in every reachable state, several drainers and monitor restarts included |
| `Drain.DrainComplete` | src/linux/platform.c:545-578 | when a drain returns, every kqueue closed before the call has been handed to `kqueue_free` |
| `Drain.DrainIdle` | src/linux/platform.c:553-556 | so has it when no monitor runs and the call returns at once |
| `Drain.NeverStuck` | src/linux/platform.c:574-575 | from every reachable state at most three steps of the monitor let a waiting drainer return |
| `DrainRuns.RunDrains` | src/linux/platform.c:545-578 | in every run: a kqueue whose close came before a drain was called has been freed when that drain returns, monitor running or not |
| `DrainRuns.RunFrees` | src/linux/platform.c:207-215 | `kqueue_free` is called only for kqueues that were closed, and once for each |
| `DrainRuns.RunListed` | src/linux/platform.c:220-342 | a kqueue stays listed from its creation until then |
| `DrainRuns.RequestWaits` | src/linux/platform.c:553-575 | a drain waits if and only if the monitor runs, and then the eventfd is readable |
| `MonitorThread.Thread.FreeBatch` | src/linux/platform.c:281-287 | one pass over the event buffer frees each kqueue in it once and notices a drain request |
| `MonitorThread.Thread.Sweep` | src/linux/platform.c:302-311 | the zero-timeout loop ends with nothing closed left armed |
| `MonitorThread.Thread.Pass` | src/linux/platform.c:278-325 | the whole locked section is one step of the protocol |
| `Signals.DispatchFans` | src/common/evfilt_signal.h:218-252 | a signal bumps every knote of its number, in every kqueue, exactly once and makes the enabled ones pending |
| `Signals.DispatchCore` | src/common/evfilt_signal.h:218-252 | lists, watches and the balance modulo 2^32 survive any number of fires |
| `Signals.DispatchExact` | src/common/evfilt_signal.h:239-247 | a fire is kept if and only if its counter has room |
| `Signals.CreateKeeps` | src/common/evfilt_signal.h:537-604 | a new knote is on the enabled list, its filter in the table, its number watched |
| `Signals.DeleteKeeps` | src/common/evfilt_signal.h:621-651 | the knote leaves all lists; the last one of a number ends the watch |
| `Signals.EnableKeeps` | src/common/evfilt_signal.h:653-679 | on the enabled list, pending if something was counted meanwhile |
| `Signals.DisableKeeps` | src/common/evfilt_signal.h:681-702 | on the disabled list, not pending, counter kept |
| `Signals.CopyoutKeeps` | src/common/evfilt_signal.h:704-750 | reporting any number of pending knotes keeps lists, watches and the balance |
| `Signals.CopyoutTakes` | src/common/evfilt_signal.h:721-737 | with room for all, the pending list of the filter ends empty and each knote on it had its count reported and zeroed; otherwise exactly `nevents` leave, from the front |
| `Signals.CopyoutReports` | src/common/evfilt_signal.h:721-737 | with room for all, every fire of an enabled knote of the filter has been reported |
| `Signals.RunKeeps` | src/common/evfilt_signal.h:218-750 | in every interleaving each knote is on exactly one list, watches are right, and fires balance reports plus counters modulo 2^32 |
| `Signals.RunConserves` | src/common/evfilt_signal.h:218-750 | without a wrap the balance is exact and pending means enabled with a positive count |
| `Signals.WatchedByKnotes` | src/common/evfilt_signal.h:158-178 | the platform watches a number if and only if some knote asks for it |
| `Signals.TurnKeepsFlag` | src/common/knote.c:187-223 | enable and disable keep EV_DISABLE and the lists in agreement |
| `Signals.ModifyExact` | src/common/evfilt_signal.h:606-619 | modify keeps them so if and only if it does not change the flag; clearing it makes the next enable a no-op |
| `SignalBook.RunBook` | src/common/evfilt_signal.h:537-750 | after every run the knotes, their flags and lists, and the fires of each are exactly what the calls and signals say |
| `SignalBook.RunReports` | src/common/evfilt_signal.h:218-750 | a run without a wrap that ends with a copyout with room for all: each enabled knote of the filter has reported as many fires as signals were sent since it was created |
| `SignalBook.RemoveUnlinks` | src/common/evfilt_signal.h:621-651 | after a delete no list names the knote |
| `SignalRuns.FiresLost` | src/common/evfilt_signal.h:239-247 | a run of 2^32 fires of one knote, after which none is counted or reported |
| `SignalRuns.RunMisses` | src/common/evfilt_signal.h:218-750 | at the end of every run, fires are what was reported plus the counter plus 2^32 for each fire of the knote that met a full counter since it was created |
| `SignalRuns.RunExact` | src/common/evfilt_signal.h:218-750 | so the balance of one knote is exact if and only if no fire of it did |
| `SignalRuns.StaysDisabled` | src/common/evfilt_signal.h:606-619 | a run: disabled, modified, enabled again, and still on the disabled list |
| `SignalTable.Table.KnCreate` | src/common/evfilt_signal.h:537-604 | refused numbers, a failed first watch and success, each with its whole new state and with the lists, watches and balance kept |
| `SignalTable.Table.KnDelete` | src/common/evfilt_signal.h:621-651 | the whole new state, and the same invariant |
| `SignalTable.Table.KnEnable` | src/common/evfilt_signal.h:653-679 | the whole new state, the same invariant, and a wake exactly when the knote became pending |
| `SignalTable.Table.KnDisable` | src/common/evfilt_signal.h:681-702 | the whole new state, and the same invariant |
| `SignalTable.Table.WalkEnabled` | src/common/evfilt_signal.h:239-245 | the walk over the enabled list, and a wake exactly when a knote joined the pending list |
| `SignalTable.Table.Handle` | src/common/evfilt_signal.h:218-252 | the nested walks equal the fan-out, and wake the filters of `Woken` in order |
| `SignalTable.WokenExact` | src/common/evfilt_signal.h:249-250 | a filter is woken if and only if one of its enabled knotes was not pending before |
| `SignalTable.Table.CopyOut` | src/common/evfilt_signal.h:721-737 | the first `nevents` pending knotes, all of them if there are no more, in order, each with its count; they leave the list and their counts move to what was reported |
| `Timers.LtIsNs` | src/posix/timer.c:65-70 | the comparison of timespecs is that of nanoseconds |
| `Timers.AddNsExact` | src/posix/timer.c:100-109 | addition is exact and normalises |
| `Timers.CmpIsKey` | src/posix/timer.c:77-85 | deadline then address is a strict total order and embeds in integer keys |
| `Timers.AllocExact` | src/posix/timer.c:131-185 | which registrations are refused, and where the first deadline falls |
| `Timers.UnitLaws` | src/posix/timer.c:111-129 | a thousand of one unit are one of the next, the smallest is the nanosecond |
| `Timers.FiresLost` | src/posix/timer.c:258-266 | a registered one-nanosecond timer checked five seconds late counts 705032704 fires of 5000000000 |
| `Timers.FiredExact` | src/posix/timer.c:235-271 | a due timer counts one fire per deadline passed, one if it is one-shot or absolute, and none is lost if and only if the counter has room; a periodic one moves to the first deadline of its class after now, the others to one far away |
| `TimerQueue.Queue.Min` | src/posix/timer.c:216-218 | RB_MIN of the heap tree: the linked timer before all others in the comparator's order, because each linked entry is keyed by its timer's deadline and address |
| `TimerQueue.Queue.SetNext` | src/posix/timer.c:187-203 | a deadline, and with it the key of the entry, changes only while the timer is not linked |
| `TimerQueue.Queue.Link` | src/posix/timer.c:187-194 | inserts the entry under the current deadline; no other timer can have that key; no-op when linked |
| `TimerQueue.Queue.Unlink` | src/posix/timer.c:196-203 | removes the entry; no-op when not linked |
| `TimerQueue.Queue.CatchUp` | src/posix/timer.c:258-266 | the catch-up loop ends and counts exactly |
| `TimerQueue.Queue.FireOne` | src/posix/timer.c:245-270 | unlinked, one fire counted for each deadline passed, and linked again under its new deadline unless it stops; the tree stays a valid red-black tree |
| `TimerQueue.Queue.Check` | src/posix/timer.c:235-271 | popping the tree's minimum while it is due ends; each due timer gains the number of deadlines passed modulo 2^32, 1 for those that stop, and every other count stands; exactly the due one-shot and absolute ones leave, and every linked deadline is after now |
| `TimerQueue.Queue.CopyOne` | src/posix/timer.c:290-309 | the counter of an enabled knote is reported if positive and zeroed |
| `TimerQueue.Queue.Deliver` | src/posix/timer.c:339-351 | what is delivered for a due timer is what it had counted plus the deadlines passed, modulo 2^32 |
| `TimerQueue.Queue.Create` | src/posix/timer.c:353-374 | a linked timer of an enabled knote, or nothing |
| `TimerQueue.Queue.Modify` | src/posix/timer.c:376-393 | the old timer is unlinked before it is replaced |
| `TimerQueue.Queue.Enable` | src/posix/timer.c:406-425 | a disabled timer starts again from now with no fires; an enabled knote is left alone |
| `TimerQueue.Queue.Disable` | src/posix/timer.c:427-438 | a disabled timer is not linked |
| `TimerQueue.Queue.MinDeadline` | src/posix/timer.c:210-226 | from RB_MIN alone: the least wait over all linked timers, never negative, -1 if and only if there is none; from then on, and not before, some linked timer is due |
| `TimerQueue.Queue.ChooseTimeout` | src/posix/platform.c:257-311 | the caller's timeout, a linked deadline, the polling interval or zero, never longer than any of those that apply, and none if and only if none applies; zero whenever every knote is always ready and no interval is set |
| `Copyin.OneChange` | src/common/kevent.c:353-407 | the answer to one change: the change with EV_ERROR and its errno when it failed, the knote's own kevent with EV_RECEIPT for a return of 1, the change with status 0 for EV_RECEIPT, else nothing; -1 when an entry has no room, though the change was applied |
| `Copyin.TwoParts` | src/common/kevent.c:353-410 | a changelist in two parts: the second goes on from the kqueue and the entries of the first, unless that ended in -1 |
| `Copyin.CopyIn` | src/common/kevent.c:334-411 | the loop over one array equals the loop over a memory with two windows, and, unless the eventlist starts inside the changelist, the reference over disjoint arrays |
| `Copyin.AliasSafe` | src/common/kevent.c:383-394 | an eventlist that does not start inside the changelist gives the same changes, receipts, return value and memory as disjoint arrays |
| `Copyin.OverlapUnsafe` | src/common/kevent.c:383-394 | for every other placement some changelist is applied differently |
| `KnoteIndex.OnlyAlwaysReady` | src/posix/platform.c:257-259 | never more always-ready knotes than knotes, and as many if and only if every knote is one |
| `KnoteIndex.PlayBumps` | src/posix/read.c:117-177 | through any mix of enable, disable and delivery a knote is bumped if and only if it is a file or a vnode, is enabled, and, for a file with EV_CLEAR, has had no event since it was armed; it is disabled by EV_DISABLE, or by an event under EV_DISPATCH, until enabled |
| `KnoteIndex.Kqueue.Arm` | src/posix/read.c:117-150 | at most one bump per knote, counted |
| `KnoteIndex.Kqueue.Disarm` | src/posix/read.c:152-177 | the bump is taken back once, and the counter is positive when it is |
| `KnoteIndex.Kqueue.Create` | src/common/kevent.c:208-232 | creation then insertion: both counters equal the indexes |
| `KnoteIndex.Kqueue.Enable` | src/posix/vnode.c:236-256 | both counters equal the indexes |
| `KnoteIndex.Kqueue.Disable` | src/posix/vnode.c:258-271 | both counters equal the indexes |
| `KnoteIndex.Kqueue.Delete` | src/common/knote.c:148-185 | out of the index first, then disarmed: both counters equal the indexes |
| `KnoteIndex.Kqueue.Deliver` | src/posix/read.c:327-340 | EV_CLEAR and EV_DISPATCH in any combination keep both counters |
| `KnoteIndex.Filter.Create` | src/common/knote.c:76-82 | the tree of the filter, on the heap, indexes exactly its knotes by ident, and the counters are kept |
| `KnoteIndex.Filter.Delete` | src/common/knote.c:148-185 | tree, records and counters lose exactly that knote, and `kn_delete` was called on it |
| `KnoteIndex.Filter.Deliver` | src/common/private.h:850-865 | with EV_ONESHOT the knote leaves the tree, whatever else is set; otherwise as above |
| `KnoteIndex.Filter.Pass` | src/common/tree.h:743-746 | one pass of the safe traversal: the next knote, read before the current one is deleted, is the least of those that remain |
| `KnoteIndex.Filter.DeleteAll` | src/common/knote.c:98-107 | walking the tree calls `kn_delete` once per knote in ascending order of idents, that order coming from the tree, and empties the index |

## Left out

- The Solaris and Windows backends, the splay tree, RB_NFIND and RB_PREV, debug output, the version filter and packaging.
- `KNFL_FILE` knotes of the Linux read and write filters, which use an eventfd of their own instead of an `fd_state`; EPOLL_CTL_MOD as an argument of `epoll_update`, which no caller passes; a build without EPOLLRDHUP.
- Failures of `malloc`, and of `epoll_ctl` other than EBADF, ENOENT and EEXIST; a descriptor kept open by a duplicate after it was closed.
- Fork handlers, thread cancellation, process exit (the cancel states of the monitoring thread, which leave open kqueues listed), and `libkqueue_thread_safe == false`.
- A drainer that sleeps through 2^64 drain passes: the drain generation is unbounded here.
- `kqueue()` with a descriptor number outside the map beyond what `KqMap.Registry.Publish` says, and the leak of its pipe on that path.
- The wake pipe, `kqueue_interrupt` and whether parked callers are woken: callers may leave at any time, and the theorems hold for every schedule.
- The signal eventfd after a partial copyout: it is lowered after the unlock, so no claim is made that it stays raised; the flag actions after copyout are separate steps. The dispatcher thread's start and stop, and the coalescing of non-real-time signals in the kernel.
- `SIGNAL_MAX` is the fallback 64 of the source; a platform's NSIG only changes the constant. Failure of `sig_platform_remove`, which the source only logs.
- The walk of the timer's copyout over all knotes of the filter and its limit `nevents`; the flag actions after it.
- Overflow of `long` in the timer's unit conversion; wall-clock jumps after an absolute timer was registered.
- The contents of kevents beyond the flags, the receipts' status and the counts; descriptor probing, low-water marks, inotify and stat contents; the SIGCHLD scanner of the proc filter.
- The list encoding of `queue.h`: lists are sequences, and LIST_INSERTED is membership.
- MonitorThread.Thread.Poll: stands for `epoll_wait`; only its contract is used.
