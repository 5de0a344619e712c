/** What a thread may rely on when exos_thread_wait returns, whatever the other threads and the
    interrupt handlers did meanwhile. */
module WaitCalls {
  import opened SeqSets
  import opened KernelState
  import opened KernelSteps
  import opened KernelRuns

  /** The mask a caller passes to exos_thread_wait for the handles hs. */
  ghost function MaskOf(handles: Handles, hs: set<Hid>): Mask {
    set h, b | h in hs && h in handles && b in handles[h].mask :: b
  }

  predicate DoneHandle(k: K, h: Hid) {
    h in k.handles && k.handles[h].state == HDone
  }

  /** Thread t is inside exos_thread_wait on its own handles hs: asleep on exactly their bits, or awake
      because one of them is DONE. */
  ghost predicate InWait(k: K, t: Tid, hs: set<Hid>) {
    && t in k.threads && k.threads[t].state != Detached
    && (forall h :: h in hs ==> Owns(k.handles, h, t))
    && (k.threads[t].state == Waiting ==> k.threads[t].maskWait == MaskOf(k.handles, hs))
    && (k.threads[t].state == Ready ==> exists h :: h in hs && DoneHandle(k, h))
  }

  /** Steps that only the running thread's own code takes. */
  predicate ByThread(s: Step) {
    s.Exit? || s.WaitFor? || s.AddToEvent? || s.AddToMutex? || s.TryMutex? || s.Unlock? || s.AddToJoin?
  }

  /** A step that leaves the caller t and its handles to themselves. */
  ghost predicate Leaves(k: K, s: Step, t: Tid, hs: set<Hid>) {
    && (ByThread(s) ==> k.running != t)
    && (s.DisposeHandle? ==> s.h !in hs)
  }

  // ---------------------------------------------------------------- frames

  /** k' treats thread t and its handles as k does; pending handles stay pending. */
  ghost predicate SameFor(k: K, k': K, t: Tid) {
    && t in k.threads && t in k'.threads
    && k'.threads[t].state == k.threads[t].state && k'.threads[t].maskWait == k.threads[t].maskWait
    && forall h :: Owns(k.handles, h, t) ==>
         Owns(k'.handles, h, t) && k'.handles[h].mask == k.handles[h].mask && (DoneHandle(k, h) ==> DoneHandle(k', h))
  }

  lemma SameMask(k: K, k': K, hs: set<Hid>)
    requires forall h :: h in hs ==> h in k.handles && h in k'.handles && k'.handles[h].mask == k.handles[h].mask
    ensures MaskOf(k'.handles, hs) == MaskOf(k.handles, hs)
  {
  }

  lemma InWaitFrame(k: K, k': K, t: Tid, hs: set<Hid>)
    requires InWait(k, t, hs) && SameFor(k, k', t)
    ensures InWait(k', t, hs)
  {
    SameMask(k, k', hs);
    if k.threads[t].state == Ready {
      var h :| h in hs && DoneHandle(k, h);
      assert Owns(k.handles, h, t);
      assert DoneHandle(k', h);
    }
  }

  // ---------------------------------------------------------------- resumes

  /** A resume that wakes t comes from one of the handles t waits for. */
  lemma WakerIsWaited(k: K, h: Hid, t: Tid, hs: set<Hid>)
    requires Core(k) && Resumable(k, h) && InWait(k, t, hs)
    requires k.handles[h].owner == Some(t) && Wakes(k, h)
    ensures h in hs
  {
    hide ListsOk, HandlesOk, QueuesOk, NoLostWake;
    var b :| b in k.threads[t].maskWait && b in k.handles[h].mask;
    var g :| g in hs && g in k.handles && b in k.handles[g].mask;
    assert Owns(k.handles, g, t) && Owns(k.handles, h, t);
  }

  lemma InWaitResume(k: K, h: Hid, t: Tid, hs: set<Hid>)
    requires Core(k) && Resumable(k, h) && InWait(k, t, hs)
    ensures InWait(Resume(k, h), t, hs)
  {
    hide Core, Append, Unlink, Enqueued, Without, MaskOf;
    var k' := Resume(k, h);
    SameMask(k, k', hs);
    if Wakes(k, h) && k.handles[h].owner == Some(t) {
      WakerIsWaited(k, h, t, hs);
      assert DoneHandle(k', h);
    } else if k.threads[t].state == Ready {
      var g :| g in hs && DoneHandle(k, g);
      assert DoneHandle(k', g);
    }
  }

  lemma {:induction false} InWaitResumeEach(k: K, l: seq<Hid>, t: Tid, hs: set<Hid>)
    requires Core(k) && AllAttached(k, l) && InWait(k, t, hs)
    ensures InWait(ResumeEach(k, l), t, hs)
    decreases |l|
  {
    hide Core, Resumable, Resume, InWait, Kept, Attached;
    if l != [] {
      assert Attached(k, l[0]);
      ResumeCore(k, l[0]);
      ResumeKept(k, l[0]);
      InWaitResume(k, l[0], t, hs);
      assert AllAttached(k, l[1..]);
      KeptAttached(k, Resume(k, l[0]), l[1..]);
      InWaitResumeEach(Resume(k, l[0]), l[1..], t, hs);
    }
  }

  lemma InWaitResumeAll(k: K, l: ListId, t: Tid, hs: set<Hid>)
    requires Core(k) && InWait(k, t, hs)
    ensures InWait(ResumeAll(k, l), t, hs)
  {
    hide Core, InWait;
    ListAttached(k, l);
    InWaitResumeEach(k, L(k.lists, l), t, hs);
  }

  // ---------------------------------------------------------------- every step

  lemma AddHandleSame(k: K, h: Hid, l: ListId, t: Tid)
    requires HandlesOk(k.handles, k.threads) && CanAdd(k, h) && t in k.threads
    ensures SameFor(k, AddHandle(k, h, l), t)
  {
    assert HandleOk(k.handles[h], k.threads);
  }

  lemma DisposeSame(k: K, h: Hid, t: Tid, hs: set<Hid>)
    requires Core(k) && Attached(k, h) && Resumable(k, h) && InWait(k, t, hs) && h !in hs
    ensures InWait(Dispose(k, h), t, hs)
  {
    hide Core, Unlink, Toggle, MaskOf;
    var k' := Dispose(k, h);
    SameMask(k, k', hs);
    if k.threads[t].state == Ready {
      var g :| g in hs && DoneHandle(k, g);
      assert DoneHandle(k', g);
    }
  }

  lemma InWaitExit(k: K, t: Tid, hs: set<Hid>)
    requires Core(k) && CanExit(k) && InWait(k, t, hs) && k.running != t
    ensures InWait(RemThread(k), t, hs)
  {
    hide Core, InWait, ResumeAll;
    InWaitThread(k, t, hs);
    DetachCore(k);
    assert SameFor(k, Detach(k), t) by { DetachSame(k, t); }
    InWaitFrame(k, Detach(k), t, hs);
    InWaitResumeAll(Detach(k), JoinL(k.running), t, hs);
  }

  lemma DetachSame(k: K, t: Tid)
    requires k.running in k.threads && t in k.threads && t != k.running
    ensures SameFor(k, Detach(k), t)
  {
  }

  lemma InWaitUnlock(k: K, x: nat, t: Tid, hs: set<Hid>)
    requires KInv(k) && Enabled(k, Unlock(x)) && InWait(k, t, hs)
    ensures InWait(MutexUnlock(k, x), t, hs)
  {
    hide KInv, InWait, ResumeAll;
    InvCore(k);
    var m := k.mutexes[x].(count := k.mutexes[x].count - 1);
    var k1 := k.(mutexes := k.mutexes[x := if m.count == 0 then m.(owner := None) else m]);
    CoreIgnores(k, k1);
    InWaitFrame(k, k1, t, hs) by { InWaitThread(k, t, hs); }
    InWaitResumeAll(k1, MutexL(x), t, hs);
  }

  lemma InWaitThread(k: K, t: Tid, hs: set<Hid>)
    requires InWait(k, t, hs)
    ensures t in k.threads
  {
  }

  lemma InWaitEvent(k: K, e: nat, ev: Event, t: Tid, hs: set<Hid>)
    requires Core(k) && InWait(k, t, hs)
    ensures InWait(SetEvent(k, e, ev), t, hs)
    ensures InWait(SetEvent(ResumeAll(k, EventL(e)), e, ev), t, hs)
  {
    hide Core, InWait, ResumeAll;
    InWaitThread(k, t, hs);
    InWaitFrame(k, SetEvent(k, e, ev), t, hs);
    InWaitResumeAll(k, EventL(e), t, hs);
    InWaitThread(ResumeAll(k, EventL(e)), t, hs);
    InWaitFrame(ResumeAll(k, EventL(e)), SetEvent(ResumeAll(k, EventL(e)), e, ev), t, hs);
  }

  lemma InWaitAdds(k: K, s: Step, t: Tid, hs: set<Hid>)
    requires KInv(k) && Enabled(k, s) && InWait(k, t, hs)
    requires s.AddToEvent? || s.AddToMutex? || s.AddToJoin? || s.TryMutex? || s.CreateMutex?
    ensures InWait(Apply(k, s), t, hs)
  {
    hide KInv, Apply, Enabled, InWait;
    match s
    case AddToEvent(h, e) => InWaitOffer(k, s, t, hs);
    case AddToJoin(h, u) => InWaitOffer(k, s, t, hs);
    case AddToMutex(h, x) => InWaitMutex(k, s, t, hs);
    case TryMutex(x) => InWaitMutex(k, s, t, hs);
    case CreateMutex(x) => InWaitMutex(k, s, t, hs);
  }

  lemma InWaitOffer(k: K, s: Step, t: Tid, hs: set<Hid>)
    requires KInv(k) && Enabled(k, s) && InWait(k, t, hs) && (s.AddToEvent? || s.AddToJoin?)
    ensures InWait(Apply(k, s), t, hs)
  {
    hide KInv, InWait, AddHandle, CanAdd;
    InvCore(k);
    InWaitThread(k, t, hs);
    match s
    case AddToEvent(h, e) =>
      if k.events[e].state {
        InWaitEvent(k, e, k.events[e].(state := !k.events[e].autoReset), t, hs);
      } else {
        InWaitAdd(k, h, EventL(e), t, hs);
      }
    case AddToJoin(h, u) =>
      if !Gone(k.threads, u) { InWaitAdd(k, h, JoinL(u), t, hs); }
  }

  lemma InWaitMutex(k: K, s: Step, t: Tid, hs: set<Hid>)
    requires KInv(k) && Enabled(k, s) && InWait(k, t, hs) && (s.AddToMutex? || s.TryMutex? || s.CreateMutex?)
    ensures InWait(Apply(k, s), t, hs)
  {
    hide KInv, InWait, AddHandle, CanAdd, MutexTake;
    InvCore(k);
    InWaitThread(k, t, hs);
    match s
    case AddToMutex(h, x) =>
      if MutexFree(k, x) { InWaitTake(k, x, t, hs); } else { InWaitAdd(k, h, MutexL(x), t, hs); }
    case TryMutex(x) =>
      if MutexFree(k, x) { InWaitTake(k, x, t, hs); }
    case CreateMutex(x) => InWaitFrame(k, Apply(k, s), t, hs);
  }

  lemma InWaitTake(k: K, x: nat, t: Tid, hs: set<Hid>)
    requires MutexFree(k, x) && InWait(k, t, hs)
    ensures InWait(MutexTake(k, x), t, hs)
  {
    hide InWait;
    InWaitThread(k, t, hs);
    InWaitFrame(k, MutexTake(k, x), t, hs);
  }

  lemma InWaitAdd(k: K, h: Hid, l: ListId, t: Tid, hs: set<Hid>)
    requires HandlesOk(k.handles, k.threads) && CanAdd(k, h) && InWait(k, t, hs)
    ensures InWait(AddHandle(k, h, l), t, hs)
  {
    hide InWait, HandlesOk, AddHandle;
    InWaitThread(k, t, hs);
    AddHandleSame(k, h, l, t);
    InWaitFrame(k, AddHandle(k, h, l), t, hs);
  }

  lemma InWaitOthers(k: K, s: Step, t: Tid, hs: set<Hid>)
    requires KInv(k) && Enabled(k, s) && InWait(k, t, hs) && Leaves(k, s, t, hs)
    requires s.CreateThread? || s.CreateHandle? || s.WaitFor? || s.Switch?
    ensures InWait(Apply(k, s), t, hs)
  {
    hide Core, ObjectsOk, InWait, Enqueued, Without, PendingMeets;
    InWaitLive(k, t, hs);
    InvCore(k);
    assert forall h :: h in k.handles ==> HandleOk(k.handles[h], k.threads);
    InWaitFrame(k, Apply(k, s), t, hs);
  }

  lemma InWaitCreate(k: K, e: nat, autoReset: bool, t: Tid, hs: set<Hid>)
    requires InWait(k, t, hs)
    ensures InWait(NewEvent(k, e, autoReset), t, hs)
  {
    hide InWait;
    InWaitThread(k, t, hs);
    InWaitFrame(k, NewEvent(k, e, autoReset), t, hs);
  }

  lemma InWaitLive(k: K, t: Tid, hs: set<Hid>)
    requires InWait(k, t, hs)
    ensures t in k.threads && k.threads[t].state != Detached
  {
  }

  /** Whatever step the rest of the system takes, a thread inside exos_thread_wait stays asleep on
      exactly its handles' bits or is awake with one of its handles DONE. */
  lemma InWaitStep(k: K, s: Step, t: Tid, hs: set<Hid>)
    requires KInv(k) && Enabled(k, s) && InWait(k, t, hs) && Leaves(k, s, t, hs)
    ensures InWait(Apply(k, s), t, hs)
  {
    hide KInv, InWait, Resume, Dispose, RemThread, MutexUnlock, SetEvent, ResumeAll, Core;
    InvCore(k);
    match s
    case Exit => InWaitExit(k, t, hs);
    case DisposeHandle(h) => AttachedResumable(k, h); DisposeSame(k, h, t, hs);
    case ResumeHandle(h) => AttachedResumable(k, h); InWaitResume(k, h, t, hs);
    case CreateEvent(e, autoReset) => InWaitCreate(k, e, autoReset, t, hs);
    case SetAuto(e) => InWaitEvent(k, e, k.events[e].(state := L(k.lists, EventL(e)) == []), t, hs);
    case StoreEvent(e, state) => InWaitEvent(k, e, k.events[e].(state := state, calls := k.events[e].calls + 1), t, hs);
    case FlushEvent(e) => InWaitEvent(k, e, k.events[e].(calls := k.events[e].calls - 1), t, hs);
    case Unlock(x) => InWaitUnlock(k, x, t, hs);
    case CreateThread(_, _) => InWaitOthers(k, s, t, hs);
    case CreateHandle(_) => InWaitOthers(k, s, t, hs);
    case WaitFor(_) => InWaitOthers(k, s, t, hs);
    case Switch => InWaitOthers(k, s, t, hs);
    case AddToEvent(_, _) => InWaitAdds(k, s, t, hs);
    case AddToMutex(_, _) => InWaitAdds(k, s, t, hs);
    case AddToJoin(_, _) => InWaitAdds(k, s, t, hs);
    case TryMutex(_) => InWaitAdds(k, s, t, hs);
    case CreateMutex(_) => InWaitAdds(k, s, t, hs);
  }

  /** Entering exos_thread_wait on one's own queued or pending handles. */
  lemma InWaitEnter(k: K, hs: set<Hid>)
    requires KInv(k) && Enabled(k, WaitFor(MaskOf(k.handles, hs)))
    requires forall h :: h in hs ==> Owns(k.handles, h, k.running)
    ensures InWait(Wait(k, MaskOf(k.handles, hs)), k.running, hs)
  {
    hide KInv, Enqueued, Without, PendingMeets;
    var mask := MaskOf(k.handles, hs);
    SameMask(k, Wait(k, mask), hs);
    if PendingMeets(k, k.running, mask) {
      var h := PendingDone(k, mask);
      OwnBit(k, hs, h);
      assert DoneHandle(k, h);
    }
  }

  /** An own handle that shares a bit with the handles hs is one of them. */
  lemma OwnBit(k: K, hs: set<Hid>, h: Hid)
    requires KInv(k) && Owns(k.handles, h, k.running) && !(k.handles[h].mask !! MaskOf(k.handles, hs))
    requires forall g :: g in hs ==> Owns(k.handles, g, k.running)
    ensures h in hs
  {
    hide ListsOk, QueuesOk, NoLostWake, ObjectsOk, UsedBy;
    var b :| b in k.handles[h].mask && b in MaskOf(k.handles, hs);
    var g :| g in hs && g in k.handles && b in k.handles[g].mask;
    assert Owns(k.handles, g, k.running);
  }

  ghost predicate AllLeave(k: K, ss: seq<Step>, t: Tid, hs: set<Hid>)
    requires KInv(k) && Legal(k, ss)
    decreases |ss|
  {
    hide KInv, Apply, Enabled;
    ss == [] || (Leaves(k, ss[0], t, hs) && (StepInv(k, ss[0]); AllLeave(Apply(k, ss[0]), ss[1..], t, hs)))
  }

  /** Over any run during which t is inside exos_thread_wait(hs): when t is READY again, one of its
      handles is DONE. This is the assertion every caller makes after the wait. */
  lemma {:induction false} WaitDelivers(k: K, ss: seq<Step>, t: Tid, hs: set<Hid>)
    requires KInv(k) && Legal(k, ss) && InWait(k, t, hs) && AllLeave(k, ss, t, hs)
    ensures InWait(Run(k, ss), t, hs)
    decreases |ss|
  {
    hide KInv, Apply, Enabled, InWait, Leaves;
    if ss != [] {
      StepInv(k, ss[0]);
      InWaitStep(k, ss[0], t, hs);
      WaitDelivers(Apply(k, ss[0]), ss[1..], t, hs);
    }
  }
}
