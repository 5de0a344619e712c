/** What an event remembers: a set that finds nobody is kept for the next wait, one that finds waiters wakes them
    all. */
module EventCalls {
  import opened SeqSets
  import opened KernelState
  import opened KernelSteps
  import opened KernelRuns
  import opened WaitCalls
  import opened LockCalls
  import opened JoinCalls
  import opened KernelEffects

  // ---------------------------------------------------------------- single sections

  /** exos_event_create: not set, with the flag asked for, and nobody queued; nothing else changes. */
  lemma CreateEffect(k: K, e: nat, autoReset: bool)
    requires KInv(k) && Enabled(k, CreateEvent(e, autoReset))
    ensures var k' := Apply(k, CreateEvent(e, autoReset));
            && e in k'.events && !k'.events[e].state && k'.events[e].autoReset == autoReset
            && (forall f :: f in k.events && f != e ==> f in k'.events && k'.events[f] == k.events[f])
            && (forall l :: L(k'.lists, l) == L(k.lists, l))
            && k'.handles == k.handles && k'.threads == k.threads && k'.running == k.running
  {
    hide KInv;
  }

  /** A wait that finds the event set takes it if it is auto-reset, leaves it set if it is not, and queues
      nothing. */
  lemma OfferSet(k: K, h: Hid, e: nat)
    requires KInv(k) && Enabled(k, AddToEvent(h, e)) && k.events[e].state
    ensures var k' := Apply(k, AddToEvent(h, e));
            && e in k'.events && (k'.events[e].state <==> !k.events[e].autoReset)
            && k'.events[e].autoReset == k.events[e].autoReset
            && (forall f :: f in k.events && f != e ==> f in k'.events && k'.events[f] == k.events[f])
            && k'.handles == k.handles && k'.threads == k.threads && k'.lists == k.lists
            && DetachedHandle(k', h)
  {
    hide KInv;
  }

  /** A wait that finds the event clear queues its handle behind those already there, with a bit of its own. */
  lemma OfferClear(k: K, h: Hid, e: nat)
    requires KInv(k) && Enabled(k, AddToEvent(h, e)) && !k.events[e].state
    ensures var k' := Apply(k, AddToEvent(h, e));
            && k'.events == k.events && L(k'.lists, EventL(e)) == L(k.lists, EventL(e)) + [h]
            && (forall l :: l != EventL(e) ==> L(k'.lists, l) == L(k.lists, l))
            && h in k'.handles && k'.handles[h].state == HWaiting && k'.handles[h].owner == Some(k.running)
            && k'.handles[h].mask !! k.threads[k.running].maskUsed && k'.handles[h].mask != {}
            && forall g :: g in k.handles && g != h ==> g in k'.handles && k'.handles[g] == k.handles[g]
  {
    hide KInv;
    assert LowestFree(k.threads[k.running].maskUsed) < MASK_BITS;
  }

  /** exos_event_set and exos_event_reset up to their wakeup. */
  lemma StoreEffect(k: K, e: nat, state: bool)
    requires KInv(k) && Enabled(k, StoreEvent(e, state))
    ensures var k' := Apply(k, StoreEvent(e, state));
            && e in k'.events && k'.events[e].state == state && k'.events[e].autoReset == k.events[e].autoReset
            && k'.events[e].calls > 0
            && (forall f :: f in k.events && f != e ==> f in k'.events && k'.events[f] == k.events[f])
            && k'.handles == k.handles && k'.threads == k.threads && k'.lists == k.lists
  {
    hide KInv;
  }

  /** ___event_set: with waiters, all of them are DONE and the event is not set; without, it is set. */
  lemma SetEffect(k: K, e: nat)
    requires KInv(k) && Enabled(k, SetAuto(e))
    ensures var k' := Apply(k, SetAuto(e));
            && e in k'.events && (k'.events[e].state <==> L(k.lists, EventL(e)) == [])
            && k'.events[e].autoReset == k.events[e].autoReset
            && (forall f :: f in k.events && f != e ==> f in k'.events && k'.events[f] == k.events[f])
            && (forall h :: h in L(k.lists, EventL(e)) ==> DoneHandle(k', h))
            && L(k'.lists, EventL(e)) == []
  {
    hide KInv, Core, ResumeAll;
    InvCore(k);
    WakesAll(k, EventL(e));
  }

  /** The wakeup of exos_event_set and exos_event_reset: all waiters are DONE, and the state is as it was. */
  lemma FlushEffect(k: K, e: nat)
    requires KInv(k) && Enabled(k, FlushEvent(e))
    ensures var k' := Apply(k, FlushEvent(e));
            && e in k'.events && k'.events[e].state == k.events[e].state
            && k'.events[e].autoReset == k.events[e].autoReset && k'.events[e].calls == k.events[e].calls - 1
            && (forall f :: f in k.events && f != e ==> f in k'.events && k'.events[f] == k.events[f])
            && (forall h :: h in L(k.lists, EventL(e)) ==> DoneHandle(k', h))
            && L(k'.lists, EventL(e)) == []
  {
    hide KInv, Core, ResumeAll;
    InvCore(k);
    WakesAll(k, EventL(e));
  }

  // ---------------------------------------------------------------- an auto-reset event over runs

  /** The event is set and nobody is queued on it. */
  ghost predicate SetIdle(k: K, e: nat) {
    e in k.events && k.events[e].state && k.events[e].autoReset && L(k.lists, EventL(e)) == []
  }

  /** The step neither offers a handle to e, nor stores its state, nor creates it. */
  predicate LeavesEvent(s: Step, e: nat) {
    match s
    case AddToEvent(_, f) => f != e
    case StoreEvent(f, _) => f != e
    case CreateEvent(f, _) => f != e
    case _ => true
  }

  lemma KeptIdle(k: K, k': K, e: nat)
    requires SetIdle(k, e) && Kept(k, k')
    ensures SetIdle(k', e)
  {
    assert Quiet(k, EventL(e));
  }

  lemma ResumeIdle(k: K, h: Hid, e: nat)
    requires KInv(k) && Attached(k, h) && SetIdle(k, e)
    ensures Resumable(k, h) && SetIdle(Resume(k, h), e)
  {
    hide KInv, Resume, Kept, SetIdle;
    InvCore(k);
    ResumeCore(k, h);
    ResumeKept(k, h);
    KeptIdle(k, Resume(k, h), e);
  }

  lemma ExitIdle(k: K, e: nat)
    requires KInv(k) && CanExit(k) && SetIdle(k, e)
    ensures SetIdle(RemThread(k), e)
  {
    hide KInv, ResumeAll, Kept, Without;
    InvCore(k);
    DetachCore(k);
    ResumeAllCore(Detach(k), JoinL(k.running));
    KeptIdle(Detach(k), RemThread(k), e);
  }

  lemma UnlockIdle(k: K, x: nat, e: nat)
    requires KInv(k) && Enabled(k, Unlock(x)) && SetIdle(k, e)
    ensures SetIdle(MutexUnlock(k, x), e)
  {
    hide KInv, Core, ResumeAll, Kept;
    InvCore(k);
    if k.mutexes[x].count == 1 {
      var k1 := k.(mutexes := k.mutexes[x := Mutex(None, 0)]);
      CoreIgnores(k, k1);
      ResumeAllCore(k1, MutexL(x));
      KeptIdle(k1, MutexUnlock(k, x), e);
    }
  }

  lemma WakingIdle(k: K, s: Step, e: nat)
    requires KInv(k) && Enabled(k, s) && (s.SetAuto? || s.FlushEvent?) && SetIdle(k, e)
    ensures SetIdle(Apply(k, s), e)
  {
    hide KInv, ResumeAll, Kept;
    InvCore(k);
    ResumeAllCore(k, EventL(s.e));
    KeptIdle(k, ResumeAll(k, EventL(s.e)), e);
  }

  lemma QuietIdle(k: K, s: Step, e: nat)
    requires KInv(k) && Enabled(k, s) && !Resuming(s) && LeavesEvent(s, e) && SetIdle(k, e)
    ensures SetIdle(Apply(k, s), e)
  {
    hide KInv, Enqueued, Without, Toggle, PendingMeets;
    if s.DisposeHandle? {
      InvCore(k);
      AttachedResumable(k, s.h);
      UnlinkIdle(k, s.h, e);
    }
  }

  lemma UnlinkIdle(k: K, h: Hid, e: nat)
    requires Resumable(k, h) && SetIdle(k, e)
    ensures SetIdle(Dispose(k, h), e)
  {
    hide Toggle;
  }

  /** The event stays set, and nobody gets queued, under every step that leaves it alone. */
  lemma IdleStep(k: K, s: Step, e: nat)
    requires KInv(k) && Enabled(k, s) && LeavesEvent(s, e) && SetIdle(k, e)
    ensures SetIdle(Apply(k, s), e)
  {
    hide KInv, Enabled, Apply, Resume, RemThread, MutexUnlock, SetIdle, CanExit;
    if Resuming(s) {
      ApplyResuming(k, s);
      match s
      case ResumeHandle(h) => ResumableAttached(k, s); ResumeIdle(k, h, e);
      case Exit => ExitIdle(k, e);
      case SetAuto(_) => WakingIdle(k, s, e);
      case FlushEvent(_) => WakingIdle(k, s, e);
      case Unlock(x) => UnlockIdle(k, x, e);
    } else {
      QuietIdle(k, s, e);
    }
  }

  lemma ResumableAttached(k: K, s: Step)
    requires Enabled(k, s) && s.ResumeHandle?
    ensures Attached(k, s.h)
  {
  }

  lemma {:induction false} IdleRun(k: K, ss: seq<Step>, e: nat)
    requires KInv(k) && Legal(k, ss) && SetIdle(k, e) && forall i :: 0 <= i < |ss| ==> LeavesEvent(ss[i], e)
    ensures SetIdle(Run(k, ss), e)
    decreases |ss|
  {
    hide KInv, Apply, Enabled, SetIdle, LeavesEvent;
    if ss != [] {
      StepInv(k, ss[0]);
      IdleStep(k, ss[0], e);
      IdleRun(Apply(k, ss[0]), ss[1..], e);
    }
  }

  /** A set that found nobody is not lost, whatever happens until the next wait: that wait queues nothing, so it
      does not sleep, and takes the event. */
  lemma SetRemembered(k: K, e: nat, ss: seq<Step>, h: Hid)
    requires KInv(k) && Enabled(k, SetAuto(e)) && L(k.lists, EventL(e)) == []
    requires KInv(Apply(k, SetAuto(e))) && Legal(Apply(k, SetAuto(e)), ss)
    requires forall i :: 0 <= i < |ss| ==> LeavesEvent(ss[i], e)
    requires Enabled(Run(Apply(k, SetAuto(e)), ss), AddToEvent(h, e))
    ensures var k1 := Run(Apply(k, SetAuto(e)), ss);
            && e in k1.events && k1.events[e].state
            && var k2 := Apply(k1, AddToEvent(h, e));
            && e in k2.events && !k2.events[e].state && DetachedHandle(k2, h) && k2.handles == k1.handles
  {
    hide KInv, Apply, Run, Legal, LeavesEvent, CanOffer;
    SetEffect(k, e);
    IdleRun(Apply(k, SetAuto(e)), ss, e);
    OfferSet(Run(Apply(k, SetAuto(e)), ss), h, e);
  }

  // ---------------------------------------------------------------- a manual event over runs

  ghost predicate ManualSet(k: K, e: nat) {
    e in k.events && k.events[e].state && !k.events[e].autoReset
  }

  /** The step neither clears e nor creates it. */
  predicate KeepsSet(s: Step, e: nat) {
    match s
    case StoreEvent(f, state) => f != e || state
    case CreateEvent(f, _) => f != e
    case _ => true
  }

  lemma QuietManual(k: K, s: Step, e: nat)
    requires KInv(k) && Enabled(k, s) && !Resuming(s) && KeepsSet(s, e) && ManualSet(k, e)
    ensures ManualSet(Apply(k, s), e)
  {
    hide KInv, Enqueued, Without, Toggle, PendingMeets, Append, Unlink;
  }

  lemma ResumingManual(k: K, s: Step, e: nat)
    requires KInv(k) && Enabled(k, s) && Resuming(s) && ManualSet(k, e)
    ensures ManualSet(Apply(k, s), e)
  {
    hide KInv, Core, Resume, ResumeAll, Kept;
    InvCore(k);
    match s
    case ResumeHandle(h) => ResumeCore(k, h); ResumeKept(k, h); KeptEvents(k, Resume(k, h));
    case Exit => ExitEvents(k);
    case SetAuto(f) => ResumeAllCore(k, EventL(f)); KeptEvents(k, ResumeAll(k, EventL(f)));
    case FlushEvent(f) => ResumeAllCore(k, EventL(f)); KeptEvents(k, ResumeAll(k, EventL(f)));
    case Unlock(x) => UnlockEvents(k, x);
  }

  lemma KeptEvents(k: K, k': K)
    requires Kept(k, k')
    ensures k'.events == k.events
  {
  }

  lemma ExitEvents(k: K)
    requires KInv(k) && CanExit(k)
    ensures RemThread(k).events == k.events
  {
    hide KInv, ResumeAll, Kept, Without;
    InvCore(k);
    DetachCore(k);
    ResumeAllCore(Detach(k), JoinL(k.running));
    KeptEvents(Detach(k), RemThread(k));
  }

  /** A manual event that is set stays set until it is reset or created again, however many waits it lets pass. */
  lemma {:induction false} ManualRun(k: K, ss: seq<Step>, e: nat)
    requires KInv(k) && Legal(k, ss) && ManualSet(k, e) && forall i :: 0 <= i < |ss| ==> KeepsSet(ss[i], e)
    ensures ManualSet(Run(k, ss), e)
    decreases |ss|
  {
    hide KInv, Apply, Enabled, ManualSet, KeepsSet;
    if ss != [] {
      StepInv(k, ss[0]);
      if Resuming(ss[0]) { ResumingManual(k, ss[0], e); } else { QuietManual(k, ss[0], e); }
      ManualRun(Apply(k, ss[0]), ss[1..], e);
    }
  }
}
