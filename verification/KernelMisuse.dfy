/** What the kernel does without a check: a thread may exit while handles of its own are still queued or
    pending, a recursive lock may wrap the 32-bit count, and an object may be created again while it is in
    use. Exactly these break the kernel invariant. */
module KernelMisuse {
  import opened SeqSets
  import IntrusiveList
  import opened KernelState
  import opened KernelSteps
  import opened KernelRuns

  // ---------------------------------------------------------------- ___rem_thread for any thread

  /** A handle that thread t still owns. */
  ghost predicate Leftover(k: K, h: Hid, t: Tid) {
    Owns(k.handles, h, t) && t in k.threads && k.threads[t].state == Detached
  }

  lemma ResumeLeftover(k: K, g: Hid, h: Hid, t: Tid)
    requires Resumable(k, g) && Leftover(k, h, t)
    ensures Leftover(Resume(k, g), h, t)
  {
    hide Enqueued, Without, Append, Unlink;
  }

  lemma {:induction false} ResumeEachLeftover(k: K, hs: seq<Hid>, h: Hid, t: Tid)
    requires Leftover(k, h, t)
    ensures Leftover(ResumeEach(k, hs), h, t)
    decreases |hs|
  {
    hide Resume, Resumable, Leftover;
    if hs != [] && Resumable(k, hs[0]) {
      ResumeLeftover(k, hs[0], h, t);
      ResumeEachLeftover(Resume(k, hs[0]), hs[1..], h, t);
    }
  }

  lemma LeftoverBreaks(k: K, h: Hid, t: Tid)
    requires Leftover(k, h, t)
    ensures !KInv(k)
  {
    hide ListsOk, MasksOk, QueuesOk, NoLostWake, ObjectsOk;
    assert !HandleOk(k.handles[h], k.threads);
  }

  /** An exit keeps the kernel invariant exactly when no handle of the exiting thread is queued or pending. */
  lemma ExitIff(k: K)
    requires KInv(k) && RunningReady(k) && k.running != k.idle
    ensures KInv(RemThread(k)) <==> forall h :: !Owns(k.handles, h, k.running)
  {
    hide KInv, ResumeEach, Without;
    if h :| Owns(k.handles, h, k.running) {
      ResumeEachLeftover(Detach(k), L(k.lists, JoinL(k.running)), h, k.running);
      LeftoverBreaks(RemThread(k), h, k.running);
    } else {
      RemThreadInv(k);
    }
  }

  /** All that resuming a list needs: lists and handles agree, and what is listed has an owner. */
  ghost predicate Linked(k: K) {
    ListsOk(k.lists, k.handles) && forall h :: h in k.handles && k.handles[h].on.Some? ==> Resumable(k, h)
  }

  lemma CoreLinked(k: K)
    requires Core(k)
    ensures Linked(k)
  {
    hide ListsOk, MasksOk, QueuesOk, NoLostWake;
    forall h | h in k.handles && k.handles[h].on.Some? ensures Resumable(k, h) {
      assert HandleOk(k.handles[h], k.threads);
    }
  }

  lemma DetachLinked(k: K)
    requires Linked(k) && k.running in k.threads
    ensures Linked(Detach(k))
  {
    hide ListsOk, Without;
  }

  lemma ResumeLinked(k: K, h: Hid)
    requires Linked(k) && Resumable(k, h)
    ensures Linked(Resume(k, h))
  {
    ToPendingLists(k, h);
    hide ListsOk, Append, Unlink, Enqueued, Without;
  }

  /** One resume takes the head off the list it is called for. */
  lemma LinkedHead(k: K, l: ListId)
    requires Linked(k) && !l.PendingL? && L(k.lists, l) != []
    ensures var h := L(k.lists, l)[0];
            Resumable(k, h) && L(Resume(k, h).lists, l) == L(k.lists, l)[1..]
  {
    hide IndexOf, Enqueued;
    var hs := L(k.lists, l);
    assert hs[0] in L(k.lists, l);
    ToPendingShrinks(k, hs[0], l);
    HeadIndex(hs);
    assert Without(hs, hs[0]) == hs[1..];
  }

  // ---------------------------------------------------------------- ___mutex_cond for any count

  /** Taking a mutex keeps the invariant exactly when the count does not wrap. */
  lemma TakeIff(k: K, x: nat)
    requires KInv(k) && MutexFree(k, x)
    ensures KInv(MutexTake(k, x)) <==> CountFits(k, x)
  {
    if CountFits(k, x) {
      MutexTakeInv(k, x);
    } else {
      hide Core, EventsOk, JoinsOk;
      assert MutexTake(k, x).mutexes[x] == Mutex(Some(k.running), 0);
    }
  }

  // ---------------------------------------------------------------- creating an object again

  lemma HandleAgain(k: K, h: Hid)
    requires KInv(k)
    ensures KInv(NewHandle(k, h)) <==> (h in k.handles ==> k.handles[h].state == HDetached)
  {
    if h in k.handles ==> k.handles[h].state == HDetached {
      CreateHandleInv(k, h);
    } else {
      hide MasksOk, QueuesOk, NoLostWake, ObjectsOk, NoDup;
      assert HandleOk(k.handles[h], k.threads);
      var l := k.handles[h].on.value;
      assert h in L(NewHandle(k, h).lists, l) && NewHandle(k, h).handles[h].on != Some(l);
    }
  }

  lemma EventAgain(k: K, e: nat, autoReset: bool)
    requires KInv(k)
    ensures KInv(NewEvent(k, e, autoReset)) <==> L(k.lists, EventL(e)) == []
  {
    if L(k.lists, EventL(e)) == [] {
      NewEventInv(k, e, autoReset);
    } else {
      hide HandlesOk, MasksOk, QueuesOk, NoLostWake, ObjectsOk, NoDup;
      var h := L(k.lists, EventL(e))[0];
      assert h in L(k.lists, EventL(e));
      var k' := NewEvent(k, e, autoReset);
      assert h !in L(k'.lists, EventL(e)) && h in k'.handles && k'.handles[h].on == Some(EventL(e));
    }
  }

  lemma MutexAgain(k: K, x: nat)
    requires KInv(k)
    ensures KInv(NewMutex(k, x)) <==> L(k.lists, MutexL(x)) == []
  {
    if L(k.lists, MutexL(x)) == [] {
      CreateMutexInv(k, x);
    } else {
      hide Core, EventsOk, JoinsOk;
      assert NewMutex(k, x).mutexes[x].owner == None;
    }
  }

  lemma ThreadAgain(k: K, t: Tid, priority: int)
    requires KInv(k)
    ensures KInv(AddThread(k, t, priority)) <==> Gone(k.threads, t)
  {
    if Gone(k.threads, t) {
      AddThreadInv(k, t, priority);
    } else {
      hide ListsOk, HandlesOk, MasksOk, NoLostWake, ObjectsOk, Scheduled;
      var k' := AddThread(k, t, priority);
      if t in k.wait {
        assert t in k'.wait && k'.threads[t].state == Ready;
      } else {
        assert t in k.ready;
        TwiceListed(k, t, priority);
      }
    }
  }

  lemma TwiceListed(k: K, t: Tid, priority: int)
    requires t in k.ready
    ensures !NoDup(AddThread(k, t, priority).ready)
  {
    var i :| 0 <= i < |k.ready| && k.ready[i] == t;
    var p := IntrusiveList.EnqueuePos(Priorities(k.ready, k.threads), priority);
    var q := AddThread(k, t, priority).ready;
    assert q[p] == t && q[if i < p then i else i + 1] == t;
  }

  // ---------------------------------------------------------------- runs

  /** What the code performs without a panic: as Enabled, but for any exit by a thread other than the idle one,
      any count, and the creation of anything, in use or not. */
  ghost predicate Performs(k: K, s: Step) {
    match s
    case Exit => RunningReady(k) && k.running != k.idle
    case AddToMutex(h, x) => x in k.mutexes && CanOffer(k, h, !MutexFree(k, x))
    case TryMutex(x) => RunningReady(k) && x in k.mutexes
    case CreateThread(_, _) => true
    case CreateHandle(_) => true
    case CreateEvent(_, _) => true
    case CreateMutex(_) => true
    case _ => Enabled(k, s)
  }

  ghost function Perform(k: K, s: Step): K
    requires KInv(k) && Performs(k, s)
  {
    match s
    case Exit => RemThread(k)
    case AddToMutex(h, x) => MutexAdd(k, h, x)
    case TryMutex(x) => if MutexFree(k, x) then MutexTake(k, x) else k
    case CreateThread(t, priority) => AddThread(k, t, priority)
    case CreateHandle(h) => NewHandle(k, h)
    case CreateEvent(e, autoReset) => NewEvent(k, e, autoReset)
    case CreateMutex(x) => NewMutex(k, x)
    case _ => Apply(k, s)
  }

  /** The uses that break the invariant: an exit with a handle in use, a lock that wraps the count, and the
      creation of a thread that has not exited, a handle in use, or an event or mutex with waiters. */
  ghost predicate Misuse(k: K, s: Step) {
    match s
    case Exit => exists h :: Owns(k.handles, h, k.running)
    case AddToMutex(_, x) => !CountFits(k, x)
    case TryMutex(x) => !CountFits(k, x)
    case CreateThread(t, _) => !Gone(k.threads, t)
    case CreateHandle(h) => h in k.handles && k.handles[h].state != HDetached
    case CreateEvent(e, _) => L(k.lists, EventL(e)) != []
    case CreateMutex(x) => L(k.lists, MutexL(x)) != []
    case _ => false
  }

  lemma EnabledIs(k: K, s: Step)
    ensures Enabled(k, s) <==> Performs(k, s) && !Misuse(k, s)
  {
  }

  /** A section the code performs keeps the invariant exactly when it is none of these. */
  lemma PerformIff(k: K, s: Step)
    requires KInv(k) && Performs(k, s)
    ensures KInv(Perform(k, s)) <==> !Misuse(k, s)
    ensures !Misuse(k, s) ==> Enabled(k, s) && Perform(k, s) == Apply(k, s)
  {
    hide KInv, RemThread, MutexTake, AddHandle, AddThread, NewHandle, NewEvent, NewMutex, Gone;
    EnabledIs(k, s);
    if !Misuse(k, s) {
      StepInv(k, s);
    }
    match s
    case Exit => ExitIff(k);
    case AddToMutex(h, x) => if MutexFree(k, x) { TakeIff(k, x); }
    case TryMutex(x) => if MutexFree(k, x) { TakeIff(k, x); }
    case CreateThread(t, priority) => ThreadAgain(k, t, priority);
    case CreateHandle(h) => HandleAgain(k, h);
    case CreateEvent(e, autoReset) => EventAgain(k, e, autoReset);
    case CreateMutex(x) => MutexAgain(k, x);
    case _ =>
  }

  /** The run is performed and every state on its way satisfies the invariant. */
  ghost predicate GoodRun(k: K, ss: seq<Step>)
    requires KInv(k)
    decreases |ss|
  {
    hide KInv, Perform;
    ss == [] || (Performs(k, ss[0]) && KInv(Perform(k, ss[0])) && GoodRun(Perform(k, ss[0]), ss[1..]))
  }

  /** The runs over which the invariant holds throughout are exactly those without such a use. */
  lemma {:induction false} GoodIff(k: K, ss: seq<Step>)
    requires KInv(k)
    ensures GoodRun(k, ss) <==> Legal(k, ss)
    decreases |ss|
  {
    hide KInv, Perform, Performs, Enabled, Apply, Misuse;
    if ss != [] {
      EnabledIs(k, ss[0]);
      if Performs(k, ss[0]) {
        PerformIff(k, ss[0]);
        if Enabled(k, ss[0]) {
          StepInv(k, ss[0]);
          GoodIff(Apply(k, ss[0]), ss[1..]);
        }
      }
    }
  }

  // ---------------------------------------------------------------- a run that breaks it

  /** The state in which the main thread has queued a handle on an event right after boot. */
  function Queued(main: Tid, idle: Tid, priority: int): K {
    var bit: Mask := {0};
    Boot(main, idle, priority).(
      threads := map[main := Thread(Ready, priority, bit, {}, 0), idle := Thread(Ready, -128, {}, {}, 1)],
      handles := map[0 := Handle(HWaiting, Some(main), bit, Some(EventL(0)))],
      lists := map[EventL(0) := [0]],
      events := map[0 := Event(false, false, 0)])
  }

  lemma QueuedSteps(main: Tid, idle: Tid, priority: int, k1: K, k2: K)
    requires main != idle && -128 <= priority <= 127
    requires k1 == Boot(main, idle, priority).(handles := map[0 := DETACHED_HANDLE])
    requires k2 == k1.(events := map[0 := Event(false, false, 0)], lists := map[EventL(0) := []])
    ensures var k := Boot(main, idle, priority);
            && KInv(k) && Enabled(k, CreateHandle(0)) && Apply(k, CreateHandle(0)) == k1
            && KInv(k1) && Enabled(k1, CreateEvent(0, false)) && Apply(k1, CreateEvent(0, false)) == k2
            && KInv(k2) && Enabled(k2, AddToEvent(0, 0)) && Apply(k2, AddToEvent(0, 0)) == Queued(main, idle, priority)
            && KInv(Queued(main, idle, priority))
  {
    var k := Boot(main, idle, priority);
    BootInv(main, idle, priority);
    QueuedIs(k2, main, idle, priority);
    hide KInv, Queued, AddHandle, EventAdd;
    StepTo(k, CreateHandle(0), k1);
    StepTo(k1, CreateEvent(0, false), k2);
    StepTo(k2, AddToEvent(0, 0), Queued(main, idle, priority));
  }

  lemma QueuedReached(main: Tid, idle: Tid, priority: int)
    requires main != idle && -128 <= priority <= 127
    ensures var k := Boot(main, idle, priority);
            var ss := [CreateHandle(0), CreateEvent(0, false), AddToEvent(0, 0)];
            KInv(k) && Legal(k, ss) && Run(k, ss) == Queued(main, idle, priority)
  {
    hide KInv, Enabled, Apply, Boot, Queued, Legal, Run;
    var k := Boot(main, idle, priority);
    var k1 := k.(handles := map[0 := DETACHED_HANDLE]);
    var k2 := k1.(events := map[0 := Event(false, false, 0)], lists := map[EventL(0) := []]);
    QueuedSteps(main, idle, priority, k1, k2);
    var a, b, c := CreateHandle(0), CreateEvent(0, false), AddToEvent(0, 0);
    assert [c] + [] == [c] && [b] + [c] == [b, c] && [a] + [b, c] == [a, b, c];
    RunNil(Queued(main, idle, priority));
    RunFirst(k2, c, []);
    RunFirst(k1, b, [c]);
    RunFirst(k, a, [b, c]);
  }

  lemma QueuedIs(k: K, main: Tid, idle: Tid, priority: int)
    requires main != idle
    requires k == Boot(main, idle, priority).(handles := map[0 := DETACHED_HANDLE],
                                              events := map[0 := Event(false, false, 0)], lists := map[EventL(0) := []])
    ensures EventAdd(k, 0, 0) == Queued(main, idle, priority)
  {
    var k', q := EventAdd(k, 0, 0), Queued(main, idle, priority);
    var none, bit: Mask := {}, {0};
    assert LowestFree(none) == 0 && none + bit == bit;
    assert k'.threads == q.threads;
    assert k'.handles == q.handles;
    var empty: seq<Hid> := [];
    assert L(k.lists, EventL(0)) == empty && empty + [0] == [0];
    assert k'.lists == q.lists;
  }

  /** A thread that exits with its handle queued: the event keeps a handle whose owner is DETACHED, so the
      next wakeup of that event would resume a thread that is gone. */
  lemma ExitStrands(main: Tid, idle: Tid, priority: int)
    requires main != idle && -128 <= priority <= 127
    ensures var k := Queued(main, idle, priority);
            && KInv(k) && Performs(k, Exit) && !KInv(RemThread(k))
            && L(RemThread(k).lists, EventL(0)) == [0] && Leftover(RemThread(k), 0, main)
  {
    QueuedReached(main, idle, priority);
    var k := Queued(main, idle, priority);
    assert L(Detach(k).lists, JoinL(main)) == [];
    assert RemThread(k) == Detach(k);
    LeftoverBreaks(RemThread(k), 0, main);
  }

  /** The event created again with that handle queued: the handle is WAITING and on no list, so that no
      wakeup of the event can reach its owner. */
  lemma CreateStrands(main: Tid, idle: Tid, priority: int)
    requires main != idle && -128 <= priority <= 127
    ensures var k, s := Queued(main, idle, priority), CreateEvent(0, false);
            && KInv(k) && Performs(k, s) && !KInv(Perform(k, s))
            && Perform(k, s).handles[0].state == HWaiting && Owns(Perform(k, s).handles, 0, main)
            && forall l :: L(Perform(k, s).lists, l) == []
  {
    QueuedReached(main, idle, priority);
    EventAgain(Queued(main, idle, priority), 0, false);
  }
}
