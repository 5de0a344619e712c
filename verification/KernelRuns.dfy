/** Events, mutexes and joining on top of the wait handles, and all runs of the kernel: any
    interleaving of kernel sections by threads and interrupt handlers. */
module KernelRuns {
  import opened SeqSets
  import opened KernelState
  import opened KernelSteps

  // ---------------------------------------------------------------- events

  function SetEvent(k: K, e: nat, ev: Event): K {
    k.(events := k.events[e := ev])
  }

  /** ___event_cond and ___add_handle as one kernel section. */
  function EventAdd(k: K, h: Hid, e: nat): K
    requires k.running in k.threads && e in k.events
  {
    var ev := k.events[e];
    if ev.state then SetEvent(k, e, ev.(state := !ev.autoReset)) else AddHandle(k, h, EventL(e))
  }

  /** ___event_set of an auto-reset event: the state records whether nobody was there to wake. */
  function EventSetAuto(k: K, e: nat): K
    requires e in k.events
  {
    SetEvent(ResumeAll(k, EventL(e)), e, k.events[e].(state := L(k.lists, EventL(e)) == []))
  }

  /** First half of exos_event_set or exos_event_reset: the store to State, outside any section. */
  function EventStore(k: K, e: nat, state: bool): K
    requires e in k.events
  {
    SetEvent(k, e, k.events[e].(state := state, calls := k.events[e].calls + 1))
  }

  /** Second half: resuming every waiter. */
  function EventFlush(k: K, e: nat): K
    requires e in k.events && k.events[e].calls > 0
  {
    SetEvent(ResumeAll(k, EventL(e)), e, k.events[e].(calls := k.events[e].calls - 1))
  }

  /** exos_event_create: an empty list of waiters, not set. A set or reset call in progress goes on. */
  function NewEvent(k: K, e: nat, autoReset: bool): K {
    var calls := if e in k.events then k.events[e].calls else 0;
    SetEvent(k.(lists := k.lists[EventL(e) := []]), e, Event(false, autoReset, calls))
  }

  // ---------------------------------------------------------------- mutexes

  /** exos_mutex_create, which leaves the list of waiters alone. */
  function NewMutex(k: K, x: nat): K {
    k.(mutexes := k.mutexes[x := Mutex(None, 0)])
  }

  /** ___mutex_cond would return NULL. */
  predicate MutexFree(k: K, x: nat) {
    x in k.mutexes && (k.mutexes[x].owner == None || k.mutexes[x].owner == Some(k.running))
  }

  /** ___mutex_cond taking the mutex. A first lock also initialises the list of waiters. */
  function MutexTake(k: K, x: nat): K
    requires MutexFree(k, x)
  {
    var m := k.mutexes[x];
    if m.owner == None then
      k.(lists := k.lists[MutexL(x) := []], mutexes := k.mutexes[x := Mutex(Some(k.running), 1)])
    else
      k.(mutexes := k.mutexes[x := m.(count := (m.count + 1) % COUNT_LIMIT)])
  }

  function MutexAdd(k: K, h: Hid, x: nat): K
    requires x in k.mutexes && k.running in k.threads
  {
    if MutexFree(k, x) then MutexTake(k, x) else AddHandle(k, h, MutexL(x))
  }

  /** _unlock */
  function MutexUnlock(k: K, x: nat): K
    requires x in k.mutexes && k.mutexes[x].owner == Some(k.running) && k.mutexes[x].count > 0
  {
    var m := k.mutexes[x].(count := k.mutexes[x].count - 1);
    if m.count == 0 then ResumeAll(k.(mutexes := k.mutexes[x := m.(owner := None)]), MutexL(x))
    else k.(mutexes := k.mutexes[x := m])
  }

  // ---------------------------------------------------------------- joining

  function JoinAdd(k: K, h: Hid, t: Tid): K
    requires k.running in k.threads
  {
    if t !in k.threads || k.threads[t].state == Detached then k else AddHandle(k, h, JoinL(t))
  }

  // ---------------------------------------------------------------- steps

  /** exos_thread_create_wait_handle */
  function NewHandle(k: K, h: Hid): K {
    k.(handles := k.handles[h := DETACHED_HANDLE])
  }

  datatype Step =
    | CreateThread(t: Tid, priority: int)
    | Exit
    | Switch
    | CreateHandle(h: Hid)
    | DisposeHandle(h: Hid)
    | ResumeHandle(h: Hid)
    | WaitFor(mask: Mask)
    | CreateEvent(e: nat, autoReset: bool)
    | AddToEvent(h: Hid, e: nat)
    | SetAuto(e: nat)
    | StoreEvent(e: nat, state: bool)
    | FlushEvent(e: nat)
    | CreateMutex(x: nat)
    | AddToMutex(h: Hid, x: nat)
    | TryMutex(x: nat)
    | Unlock(x: nat)
    | AddToJoin(h: Hid, t: Tid)

  ghost predicate RunningReady(k: K) {
    k.running in k.threads && k.threads[k.running].state == Ready
  }

  /** ___add_handle on a detached handle; only when the condition names a list is a mask bit needed. */
  ghost predicate CanOffer(k: K, h: Hid, queued: bool) {
    && RunningReady(k) && h in k.handles && k.handles[h].state == HDetached
    && (queued ==> CanAdd(k, h))
  }

  /** A lock by the owner must not wrap the 32-bit count. */
  ghost predicate CountFits(k: K, x: nat) {
    x in k.mutexes && (k.mutexes[x].owner == Some(k.running) ==> k.mutexes[x].count + 1 < COUNT_LIMIT)
  }

  /** What the kernel demands of whoever enters the section. A section that would panic is no step. */
  ghost predicate Enabled(k: K, s: Step) {
    match s
    case CreateThread(t, _) => Gone(k.threads, t)
    case Exit => CanExit(k)
    case Switch => true
    case CreateHandle(h) => h in k.handles ==> k.handles[h].state == HDetached
    case DisposeHandle(h) => Attached(k, h)
    case ResumeHandle(h) => Attached(k, h)
    case WaitFor(mask) => RunningReady(k) && k.running != k.idle && mask != {}
    case CreateEvent(e, _) => L(k.lists, EventL(e)) == []
    case AddToEvent(h, e) => e in k.events && CanOffer(k, h, !k.events[e].state)
    case SetAuto(e) => e in k.events && k.events[e].autoReset
    case StoreEvent(e, _) => e in k.events
    case FlushEvent(e) => e in k.events && k.events[e].calls > 0
    case CreateMutex(x) => L(k.lists, MutexL(x)) == []
    case AddToMutex(h, x) => CountFits(k, x) && CanOffer(k, h, !MutexFree(k, x))
    case TryMutex(x) => RunningReady(k) && CountFits(k, x)
    case Unlock(x) => x in k.mutexes && k.mutexes[x].owner == Some(k.running) && k.mutexes[x].count > 0
    case AddToJoin(h, t) => CanOffer(k, h, !Gone(k.threads, t))
  }

  ghost function Apply(k: K, s: Step): K
    requires KInv(k) && Enabled(k, s)
  {
    match s
    case CreateThread(t, priority) => AddThread(k, t, priority)
    case Exit => RemThread(k)
    case Switch => ScheduleNonEmpty(k); k.(running := k.ready[0])
    case CreateHandle(h) => NewHandle(k, h)
    case DisposeHandle(h) => AttachedResumable(k, h); Dispose(k, h)
    case ResumeHandle(h) => AttachedResumable(k, h); Resume(k, h)
    case WaitFor(mask) => Wait(k, mask)
    case CreateEvent(e, autoReset) => NewEvent(k, e, autoReset)
    case AddToEvent(h, e) => EventAdd(k, h, e)
    case SetAuto(e) => EventSetAuto(k, e)
    case StoreEvent(e, state) => EventStore(k, e, state)
    case FlushEvent(e) => EventFlush(k, e)
    case CreateMutex(x) => NewMutex(k, x)
    case AddToMutex(h, x) => MutexAdd(k, h, x)
    case TryMutex(x) => if MutexFree(k, x) then MutexTake(k, x) else k
    case Unlock(x) => MutexUnlock(k, x)
    case AddToJoin(h, t) => JoinAdd(k, h, t)
  }

  // ---------------------------------------------------------------- scheduling

  /** The ready list is never empty, because the idle thread never leaves it; __kernel_schedule picks
      a thread of maximum priority that has been queued longest among its equals. */
  lemma SchedulePick(k: K)
    requires KInv(k)
    ensures k.ready != []
    ensures k.ready[0] in k.threads && k.threads[k.ready[0]].state == Ready
    ensures forall t :: t in k.threads && t != k.ready[0] && k.threads[t].state == Ready ==>
              Precedes(k.threads[k.ready[0]], k.threads[t])
  {
    hide ListsOk, HandlesOk, MasksOk, NoLostWake, ObjectsOk;
    assert k.idle in k.ready;
    assert k.ready[0] in k.ready;
    forall t | t in k.threads && t != k.ready[0] && k.threads[t].state == Ready
      ensures Precedes(k.threads[k.ready[0]], k.threads[t])
    {
      assert t in k.ready;
      var i :| 0 <= i < |k.ready| && k.ready[i] == t;
    }
  }

  lemma ScheduleNonEmpty(k: K)
    requires KInv(k)
    ensures k.ready != []
  {
    SchedulePick(k);
  }

  // ---------------------------------------------------------------- every step keeps the invariant

  lemma AddObjects(k: K, h: Hid, l: ListId)
    requires ObjectsOk(k) && CanAdd(k, h)
    requires l.EventL? ==> l.e in k.events && !k.events[l.e].state
    requires l.MutexL? ==> l.x in k.mutexes && k.mutexes[l.x].owner.Some?
    requires l.JoinL? ==> !Gone(k.threads, l.t)
    requires !l.PendingL?
    ensures ObjectsOk(AddHandle(k, h, l))
  {
    var k' := AddHandle(k, h, l);
    forall m | m != l ensures L(k'.lists, m) == L(k.lists, m) {}
    forall t ensures Gone(k'.threads, t) <==> Gone(k.threads, t) {}
    forall t | Gone(k'.threads, t) ensures L(k'.lists, JoinL(t)) == [] && L(k'.lists, PendingL(t)) == [] {
      assert Gone(k.threads, t);
    }
  }

  lemma EventAddInv(k: K, h: Hid, e: nat)
    requires KInv(k) && e in k.events && CanOffer(k, h, !k.events[e].state)
    ensures KInv(EventAdd(k, h, e))
  {
    hide Core, AddHandle;
    if k.events[e].state {
      assert EventsOk(k.lists, EventAdd(k, h, e).events);
      CoreIgnores(k, EventAdd(k, h, e));
    } else {
      AddCore(k, h, EventL(e));
      AddObjects(k, h, EventL(e));
    }
  }

  /** The facts about threads and handles do not depend on the objects' own fields. */
  lemma CoreIgnores(k: K, k': K)
    requires Core(k)
    requires k' == k.(events := k'.events, mutexes := k'.mutexes)
    ensures Core(k')
  {
    hide ListsOk, HandlesOk, MasksOk, QueuesOk, NoLostWake;
  }

  lemma EventWakeInv(k: K, e: nat, ev: Event)
    requires KInv(k) && e in k.events
    ensures KInv(SetEvent(ResumeAll(k, EventL(e)), e, ev))
  {
    hide Core, ResumeAll, Kept;
    ResumeAllCore(k, EventL(e));
    var k1 := ResumeAll(k, EventL(e));
    KeptObjects(k, k1);
    CoreIgnores(k1, SetEvent(k1, e, ev));
  }

  lemma MutexTakeInv(k: K, x: nat)
    requires KInv(k) && MutexFree(k, x) && CountFits(k, x)
    ensures KInv(MutexTake(k, x))
  {
    hide HandlesOk, MasksOk, QueuesOk, NoLostWake;
    var k' := MutexTake(k, x);
    forall l ensures L(k'.lists, l) == L(k.lists, l) {}
    forall l ensures NoDup(L(k'.lists, l)) {
      assert NoDup(L(k.lists, l));
    }
  }

  /** list_initialize in ___mutex_cond never drops a waiter. */
  lemma MutexTakeKeepsWaiters(k: K, x: nat, l: ListId)
    requires KInv(k) && MutexFree(k, x)
    ensures L(MutexTake(k, x).lists, l) == L(k.lists, l)
  {
  }

  lemma MutexUnlockInv(k: K, x: nat)
    requires KInv(k) && Enabled(k, Unlock(x))
    ensures KInv(MutexUnlock(k, x))
  {
    hide Core, ResumeAll, Kept;
    var m := k.mutexes[x].(count := k.mutexes[x].count - 1);
    if m.count == 0 {
      var k1 := k.(mutexes := k.mutexes[x := m.(owner := None)]);
      CoreIgnores(k, k1);
      ResumeAllCore(k1, MutexL(x));
      UnlockObjects(k, k1, MutexUnlock(k, x), x);
    } else {
      CoreIgnores(k, MutexUnlock(k, x));
    }
  }

  lemma UnlockObjects(k: K, k1: K, k2: K, x: nat)
    requires ObjectsOk(k) && x in k.mutexes
    requires k1 == k.(mutexes := k.mutexes[x := Mutex(None, 0)]) && Kept(k1, k2) && L(k2.lists, MutexL(x)) == []
    ensures ObjectsOk(k2)
  {
    forall e | e in k.events && L(k.lists, EventL(e)) == [] ensures L(k2.lists, EventL(e)) == [] {
      assert Quiet(k1, EventL(e));
    }
    forall y | y in k.mutexes && L(k.lists, MutexL(y)) == [] ensures L(k2.lists, MutexL(y)) == [] {
      assert Quiet(k1, MutexL(y));
    }
    forall t | Gone(k2.threads, t) ensures L(k2.lists, JoinL(t)) == [] && L(k2.lists, PendingL(t)) == [] {
      assert Gone(k1.threads, t) && Quiet(k1, JoinL(t)) && Quiet(k1, PendingL(t));
    }
  }

  lemma MutexAddInv(k: K, h: Hid, x: nat)
    requires KInv(k) && CountFits(k, x) && CanOffer(k, h, !MutexFree(k, x))
    ensures KInv(MutexAdd(k, h, x))
  {
    hide Core, AddHandle, MutexTake;
    if MutexFree(k, x) {
      MutexTakeInv(k, x);
    } else {
      AddCore(k, h, MutexL(x));
      AddObjects(k, h, MutexL(x));
    }
  }

  lemma JoinAddInv(k: K, h: Hid, t: Tid)
    requires KInv(k) && CanOffer(k, h, !Gone(k.threads, t))
    ensures KInv(JoinAdd(k, h, t))
  {
    hide Core, AddHandle;
    if !Gone(k.threads, t) {
      AddCore(k, h, JoinL(t));
      AddObjects(k, h, JoinL(t));
    }
  }

  lemma CreateHandleInv(k: K, h: Hid)
    requires KInv(k) && Enabled(k, CreateHandle(h))
    ensures KInv(NewHandle(k, h))
  {
    hide QueuesOk, ObjectsOk, UsedBy;
    var hs := k.handles[h := DETACHED_HANDLE];
    assert h in k.handles ==> HandleOk(k.handles[h], k.threads);
    forall l, g ensures g in L(k.lists, l) <==> g in hs && hs[g].on == Some(l) {
      assert g in L(k.lists, l) <==> g in k.handles && k.handles[g].on == Some(l);
    }
    forall t | t in k.threads ensures k.threads[t].maskUsed == UsedBy(hs, t) {
      UsedAdd(k.handles, h, DETACHED_HANDLE, t);
    }
    forall f, g, t | Owns(hs, f, t) && Owns(hs, g, t) && f != g ensures hs[f].mask !! hs[g].mask {
      assert Owns(k.handles, f, t) && Owns(k.handles, g, t);
    }
    assert ObjectsOk(k.(handles := hs)) by { ObjectsIgnore(k, hs); }
  }

  lemma ObjectsIgnore(k: K, hs: Handles)
    requires ObjectsOk(k)
    ensures ObjectsOk(k.(handles := hs))
  {
  }

  lemma DisposeInv(k: K, h: Hid)
    requires KInv(k) && Attached(k, h)
    ensures Resumable(k, h) && KInv(Dispose(k, h))
  {
    hide Core, Unlink, Toggle;
    DisposeCore(k, h);
    var k' := Dispose(k, h);
    forall t | Gone(k'.threads, t) ensures L(k'.lists, JoinL(t)) == [] && L(k'.lists, PendingL(t)) == [] {
      assert Gone(k.threads, t);
    }
  }

  lemma ResumeInv(k: K, h: Hid)
    requires KInv(k) && Attached(k, h)
    ensures Resumable(k, h) && KInv(Resume(k, h))
  {
    hide Core, ObjectsOk, Resume, Kept;
    ResumeCore(k, h);
    ResumeKept(k, h);
    KeptObjects(k, Resume(k, h));
  }

  lemma WaitInv(k: K, mask: Mask)
    requires KInv(k) && Enabled(k, WaitFor(mask))
    ensures KInv(Wait(k, mask))
  {
    hide Core, PendingMeets, Enqueued, Without;
    WaitCore(k, mask);
    var k' := Wait(k, mask);
    forall t | Gone(k'.threads, t) ensures L(k'.lists, JoinL(t)) == [] && L(k'.lists, PendingL(t)) == [] {
      assert Gone(k.threads, t);
    }
  }

  lemma SwitchInv(k: K)
    requires KInv(k)
    ensures k.ready != [] && KInv(k.(running := k.ready[0]))
  {
    hide ListsOk, HandlesOk, MasksOk, QueuesOk, NoLostWake;
    SchedulePick(k);
  }

  /** Every kernel section keeps the invariant. */
  lemma StepInv(k: K, s: Step)
    requires KInv(k) && Enabled(k, s)
    ensures KInv(Apply(k, s))
  {
    hide KInv, AddThread, RemThread, Dispose, Resume, Wait, EventAdd, MutexAdd, MutexUnlock,
         JoinAdd, MutexTake, CanExit, CanAdd, Attached, NewEvent, NewHandle, NewMutex;
    match s
    case CreateThread(t, priority) => AddThreadInv(k, t, priority);
    case Exit => RemThreadInv(k);
    case Switch => SwitchInv(k);
    case CreateHandle(h) => CreateHandleInv(k, h);
    case DisposeHandle(h) => DisposeInv(k, h);
    case ResumeHandle(h) => ResumeInv(k, h);
    case WaitFor(mask) => WaitInv(k, mask);
    case CreateEvent(e, autoReset) => NewEventInv(k, e, autoReset);
    case AddToEvent(h, e) => EventAddInv(k, h, e);
    case SetAuto(e) => EventWakeInv(k, e, k.events[e].(state := L(k.lists, EventL(e)) == []));
    case StoreEvent(e, state) => EventFieldInv(k, e, k.events[e].(state := state, calls := k.events[e].calls + 1));
    case FlushEvent(e) => EventWakeInv(k, e, k.events[e].(calls := k.events[e].calls - 1));
    case CreateMutex(x) => CreateMutexInv(k, x);
    case AddToMutex(h, x) => MutexAddInv(k, h, x);
    case TryMutex(x) => if MutexFree(k, x) { MutexTakeInv(k, x); }
    case Unlock(x) => MutexUnlockInv(k, x);
    case AddToJoin(h, t) => JoinAddInv(k, h, t);
  }

  lemma EventFieldInv(k: K, e: nat, ev: Event)
    requires KInv(k) && (!ev.state || ev.calls > 0)
    ensures KInv(SetEvent(k, e, ev))
  {
    hide Core;
    CoreIgnores(k, SetEvent(k, e, ev));
  }

  lemma CreateMutexInv(k: K, x: nat)
    requires KInv(k) && L(k.lists, MutexL(x)) == []
    ensures KInv(NewMutex(k, x))
  {
    hide Core;
    CoreIgnores(k, NewMutex(k, x));
  }

  /** list_initialize of a list nobody is queued on changes nothing. */
  lemma EmptyList(k: K, l: ListId)
    requires KInv(k) && L(k.lists, l) == []
    ensures KInv(k.(lists := k.lists[l := []]))
  {
    hide HandlesOk, MasksOk, QueuesOk, NoLostWake, NoDup;
    var k' := k.(lists := k.lists[l := []]);
    forall m ensures L(k'.lists, m) == L(k.lists, m) {}
    forall m ensures NoDup(L(k'.lists, m)) {
      assert NoDup(L(k.lists, m));
    }
  }

  lemma NewEventInv(k: K, e: nat, autoReset: bool)
    requires KInv(k) && L(k.lists, EventL(e)) == []
    ensures KInv(NewEvent(k, e, autoReset))
  {
    hide KInv;
    EmptyList(k, EventL(e));
    EventFieldInv(k.(lists := k.lists[EventL(e) := []]), e, NewEvent(k, e, autoReset).events[e]);
  }

  // ---------------------------------------------------------------- runs

  ghost predicate Legal(k: K, ss: seq<Step>)
    requires KInv(k)
    decreases |ss|
  {
    hide KInv, Apply;
    if ss == [] then true
    else Enabled(k, ss[0]) && (StepInv(k, ss[0]); Legal(Apply(k, ss[0]), ss[1..]))
  }

  /** State after any interleaving of kernel sections. In every state reachable from a good one the
      kernel invariant holds: lists agree with states, masks are exact, no wakeup is lost and no
      waiter is stranded. */
  ghost function Run(k: K, ss: seq<Step>): (k': K)
    requires KInv(k) && Legal(k, ss)
    ensures KInv(k')
    decreases |ss|
  {
    hide KInv, Apply, Enabled;
    if ss == [] then k else (StepInv(k, ss[0]); Run(Apply(k, ss[0]), ss[1..]))
  }

  lemma RunNil(k: K)
    requires KInv(k)
    ensures Legal(k, []) && Run(k, []) == k
  {
    hide KInv, Enabled, Apply;
  }

  lemma RunFirst(k: K, s: Step, ss: seq<Step>)
    requires KInv(k) && Enabled(k, s) && KInv(Apply(k, s)) && Legal(Apply(k, s), ss)
    ensures Legal(k, [s] + ss) && Run(k, [s] + ss) == Run(Apply(k, s), ss)
  {
    hide KInv, Enabled, Apply;
    assert ([s] + ss)[1..] == ss;
  }

  lemma StepTo(k: K, s: Step, k': K)
    requires KInv(k) && Enabled(k, s) && Apply(k, s) == k'
    ensures KInv(k')
  {
    hide KInv, Enabled, Apply;
    StepInv(k, s);
  }

  /** The state __thread_init leaves: the main thread running, the idle thread at priority -128. */
  function Boot(main: Tid, idle: Tid, priority: int): K {
    K([main, idle], [], main, idle, 2,
      map[main := Thread(Ready, priority, {}, {}, 0), idle := Thread(Ready, -128, {}, {}, 1)],
      map[], map[], map[], map[])
  }

  lemma BootInv(main: Tid, idle: Tid, priority: int)
    requires main != idle && -128 <= priority <= 127
    ensures KInv(Boot(main, idle, priority))
  {
    var k := Boot(main, idle, priority);
    assert HoldsState(k.ready, k.threads, Ready);
    assert HoldsState(k.wait, k.threads, Waiting);
  }

  // ---------------------------------------------------------------- what the invariant means

  /** In every state that any interleaving of kernel sections can reach from boot: a thread is on the list
      its State names; nothing a sleeping thread waits for is on its pending list; a handle in use owns one
      bit, handles of one owner own different bits, and MaskUsed is the union; no waiter is stranded on a
      set event, an unowned mutex or a detached thread. */
  lemma Reachable(main: Tid, idle: Tid, priority: int, ss: seq<Step>)
    requires main != idle && -128 <= priority <= 127
    requires (BootInv(main, idle, priority); Legal(Boot(main, idle, priority), ss))
    ensures (BootInv(main, idle, priority); Settled(Run(Boot(main, idle, priority), ss)))
  {
    hide KInv, Boot, Settled;
    BootInv(main, idle, priority);
    InvSettled(Run(Boot(main, idle, priority), ss));
  }

  ghost predicate Settled(k: K) {
    && (forall t :: t in k.threads ==>
          && (k.threads[t].state == Ready <==> t in k.ready) && (k.threads[t].state == Waiting <==> t in k.wait))
    && (forall t, h :: t in k.wait && h in L(k.lists, PendingL(t)) ==>
          t in k.threads && h in k.handles && k.handles[h].mask !! k.threads[t].maskWait)
    && (forall h :: h in k.handles && k.handles[h].state != HDetached ==> IsBit(k.handles[h].mask))
    && DistinctMasks(k.handles)
    && (forall t :: t in k.threads ==> k.threads[t].maskUsed == UsedBy(k.handles, t))
    && (forall e :: e in k.events && k.events[e].state && k.events[e].calls == 0 ==> L(k.lists, EventL(e)) == [])
    && (forall x :: x in k.mutexes && k.mutexes[x].owner == None ==> L(k.lists, MutexL(x)) == [])
    && (forall t :: Gone(k.threads, t) ==> L(k.lists, JoinL(t)) == [])
  }

  lemma InvSettled(k: K)
    requires KInv(k)
    ensures Settled(k)
  {
    hide UsedBy, DistinctMasks, IsBit;
    forall t, h | t in k.wait && h in L(k.lists, PendingL(t))
      ensures t in k.threads && h in k.handles && k.handles[h].mask !! k.threads[t].maskWait
    {
      assert h in k.handles && k.handles[h].on == Some(PendingL(t));
      assert HandleOk(k.handles[h], k.threads) && Asleep(k.handles[h], k.threads);
    }
    forall h | h in k.handles && k.handles[h].state != HDetached ensures IsBit(k.handles[h].mask) {
      assert HandleOk(k.handles[h], k.threads);
    }
  }

  /** A resume reaches a sleeping owner that waits for the handle's bit: it is READY afterwards. */
  lemma ResumeWakes(k: K, h: Hid)
    requires KInv(k) && Attached(k, h)
    ensures Resumable(k, h)
    ensures var t := k.handles[h].owner.value;
            var k' := Resume(k, h);
            && t in k'.threads && h in k'.handles && k'.handles[h].state == HDone
            && (k'.threads[t].state == Waiting ==>
                  k.threads[t].state == Waiting && k.threads[t].maskWait !! k.handles[h].mask)
            && (k.threads[t].state == Waiting && !(k.threads[t].maskWait !! k.handles[h].mask) ==>
                  k'.threads[t].state == Ready)
  {
    hide KInv, Enqueued, Unlink, Append, Without;
    assert Core(k) by { InvCore(k); }
    AttachedResumable(k, h);
  }

  lemma InvCore(k: K)
    requires KInv(k)
    ensures Core(k) && HandlesOk(k.handles, k.threads)
  {
  }

  /** A resume that came before the wait is not lost: the thread does not go to sleep. */
  lemma WaitSeesPending(k: K, mask: Mask, h: Hid)
    requires KInv(k) && Enabled(k, WaitFor(mask))
    requires h in k.handles && k.handles[h].state == HDone && k.handles[h].owner == Some(k.running)
    requires !(k.handles[h].mask !! mask)
    ensures Wait(k, mask) == k
  {
    hide MasksOk, QueuesOk, NoLostWake, ObjectsOk;
    assert HandleOk(k.handles[h], k.threads);
    assert h in L(k.lists, PendingL(k.running));
  }

  /** A thread that is awake inside exos_thread_wait has something it waits for pending. */
  lemma WaitReturns(k: K, mask: Mask)
    requires KInv(k) && Enabled(k, WaitFor(mask))
    ensures Wait(k, mask).threads[k.running].state == Ready <==>
            exists h :: h in k.handles && k.handles[h].state == HDone && k.handles[h].owner == Some(k.running)
                        && !(k.handles[h].mask !! mask)
  {
    hide KInv, Wait, PendingMeets;
    WaitSleeps(k, mask);
    if PendingMeets(k, k.running, mask) {
      var h := PendingDone(k, mask);
    }
    if h :| h in k.handles && k.handles[h].state == HDone && k.handles[h].owner == Some(k.running)
            && !(k.handles[h].mask !! mask) {
      WaitSeesPending(k, mask, h);
    }
  }

  lemma WaitSleeps(k: K, mask: Mask)
    requires RunningReady(k)
    ensures k.running in Wait(k, mask).threads
    ensures Wait(k, mask).threads[k.running].state == Ready <==> PendingMeets(k, k.running, mask)
  {
    hide PendingMeets, Enqueued, Without;
  }

  lemma PendingDone(k: K, mask: Mask) returns (h: Hid)
    requires KInv(k) && RunningReady(k) && PendingMeets(k, k.running, mask)
    ensures h in k.handles && k.handles[h].state == HDone && k.handles[h].owner == Some(k.running)
    ensures !(k.handles[h].mask !! mask)
  {
    hide MasksOk, QueuesOk, NoLostWake, ObjectsOk;
    h :| h in L(k.lists, PendingL(k.running)) && h in k.handles && !(k.handles[h].mask !! mask);
    assert HandleOk(k.handles[h], k.threads);
  }
}
