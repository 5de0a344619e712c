/** The kernel's global state as the C code keeps it, with 32-bit wait masks, and the kernel sections that
    change it. Each method is proved to take exactly the step that KernelSteps and KernelRuns reason about. */
module Kernel {
  import opened Bits32
  import opened SeqSets
  import opened IntrusiveList
  import opened KernelState
  import KernelSteps
  import opened KernelRuns
  import KernelMisuse
  import KernelEffects
  import opened WaitMask

  /** The fields of exos_thread_t, exos_wait_handle_t and event_t that the sections use. */
  datatype ThreadRec = ThreadRec(state: ThreadState, priority: int, maskUsed: bv32, maskWait: bv32)
  datatype HandleRec = HandleRec(state: HandleState, owner: Option<Tid>, mask: bv32, on: Option<ListId>)
  datatype EventRec = EventRec(state: bool, autoReset: bool)

  const DETACHED_REC := HandleRec(HDetached, None, 0, None)

  // ---------------------------------------------------------------- what the records stand for

  /** History that no code reads: when a thread was queued, how many calls are inside an event. */
  ghost function Past(past: map<nat, nat>, i: nat): nat {
    if i in past then past[i] else 0
  }

  ghost function ThreadOf(t: ThreadRec, since: nat): Thread {
    Thread(t.state, t.priority, Bits(t.maskUsed), Bits(t.maskWait), since)
  }

  ghost function AbsThreads(ts: map<Tid, ThreadRec>, since: map<Tid, nat>): Threads {
    map t | t in ts :: ThreadOf(ts[t], Past(since, t))
  }

  ghost function HandleOf(h: HandleRec): Handle {
    Handle(h.state, h.owner, Bits(h.mask), h.on)
  }

  ghost function AbsHandles(hs: map<Hid, HandleRec>): Handles {
    map h | h in hs :: HandleOf(hs[h])
  }

  ghost function AbsEvents(es: map<nat, EventRec>, calls: map<nat, nat>): map<nat, Event> {
    map e | e in es :: Event(es[e].state, es[e].autoReset, Past(calls, e))
  }

  lemma ThreadAt(ts: map<Tid, ThreadRec>, since: map<Tid, nat>, t: Tid)
    ensures t in AbsThreads(ts, since) <==> t in ts
    ensures t in ts ==> AbsThreads(ts, since)[t] == ThreadOf(ts[t], Past(since, t))
  {
  }

  lemma ThreadSet(ts: map<Tid, ThreadRec>, since: map<Tid, nat>, t: Tid, th: ThreadRec, n: nat)
    ensures AbsThreads(ts[t := th], since[t := n]) == AbsThreads(ts, since)[t := ThreadOf(th, n)]
    ensures n == Past(since, t) ==> AbsThreads(ts[t := th], since) == AbsThreads(ts, since)[t := ThreadOf(th, n)]
  {
    hide ThreadOf;
  }

  lemma HandleAt(hs: map<Hid, HandleRec>, h: Hid)
    ensures h in AbsHandles(hs) <==> h in hs
    ensures h in hs ==> AbsHandles(hs)[h] == HandleOf(hs[h])
  {
  }

  lemma HandleSet(hs: map<Hid, HandleRec>, h: Hid, hd: HandleRec)
    ensures AbsHandles(hs[h := hd]) == AbsHandles(hs)[h := HandleOf(hd)]
  {
    hide HandleOf;
  }

  lemma EventAt(es: map<nat, EventRec>, calls: map<nat, nat>, e: nat)
    ensures e in AbsEvents(es, calls) <==> e in es
    ensures e in es ==> AbsEvents(es, calls)[e] == Event(es[e].state, es[e].autoReset, Past(calls, e))
  {
  }

  lemma EventSet(es: map<nat, EventRec>, calls: map<nat, nat>, e: nat, ev: EventRec, n: nat)
    ensures AbsEvents(es[e := ev], calls[e := n]) == AbsEvents(es, calls)[e := Event(ev.state, ev.autoReset, n)]
    ensures n == Past(calls, e) ==>
              AbsEvents(es[e := ev], calls) == AbsEvents(es, calls)[e := Event(ev.state, ev.autoReset, n)]
  {
  }

  lemma DetachedOf()
    ensures HandleOf(DETACHED_REC) == KernelSteps.DETACHED_HANDLE
  {
    ZeroIsEmpty(0);
    hide Bits;
  }

  /** The kernel's variables at one moment. */
  datatype Mem = Mem(
    ready: seq<Tid>, wait: seq<Tid>, running: Tid, idle: Tid, threads: map<Tid, ThreadRec>,
    handles: map<Hid, HandleRec>,
    lists: Lists, events: map<nat, EventRec>, mutexes: map<nat, Mutex>, clock: nat, since: map<Tid, nat>,
    calls: map<nat, nat>)

  ghost function Abs(m: Mem): K {
    K(m.ready, m.wait, m.running, m.idle, m.clock, AbsThreads(m.threads, m.since), AbsHandles(m.handles), m.lists,
      AbsEvents(m.events, m.calls), m.mutexes)
  }

  // ---------------------------------------------------------------- the sections on the variables

  lemma AbsThread(m: Mem, t: Tid)
    ensures t in Abs(m).threads <==> t in m.threads
    ensures t in m.threads ==> Abs(m).threads[t] == ThreadOf(m.threads[t], Past(m.since, t))
  {
    ThreadAt(m.threads, m.since, t);
  }

  lemma AbsHandle(m: Mem, h: Hid)
    ensures h in Abs(m).handles <==> h in m.handles
    ensures h in m.handles ==> Abs(m).handles[h] == HandleOf(m.handles[h])
  {
    HandleAt(m.handles, h);
  }

  lemma AddThreadRefines(m: Mem, t: Tid, priority: int, q: seq<Tid>)
    requires q == KernelSteps.Enqueued(m.ready, Abs(m).threads, t, priority)
    ensures Abs(m.(ready := q, threads := m.threads[t := ThreadRec(Ready, priority, 0, 0)],
                   since := m.since[t := m.clock],
                   clock := m.clock + 1, lists := m.lists[PendingL(t) := []][JoinL(t) := []]))
         == KernelSteps.AddThread(Abs(m), t, priority)
  {
    ZeroIsEmpty(0);
    ThreadSet(m.threads, m.since, t, ThreadRec(Ready, priority, 0, 0), m.clock);
    hide AbsThreads, AbsHandles, AbsEvents, Bits, KernelSteps.Enqueued;
  }

  lemma DetachRefines(m: Mem)
    requires m.running in m.threads
    ensures m.running in Abs(m).threads
    ensures Abs(m.(ready := Without(m.ready, m.running),
                   threads := m.threads[m.running := m.threads[m.running].(state := Detached)]))
         == KernelSteps.Detach(Abs(m))
  {
    AbsThread(m, m.running);
    ThreadSet(m.threads, m.since, m.running, m.threads[m.running].(state := Detached), Past(m.since, m.running));
    hide AbsThreads, AbsHandles, AbsEvents, Bits, Without;
  }

  lemma ResumeRefines(m: Mem, h: Hid)
    requires KernelSteps.Resumable(Abs(m), h)
    ensures h in m.handles && m.handles[h].owner.Some? && m.handles[h].on.Some? && m.handles[h].owner.value in m.threads
    ensures var hd, t := m.handles[h], m.handles[h].owner.value;
            && Abs(m).handles[h].owner == hd.owner
            && Abs(m.(lists := Append(Unlink(m.lists, hd.on.value, h), PendingL(t), h),
                      handles := m.handles[h := hd.(state := HDone, on := Some(PendingL(t)))]))
               == KernelSteps.ToPending(Abs(m), h)
            && (KernelSteps.Wakes(Abs(m), h) <==>
                  m.threads[t].state == Waiting && And(m.threads[t].maskWait, hd.mask) != 0)
  {
    AbsHandle(m, h);
    var hd := m.handles[h];
    AbsThread(m, hd.owner.value);
    HandleSet(m.handles, h, hd.(state := HDone, on := Some(PendingL(hd.owner.value))));
    AndMeets(m.threads[hd.owner.value].maskWait, hd.mask);
    hide AbsThreads, AbsHandles, AbsEvents, Bits, And, Append, Unlink;
  }

  lemma WakeUpRefines(m: Mem, t: Tid, q: seq<Tid>)
    requires t in m.threads && q == KernelSteps.Enqueued(m.ready, Abs(m).threads, t, m.threads[t].priority)
    ensures t in Abs(m).threads
    ensures Abs(m.(wait := Without(m.wait, t), ready := q, threads := m.threads[t := m.threads[t].(state := Ready)],
                   since := m.since[t := m.clock], clock := m.clock + 1))
         == KernelSteps.WakeUp(Abs(m), t)
  {
    AbsThread(m, t);
    ThreadSet(m.threads, m.since, t, m.threads[t].(state := Ready), m.clock);
    hide AbsThreads, AbsHandles, AbsEvents, Bits, Without, KernelSteps.Enqueued;
  }

  lemma FallAsleepRefines(m: Mem, mask: bv32, q: seq<Tid>)
    requires m.running in m.threads
    requires q == KernelSteps.Enqueued(m.wait, Abs(m).threads, m.running, m.threads[m.running].priority)
    ensures m.running in Abs(m).threads
    ensures Abs(m.(ready := Without(m.ready, m.running), wait := q,
                   threads := m.threads[m.running := m.threads[m.running].(state := Waiting, maskWait := mask)],
                   since := m.since[m.running := m.clock], clock := m.clock + 1))
         == KernelSteps.FallAsleep(Abs(m), Bits(mask))
  {
    AbsThread(m, m.running);
    ThreadSet(m.threads, m.since, m.running, m.threads[m.running].(state := Waiting, maskWait := mask), m.clock);
    hide AbsThreads, AbsHandles, AbsEvents, Bits, Without, KernelSteps.Enqueued;
  }

  lemma AddHandleRefines(m: Mem, h: Hid, l: ListId, mask: bv32, used: bv32)
    requires m.running in m.threads
    requires Bits(mask) == {KernelSteps.LowestFree(Bits(m.threads[m.running].maskUsed))}
    requires Bits(used) == Bits(m.threads[m.running].maskUsed) + Bits(mask)
    ensures m.running in Abs(m).threads
    ensures Abs(m.(threads := m.threads[m.running := m.threads[m.running].(maskUsed := used)],
                   handles := m.handles[h := HandleRec(HWaiting, Some(m.running), mask, Some(l))],
                   lists := Append(m.lists, l, h)))
         == KernelSteps.AddHandle(Abs(m), h, l)
  {
    AbsThread(m, m.running);
    ThreadSet(m.threads, m.since, m.running, m.threads[m.running].(maskUsed := used), Past(m.since, m.running));
    HandleSet(m.handles, h, HandleRec(HWaiting, Some(m.running), mask, Some(l)));
    hide AbsThreads, AbsHandles, AbsEvents, Bits, Append, KernelSteps.LowestFree;
  }

  lemma DisposeRefines(m: Mem, h: Hid)
    requires KernelSteps.Resumable(Abs(m), h)
    ensures h in m.handles && m.handles[h].owner.Some? && m.handles[h].on.Some? && m.handles[h].owner.value in m.threads
    ensures var hd, t := m.handles[h], m.handles[h].owner.value;
            Abs(m.(lists := Unlink(m.lists, hd.on.value, h),
                   threads := m.threads[t := m.threads[t].(maskUsed := Xor(m.threads[t].maskUsed, hd.mask))],
                   handles := m.handles[h := DETACHED_REC]))
            == KernelSteps.Dispose(Abs(m), h)
  {
    AbsHandle(m, h);
    var hd, t := m.handles[h], m.handles[h].owner.value;
    AbsThread(m, t);
    ThreadSet(m.threads, m.since, t, m.threads[t].(maskUsed := Xor(m.threads[t].maskUsed, hd.mask)), Past(m.since, t));
    HandleSet(m.handles, h, DETACHED_REC);
    XorIsToggle(m.threads[t].maskUsed, hd.mask);
    DetachedOf();
    hide AbsThreads, AbsHandles, AbsEvents, Bits, Xor, Unlink, KernelSteps.Toggle, DETACHED_REC;
  }

  lemma SetEventRefines(m: Mem, e: nat, ev: EventRec, n: nat)
    ensures Abs(m.(events := m.events[e := ev], calls := m.calls[e := n]))
         == SetEvent(Abs(m), e, Event(ev.state, ev.autoReset, n))
    ensures n == Past(m.calls, e) ==>
              Abs(m.(events := m.events[e := ev])) == SetEvent(Abs(m), e, Event(ev.state, ev.autoReset, n))
  {
    EventSet(m.events, m.calls, e, ev, n);
    hide AbsThreads, AbsHandles, AbsEvents, Past;
  }

  lemma AbsIs(m: Mem)
    ensures var k := Abs(m);
            && k.ready == m.ready && k.wait == m.wait && k.running == m.running
            && k.idle == m.idle && k.lists == m.lists
            && k.mutexes == m.mutexes
  {
  }

  lemma AbsEvent(m: Mem, e: nat)
    ensures e in Abs(m).events <==> e in m.events
    ensures e in m.events ==> Abs(m).events[e] == Event(m.events[e].state, m.events[e].autoReset, Past(m.calls, e))
  {
    EventAt(m.events, m.calls, e);
  }

  /** exos_mutex_try on the words. */
  lemma TryRefines(m: Mem, x: nat)
    requires KInv(Abs(m)) && x in m.mutexes
    ensures var k := Abs(m);
            && (MutexFree(k, x) <==> m.mutexes[x].owner == None || m.mutexes[x].owner == Some(m.running))
            && (m.mutexes[x].owner == None ==>
                  MutexTake(k, x) == Abs(m.(lists := m.lists[MutexL(x) := []],
                                            mutexes := m.mutexes[x := Mutex(Some(m.running), 1)])))
            && (m.mutexes[x].owner == Some(m.running) ==>
                  MutexTake(k, x) ==
                    Abs(m.(mutexes := m.mutexes[x := m.mutexes[x].(count := (m.mutexes[x].count + 1) % COUNT_LIMIT)])))
            && (MutexFree(k, x) ==> (KInv(MutexTake(k, x)) <==> CountFits(k, x)))
            && (!MutexFree(k, x) ==> CountFits(k, x))
  {
    hide KInv, AbsThreads, AbsHandles, AbsEvents;
    if MutexFree(Abs(m), x) {
      KernelMisuse.TakeIff(Abs(m), x);
    }
  }

  lemma AtTail(k: K, h: Hid, l: ListId)
    requires k.running in k.threads
    ensures L(KernelSteps.AddHandle(k, h, l).lists, l) == L(k.lists, l) + [h]
  {
  }

  lemma AllDone(m: Mem, hs: seq<Hid>)
    requires forall h :: h in hs ==> h in Abs(m).handles && Abs(m).handles[h].state == HDone
    ensures forall h :: h in hs ==> h in m.handles && m.handles[h].state == HDone
  {
    hide AbsThreads, AbsEvents, Bits;
  }

  lemma AbsMutex(m: Mem, lists: Lists, mutexes: map<nat, Mutex>)
    ensures Abs(m.(lists := lists, mutexes := mutexes)) == Abs(m).(lists := lists, mutexes := mutexes)
  {
    hide AbsThreads, AbsHandles, AbsEvents;
  }

  class Kernel {
    var ready: seq<Tid>
    var wait: seq<Tid>
    var running: Tid
    const idle: Tid
    var threads: map<Tid, ThreadRec>
    var handles: map<Hid, HandleRec>
    var lists: Lists
    var events: map<nat, EventRec>
    var mutexes: map<nat, Mutex>
    ghost var clock: nat
    ghost var since: map<Tid, nat>
    ghost var calls: map<nat, nat>

    ghost function Now(): Mem
      reads this
    {
      Mem(ready, wait, running, idle, threads, handles, lists, events, mutexes, clock, since, calls)
    }

    ghost function St(): K
      reads this
    {
      Abs(Now())
    }

    /** __thread_init */
    constructor (main: Tid, idle: Tid, priority: int)
      requires main != idle && -128 <= priority <= 127
      ensures St() == Boot(main, idle, priority) && KInv(St())
    {
      this.idle := idle;
      ready, wait, running, clock := [main, idle], [], main, 2;
      threads := map[main := ThreadRec(Ready, priority, 0, 0), idle := ThreadRec(Ready, -128, 0, 0)];
      since := map[main := 0, idle := 1];
      handles, lists, events, mutexes, calls := map[], map[], map[], map[], map[];
      new;
      ZeroIsEmpty(0);
      hide Bits;
      assert St().threads == Boot(main, idle, priority).threads;
      BootInv(main, idle, priority);
    }

    /** __kernel_schedule: the panic for an empty ready list is unreachable. */
    method Schedule() returns (t: Tid)
      requires KInv(St())
      ensures var k := St();
              && t in k.threads && k.threads[t].state == Ready
              && forall u :: u in k.threads && u != t && k.threads[u].state == Ready ==>
                   Precedes(k.threads[t], k.threads[u])
    {
      SchedulePick(St());
      t := ready[0];
    }

    /** list_enqueue of a thread on a scheduler list. */
    method Enqueue(q: seq<Tid>, t: Tid, priority: int) returns (q': seq<Tid>)
      ensures q' == KernelSteps.Enqueued(q, St().threads, t, priority)
    {
      hide AbsThreads;
      var i := 0;
      ghost var ps := KernelSteps.Priorities(q, St().threads);
      while i < |q| && (if q[i] in threads then threads[q[i]].priority else 0) >= priority
        invariant 0 <= i <= EnqueuePos(ps, priority)
      {
        ThreadAt(threads, since, q[i]);
        i := i + 1;
      }
      if i < |q| {
        ThreadAt(threads, since, q[i]);
        assert ps[i] < priority;
      }
      q' := q[..i] + [t] + q[i..];
    }

    /** ___add_thread */
    method AddThread(t: Tid, priority: int)
      requires KInv(St()) && Gone(St().threads, t)
      modifies this
      ensures St() == KernelSteps.AddThread(old(St()), t, priority) && KInv(St())
    {
      hide KInv, KernelSteps.Enqueued, Gone, Abs, KernelSteps.AddThread;
      KernelSteps.AddThreadInv(St(), t, priority);
      var q := Enqueue(ready, t, priority);
      AddThreadRefines(Now(), t, priority, q);
      ready, threads, lists :=
        q, threads[t := ThreadRec(Ready, priority, 0, 0)], lists[PendingL(t) := []][JoinL(t) := []];
      since, clock := since[t := clock], clock + 1;
    }

    /** ___rem_thread: the invariant is kept exactly when the thread leaves no handle behind. */
    method RemThread()
      requires KInv(St()) && RunningReady(St()) && running != idle
      modifies this
      ensures St() == KernelSteps.RemThread(old(St()))
      ensures KInv(St()) <==> forall h :: !Owns(old(St()).handles, h, old(running))
    {
      hide KInv, KernelSteps.ResumeAll, Abs, KernelMisuse.Linked, KernelSteps.Detach, Owns;
      AbsIs(Now());
      KernelMisuse.ExitIff(St());
      InvCore(St());
      KernelMisuse.CoreLinked(St());
      KernelMisuse.DetachLinked(St());
      AbsThread(Now(), running);
      DetachRefines(Now());
      ready := Without(ready, running);
      threads := threads[running := threads[running].(state := Detached)];
      var count := ResumeAll(JoinL(running));
    }

    /** ___resume_all: resume the head until the list is empty. */
    method ResumeAll(l: ListId) returns (count: nat)
      requires KernelMisuse.Linked(St()) && !l.PendingL?
      modifies this
      ensures St() == KernelSteps.ResumeAll(old(St()), l)
      ensures count == |L(old(lists), l)|
    {
      hide KernelMisuse.Linked, KernelSteps.Resume, KernelSteps.Resumable, Abs;
      count := 0;
      ghost var all := L(lists, l);
      AbsIs(Now());
      while L(lists, l) != []
        invariant KernelMisuse.Linked(St()) && count + |L(lists, l)| == |all|
        invariant KernelSteps.ResumeEach(St(), L(lists, l)) == KernelSteps.ResumeEach(old(St()), all)
        decreases |L(lists, l)|
      {
        AbsIs(Now());
        KernelMisuse.LinkedHead(St(), l);
        KernelMisuse.ResumeLinked(St(), L(lists, l)[0]);
        Resume(L(lists, l)[0]);
        AbsIs(Now());
        count := count + 1;
      }
    }

    /** _resume: the handle is DONE on its owner's pending list, and the owner is no longer asleep on one of
        its bits. */
    method Resume(h: Hid)
      requires KernelSteps.Resumable(St(), h)
      modifies this
      ensures St() == KernelSteps.Resume(old(St()), h)
      ensures h in handles && handles[h].state == HDone && handles[h].owner.Some?
      ensures var t := handles[h].owner.value;
              t in threads && (threads[t].state == Waiting ==> And(threads[t].maskWait, handles[h].mask) == 0)
    {
      hide Abs, KernelSteps.Enqueued, KernelSteps.ToPending,
           KernelSteps.WakeUp, KernelSteps.Wakes, KernelSteps.Resumable,
           Without, Unlink, Append, And;
      ResumeRefines(Now(), h);
      var hd, t := handles[h], handles[h].owner.value;
      lists := Append(Unlink(lists, hd.on.value, h), PendingL(t), h);
      handles := handles[h := hd.(state := HDone, on := Some(PendingL(t)))];
      if threads[t].state == Waiting {
        if And(threads[t].maskWait, hd.mask) != 0 {
          WakeUp(t);
        }
      }
    }

    /** From the wait list to the ready list. */
    method WakeUp(t: Tid)
      requires t in threads
      modifies this
      ensures t in old(St()).threads && St() == KernelSteps.WakeUp(old(St()), t)
      ensures handles == old(handles) && t in threads && threads[t].state == Ready
    {
      hide Abs, KernelSteps.Enqueued, Without, KernelSteps.WakeUp;
      AbsIs(Now());
      var q := Enqueue(ready, t, threads[t].priority);
      WakeUpRefines(Now(), t, q);
      wait, ready, threads := Without(wait, t), q, threads[t := threads[t].(state := Ready)];
      since, clock := since[t := clock], clock + 1;
    }

    /** exos_thread_resume */
    method ResumeHandle(h: Hid)
      requires KInv(St()) && KernelSteps.Attached(St(), h)
      modifies this
      ensures KernelSteps.Resumable(old(St()), h) && St() == KernelSteps.Resume(old(St()), h) && KInv(St())
    {
      hide KInv, Abs, KernelSteps.Resumable, KernelSteps.Resume, KernelSteps.Attached;
      ResumeInv(St(), h);
      Resume(h);
    }

    /** ___add_handle, once the condition has named a list: the handle gets a bit that no handle of the running
        thread has, or the kernel panics because there is none. */
    method AddHandle(h: Hid, l: ListId) returns (panic: bool)
      requires running in threads
      modifies this
      ensures old(running) in old(St()).threads
      ensures panic <==> KernelSteps.LowestFree(old(St()).threads[old(running)].maskUsed) == MASK_BITS
      ensures St() == if panic then old(St()) else KernelSteps.AddHandle(old(St()), h, l)
      ensures running == old(running) && (!panic ==> h in handles && handles[h].mask != 0)
      ensures !panic ==> And(old(threads[running].maskUsed), handles[h].mask) == 0
    {
      hide Abs, Append, Bits, KernelSteps.LowestFree, KernelSteps.AddHandle, And;
      AbsThread(Now(), running);
      var mask, used;
      panic, mask, used := AllocMask(threads[running].maskUsed);
      if !panic {
        FreshBit(threads[running].maskUsed, mask);
        AddHandleRefines(Now(), h, l, mask, used);
        threads := threads[running := threads[running].(maskUsed := used)];
        handles := handles[h := HandleRec(HWaiting, Some(running), mask, Some(l))];
        lists := Append(lists, l, h);
      }
    }

    /** ___dispose_handle */
    method DisposeHandle(h: Hid)
      requires KInv(St()) && KernelSteps.Attached(St(), h)
      modifies this
      ensures KernelSteps.Resumable(old(St()), h) && St() == KernelSteps.Dispose(old(St()), h) && KInv(St())
    {
      hide KInv, Abs, Unlink, Xor, KernelSteps.Resumable, KernelSteps.Dispose, KernelSteps.Attached;
      DisposeInv(St(), h);
      DisposeRefines(Now(), h);
      var t, mask := handles[h].owner.value, handles[h].mask;
      lists := Unlink(lists, handles[h].on.value, h);
      threads := threads[t := threads[t].(maskUsed := Xor(threads[t].maskUsed, mask))];
      handles := handles[h := DETACHED_REC];
    }

    /** The FOREACH over the running thread's pending handles. */
    method FindPending(mask: bv32) returns (pending: bool)
      ensures pending <==> KernelSteps.PendingMeets(St(), running, Bits(mask))
    {
      hide Abs, Bits, And;
      AbsIs(Now());
      var hs := L(lists, PendingL(running));
      ghost var k := St();
      for i := 0 to |hs|
        invariant forall j :: 0 <= j < i && hs[j] in k.handles ==> k.handles[hs[j]].mask !! Bits(mask)
      {
        AbsHandle(Now(), hs[i]);
        if hs[i] in handles {
          AndMeets(handles[hs[i]].mask, mask);
          if And(handles[hs[i]].mask, mask) != 0 {
            assert hs[i] in L(k.lists, PendingL(running));
            return true;
          }
        }
      }
      return false;
    }

    /** ___wait: sleep unless something in mask is pending. */
    method WaitFor(mask: bv32)
      requires KInv(St()) && RunningReady(St()) && running != idle && mask != 0
      modifies this
      ensures St() == KernelSteps.Wait(old(St()), Bits(mask)) && KInv(St())
    {
      hide KInv, Abs, KernelSteps.FallAsleep, KernelSteps.PendingMeets, Bits;
      AbsIs(Now());
      ZeroIsEmpty(mask);
      WaitInv(St(), Bits(mask));
      AbsThread(Now(), running);
      var pending := FindPending(mask);
      if !pending {
        FallAsleep(mask);
      }
    }

    /** The sleeping half of ___wait. */
    method FallAsleep(mask: bv32)
      requires running in threads
      modifies this
      ensures old(running) in old(St()).threads && St() == KernelSteps.FallAsleep(old(St()), Bits(mask))
    {
      hide Abs, KernelSteps.Enqueued, Without, Bits, KernelSteps.FallAsleep;
      AbsIs(Now());
      var t := running;
      var q := Enqueue(wait, t, threads[t].priority);
      FallAsleepRefines(Now(), mask, q);
      ready, wait, threads := Without(ready, t), q, threads[t := threads[t].(state := Waiting, maskWait := mask)];
      since, clock := since[t := clock], clock + 1;
    }

    // -------------------------------------------------------------- events

    /** exos_event_add_handle inside its kernel section. */
    method EventAddHandle(h: Hid, e: nat) returns (panic: bool)
      requires KInv(St()) && RunningReady(St()) && e in events && h in handles && handles[h].state == HDetached
      modifies this
      ensures old(running) in old(St()).threads && e in old(St()).events
      ensures panic <==>
                !old(events[e].state) && KernelSteps.LowestFree(old(St()).threads[old(running)].maskUsed) == MASK_BITS
      ensures St() == if panic then old(St()) else EventAdd(old(St()), h, e)
      ensures KInv(St())
      ensures old(events[e].state) ==>
                handles == old(handles) && lists == old(lists)
                && e in events && (events[e].state <==> !old(events[e].autoReset))
      ensures !old(events[e].state) && !panic ==> L(lists, EventL(e)) == old(L(lists, EventL(e))) + [h]
    {
      hide KInv, Abs, KernelSteps.AddHandle, KernelSteps.LowestFree;
      ghost var k := St();
      AbsIs(Now());
      AbsThread(Now(), running);
      AbsHandle(Now(), h);
      AbsEvent(Now(), e);
      if k.events[e].state || KernelSteps.LowestFree(k.threads[running].maskUsed) < MASK_BITS {
        EventAddInv(k, h, e);
      }
      if events[e].state {
        var ev := events[e].(state := !events[e].autoReset);
        SetEventRefines(Now(), e, ev, Past(calls, e));
        events := events[e := ev];
        panic := false;
      } else {
        panic := AddHandle(h, EventL(e));
        AbsIs(Now());
        AtTail(k, h, EventL(e));
      }
    }

    /** ___event_set: remember the event only when there was nobody to wake. */
    method EventSetAuto(e: nat)
      requires KInv(St()) && e in events && events[e].autoReset
      modifies this
      ensures e in old(St()).events && St() == KernelRuns.EventSetAuto(old(St()), e) && KInv(St())
      ensures e in events && (events[e].state <==> old(L(lists, EventL(e))) == [])
      ensures forall h :: h in old(L(lists, EventL(e))) ==> h in handles && handles[h].state == HDone
    {
      hide KInv, Abs, KernelSteps.ResumeAll, KernelMisuse.Linked, Core, Past;
      ghost var k := St();
      AbsIs(Now());
      AbsEvent(Now(), e);
      InvCore(k);
      KernelMisuse.CoreLinked(k);
      EventWakeInv(k, e, k.events[e].(state := L(lists, EventL(e)) == []));
      KernelSteps.ResumeAllCore(k, EventL(e));
      KernelEffects.WakesAll(k, EventL(e));
      var count := ResumeAll(EventL(e));
      AllDone(Now(), L(k.lists, EventL(e)));
      AbsEvent(Now(), e);
      var ev := events[e].(state := count == 0);
      SetEventRefines(Now(), e, ev, Past(calls, e));
      events := events[e := ev];
    }

    /** The unprotected store in exos_event_set and exos_event_reset. */
    method EventStore(e: nat, state: bool)
      requires KInv(St()) && e in events
      modifies this
      ensures e in old(St()).events && St() == KernelRuns.EventStore(old(St()), e, state) && KInv(St())
      ensures e in events && events[e].state == state && handles == old(handles) && lists == old(lists)
    {
      hide KInv, Abs;
      ghost var k := St();
      AbsEvent(Now(), e);
      EventFieldInv(k, e, k.events[e].(state := state, calls := k.events[e].calls + 1));
      SetEventRefines(Now(), e, events[e].(state := state), Past(calls, e) + 1);
      events, calls := events[e := events[e].(state := state)], calls[e := Past(calls, e) + 1];
    }

    /** The wakeup that follows the store. */
    method EventFlush(e: nat)
      requires KInv(St()) && e in events && Past(calls, e) > 0
      modifies this
      ensures e in old(St()).events && old(St()).events[e].calls > 0
      ensures St() == KernelRuns.EventFlush(old(St()), e) && KInv(St())
      ensures L(lists, EventL(e)) == [] && e in events && events[e].state == old(events[e].state)
      ensures forall h :: h in old(L(lists, EventL(e))) ==> h in handles && handles[h].state == HDone
    {
      hide KInv, Abs, KernelSteps.ResumeAll, KernelMisuse.Linked, Core, Past;
      ghost var k := St();
      AbsIs(Now());
      AbsEvent(Now(), e);
      InvCore(k);
      KernelMisuse.CoreLinked(k);
      EventWakeInv(k, e, k.events[e].(calls := k.events[e].calls - 1));
      KernelSteps.ResumeAllCore(k, EventL(e));
      KernelEffects.WakesAll(k, EventL(e));
      var count := ResumeAll(EventL(e));
      AllDone(Now(), L(k.lists, EventL(e)));
      AbsIs(Now());
      AbsEvent(Now(), e);
      SetEventRefines(Now(), e, events[e], Past(calls, e) - 1);
      assert events[e := events[e]] == events;
      calls := calls[e := Past(calls, e) - 1];
    }

    // -------------------------------------------------------------- mutexes and joins

    /** exos_mutex_try: 0 when the running thread holds the mutex afterwards, -1 when it would block. The
        invariant is kept exactly when the count does not wrap. */
    method MutexTry(x: nat) returns (r: int)
      requires KInv(St()) && RunningReady(St()) && x in mutexes
      modifies this
      ensures r == (if MutexFree(old(St()), x) then 0 else -1)
      ensures St() == (if r == 0 then MutexTake(old(St()), x) else old(St()))
      ensures KInv(St()) <==> CountFits(old(St()), x)
      ensures r == 0 <==> x in mutexes && mutexes[x].owner == Some(running)
      ensures running == old(running) && handles == old(handles)
    {
      hide KInv, Abs, MutexFree, MutexTake, CountFits;
      TryRefines(Now(), x);
      if mutexes[x].owner == None {
        lists := lists[MutexL(x) := []];
        mutexes := mutexes[x := Mutex(Some(running), 1)];
        r := 0;
      } else if mutexes[x].owner == Some(running) {
        mutexes := mutexes[x := mutexes[x].(count := (mutexes[x].count + 1) % COUNT_LIMIT)];
        r := 0;
      } else {
        r := -1;
      }
    }

    /** ___mutex_cond and ___add_handle as the lock loop calls them. */
    method MutexAddHandle(h: Hid, x: nat) returns (panic: bool)
      requires KInv(St()) && RunningReady(St()) && x in mutexes && h in handles && handles[h].state == HDetached
      modifies this
      ensures old(running) in old(St()).threads
      ensures panic <==>
                !MutexFree(old(St()), x)
                && KernelSteps.LowestFree(old(St()).threads[old(running)].maskUsed) == MASK_BITS
      ensures St() == if panic then old(St()) else MutexAdd(old(St()), h, x)
      ensures KInv(St()) <==> CountFits(old(St()), x)
    {
      hide KInv, Abs, KernelSteps.AddHandle, KernelSteps.LowestFree, MutexTake;
      ghost var k := St();
      AbsIs(Now());
      AbsThread(Now(), running);
      AbsHandle(Now(), h);
      if mutexes[x].owner == None || mutexes[x].owner == Some(running) {
        var r := MutexTry(x);
        panic := false;
      } else {
        if KernelSteps.LowestFree(k.threads[running].maskUsed) < MASK_BITS {
          MutexAddInv(k, h, x);
        }
        panic := AddHandle(h, MutexL(x));
      }
    }

    /** _unlock */
    method MutexUnlock(x: nat)
      requires KInv(St()) && x in mutexes && mutexes[x].owner == Some(running)
      modifies this
      ensures old(mutexes[x].count) > 0 && St() == KernelRuns.MutexUnlock(old(St()), x) && KInv(St())
    {
      hide Abs, Core, EventsOk, JoinsOk, KernelSteps.ResumeAll, KernelMisuse.Linked;
      ghost var k := St();
      AbsIs(Now());
      assert mutexes[x].count > 0;
      MutexUnlockInv(k, x);
      var m := mutexes[x].(count := mutexes[x].count - 1);
      hide MutexesOk;
      if m.count == 0 {
        AbsMutex(Now(), lists, mutexes[x := m.(owner := None)]);
        CoreIgnores(k, k.(mutexes := mutexes[x := m.(owner := None)]));
        mutexes := mutexes[x := m.(owner := None)];
        KernelMisuse.CoreLinked(St());
        var count := ResumeAll(MutexL(x));
      } else {
        AbsMutex(Now(), lists, mutexes[x := m]);
        mutexes := mutexes[x := m];
      }
    }

    /** ___join_cond and ___add_handle. */
    method JoinAddHandle(h: Hid, t: Tid) returns (panic: bool)
      requires KInv(St()) && RunningReady(St()) && h in handles && handles[h].state == HDetached
      modifies this
      ensures old(running) in old(St()).threads
      ensures panic <==>
                !Gone(old(St()).threads, t)
                && KernelSteps.LowestFree(old(St()).threads[old(running)].maskUsed) == MASK_BITS
      ensures St() == if panic then old(St()) else JoinAdd(old(St()), h, t)
      ensures KInv(St())
    {
      hide KInv, Abs, KernelSteps.AddHandle, KernelSteps.LowestFree;
      ghost var k := St();
      AbsIs(Now());
      AbsThread(Now(), running);
      AbsThread(Now(), t);
      AbsHandle(Now(), h);
      if Gone(k.threads, t) || KernelSteps.LowestFree(k.threads[running].maskUsed) < MASK_BITS {
        JoinAddInv(k, h, t);
      }
      if t in threads && (threads[t].state == Ready || threads[t].state == Waiting) {
        panic := AddHandle(h, JoinL(t));
      } else {
        panic := false;
      }
    }
  }

  /** A bit that was free is no bit of the old mask. */
  lemma FreshBit(used: bv32, mask: bv32)
    requires Bits(mask) == {KernelSteps.LowestFree(Bits(used))} && KernelSteps.LowestFree(Bits(used)) < MASK_BITS
    ensures mask != 0 && And(used, mask) == 0
  {
    AndMeets(used, mask);
    ZeroIsEmpty(mask);
    hide And, Bits;
    assert KernelSteps.LowestFree(Bits(used)) in Bits(mask);
  }
}
