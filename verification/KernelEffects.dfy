/** What single kernel sections do, in terms of what the caller can see: which thread runs, in which order waiters
    are queued and become pending, and what does not change. */
module KernelEffects {
  import opened SeqSets
  import opened KernelState
  import opened KernelSteps
  import opened KernelRuns
  import opened WaitCalls
  import opened LockCalls
  import opened JoinCalls

  // ---------------------------------------------------------------- threads

  /** A new thread is READY with the priority asked for, uses no mask bit, and waits behind all that are at least as
      urgent; no other thread changes. */
  lemma CreateThreadEffect(k: K, t: Tid, priority: int)
    requires KInv(k) && Enabled(k, CreateThread(t, priority))
    ensures var k' := Apply(k, CreateThread(t, priority));
            && t in k'.threads && k'.threads[t].state == Ready && k'.threads[t].priority == priority
            && k'.threads[t].maskUsed == {} && k'.threads[t].maskWait == {}
            && (forall u :: u in k.threads && u != t ==> u in k'.threads && k'.threads[u] == k.threads[u])
            && (forall u :: IsReady(k, u) && k.threads[u].priority >= priority ==>
                  Precedes(k'.threads[u], k'.threads[t]))
            && k'.running == k.running && k'.handles == k.handles && k'.events == k.events && k'.mutexes == k.mutexes
  {
    hide ListsOk, HandlesOk, MasksOk, NoLostWake, ObjectsOk, Enqueued;
    forall u | IsReady(k, u) ensures k.threads[u].since < k.clock {
      assert u in k.ready;
      var i :| 0 <= i < |k.ready| && k.ready[i] == u;
    }
  }

  /** __kernel_schedule: the thread that runs next precedes every other READY one, and nothing else changes. */
  lemma SwitchEffect(k: K)
    requires KInv(k)
    ensures var k' := Apply(k, Switch);
            && IsReady(k', k'.running) && k'.threads == k.threads && k' == k.(running := k'.running)
            && forall t :: IsReady(k, t) && t != k'.running ==> Precedes(k.threads[k'.running], k.threads[t])
  {
    hide KInv;
    SchedulePick(k);
  }

  /** A wait that sleeps: the thread waits for exactly the mask it passed, and nobody else changes. */
  lemma SleepEffect(k: K, mask: Mask)
    requires KInv(k) && Enabled(k, WaitFor(mask)) && !IsReady(Apply(k, WaitFor(mask)), k.running)
    ensures var k' := Apply(k, WaitFor(mask));
            && k.running in k'.threads && k'.threads[k.running].state == Waiting
            && k'.threads[k.running].maskWait == mask
            && k'.threads[k.running].priority == k.threads[k.running].priority
            && k'.threads[k.running].maskUsed == k.threads[k.running].maskUsed
            && (forall t :: t in k.threads && t != k.running ==> t in k'.threads && k'.threads[t] == k.threads[t])
            && k'.handles == k.handles && k'.lists == k.lists && k'.events == k.events && k'.mutexes == k.mutexes
  {
    hide KInv, Enqueued, Without, PendingMeets;
  }

  // ---------------------------------------------------------------- waiters

  /** Resuming a list makes all its handles DONE. */
  lemma {:induction false} ResumeEachDone(k: K, hs: seq<Hid>)
    requires Core(k) && AllAttached(k, hs)
    ensures forall h :: h in hs || DoneHandle(k, h) ==> DoneHandle(ResumeEach(k, hs), h)
    decreases |hs|
  {
    hide Core, Resumable, Resume, Attached, Kept;
    if hs != [] {
      assert Attached(k, hs[0]);
      ResumeCore(k, hs[0]);
      ResumeKept(k, hs[0]);
      var k1 := Resume(k, hs[0]);
      assert AllAttached(k, hs[1..]);
      KeptAttached(k, k1, hs[1..]);
      ResumeEachDone(k1, hs[1..]);
      ResumeDone(k, hs[0]);
      forall h | h in hs || DoneHandle(k, h) ensures h in hs[1..] || DoneHandle(k1, h) {
        if h != hs[0] && DoneHandle(k, h) {
          DoneOther(k, hs[0], h);
        }
      }
    }
  }

  lemma WakesAll(k: K, l: ListId)
    requires Core(k) && !l.PendingL?
    ensures forall h :: h in L(k.lists, l) ==> DoneHandle(ResumeAll(k, l), h)
    ensures L(ResumeAll(k, l).lists, l) == [] && ResumeAll(k, l).events == k.events
  {
    hide Core, ResumeEach, DoneHandle;
    ListAttached(k, l);
    ResumeEachDone(k, L(k.lists, l));
    ResumeAllCore(k, l);
  }

  /** The handles of hs that t owns, in order. */
  function OwnedBy(handles: Handles, hs: seq<Hid>, t: Tid): seq<Hid> {
    if hs == [] then []
    else (if hs[0] in handles && handles[hs[0]].owner == Some(t) then [hs[0]] else []) + OwnedBy(handles, hs[1..], t)
  }

  lemma {:induction false} OwnedSame(handles: Handles, handles': Handles, hs: seq<Hid>, t: Tid)
    requires forall h :: h in hs ==> h in handles && h in handles' && handles'[h].owner == handles[h].owner
    ensures OwnedBy(handles', hs, t) == OwnedBy(handles, hs, t)
  {
    if hs != [] {
      OwnedSame(handles, handles', hs[1..], t);
    }
  }

  /** A resumed handle goes to the end of its owner's pending list. */
  lemma ResumePending(k: K, h: Hid, t: Tid)
    requires Resumable(k, h) && !k.handles[h].on.value.PendingL?
    ensures L(Resume(k, h).lists, PendingL(t)) ==
            L(k.lists, PendingL(t)) + if k.handles[h].owner == Some(t) then [h] else []
  {
    hide Enqueued, Without;
  }

  /** Every handle of hs is queued on l. */
  ghost predicate AllOn(k: K, hs: seq<Hid>, l: ListId) {
    forall h :: h in hs ==> Attached(k, h) && k.handles[h].on == Some(l)
  }

  lemma AllOnRest(k: K, hs: seq<Hid>, l: ListId)
    requires Core(k) && NoDup(hs) && hs != [] && AllOn(k, hs, l) && Resumable(k, hs[0])
    ensures NoDup(hs[1..]) && AllOn(Resume(k, hs[0]), hs[1..], l)
    ensures forall h :: h in hs[1..] ==> h in k.handles && h in Resume(k, hs[0]).handles
                                         && Resume(k, hs[0]).handles[h] == k.handles[h]
  {
    hide Core, Resume;
    forall h | h in hs[1..] ensures h in hs && h != hs[0] {}
    forall h | h in hs[1..] ensures h in Resume(k, hs[0]).handles && Resume(k, hs[0]).handles[h] == k.handles[h] {
      ResumeOther(k, hs[0], h);
    }
  }

  /** Resuming a list: each owner finds its handles pending in the order in which they were queued. */
  lemma {:induction false} ResumeEachOrder(k: K, hs: seq<Hid>, l: ListId, t: Tid)
    requires Core(k) && NoDup(hs) && AllOn(k, hs, l) && !l.PendingL?
    ensures L(ResumeEach(k, hs).lists, PendingL(t)) == L(k.lists, PendingL(t)) + OwnedBy(k.handles, hs, t)
    decreases |hs|
  {
    hide Core, Resume, AllOn, NoDup;
    if hs != [] {
      AllOnHead(k, hs, l);
      ResumeCore(k, hs[0]);
      AllOnRest(k, hs, l);
      var k1 := Resume(k, hs[0]);
      ResumePending(k, hs[0], t);
      ResumeEachOrder(k1, hs[1..], l, t);
      OwnedSame(k.handles, k1.handles, hs[1..], t);
    }
  }

  lemma AllOnHead(k: K, hs: seq<Hid>, l: ListId)
    requires AllOn(k, hs, l) && hs != []
    ensures Attached(k, hs[0]) && k.handles[hs[0]].on == Some(l)
  {
    assert hs[0] in hs;
  }

  lemma WakeOrder(k: K, l: ListId, t: Tid)
    requires Core(k) && !l.PendingL?
    ensures L(ResumeAll(k, l).lists, PendingL(t)) == L(k.lists, PendingL(t)) + OwnedBy(k.handles, L(k.lists, l), t)
  {
    hide MasksOk, QueuesOk, NoLostWake, HandlesOk;
    ListAttached(k, l);
    var hs := L(k.lists, l);
    forall h | h in hs ensures Attached(k, h) && k.handles[h].on == Some(l) {
      var i :| 0 <= i < |hs| && hs[i] == h;
    }
    ResumeEachOrder(k, hs, l, t);
  }

  /** A locker or joiner that has to wait is queued behind those already there. */
  lemma QueueEffect(k: K, s: Step)
    requires KInv(k) && Enabled(k, s)
    requires (s.AddToMutex? && !MutexFree(k, s.x)) || (s.AddToJoin? && !Gone(k.threads, s.t))
    ensures var k', l := Apply(k, s), if s.AddToMutex? then MutexL(s.x) else JoinL(s.t);
            && L(k'.lists, l) == L(k.lists, l) + [s.h] && (forall m :: m != l ==> L(k'.lists, m) == L(k.lists, m))
            && s.h in k'.handles && k'.handles[s.h].state == HWaiting && k'.handles[s.h].owner == Some(k.running)
            && k'.mutexes == k.mutexes
  {
    hide KInv, MutexTake;
  }

  /** The last unlock makes every waiter DONE, and so does the exit of a thread for its joiners. */
  lemma UnlockEffect(k: K, x: nat)
    requires KInv(k) && Enabled(k, Unlock(x)) && k.mutexes[x].count == 1
    ensures forall h :: h in L(k.lists, MutexL(x)) ==> DoneHandle(Apply(k, Unlock(x)), h)
  {
    hide KInv, Core, ResumeAll;
    InvCore(k);
    var k1 := k.(mutexes := k.mutexes[x := Mutex(None, 0)]);
    CoreIgnores(k, k1);
    WakesAll(k1, MutexL(x));
  }

  lemma ExitEffect(k: K)
    requires KInv(k) && Enabled(k, Exit)
    ensures forall h :: h in L(k.lists, JoinL(k.running)) ==> DoneHandle(Apply(k, Exit), h)
    ensures IsDetached(Apply(k, Exit), k.running)
  {
    hide KInv, Core, ResumeAll, Without;
    InvCore(k);
    DetachCore(k);
    WakesAll(Detach(k), JoinL(k.running));
    DetachedExit(k, k.running);
  }
}
