/** The kernel sections of thread.c, event.c and mutex.c as functions on the kernel state. */
module KernelSteps {
  import opened SeqSets
  import opened IntrusiveList
  import opened KernelState

  // ---------------------------------------------------------------- scheduler lists

  function Priorities(q: seq<Tid>, threads: Threads): (ps: seq<int>)
    ensures |ps| == |q|
  {
    seq(|q|, i requires 0 <= i < |q| => if q[i] in threads then threads[q[i]].priority else 0)
  }

  /** list_enqueue on a scheduler list. */
  function Enqueued(q: seq<Tid>, threads: Threads, t: Tid, priority: int): seq<Tid> {
    InsertedAt(q, EnqueuePos(Priorities(q, threads), priority), t)
  }

  lemma HoldsAdd(q: seq<Tid>, threads: Threads, k: int, t: Tid, th: Thread, s: ThreadState)
    requires HoldsState(q, threads, s) && 0 <= k <= |q| && t !in q && th.state == s
    ensures HoldsState(InsertedAt(q, k, t), threads[t := th], s)
  {
    InsertedMembers(q, k, t);
  }

  lemma HoldsDrop(q: seq<Tid>, threads: Threads, t: Tid, th: Thread, s: ThreadState)
    requires HoldsState(q, threads, s) && th.state != s
    ensures HoldsState(Without(q, t), threads[t := th], s)
    ensures t !in q ==> Without(q, t) == q
  {
    WithoutMembers(q, t);
  }

  lemma HoldsSame(q: seq<Tid>, threads: Threads, t: Tid, th: Thread, s: ThreadState)
    requires HoldsState(q, threads, s) && t in threads && th.state == threads[t].state
    ensures HoldsState(q, threads[t := th], s)
  {
  }

  lemma ScheduledDrop(q: seq<Tid>, threads: Threads, clock: nat, t: Tid, th: Thread)
    requires Scheduled(q, threads, clock) && NoDup(q)
    ensures Scheduled(Without(q, t), threads[t := th], clock)
  {
    hide IndexOf;
    WithoutMembers(q, t);
    var w := Without(q, t);
    if t in q {
      WithoutAt(q, t);
    }
    forall i | 0 <= i < |w| ensures w[i] in threads && w[i] != t && threads[w[i]].since < clock {
      assert w[i] in w;
    }
    forall i, j | 0 <= i < j < |w| ensures Precedes(threads[w[i]], threads[w[j]]) {
      if t in q {
        assert w[i] == q[Before(q, t, i)] && w[j] == q[Before(q, t, j)];
      }
    }
  }

  lemma ScheduledLater(q: seq<Tid>, threads: Threads, clock: nat)
    requires Scheduled(q, threads, clock)
    ensures Scheduled(q, threads, clock + 1)
  {
  }

  /** Enqueueing by priority puts the newcomer behind its equals: the list stays in scheduling order. */
  lemma ScheduledAdd(q: seq<Tid>, threads: Threads, clock: nat, t: Tid, th: Thread)
    requires Scheduled(q, threads, clock) && t !in q && th.since == clock
    ensures Scheduled(Enqueued(q, threads, t, th.priority), threads[t := th], clock + 1)
  {
    hide EnqueuePos;
    var ps := Priorities(q, threads);
    var k := EnqueuePos(ps, th.priority);
    forall i, j | 0 <= i < j < |ps| ensures ps[i] >= ps[j] {
      assert Precedes(threads[q[i]], threads[q[j]]);
    }
    EnqueueSorted(ps, th.priority);
    var q', threads' := InsertedAt(q, k, t), threads[t := th];
    forall i | 0 <= i < |q'| ensures q'[i] in threads' && threads'[q'[i]].since < clock + 1 {
      if i != k {
        assert q'[i] == q[if i < k then i else i - 1];
      }
    }
    forall i, j | 0 <= i < j < |q'| ensures Precedes(threads'[q'[i]], threads'[q'[j]]) {
      var i0, j0 := if i < k then i else i - 1, if j < k then j else j - 1;
      if i == k {
        assert q'[j] == q[j0] && ps[j0] == threads[q[j0]].priority;
      } else if j == k {
        assert q'[i] == q[i0] && ps[i0] == threads[q[i0]].priority;
      } else {
        assert q'[i] == q[i0] && q'[j] == q[j0];
      }
    }
  }

  // ---------------------------------------------------------------- threads change state

  /** list_remove from the wait list, list_enqueue on the ready list. */
  function WakeUp(k: K, t: Tid): K
    requires t in k.threads
  {
    var th := k.threads[t].(state := Ready, since := k.clock);
    k.(wait := Without(k.wait, t), ready := Enqueued(k.ready, k.threads, t, th.priority),
       threads := k.threads[t := th], clock := k.clock + 1)
  }

  lemma WakeUpQueues(k: K, t: Tid)
    requires QueuesOk(k.ready, k.wait, k.threads, k.clock) && t in k.threads && k.threads[t].state == Waiting
    ensures var k' := WakeUp(k, t); QueuesOk(k'.ready, k'.wait, k'.threads, k'.clock)
  {
    hide Scheduled, HoldsState, EnqueuePos, Without, InsertedAt;
    var th := k.threads[t].(state := Ready, since := k.clock);
    assert t !in k.ready by { NotIn(k.ready, k.threads, t, Ready); }
    HoldsAdd(k.ready, k.threads, EnqueuePos(Priorities(k.ready, k.threads), th.priority), t, th, Ready);
    HoldsDrop(k.wait, k.threads, t, th, Waiting);
    ScheduledAdd(k.ready, k.threads, k.clock, t, th);
  }

  lemma NotIn(q: seq<Tid>, threads: Threads, t: Tid, s: ThreadState)
    requires HoldsState(q, threads, s)
    ensures t in q <==> t in threads && threads[t].state == s
  {
  }

  /** The running thread leaves the ready list for the wait list. */
  function FallAsleep(k: K, mask: Mask): K
    requires k.running in k.threads
  {
    var t := k.running;
    var th := k.threads[t].(state := Waiting, maskWait := mask, since := k.clock);
    k.(ready := Without(k.ready, t), wait := Enqueued(k.wait, k.threads, t, th.priority),
       threads := k.threads[t := th], clock := k.clock + 1)
  }

  lemma FallAsleepQueues(k: K, mask: Mask)
    requires QueuesOk(k.ready, k.wait, k.threads, k.clock)
    requires k.running in k.threads && k.threads[k.running].state == Ready
    ensures var k' := FallAsleep(k, mask); QueuesOk(k'.ready, k'.wait, k'.threads, k'.clock)
  {
    hide Scheduled, HoldsState, EnqueuePos, Without, InsertedAt;
    var t := k.running;
    var th := k.threads[t].(state := Waiting, maskWait := mask, since := k.clock);
    NotIn(k.wait, k.threads, t, Waiting);
    HoldsAdd(k.wait, k.threads, EnqueuePos(Priorities(k.wait, k.threads), th.priority), t, th, Waiting);
    HoldsDrop(k.ready, k.threads, t, th, Ready);
    assert NoDup(k.ready) by { HoldsNoDup(k.ready, k.threads, Ready); }
    ScheduledDrop(k.ready, k.threads, k.clock, t, th);
    ScheduledLater(Without(k.ready, t), k.threads[t := th], k.clock);
  }

  lemma HoldsNoDup(q: seq<Tid>, threads: Threads, s: ThreadState)
    requires HoldsState(q, threads, s)
    ensures NoDup(q)
  {
  }

  // ---------------------------------------------------------------- what a thread update leaves alone

  lemma HandlesThreads(handles: Handles, threads: Threads, t: Tid, th: Thread)
    requires HandlesOk(handles, threads) && th.state != Detached
    ensures HandlesOk(handles, threads[t := th])
  {
    forall h | h in handles ensures HandleOk(handles[h], threads[t := th]) {
      assert HandleOk(handles[h], threads);
    }
  }

  lemma MasksThreads(handles: Handles, threads: Threads, t: Tid, th: Thread)
    requires MasksOk(handles, threads) && th.maskUsed == UsedBy(handles, t)
    ensures MasksOk(handles, threads[t := th])
  {
  }

  // ---------------------------------------------------------------- _resume

  /** A handle that is queued or pending. */
  ghost predicate Attached(k: K, h: Hid) {
    h in k.handles && k.handles[h].state != HDetached
  }

  predicate Resumable(k: K, h: Hid) {
    && h in k.handles && k.handles[h].owner.Some? && k.handles[h].on.Some?
    && k.handles[h].owner.value in k.threads
  }

  /** The handle moves to its owner's pending list and is DONE. */
  function ToPending(k: K, h: Hid): K
    requires Resumable(k, h)
  {
    var hd := k.handles[h];
    var p := PendingL(hd.owner.value);
    k.(lists := Append(Unlink(k.lists, hd.on.value, h), p, h),
       handles := k.handles[h := hd.(state := HDone, on := Some(p))])
  }

  /** Whether the owner sleeps on the handle's bit. */
  predicate Wakes(k: K, h: Hid)
    requires Resumable(k, h)
  {
    var t := k.threads[k.handles[h].owner.value];
    t.state == Waiting && !(t.maskWait !! k.handles[h].mask)
  }

  function Resume(k: K, h: Hid): K
    requires Resumable(k, h)
  {
    if Wakes(k, h) then WakeUp(ToPending(k, h), k.handles[h].owner.value) else ToPending(k, h)
  }

  lemma AttachedResumable(k: K, h: Hid)
    requires HandlesOk(k.handles, k.threads)
    ensures Attached(k, h) ==> Resumable(k, h)
  {
    assert h in k.handles ==> HandleOk(k.handles[h], k.threads);
  }

  lemma ToPendingLists(k: K, h: Hid)
    requires ListsOk(k.lists, k.handles) && Resumable(k, h)
    ensures var k' := ToPending(k, h); ListsOk(k'.lists, k'.handles)
  {
    hide ListsOk, Unlink, Append;
    var hd := k.handles[h];
    var p := PendingL(hd.owner.value);
    var off, done := hd.(on := None), hd.(state := HDone, on := Some(p));
    UnlinkOk(k.lists, k.handles, hd.on.value, h, off);
    AppendOk(Unlink(k.lists, hd.on.value, h), k.handles[h := off], p, h, done);
    assert k.handles[h := off][h := done] == k.handles[h := done];
  }

  /** Object lists only lose handles to a resume. */
  lemma ToPendingShrinks(k: K, h: Hid, l: ListId)
    requires ListsOk(k.lists, k.handles) && Resumable(k, h)
    requires l != PendingL(k.handles[h].owner.value)
    ensures L(ToPending(k, h).lists, l) ==
            if k.handles[h].on == Some(l) then Without(L(k.lists, l), h) else L(k.lists, l)
    ensures L(k.lists, l) == [] ==> L(ToPending(k, h).lists, l) == []
  {
  }

  lemma ToPendingQuiet(k: K, h: Hid, l: ListId)
    requires ListsOk(k.lists, k.handles) && HandlesOk(k.handles, k.threads) && Attached(k, h) && Resumable(k, h)
    requires Quiet(k, l)
    ensures L(ToPending(k, h).lists, l) == []
  {
    hide ListsOk, ToPending;
    assert HandleOk(k.handles[h], k.threads);
    ToPendingShrinks(k, h, l);
  }

  lemma ToPendingRest(k: K, h: Hid)
    requires Resumable(k, h)
    ensures var k' := ToPending(k, h);
            && k'.events == k.events && k'.mutexes == k.mutexes && k'.threads == k.threads
            && k'.ready == k.ready && k'.wait == k.wait && k'.clock == k.clock
            && k'.idle == k.idle && k'.running == k.running
  {
  }

  lemma ToPendingHandles(k: K, h: Hid)
    requires HandlesOk(k.handles, k.threads) && Attached(k, h) && Resumable(k, h)
    ensures HandlesOk(ToPending(k, h).handles, k.threads)
  {
    forall g | g in ToPending(k, h).handles ensures HandleOk(ToPending(k, h).handles[g], k.threads) {
      assert g in k.handles ==> HandleOk(k.handles[g], k.threads);
    }
  }

  /** After a resume no waiting thread has what it waits for pending: the owner was woken if it did. */
  lemma ResumeWake(k: K, h: Hid)
    requires HandlesOk(k.handles, k.threads) && NoLostWake(k.handles, k.threads) && Attached(k, h) && Resumable(k, h)
    ensures NoLostWake(Resume(k, h).handles, Resume(k, h).threads)
  {
    hide Append, Unlink, Enqueued, Without;
    var k' := Resume(k, h);
    forall g | g in k'.handles ensures Asleep(k'.handles[g], k'.threads) {
      assert g in k.handles ==> Asleep(k.handles[g], k.threads);
    }
  }

  /** _resume keeps every fact about threads and handles. */
  lemma ResumeCore(k: K, h: Hid)
    requires Core(k) && Attached(k, h)
    ensures Resumable(k, h) && Core(Resume(k, h))
  {
    hide ListsOk, HandlesOk, MasksOk, QueuesOk, NoLostWake, ToPending, Resumable, WakeUp;
    AttachedResumable(k, h);
    var k1 := ToPending(k, h);
    ToPendingRest(k, h);
    ToPendingLists(k, h);
    ToPendingHandles(k, h);
    ToPendingMasks(k, h);
    ResumeWake(k, h);
    if Wakes(k, h) {
      WakeUpRest(k1, WokenBy(k, h));
    }
  }

  lemma ResumeKept(k: K, h: Hid)
    requires Core(k) && Attached(k, h) && Resumable(k, h)
    ensures Kept(k, Resume(k, h))
  {
    hide ListsOk, MasksOk, QueuesOk, NoLostWake, Append, Unlink, Enqueued, Without;
    var k' := Resume(k, h);
    assert HandleOk(k.handles[h], k.threads);
    forall l | Quiet(k, l) ensures L(k'.lists, l) == [] {
      ToPendingQuiet(k, h, l);
    }
  }

  function WokenBy(k: K, h: Hid): Tid
    requires Resumable(k, h)
  {
    k.handles[h].owner.value
  }

  lemma ToPendingMasks(k: K, h: Hid)
    requires MasksOk(k.handles, k.threads) && Resumable(k, h)
    ensures MasksOk(ToPending(k, h).handles, k.threads)
  {
    hide MasksOk, Append, Unlink;
    var hd := k.handles[h];
    MasksKept(k.handles, k.threads, h, hd.(state := HDone, on := Some(PendingL(hd.owner.value))));
  }

  lemma WakeUpRest(k: K, t: Tid)
    requires HandlesOk(k.handles, k.threads) && MasksOk(k.handles, k.threads)
    requires QueuesOk(k.ready, k.wait, k.threads, k.clock) && IdleOk(k)
    requires t in k.threads && k.threads[t].state == Waiting
    ensures var k' := WakeUp(k, t);
            && HandlesOk(k'.handles, k'.threads) && MasksOk(k'.handles, k'.threads)
            && QueuesOk(k'.ready, k'.wait, k'.threads, k'.clock) && IdleOk(k')
            && k'.lists == k.lists && k'.handles == k.handles && k'.events == k.events && k'.mutexes == k.mutexes
  {
    hide HandlesOk, QueuesOk, UsedBy, DistinctMasks, Enqueued, Without;
    var th := k.threads[t].(state := Ready, since := k.clock);
    HandlesThreads(k.handles, k.threads, t, th);
    MasksThreads(k.handles, k.threads, t, th);
    WakeUpQueues(k, t);
  }

  // ---------------------------------------------------------------- ___resume_all

  /** Resuming handles one after the other. */
  function ResumeEach(k: K, hs: seq<Hid>): K
    decreases |hs|
  {
    if hs == [] || !Resumable(k, hs[0]) then k else ResumeEach(Resume(k, hs[0]), hs[1..])
  }

  function ResumeAll(k: K, l: ListId): K {
    ResumeEach(k, L(k.lists, l))
  }

  ghost predicate AllAttached(k: K, hs: seq<Hid>) {
    forall i :: 0 <= i < |hs| ==> Attached(k, hs[i])
  }

  lemma KeptAttached(k: K, k': K, hs: seq<Hid>)
    requires Kept(k, k') && AllAttached(k, hs)
    ensures AllAttached(k', hs)
  {
    forall i | 0 <= i < |hs| ensures Attached(k', hs[i]) {
      assert Attached(k, hs[i]) && HandleKept(k.handles[hs[i]], k'.handles[hs[i]]);
    }
  }

  lemma {:induction false} ResumeEachCore(k: K, hs: seq<Hid>)
    requires Core(k) && AllAttached(k, hs)
    ensures Core(ResumeEach(k, hs)) && Kept(k, ResumeEach(k, hs))
    decreases |hs|
  {
    hide Core, Resumable, Resume, Attached, Kept;
    if hs == [] {
      KeptRefl(k);
    } else {
      assert Attached(k, hs[0]);
      ResumeCore(k, hs[0]);
      ResumeKept(k, hs[0]);
      var k1 := Resume(k, hs[0]);
      assert AllAttached(k, hs[1..]);
      KeptAttached(k, k1, hs[1..]);
      ResumeEachCore(k1, hs[1..]);
      KeptTrans(k, k1, ResumeEach(k1, hs[1..]));
    }
  }

  lemma KeptRefl(k: K)
    ensures Kept(k, k)
  {
  }

  lemma ListAttached(k: K, l: ListId)
    requires Core(k)
    ensures AllAttached(k, L(k.lists, l))
  {
    hide MasksOk, QueuesOk, NoLostWake;
    forall i | 0 <= i < |L(k.lists, l)| ensures Attached(k, L(k.lists, l)[i]) {
      var h := L(k.lists, l)[i];
      assert h in L(k.lists, l);
      assert HandleOk(k.handles[h], k.threads);
    }
  }

  /** One resume takes the head off the list it is called for. */
  lemma ResumeHead(k: K, l: ListId)
    requires Core(k) && !l.PendingL? && L(k.lists, l) != []
    ensures var h := L(k.lists, l)[0];
            Resumable(k, h) && Attached(k, h) && L(Resume(k, h).lists, l) == L(k.lists, l)[1..]
  {
    hide MasksOk, QueuesOk, NoLostWake, HandlesOk, IndexOf;
    var hs := L(k.lists, l);
    ListAttached(k, l);
    assert Attached(k, hs[0]);
    AttachedResumable(k, hs[0]);
    assert hs[0] in L(k.lists, l);
    ToPendingShrinks(k, hs[0], l);
    assert IndexOf(hs, hs[0]) == 0 by { HeadIndex(hs); }
    assert Without(hs, hs[0]) == hs[1..];
  }

  lemma HeadIndex(hs: seq<Hid>)
    requires hs != []
    ensures IndexOf(hs, hs[0]) == 0
  {
  }

  lemma {:induction false} ResumeEachEmpties(k: K, l: ListId)
    requires Core(k) && !l.PendingL?
    ensures L(ResumeEach(k, L(k.lists, l)).lists, l) == []
    decreases |L(k.lists, l)|
  {
    hide Core, Resumable, Resume, Attached;
    var hs := L(k.lists, l);
    if hs != [] {
      ResumeHead(k, l);
      ResumeCore(k, hs[0]);
      ResumeEachEmpties(Resume(k, hs[0]), l);
    }
  }

  /** Resuming a whole list empties it, keeps the facts about threads and handles, and puts nothing on
      any other list that stands empty. */
  lemma ResumeAllCore(k: K, l: ListId)
    requires Core(k) && !l.PendingL?
    ensures Core(ResumeAll(k, l)) && Kept(k, ResumeAll(k, l))
    ensures L(ResumeAll(k, l).lists, l) == []
  {
    hide Core, Kept;
    ListAttached(k, l);
    ResumeEachCore(k, L(k.lists, l));
    ResumeEachEmpties(k, l);
  }

  // ---------------------------------------------------------------- mask bits

  /** The bit _alloc_mask picks: the lowest free one, or MASK_BITS if none is. */
  function LowestFree(used: Mask, from: nat := 0): (b: nat)
    requires from <= MASK_BITS
    ensures from <= b <= MASK_BITS
    ensures b < MASK_BITS ==> b !in used
    ensures forall c :: from <= c < b ==> c in used
    decreases MASK_BITS - from
  {
    if from == MASK_BITS || from !in used then from else LowestFree(used, from + 1)
  }

  /** A ^ B on masks. */
  function Toggle(a: Mask, b: Mask): Mask {
    (a - b) + (b - a)
  }

  lemma UsedAdd(handles: Handles, h: Hid, h': Handle, t: Tid)
    requires h in handles ==> handles[h].owner == None
    ensures UsedBy(handles[h := h'], t) == UsedBy(handles, t) + (if h'.owner == Some(t) then h'.mask else {})
  {
    var hs := handles[h := h'];
    forall b ensures b in UsedBy(hs, t) <==> b in UsedBy(handles, t) || (h'.owner == Some(t) && b in h'.mask) {
      if b in UsedBy(handles, t) {
        var g :| g in handles && handles[g].owner == Some(t) && b in handles[g].mask;
        assert g in hs && hs[g].owner == Some(t) && b in hs[g].mask;
      }
      if h'.owner == Some(t) && b in h'.mask {
        assert h in hs && hs[h].owner == Some(t) && b in hs[h].mask;
      }
    }
  }

  lemma UsedDrop(handles: Handles, h: Hid, h': Handle, t: Tid)
    requires DistinctMasks(handles) && h in handles && h'.owner == None
    ensures UsedBy(handles[h := h'], t) ==
            UsedBy(handles, t) - (if handles[h].owner == Some(t) then handles[h].mask else {})
  {
    var hs := handles[h := h'];
    forall b
      ensures b in UsedBy(hs, t) <==>
              b in UsedBy(handles, t) && !(handles[h].owner == Some(t) && b in handles[h].mask)
    {
      if b in UsedBy(hs, t) {
        var g :| g in hs && hs[g].owner == Some(t) && b in hs[g].mask;
        assert Owns(handles, g, t);
        assert handles[h].owner == Some(t) ==> Owns(handles, h, t);
      }
      if b in UsedBy(handles, t) {
        var g :| g in handles && handles[g].owner == Some(t) && b in handles[g].mask;
        assert g != h ==> g in hs && hs[g].owner == Some(t) && b in hs[g].mask;
      }
    }
  }

  // ---------------------------------------------------------------- ___add_handle

  /** The running thread queues a detached handle on l. */
  function AddHandle(k: K, h: Hid, l: ListId): K
    requires k.running in k.threads
  {
    var t := k.running;
    var mask: Mask := {LowestFree(k.threads[t].maskUsed)};
    k.(handles := k.handles[h := Handle(HWaiting, Some(t), mask, Some(l))],
       threads := k.threads[t := k.threads[t].(maskUsed := k.threads[t].maskUsed + mask)],
       lists := Append(k.lists, l, h))
  }

  /** What the caller of ___add_handle guarantees: a detached handle and a bit left for it. */
  ghost predicate CanAdd(k: K, h: Hid) {
    && h in k.handles && k.handles[h].state == HDetached
    && k.running in k.threads && k.threads[k.running].state == Ready
    && LowestFree(k.threads[k.running].maskUsed) < MASK_BITS
  }

  lemma AddMasks(k: K, h: Hid, l: ListId)
    requires MasksOk(k.handles, k.threads) && HandlesOk(k.handles, k.threads) && CanAdd(k, h)
    ensures MasksOk(AddHandle(k, h, l).handles, AddHandle(k, h, l).threads)
  {
    hide UsedBy;
    var k' := AddHandle(k, h, l);
    var hs, h' := k'.handles, k'.handles[h];
    assert HandleOk(k.handles[h], k.threads);
    forall t | t in k'.threads ensures k'.threads[t].maskUsed == UsedBy(hs, t) {
      UsedAdd(k.handles, h, h', t);
    }
    forall f, g, t | Owns(hs, f, t) && Owns(hs, g, t) && f != g ensures hs[f].mask !! hs[g].mask {
      assert f != h ==> Owns(k.handles, f, t);
      assert g != h ==> Owns(k.handles, g, t);
      if f == h {
        OwnMask(k.handles, g, t);
      } else if g == h {
        OwnMask(k.handles, f, t);
      }
    }
  }

  lemma OwnMask(handles: Handles, h: Hid, t: Tid)
    requires Owns(handles, h, t)
    ensures handles[h].mask <= UsedBy(handles, t)
  {
  }

  lemma AddHandles(k: K, h: Hid, l: ListId)
    requires HandlesOk(k.handles, k.threads) && CanAdd(k, h) && !l.PendingL?
    ensures HandlesOk(AddHandle(k, h, l).handles, AddHandle(k, h, l).threads)
  {
    var k' := AddHandle(k, h, l);
    forall g | g in k'.handles ensures HandleOk(k'.handles[g], k'.threads) {
      assert g in k.handles ==> HandleOk(k.handles[g], k.threads);
    }
  }

  lemma ThreadQueues(k: K, t: Tid, th: Thread)
    requires QueuesOk(k.ready, k.wait, k.threads, k.clock) && t in k.threads
    requires th.state == k.threads[t].state && th.priority == k.threads[t].priority && th.since == k.threads[t].since
    ensures QueuesOk(k.ready, k.wait, k.threads[t := th], k.clock)
  {
    HoldsSame(k.ready, k.threads, t, th, Ready);
    HoldsSame(k.wait, k.threads, t, th, Waiting);
    forall i, j | 0 <= i < j < |k.ready|
      ensures Precedes(k.threads[t := th][k.ready[i]], k.threads[t := th][k.ready[j]])
    {
      assert Precedes(k.threads[k.ready[i]], k.threads[k.ready[j]]);
    }
  }

  lemma AddWake(k: K, h: Hid, l: ListId)
    requires NoLostWake(k.handles, k.threads) && CanAdd(k, h)
    ensures NoLostWake(AddHandle(k, h, l).handles, AddHandle(k, h, l).threads)
  {
    var k' := AddHandle(k, h, l);
    forall g | g in k'.handles ensures Asleep(k'.handles[g], k'.threads) {
      assert g in k.handles ==> Asleep(k.handles[g], k.threads);
    }
  }

  /** ___add_handle keeps the facts about threads and handles: the new handle owns a bit no other handle
      of the running thread has. */
  lemma AddCore(k: K, h: Hid, l: ListId)
    requires Core(k) && CanAdd(k, h) && !l.PendingL?
    ensures Core(AddHandle(k, h, l))
  {
    hide ListsOk, HandlesOk, MasksOk, QueuesOk, NoLostWake, Append;
    AddMasks(k, h, l);
    AddHandles(k, h, l);
    AddWake(k, h, l);
    var k' := AddHandle(k, h, l);
    ThreadQueues(k, k.running, k'.threads[k.running]);
    AddLists(k, h, l);
  }

  lemma AddLists(k: K, h: Hid, l: ListId)
    requires ListsOk(k.lists, k.handles) && HandlesOk(k.handles, k.threads) && CanAdd(k, h)
    ensures ListsOk(AddHandle(k, h, l).lists, AddHandle(k, h, l).handles)
  {
    hide ListsOk, Append;
    assert HandleOk(k.handles[h], k.threads);
    AppendOk(k.lists, k.handles, l, h, AddHandle(k, h, l).handles[h]);
  }

  // ---------------------------------------------------------------- ___dispose_handle

  const DETACHED_HANDLE := Handle(HDetached, None, {}, None)

  function Dispose(k: K, h: Hid): K
    requires Resumable(k, h)
  {
    var hd := k.handles[h];
    var t := hd.owner.value;
    k.(lists := Unlink(k.lists, hd.on.value, h),
       handles := k.handles[h := DETACHED_HANDLE],
       threads := k.threads[t := k.threads[t].(maskUsed := Toggle(k.threads[t].maskUsed, hd.mask))])
  }

  lemma DisposeMasks(k: K, h: Hid)
    requires MasksOk(k.handles, k.threads) && Resumable(k, h)
    ensures MasksOk(Dispose(k, h).handles, Dispose(k, h).threads)
  {
    hide UsedBy;
    var k' := Dispose(k, h);
    var t0 := k.handles[h].owner.value;
    assert Owns(k.handles, h, t0);
    OwnMask(k.handles, h, t0);
    forall t | t in k'.threads ensures k'.threads[t].maskUsed == UsedBy(k'.handles, t) {
      UsedDrop(k.handles, h, DETACHED_HANDLE, t);
    }
    forall f, g, t | Owns(k'.handles, f, t) && Owns(k'.handles, g, t) && f != g
      ensures k'.handles[f].mask !! k'.handles[g].mask
    {
      assert Owns(k.handles, f, t) && Owns(k.handles, g, t);
    }
  }

  lemma DisposeHandles(k: K, h: Hid)
    requires HandlesOk(k.handles, k.threads) && NoLostWake(k.handles, k.threads) && Resumable(k, h)
    ensures HandlesOk(Dispose(k, h).handles, Dispose(k, h).threads)
    ensures NoLostWake(Dispose(k, h).handles, Dispose(k, h).threads)
  {
    hide Unlink, Toggle;
    var k' := Dispose(k, h);
    forall g | g in k'.handles ensures HandleOk(k'.handles[g], k'.threads) && Asleep(k'.handles[g], k'.threads) {
      assert g in k.handles ==> HandleOk(k.handles[g], k.threads) && Asleep(k.handles[g], k.threads);
    }
  }

  /** ___dispose_handle gives back exactly the handle's bit. */
  lemma DisposeCore(k: K, h: Hid)
    requires Core(k) && Attached(k, h)
    ensures Resumable(k, h) && Core(Dispose(k, h))
    ensures forall l :: L(k.lists, l) == [] ==> L(Dispose(k, h).lists, l) == []
  {
    hide ListsOk, HandlesOk, MasksOk, QueuesOk, NoLostWake, Unlink;
    AttachedResumable(k, h);
    DisposeMasks(k, h);
    DisposeHandles(k, h);
    var hd := k.handles[h];
    var k' := Dispose(k, h);
    ThreadQueues(k, hd.owner.value, k'.threads[hd.owner.value]);
    UnlinkOk(k.lists, k.handles, hd.on.value, h, DETACHED_HANDLE);
  }

  // ---------------------------------------------------------------- ___wait

  /** Something in mask is already pending at t. */
  predicate PendingMeets(k: K, t: Tid, mask: Mask) {
    exists h :: h in L(k.lists, PendingL(t)) && h in k.handles && !(k.handles[h].mask !! mask)
  }

  function Wait(k: K, mask: Mask): K
    requires k.running in k.threads
  {
    if PendingMeets(k, k.running, mask) then k else FallAsleep(k, mask)
  }

  lemma FallAsleepWake(k: K, mask: Mask)
    requires ListsOk(k.lists, k.handles) && HandlesOk(k.handles, k.threads) && NoLostWake(k.handles, k.threads)
    requires k.running in k.threads && !PendingMeets(k, k.running, mask)
    ensures var k' := FallAsleep(k, mask); NoLostWake(k'.handles, k'.threads) && HandlesOk(k'.handles, k'.threads)
  {
    hide Enqueued, Without;
    var k' := FallAsleep(k, mask);
    forall h | h in k'.handles ensures Asleep(k'.handles[h], k'.threads) && HandleOk(k'.handles[h], k'.threads) {
      assert Asleep(k.handles[h], k.threads) && HandleOk(k.handles[h], k.threads);
      if k.handles[h].state == HDone && k.handles[h].owner == Some(k.running) {
        assert h in L(k.lists, PendingL(k.running));
      }
    }
  }

  /** A thread goes to sleep only when nothing it waits for is pending. */
  lemma WaitCore(k: K, mask: Mask)
    requires Core(k) && k.threads[k.running].state == Ready && k.running != k.idle
    ensures Core(Wait(k, mask))
  {
    hide ListsOk, HandlesOk, QueuesOk, NoLostWake, DistinctMasks, UsedBy, Enqueued, Without;
    if !PendingMeets(k, k.running, mask) {
      FallAsleepWake(k, mask);
      FallAsleepQueues(k, mask);
      MasksThreads(k.handles, k.threads, k.running, FallAsleep(k, mask).threads[k.running]);
    }
  }

  // ---------------------------------------------------------------- ___add_thread, ___rem_thread

  function AddThread(k: K, t: Tid, priority: int): K {
    k.(threads := k.threads[t := Thread(Ready, priority, {}, {}, k.clock)],
       ready := Enqueued(k.ready, k.threads, t, priority),
       clock := k.clock + 1,
       lists := k.lists[PendingL(t) := []][JoinL(t) := []])
  }

  /** No handle is owned by a detached thread. */
  lemma GoneOwnsNothing(k: K, t: Tid)
    requires HandlesOk(k.handles, k.threads) && Gone(k.threads, t)
    ensures UsedBy(k.handles, t) == {}
  {
    forall h | h in k.handles ensures k.handles[h].owner != Some(t) {
      assert HandleOk(k.handles[h], k.threads);
    }
  }

  lemma AddThreadHandles(k: K, t: Tid, priority: int)
    requires HandlesOk(k.handles, k.threads) && NoLostWake(k.handles, k.threads) && Gone(k.threads, t)
    ensures var k' := AddThread(k, t, priority); HandlesOk(k'.handles, k'.threads) && NoLostWake(k'.handles, k'.threads)
  {
    hide Enqueued;
    var k' := AddThread(k, t, priority);
    forall h | h in k'.handles ensures HandleOk(k'.handles[h], k'.threads) && Asleep(k'.handles[h], k'.threads) {
      assert HandleOk(k.handles[h], k.threads) && Asleep(k.handles[h], k.threads);
    }
  }

  lemma AddThreadQueues(k: K, t: Tid, priority: int)
    requires QueuesOk(k.ready, k.wait, k.threads, k.clock) && Gone(k.threads, t)
    ensures var k' := AddThread(k, t, priority); QueuesOk(k'.ready, k'.wait, k'.threads, k'.clock)
  {
    hide Scheduled, HoldsState, EnqueuePos, Without, InsertedAt;
    var th := Thread(Ready, priority, {}, {}, k.clock);
    NotIn(k.ready, k.threads, t, Ready);
    NotIn(k.wait, k.threads, t, Waiting);
    HoldsAdd(k.ready, k.threads, EnqueuePos(Priorities(k.ready, k.threads), priority), t, th, Ready);
    HoldsDrop(k.wait, k.threads, t, th, Waiting);
    ScheduledAdd(k.ready, k.threads, k.clock, t, th);
  }

  lemma AddThreadInv(k: K, t: Tid, priority: int)
    requires KInv(k) && Gone(k.threads, t)
    ensures KInv(AddThread(k, t, priority))
  {
    hide HandlesOk, QueuesOk, NoLostWake, DistinctMasks, UsedBy, Enqueued;
    var k' := AddThread(k, t, priority);
    AddThreadHandles(k, t, priority);
    AddThreadQueues(k, t, priority);
    GoneOwnsNothing(k, t);
    MasksThreads(k.handles, k.threads, t, k'.threads[t]);
    forall l ensures L(k'.lists, l) == L(k.lists, l) {}
    forall u | Gone(k'.threads, u) ensures L(k'.lists, JoinL(u)) == [] && L(k'.lists, PendingL(u)) == [] {
      assert Gone(k.threads, u);
    }
  }

  /** The running thread leaves the ready list for good. */
  function Detach(k: K): K
    requires k.running in k.threads
  {
    k.(ready := Without(k.ready, k.running),
       threads := k.threads[k.running := k.threads[k.running].(state := Detached)])
  }

  function RemThread(k: K): K
    requires k.running in k.threads
  {
    ResumeAll(Detach(k), JoinL(k.running))
  }

  /** What a thread owes before it returns: no handle of its own is queued or pending. */
  ghost predicate CanExit(k: K) {
    && k.running in k.threads && k.threads[k.running].state == Ready && k.running != k.idle
    && forall h :: !Owns(k.handles, h, k.running)
  }

  lemma DetachCore(k: K)
    requires Core(k) && CanExit(k)
    ensures Core(Detach(k))
  {
    hide ListsOk, MasksOk, Scheduled, HoldsState, Without;
    var t := k.running;
    var th := k.threads[t].(state := Detached);
    HoldsDrop(k.ready, k.threads, t, th, Ready);
    HoldsDrop(k.wait, k.threads, t, th, Waiting);
    NotIn(k.wait, k.threads, t, Waiting);
    HoldsNoDup(k.ready, k.threads, Ready);
    ScheduledDrop(k.ready, k.threads, k.clock, t, th);
    var k' := Detach(k);
    forall h | h in k'.handles ensures HandleOk(k'.handles[h], k'.threads) && Asleep(k'.handles[h], k'.threads) {
      assert HandleOk(k.handles[h], k.threads) && Asleep(k.handles[h], k.threads) && !Owns(k.handles, h, t);
    }
    assert MasksOk(k'.handles, k'.threads) by { DetachMasks(k); }
  }

  lemma DetachMasks(k: K)
    requires MasksOk(k.handles, k.threads) && k.running in k.threads
    ensures MasksOk(k.handles, Detach(k).threads)
  {
  }

  /** A thread that exits wakes all its joiners and leaves no one queued. */
  lemma RemThreadInv(k: K)
    requires KInv(k) && CanExit(k)
    ensures KInv(RemThread(k))
  {
    hide Core, EventsOk, MutexesOk, Kept, Without;
    var t := k.running;
    var k1, k2 := Detach(k), RemThread(k);
    DetachCore(k);
    ResumeAllCore(k1, JoinL(t));
    assert L(k.lists, PendingL(t)) == [] by { NothingPending(k); }
    RemThreadObjects(k);
  }

  lemma NothingPending(k: K)
    requires Core(k) && CanExit(k)
    ensures L(k.lists, PendingL(k.running)) == []
  {
    hide MasksOk, QueuesOk, NoLostWake;
    var hs := L(k.lists, PendingL(k.running));
    assert hs == [] || hs[0] in hs;
    forall h ensures h !in hs {
      if h in k.handles {
        assert HandleOk(k.handles[h], k.threads) && !Owns(k.handles, h, k.running);
      }
      assert h in L(k.lists, PendingL(k.running)) <==> h in k.handles && k.handles[h].on == Some(PendingL(k.running));
    }
  }

  lemma RemThreadObjects(k: K)
    requires KInv(k) && CanExit(k)
    requires Kept(Detach(k), RemThread(k)) && L(RemThread(k).lists, JoinL(k.running)) == []
    requires L(k.lists, PendingL(k.running)) == []
    ensures ObjectsOk(RemThread(k))
  {
    hide Core, ResumeAll, Without;
    var t := k.running;
    var k1, k2 := Detach(k), RemThread(k);
    forall e | e in k.events && L(k.lists, EventL(e)) == [] ensures L(k2.lists, EventL(e)) == [] {
      assert Quiet(k1, EventL(e));
    }
    forall x | x in k.mutexes && L(k.lists, MutexL(x)) == [] ensures L(k2.lists, MutexL(x)) == [] {
      assert Quiet(k1, MutexL(x));
    }
    forall u | Gone(k2.threads, u) ensures L(k2.lists, JoinL(u)) == [] && L(k2.lists, PendingL(u)) == [] {
      assert Gone(k1.threads, u);
      assert u != t ==> Gone(k.threads, u) && Quiet(k1, JoinL(u));
      assert Quiet(k1, PendingL(u));
    }
  }
}
