/** State of the scheduler, the wait handles and the objects threads wait for.

    Threads, handles, events and mutexes are named by numbers; a wait mask is the set of its bit
    positions; each list of the kernel is the sequence of its nodes. */
module KernelState {
  import opened SeqSets
  import opened Words

  type Tid = nat
  type Hid = nat
  type Mask = set<nat>

  const MASK_BITS := 32

  /** A mutex count is a 32-bit unsigned. */
  const COUNT_LIMIT := WORD

  datatype Option<+T> = None | Some(value: T)

  datatype ThreadState = Detached | Ready | Waiting

  /** since: when the thread last joined a scheduler list, counted in list insertions. */
  datatype Thread = Thread(state: ThreadState, priority: int, maskUsed: Mask, maskWait: Mask, since: nat)

  /** A list that can hold wait handles. */
  datatype ListId = EventL(e: nat) | MutexL(x: nat) | JoinL(t: Tid) | PendingL(t: Tid)

  datatype HandleState = HDetached | HWaiting | HDone

  /** on: the list the handle's node is linked in. */
  datatype Handle = Handle(state: HandleState, owner: Option<Tid>, mask: Mask, on: Option<ListId>)

  /** calls: exos_event_set and exos_event_reset calls that have stored State but not yet resumed. */
  datatype Event = Event(state: bool, autoReset: bool, calls: nat)

  datatype Mutex = Mutex(owner: Option<Tid>, count: nat)

  type Threads = map<Tid, Thread>
  type Handles = map<Hid, Handle>
  type Lists = map<ListId, seq<Hid>>

  datatype K = K(
    ready: seq<Tid>, wait: seq<Tid>, running: Tid, idle: Tid, clock: nat,
    threads: Threads, handles: Handles, lists: Lists,
    events: map<nat, Event>, mutexes: map<nat, Mutex>)

  function L(lists: Lists, l: ListId): seq<Hid> {
    if l in lists then lists[l] else []
  }

  // ---------------------------------------------------------------- invariant, part by part

  /** A handle is on the list its node is linked in, once, and on no other. */
  ghost predicate ListsOk(lists: Lists, handles: Handles) {
    && (forall l :: NoDup(L(lists, l)))
    && (forall l, h :: h in L(lists, l) <==> h in handles && handles[h].on == Some(l))
  }

  ghost predicate IsBit(m: Mask) {
    exists b :: b < MASK_BITS && m == {b}
  }

  /** A detached handle owns nothing; any other one owns one bit of a thread that is not detached and is
      queued on an object (WAITING) or pending at its owner (DONE). */
  ghost predicate HandleOk(h: Handle, threads: Threads) {
    if h.state == HDetached then h.owner == None && h.mask == {} && h.on == None
    else
      && h.owner.Some? && h.owner.value in threads && threads[h.owner.value].state != Detached
      && IsBit(h.mask)
      && (h.state == HWaiting ==> h.on.Some? && !h.on.value.PendingL?)
      && (h.state == HDone ==> h.on == Some(PendingL(h.owner.value)))
  }

  ghost predicate HandlesOk(handles: Handles, threads: Threads) {
    forall h :: h in handles ==> HandleOk(handles[h], threads)
  }

  ghost predicate Owns(handles: Handles, h: Hid, t: Tid) {
    h in handles && handles[h].owner == Some(t)
  }

  /** The union of the bits of t's handles. */
  ghost function UsedBy(handles: Handles, t: Tid): Mask {
    set h, b | h in handles && handles[h].owner == Some(t) && b in handles[h].mask :: b
  }

  ghost predicate DistinctMasks(handles: Handles) {
    forall h, g, t :: Owns(handles, h, t) && Owns(handles, g, t) && h != g ==> handles[h].mask !! handles[g].mask
  }

  /** MaskUsed is the union of the bits of the thread's handles, and no two of them share a bit. */
  ghost predicate MasksOk(handles: Handles, threads: Threads) {
    && DistinctMasks(handles)
    && forall t :: t in threads ==> threads[t].maskUsed == UsedBy(handles, t)
  }

  /** More urgent, or as urgent and queued earlier. */
  predicate Precedes(a: Thread, b: Thread) {
    a.priority > b.priority || (a.priority == b.priority && a.since < b.since)
  }

  ghost predicate Scheduled(q: seq<Tid>, threads: Threads, clock: nat) {
    && (forall i :: 0 <= i < |q| ==> q[i] in threads && threads[q[i]].since < clock)
    && (forall i, j :: 0 <= i < j < |q| ==> Precedes(threads[q[i]], threads[q[j]]))
  }

  ghost predicate HoldsState(q: seq<Tid>, threads: Threads, s: ThreadState) {
    NoDup(q) && forall t :: t in q <==> t in threads && threads[t].state == s
  }

  /** Every thread that is not detached is on exactly the list its State names; the ready list is in
      scheduling order. */
  ghost predicate QueuesOk(ready: seq<Tid>, wait: seq<Tid>, threads: Threads, clock: nat) {
    && HoldsState(ready, threads, Ready)
    && HoldsState(wait, threads, Waiting)
    && Scheduled(ready, threads, clock)
  }

  /** No lost wakeup: nothing that a waiting thread waits for is already pending. */
  ghost predicate NoLostWake(handles: Handles, threads: Threads) {
    forall h :: h in handles ==> Asleep(handles[h], threads)
  }

  ghost predicate Asleep(h: Handle, threads: Threads) {
    (h.state == HDone && h.owner.Some? && h.owner.value in threads && threads[h.owner.value].state == Waiting) ==>
      h.mask !! threads[h.owner.value].maskWait
  }

  /** A set event has no queued handle once the calls that set it have completed. */
  ghost predicate EventsOk(lists: Lists, events: map<nat, Event>) {
    forall e :: e in events && events[e].state && events[e].calls == 0 ==> L(lists, EventL(e)) == []
  }

  /** An unowned mutex has count 0 and no queued handle; an owned one has a positive 32-bit count. */
  ghost predicate MutexesOk(lists: Lists, mutexes: map<nat, Mutex>) {
    forall x :: x in mutexes ==>
      if mutexes[x].owner == None then mutexes[x].count == 0 && L(lists, MutexL(x)) == []
      else 0 < mutexes[x].count < COUNT_LIMIT
  }

  ghost predicate Gone(threads: Threads, t: Tid) {
    t !in threads || threads[t].state == Detached
  }

  /** A detached thread has no queued joiner and nothing pending. */
  ghost predicate JoinsOk(lists: Lists, threads: Threads) {
    forall t :: Gone(threads, t) ==> L(lists, JoinL(t)) == [] && L(lists, PendingL(t)) == []
  }

  ghost predicate IdleOk(k: K) {
    k.idle in k.threads && k.threads[k.idle].state == Ready && k.running in k.threads
  }

  /** Everything about threads and handles. */
  ghost predicate Core(k: K) {
    && ListsOk(k.lists, k.handles)
    && HandlesOk(k.handles, k.threads)
    && MasksOk(k.handles, k.threads)
    && QueuesOk(k.ready, k.wait, k.threads, k.clock)
    && NoLostWake(k.handles, k.threads)
    && IdleOk(k)
  }

  /** No stranded waiter. */
  ghost predicate ObjectsOk(k: K) {
    && EventsOk(k.lists, k.events)
    && MutexesOk(k.lists, k.mutexes)
    && JoinsOk(k.lists, k.threads)
  }

  ghost predicate KInv(k: K) {
    Core(k) && ObjectsOk(k)
  }

  /** A list that nothing but a new wait can make non-empty. */
  ghost predicate Quiet(k: K, l: ListId) {
    L(k.lists, l) == [] && (l.PendingL? ==> Gone(k.threads, l.t))
  }

  /** What resuming handles does not change. */
  ghost predicate Kept(k: K, k': K) {
    && k'.events == k.events && k'.mutexes == k.mutexes && k'.running == k.running && k'.idle == k.idle
    && k'.threads.Keys == k.threads.Keys
    && (forall t :: Gone(k'.threads, t) <==> Gone(k.threads, t))
    && (forall l :: Quiet(k, l) ==> L(k'.lists, l) == [])
    && k'.handles.Keys == k.handles.Keys
    && forall h :: h in k.handles ==> HandleKept(k.handles[h], k'.handles[h])
  }

  ghost predicate HandleKept(h: Handle, h': Handle) {
    h'.owner == h.owner && h'.mask == h.mask && (h'.state == HDetached <==> h.state == HDetached)
  }

  lemma KeptTrans(k: K, k1: K, k2: K)
    requires Kept(k, k1) && Kept(k1, k2)
    ensures Kept(k, k2)
  {
    forall l | Quiet(k, l) ensures L(k2.lists, l) == [] {
      assert Quiet(k1, l);
    }
    forall h | h in k.handles ensures HandleKept(k.handles[h], k2.handles[h]) {
      assert HandleKept(k.handles[h], k1.handles[h]) && HandleKept(k1.handles[h], k2.handles[h]);
    }
  }

  lemma KeptObjects(k: K, k': K)
    requires ObjectsOk(k) && Kept(k, k')
    ensures ObjectsOk(k')
  {
    forall l | Quiet(k, l) ensures L(k'.lists, l) == [] {}
    forall e | e in k.events && L(k.lists, EventL(e)) == [] ensures L(k'.lists, EventL(e)) == [] {
      assert Quiet(k, EventL(e));
    }
    forall x | x in k.mutexes && L(k.lists, MutexL(x)) == [] ensures L(k'.lists, MutexL(x)) == [] {
      assert Quiet(k, MutexL(x));
    }
    forall t | Gone(k'.threads, t) ensures L(k'.lists, JoinL(t)) == [] && L(k'.lists, PendingL(t)) == [] {
      assert Gone(k.threads, t) && Quiet(k, JoinL(t)) && Quiet(k, PendingL(t));
    }
  }

  // ---------------------------------------------------------------- list surgery

  /** list_remove of handle h, which is linked in l. */
  function Unlink(lists: Lists, l: ListId, h: Hid): Lists {
    lists[l := Without(L(lists, l), h)]
  }

  /** list_add_tail of handle h. */
  function Append(lists: Lists, l: ListId, h: Hid): Lists {
    lists[l := L(lists, l) + [h]]
  }

  lemma UnlinkOk(lists: Lists, handles: Handles, l: ListId, h: Hid, h': Handle)
    requires ListsOk(lists, handles) && h in handles && handles[h].on == Some(l) && h'.on == None
    ensures ListsOk(Unlink(lists, l, h), handles[h := h'])
    ensures forall k :: |L(Unlink(lists, l, h), k)| <= |L(lists, k)|
  {
    hide NoDup, Without;
    WithoutMembers(L(lists, l), h);
    var lists' := Unlink(lists, l, h);
    forall k, g ensures g in L(lists', k) <==> g in handles[h := h'] && handles[h := h'][g].on == Some(k) {
      assert g in L(lists, k) <==> g in handles && handles[g].on == Some(k);
    }
    forall k ensures NoDup(L(lists', k)) {
      assert NoDup(L(lists, k));
    }
    assert h in L(lists, l);
  }

  lemma AppendOk(lists: Lists, handles: Handles, l: ListId, h: Hid, h': Handle)
    requires ListsOk(lists, handles) && (h in handles ==> handles[h].on == None) && h'.on == Some(l)
    ensures ListsOk(Append(lists, l, h), handles[h := h'])
  {
    hide NoDup;
    assert h !in L(lists, l);
    SnocMembers(L(lists, l), h);
    var lists' := Append(lists, l, h);
    forall k, g ensures g in L(lists', k) <==> g in handles[h := h'] && handles[h := h'][g].on == Some(k) {
      assert g in L(lists, k) <==> g in handles && handles[g].on == Some(k);
    }
    forall k ensures NoDup(L(lists', k)) {
      assert NoDup(L(lists, k));
    }
  }

  // ---------------------------------------------------------------- masks

  /** Changing a handle's state or place leaves the masks alone. */
  lemma MasksKept(handles: Handles, threads: Threads, h: Hid, h': Handle)
    requires MasksOk(handles, threads) && h in handles
    requires h'.owner == handles[h].owner && h'.mask == handles[h].mask
    ensures MasksOk(handles[h := h'], threads)
  {
    var hs := handles[h := h'];
    forall g, f, t | Owns(hs, g, t) && Owns(hs, f, t) && g != f ensures hs[g].mask !! hs[f].mask {
      assert Owns(handles, g, t) && Owns(handles, f, t);
    }
    forall t | t in threads ensures threads[t].maskUsed == UsedBy(hs, t) {
      UsedSame(handles, hs, t);
    }
  }

  lemma UsedSame(handles: Handles, hs: Handles, t: Tid)
    requires handles.Keys == hs.Keys
    requires forall g :: g in handles ==> hs[g].owner == handles[g].owner && hs[g].mask == handles[g].mask
    ensures UsedBy(hs, t) == UsedBy(handles, t)
  {
    forall b ensures b in UsedBy(hs, t) <==> b in UsedBy(handles, t) {
      if b in UsedBy(hs, t) {
        var g :| g in hs && hs[g].owner == Some(t) && b in hs[g].mask;
        assert g in handles && b in handles[g].mask;
      }
      if b in UsedBy(handles, t) {
        var g :| g in handles && handles[g].owner == Some(t) && b in handles[g].mask;
        assert g in hs && b in hs[g].mask;
      }
    }
  }
}
