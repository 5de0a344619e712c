/** Dispatchers: wait handles that outlive one wait. A context keeps a list of dispatchers; each may
    wait for an event, for a timer, for both or for nothing. */
module Dispatch {
  import opened SeqSets
  import opened KernelState
  import opened KernelSteps
  import opened KernelRuns
  import opened WaitCalls
  import opened LockCalls

  datatype DispState = AddedWaiting | Immediate | Done | Timeout

  /** timer: the event of the dispatcher's timer, present exactly when DISPATCHERF_HAS_TIMEOUT is set. */
  datatype Disp = Disp(event: Option<nat>, eventHandle: Hid, timer: Option<nat>, timerHandle: Hid,
                       state: DispState, linked: bool)

  datatype Ctx = Ctx(order: seq<nat>, disps: map<nat, Disp>)

  /** The handles a dispatcher uses. */
  function HandlesOf(d: Disp): set<Hid> {
    (if d.event.Some? then {d.eventHandle} else {}) + (if d.timer.Some? then {d.timerHandle} else {})
  }

  /** A handle is attached only while its dispatcher is linked and uses it. */
  ghost predicate DispOk(k: K, d: Disp) {
    && d.eventHandle in k.handles && d.timerHandle in k.handles && d.eventHandle != d.timerHandle
    && (!d.linked || d.event.None? ==> DetachedHandle(k, d.eventHandle))
    && (!d.linked || d.timer.None? ==> DetachedHandle(k, d.timerHandle))
    && (d.event.Some? ==> d.event.value in k.events)
    && (d.timer.Some? ==> d.timer.value in k.events)
  }

  ghost predicate Separate(d: Disp, e: Disp) {
    {d.eventHandle, d.timerHandle} !! {e.eventHandle, e.timerHandle}
  }

  ghost predicate CtxOk(k: K, c: Ctx) {
    && NoDup(c.order)
    && (forall d :: d in c.order <==> d in c.disps && c.disps[d].linked)
    && (forall d :: d in c.disps ==> DispOk(k, c.disps[d]))
    && (forall d, e :: d in c.disps && e in c.disps && d != e ==> Separate(c.disps[d], c.disps[e]))
  }

  // ---------------------------------------------------------------- exos_thread_dispose_wait_handle

  function DisposeIf(k: K, h: Hid): K {
    if h in k.handles && k.handles[h].state != HDetached && Resumable(k, h) then Dispose(k, h) else k
  }

  /** Bits of the handles hs that thread t owns. */
  ghost function OwnedBits(k: K, hs: set<Hid>, t: Tid): Mask {
    set h, b | h in hs && h in k.handles && k.handles[h].owner == Some(t) && b in k.handles[h].mask :: b
  }

  lemma DisposeIfExact(k: K, h: Hid)
    requires KInv(k) && h in k.handles
    ensures var k' := DisposeIf(k, h);
            && KInv(k') && DetachedHandle(k', h) && k'.events == k.events && k'.running == k.running
            && k'.handles == k.handles[h := DETACHED_HANDLE]
            && k'.threads.Keys == k.threads.Keys
            && (forall t :: t in k.threads ==> k'.threads[t].state == k.threads[t].state)
  {
    hide KInv, Unlink, Toggle;
    InvCore(k);
    assert HandleOk(k.handles[h], k.threads);
    if k.handles[h].state != HDetached {
      DisposeInv(k, h);
    } else {
      assert k.handles == k.handles[h := DETACHED_HANDLE];
    }
  }

  lemma UsedAfter(k: K, h: Hid, t: Tid)
    requires KInv(k) && h in k.handles && t in k.threads
    ensures t in DisposeIf(k, h).threads
    ensures DisposeIf(k, h).threads[t].maskUsed == k.threads[t].maskUsed - OwnedBits(k, {h}, t)
  {
    hide ListsOk, HandlesOk, QueuesOk, NoLostWake, ObjectsOk, UsedBy, DistinctMasks, DisposeIf;
    DisposeIfExact(k, h);
    var k' := DisposeIf(k, h);
    UsedDrop(k.handles, h, DETACHED_HANDLE, t);
    assert OwnedBits(k, {h}, t) == if k.handles[h].owner == Some(t) then k.handles[h].mask else {};
  }

  // ---------------------------------------------------------------- _remove

  function RemoveHandles(k: K, d: Disp): K {
    var k1 := if d.timer.Some? then DisposeIf(k, d.timerHandle) else k;
    if d.event.Some? then DisposeIf(k1, d.eventHandle) else k1
  }

  function Unlinked(c: Ctx, d: nat): Ctx
    requires d in c.disps
  {
    c.(order := Without(c.order, d), disps := c.disps[d := c.disps[d].(linked := false)])
  }

  lemma RemoveTimer(k: K, d: Disp)
    requires KInv(k) && DispOk(k, d)
    ensures var k1 := if d.timer.Some? then DisposeIf(k, d.timerHandle) else k;
            && KInv(k1) && k1.events == k.events && k1.running == k.running && k1.threads.Keys == k.threads.Keys
            && (forall t :: t in k.threads ==> k1.threads[t].state == k.threads[t].state)
            && k1.handles == if d.timer.Some? then k.handles[d.timerHandle := DETACHED_HANDLE] else k.handles
  {
    hide KInv, DisposeIf;
    if d.timer.Some? {
      DisposeIfExact(k, d.timerHandle);
    }
  }

  /** Only the dispatcher's own handles are touched, and they end up detached. */
  lemma RemoveTouches(k: K, d: Disp)
    requires KInv(k) && DispOk(k, d)
    ensures var k' := RemoveHandles(k, d);
            && KInv(k') && k'.events == k.events && k'.running == k.running && k'.threads.Keys == k.threads.Keys
            && (forall t :: t in k.threads ==> k'.threads[t].state == k.threads[t].state)
            && k'.handles.Keys == k.handles.Keys
            && (forall h :: h in HandlesOf(d) ==> DetachedHandle(k', h))
            && (forall h :: h in k.handles && h !in HandlesOf(d) ==> k'.handles[h] == k.handles[h])
  {
    hide KInv, DisposeIf;
    RemoveTimer(k, d);
    var k1 := if d.timer.Some? then DisposeIf(k, d.timerHandle) else k;
    if d.event.Some? {
      DisposeIfExact(k1, d.eventHandle);
    }
  }

  /** _remove gives back exactly the bits of the dispatcher's handles, to whichever threads own them. */
  lemma RemoveReleases(k: K, d: Disp, t: Tid)
    requires KInv(k) && DispOk(k, d) && t in k.threads
    ensures t in RemoveHandles(k, d).threads
    ensures RemoveHandles(k, d).threads[t].maskUsed == k.threads[t].maskUsed - OwnedBits(k, HandlesOf(d), t)
  {
    hide KInv, DisposeIf;
    RemoveTimer(k, d);
    var k1 := if d.timer.Some? then DisposeIf(k, d.timerHandle) else k;
    if d.timer.Some? { UsedAfter(k, d.timerHandle, t); }
    if d.event.Some? { UsedAfter(k1, d.eventHandle, t); }
    OwnedSplit(k, k1, d, t);
  }

  lemma OwnedSplit(k: K, k1: K, d: Disp, t: Tid)
    requires d.eventHandle != d.timerHandle
    requires k1.handles == if d.timer.Some? then k.handles[d.timerHandle := DETACHED_HANDLE] else k.handles
    ensures OwnedBits(k, HandlesOf(d), t) ==
            (if d.timer.Some? then OwnedBits(k, {d.timerHandle}, t) else {}) +
            (if d.event.Some? then OwnedBits(k1, {d.eventHandle}, t) else {})
  {
    var th, eh := d.timerHandle, d.eventHandle;
    var lhs := OwnedBits(k, HandlesOf(d), t);
    assert eh in k1.handles <==> eh in k.handles;
    forall b ensures b in lhs <==>
      (d.timer.Some? && b in OwnedBits(k, {th}, t)) || (d.event.Some? && b in OwnedBits(k1, {eh}, t))
    {
      OwnedOne(k, th, t, b);
      OwnedOne(k1, eh, t, b);
      assert b in lhs <==> (d.timer.Some? && BitOf(k, th, t, b)) || (d.event.Some? && BitOf(k, eh, t, b));
    }
  }

  ghost predicate BitOf(k: K, h: Hid, t: Tid, b: nat) {
    h in k.handles && k.handles[h].owner == Some(t) && b in k.handles[h].mask
  }

  lemma OwnedOne(k: K, h: Hid, t: Tid, b: nat)
    ensures b in OwnedBits(k, {h}, t) <==> BitOf(k, h, t, b)
  {
    if BitOf(k, h, t, b) {
      assert h in {h};
    }
  }

  lemma DispStays(k: K, k': K, d: Disp)
    requires DispOk(k, d) && k.events.Keys <= k'.events.Keys
    requires forall h :: h in {d.eventHandle, d.timerHandle} && h in k.handles ==>
               h in k'.handles && (k.handles[h].state == HDetached ==> k'.handles[h].state == HDetached)
    ensures DispOk(k', d)
  {
  }

  /** _remove keeps the context and the kernel consistent and unlinks exactly one dispatcher. */
  lemma RemoveInv(k: K, c: Ctx, d: nat)
    requires KInv(k) && CtxOk(k, c) && d in c.order
    ensures d in c.disps
    ensures KInv(RemoveHandles(k, c.disps[d])) && CtxOk(RemoveHandles(k, c.disps[d]), Unlinked(c, d))
    ensures |Unlinked(c, d).order| == |c.order| - 1
    ensures forall e :: e in Unlinked(c, d).order <==> e in c.order && e != d
    ensures var c' := Unlinked(c, d);
            && (forall e :: e in c.disps && e != d ==> e in c'.disps && c'.disps[e] == c.disps[e])
            && d in c'.disps && !c'.disps[d].linked && c'.disps[d].event == c.disps[d].event
            && c'.disps[d].timer == c.disps[d].timer && c'.disps[d].state == c.disps[d].state
            && c'.disps[d].eventHandle == c.disps[d].eventHandle && c'.disps[d].timerHandle == c.disps[d].timerHandle
  {
    hide KInv, RemoveHandles, Without, DispOk, Separate;
    var k', c' := RemoveHandles(k, c.disps[d]), Unlinked(c, d);
    RemoveTouches(k, c.disps[d]);
    WithoutMembers(c.order, d);
    forall e | e in c'.disps ensures DispOk(k', c'.disps[e]) {
      RemoveDisp(k, c, d, e);
    }
    forall e, f | e in c'.disps && f in c'.disps && e != f ensures Separate(c'.disps[e], c'.disps[f]) {
      SeparateKeeps(c, d, e, f);
    }
  }

  lemma SeparateKeeps(c: Ctx, d: nat, e: nat, f: nat)
    requires d in c.disps && e in c.disps && f in c.disps && Separate(c.disps[e], c.disps[f])
    ensures Separate(Unlinked(c, d).disps[e], Unlinked(c, d).disps[f])
  {
    hide Without;
  }

  lemma RemoveDisp(k: K, c: Ctx, d: nat, e: nat)
    requires KInv(k) && CtxOk(k, c) && d in c.disps && e in c.disps
    ensures DispOk(RemoveHandles(k, c.disps[d]), Unlinked(c, d).disps[e])
  {
    hide KInv, RemoveHandles, Without, NoDup;
    assert DispOk(k, c.disps[d]) && DispOk(k, c.disps[e]);
    RemoveTouches(k, c.disps[d]);
    if e != d {
      assert Separate(c.disps[d], c.disps[e]);
      hide CtxOk;
      OthersStay(k, RemoveHandles(k, c.disps[d]), c.disps[d], c.disps[e]);
    }
  }

  lemma OthersStay(k: K, k': K, d: Disp, e: Disp)
    requires DispOk(k, e) && Separate(d, e) && k'.events == k.events && k'.handles.Keys == k.handles.Keys
    requires forall h :: h in k.handles && h !in HandlesOf(d) ==> k'.handles[h] == k.handles[h]
    ensures DispOk(k', e)
  {
    assert e.eventHandle !in HandlesOf(d) && e.timerHandle !in HandlesOf(d) by {
      assert e.eventHandle in {e.eventHandle, e.timerHandle} && e.timerHandle in {e.eventHandle, e.timerHandle};
    }
    DispStays(k, k', e);
  }

  // ---------------------------------------------------------------- exos_dispatch, first pass

  /** exos_event_add_handle: None is the kernel panic for want of a mask bit. */
  function AddIfDetached(k: K, h: Hid, e: nat): Option<K>
    requires h in k.handles && e in k.events && k.running in k.threads
  {
    if k.handles[h].state != HDetached then Some(k)
    else if !k.events[e].state && LowestFree(k.threads[k.running].maskUsed) == MASK_BITS then None
    else Some(EventAdd(k, h, e))
  }

  /** The handle's mask is 0 afterwards exactly when the event was set and the handle not yet queued. */
  lemma AddIfDetachedExact(k: K, h: Hid, e: nat)
    requires KInv(k) && RunningReady(k) && h in k.handles && e in k.events
    ensures AddIfDetached(k, h, e).None? <==>
            k.handles[h].state == HDetached && !k.events[e].state
            && forall b :: 0 <= b < MASK_BITS ==> b in k.threads[k.running].maskUsed
    ensures var r := AddIfDetached(k, h, e);
            r.Some? ==>
              && KInv(r.value) && RunningReady(r.value) && r.value.running == k.running
              && r.value.events.Keys == k.events.Keys
              && r.value.handles.Keys == k.handles.Keys
              && (r.value.handles[h].mask == {} <==> r.value.handles[h].state == HDetached)
              && (r.value.handles[h].state == HDetached <==> k.handles[h].state == HDetached && k.events[e].state)
              && forall g :: g in k.handles && g != h ==> r.value.handles[g] == k.handles[g]
  {
    hide KInv, Core, EventAdd;
    HandleAt(k, h);
    if k.handles[h].state == HDetached && AddIfDetached(k, h, e).Some? {
      AddDetached(k, h, e);
    }
  }

  /** A handle without bits is one that is not in use. */
  lemma HandleAt(k: K, h: Hid)
    requires KInv(k) && h in k.handles
    ensures HandleOk(k.handles[h], k.threads)
    ensures k.handles[h].mask == {} <==> k.handles[h].state == HDetached
  {
    hide KInv;
    InvCore(k);
    assert HandleOk(k.handles[h], k.threads);
  }

  lemma AddDetached(k: K, h: Hid, e: nat)
    requires KInv(k) && RunningReady(k) && h in k.handles && k.handles[h].state == HDetached && e in k.events
    requires k.events[e].state || LowestFree(k.threads[k.running].maskUsed) != MASK_BITS
    ensures var k' := EventAdd(k, h, e);
            && KInv(k') && RunningReady(k') && k'.running == k.running && k'.events.Keys == k.events.Keys
            && k'.handles.Keys == k.handles.Keys && (k'.handles[h].mask == {} <==> k.events[e].state)
            && (k'.handles[h].state == HDetached <==> k.events[e].state)
            && forall g :: g in k.handles && g != h ==> k'.handles[g] == k.handles[g]
  {
    hide KInv, LowestFree, Append;
    HandleAt(k, h);
    if !k.events[e].state { assert CanAdd(k, h); }
    EventAddInv(k, h, e);
  }

  datatype Visit = Panic | Select(k: K, state: DispState) | Pass(k: K, mask: Mask)

  /** One turn of the first loop. */
  function VisitDisp(k: K, d: Disp): Visit
    requires k.running in k.threads && d.eventHandle in k.handles && d.timerHandle in k.handles
    requires (d.event.Some? ==> d.event.value in k.events) && (d.timer.Some? ==> d.timer.value in k.events)
  {
    var r1 := if d.event.Some? then AddIfDetached(k, d.eventHandle, d.event.value) else Some(k);
    if r1.None? then Panic
    else if d.event.Some? && r1.value.handles[d.eventHandle].mask == {} then Select(r1.value, Done)
    else VisitTimer(r1.value, d)
  }

  function VisitTimer(k: K, d: Disp): Visit
    requires k.running in k.threads && d.eventHandle in k.handles && d.timerHandle in k.handles
    requires d.timer.Some? ==> d.timer.value in k.events
  {
    var evMask := if d.event.Some? then k.handles[d.eventHandle].mask else {};
    if d.timer.None? then (if evMask == {} then Select(k, Immediate) else Pass(k, evMask))
    else
      var r := AddIfDetached(k, d.timerHandle, d.timer.value);
      if r.None? then Panic
      else if r.value.handles[d.timerHandle].mask == {} then Select(r.value, Timeout)
      else Pass(r.value, evMask + r.value.handles[d.timerHandle].mask)
  }

  /** k' is a later kernel state in which only the handles hs may have been queued. */
  ghost predicate Progress(k: K, k': K, hs: set<Hid>) {
    && KInv(k') && RunningReady(k') && k'.running == k.running && k'.events.Keys == k.events.Keys
    && k'.handles.Keys == k.handles.Keys
    && (forall h :: h in k.handles && h !in hs ==> k'.handles[h] == k.handles[h])
    && (forall h :: h in k.handles && Attached(k, h) ==> k'.handles[h] == k.handles[h])
  }

  lemma AddProgress(k: K, h: Hid, e: nat, hs: set<Hid>)
    requires KInv(k) && RunningReady(k) && h in k.handles && e in k.events && h in hs
    ensures var r := AddIfDetached(k, h, e);
            r.Some? ==>
              && Progress(k, r.value, hs)
              && (r.value.handles[h].mask == {} <==> r.value.handles[h].state == HDetached)
              && (r.value.handles[h].state == HDetached <==> k.handles[h].state == HDetached && k.events[e].state)
  {
    AddIfDetachedExact(k, h, e);
    hide KInv, EventAdd;
  }

  lemma ProgressTrans(k: K, k1: K, k2: K, hs: set<Hid>)
    requires Progress(k, k1, hs) && Progress(k1, k2, hs)
    ensures Progress(k, k2, hs)
  {
    hide KInv;
  }

  /** What one turn of the first loop establishes. */
  ghost predicate VisitOk(k: K, d: Disp, v: Visit) {
    match v
    case Panic => true
    case Select(k', state) =>
      && Progress(k, k', HandlesOf(d)) && DispOk(k', d)
      && state in {Done, Timeout, Immediate}
      && (state == Done ==> d.event.Some? && DetachedHandle(k', d.eventHandle))
      && (state == Timeout ==> d.timer.Some? && DetachedHandle(k', d.timerHandle))
      && (state == Immediate ==> d.event.None? && d.timer.None?)
    case Pass(k', mask) =>
      && Progress(k, k', HandlesOf(d)) && DispOk(k', d) && HandlesOf(d) != {}
      && (forall h :: h in HandlesOf(d) ==> Attached(k', h) && k'.handles[h].mask <= mask)
      && mask <= MaskOf(k'.handles, HandlesOf(d))
  }

  lemma ProgressRefl(k: K, hs: set<Hid>)
    requires KInv(k) && RunningReady(k)
    ensures Progress(k, k, hs)
  {
  }

  lemma VisitTimerOk(k: K, d: Disp)
    requires KInv(k) && RunningReady(k) && DispOk(k, d) && d.linked
    requires d.event.Some? ==> Attached(k, d.eventHandle)
    ensures VisitOk(k, d, VisitTimer(k, d))
  {
    hide KInv, RunningReady, AddIfDetached, Progress;
    if d.event.Some? {
      HandleAt(k, d.eventHandle);
    }
    if d.timer.None? {
      ProgressRefl(k, HandlesOf(d));
    } else {
      QueuedTimer(k, d);
    }
  }

  /** After queueing the timer the event handle is as it was. */
  lemma QueuedTimer(k: K, d: Disp)
    requires KInv(k) && RunningReady(k) && DispOk(k, d) && d.linked && d.timer.Some?
    requires d.event.Some? ==> Attached(k, d.eventHandle)
    ensures k.running in k.threads
    ensures var r := AddIfDetached(k, d.timerHandle, d.timer.value);
            r.Some? ==>
              && Progress(k, r.value, HandlesOf(d)) && DispOk(r.value, d)
              && (d.event.Some? ==> Attached(r.value, d.eventHandle)
                                    && r.value.handles[d.eventHandle] == k.handles[d.eventHandle])
              && (if r.value.handles[d.timerHandle].mask == {} then DetachedHandle(r.value, d.timerHandle)
                  else Attached(r.value, d.timerHandle))
  {
    hide KInv, AddIfDetached, Progress;
    AddProgress(k, d.timerHandle, d.timer.value, HandlesOf(d));
    var r := AddIfDetached(k, d.timerHandle, d.timer.value);
    if r.Some? {
      ProgressDisp(k, r.value, d);
      if d.event.Some? { ProgressAttached(k, r.value, d.eventHandle, HandlesOf(d)); }
    }
  }

  lemma ProgressAttached(k: K, k': K, h: Hid, hs: set<Hid>)
    requires Progress(k, k', hs) && Attached(k, h)
    ensures Attached(k', h) && k'.handles[h] == k.handles[h]
  {
    hide KInv;
  }

  lemma ProgressDisp(k: K, k': K, d: Disp)
    requires Progress(k, k', HandlesOf(d)) && DispOk(k, d) && d.linked
    ensures DispOk(k', d)
  {
    hide KInv;
  }

  lemma ProgressOther(k: K, k': K, d: Disp, e: Disp)
    requires Progress(k, k', HandlesOf(d)) && DispOk(k, e) && Separate(d, e)
    ensures DispOk(k', e)
  {
    hide KInv;
    assert e.eventHandle in {e.eventHandle, e.timerHandle} && e.timerHandle in {e.eventHandle, e.timerHandle};
  }

  lemma VisitDispOk(k: K, d: Disp)
    requires KInv(k) && RunningReady(k) && DispOk(k, d) && d.linked
    ensures VisitOk(k, d, VisitDisp(k, d))
  {
    hide KInv, AddIfDetached, Progress, VisitTimer;
    if d.event.None? {
      VisitTimerOk(k, d);
    } else {
      AddProgress(k, d.eventHandle, d.event.value, HandlesOf(d));
      var r := AddIfDetached(k, d.eventHandle, d.event.value);
      if r.Some? {
        var k1 := r.value;
        ProgressDisp(k, k1, d);
        ProgressGood(k, k1, HandlesOf(d));
        if k1.handles[d.eventHandle].mask != {} {
          VisitTimerOk(k1, d);
          var v := VisitTimer(k1, d);
          if !v.Panic? { ProgressTrans(k, k1, v.k, HandlesOf(d)); }
        }
      }
    }
  }

  lemma ProgressGood(k: K, k': K, hs: set<Hid>)
    requires Progress(k, k', hs)
    ensures KInv(k') && RunningReady(k') && k'.handles.Keys == k.handles.Keys
  {
  }

  /** The event of d is there to be taken. */
  ghost predicate EventReadyNow(k: K, d: Disp) {
    d.event.Some? && DetachedHandle(k, d.eventHandle) && d.event.value in k.events && k.events[d.event.value].state
  }

  /** The timer of d is there to be taken. */
  ghost predicate TimerReadyNow(k: K, d: Disp) {
    d.timer.Some? && DetachedHandle(k, d.timerHandle) && d.timer.value in k.events && k.events[d.timer.value].state
  }

  /** One turn serves d for its event exactly when the event is set and the handle not in use; as Immediate exactly
      when d has neither event nor timer; and for its timer exactly when the event does not serve it, the timer's
      event is set and its handle not in use, unless there is no mask bit left to queue the event's handle. */
  lemma VisitExact(k: K, d: Disp)
    requires KInv(k) && RunningReady(k) && DispOk(k, d) && d.linked
    ensures var v := VisitDisp(k, d);
            && (v.Select? && v.state == Done <==> EventReadyNow(k, d))
            && (v.Select? && v.state == Immediate <==> d.event.None? && d.timer.None?)
            && (v.Select? && v.state == Timeout <==> !v.Panic? && TimerReadyNow(k, d) && !EventReadyNow(k, d))
            && (v.Panic? && TimerReadyNow(k, d) ==>
                  d.event.Some? && forall b :: 0 <= b < MASK_BITS ==> b in k.threads[k.running].maskUsed)
  {
    hide KInv, AddIfDetached;
    if d.event.None? {
      TimerExact(k, d);
    } else {
      AddIfDetachedExact(k, d.eventHandle, d.event.value);
      AddEvents(k, d.eventHandle, d.event.value);
      var r := AddIfDetached(k, d.eventHandle, d.event.value);
      if r.Some? && r.value.handles[d.eventHandle].mask != {} {
        AddProgress(k, d.eventHandle, d.event.value, HandlesOf(d));
        ProgressDisp(k, r.value, d);
        TimerExact(r.value, d);
      }
    }
  }

  lemma TimerExact(k: K, d: Disp)
    requires KInv(k) && RunningReady(k) && DispOk(k, d)
    requires d.event.Some? ==> k.handles[d.eventHandle].mask != {}
    ensures var v := VisitTimer(k, d);
            && (v.Select? ==> v.state in {Timeout, Immediate})
            && (v.Select? && v.state == Immediate <==> d.event.None? && d.timer.None?)
            && (v.Select? && v.state == Timeout <==>
                  d.timer.Some? && DetachedHandle(k, d.timerHandle) && k.events[d.timer.value].state)
            && (v.Panic? ==> d.timer.Some? && !k.events[d.timer.value].state)
  {
    hide KInv, AddIfDetached;
    if d.timer.Some? {
      AddIfDetachedExact(k, d.timerHandle, d.timer.value);
    }
  }

  /** Queueing a handle takes an event only when that is set. */
  lemma AddEvents(k: K, h: Hid, e: nat)
    requires h in k.handles && e in k.events && k.running in k.threads
    ensures var r := AddIfDetached(k, h, e);
            r.Some? && !(k.handles[h].state == HDetached && k.events[e].state) ==> r.value.events == k.events
  {
    hide LowestFree;
  }

  // ---------------------------------------------------------------- the loops

  datatype Scanned = Crash | Selected(k: K, d: nat, state: DispState) | AllWait(k: K, mask: Mask)

  lemma VisitCtx(k: K, c: Ctx, d: nat, k': K)
    requires CtxOk(k, c) && d in c.disps && c.disps[d].linked && Progress(k, k', HandlesOf(c.disps[d]))
    ensures CtxOk(k', c)
  {
    hide Progress, DispOk;
    forall e | e in c.disps ensures DispOk(k', c.disps[e]) {
      assert DispOk(k, c.disps[e]);
      if e == d {
        ProgressDisp(k, k', c.disps[d]);
      } else {
        assert Separate(c.disps[d], c.disps[e]);
        ProgressOther(k, k', c.disps[d], c.disps[e]);
      }
    }
  }

  /** The first loop from position i on: queue the handles of each dispatcher until one can be served
      at once. */
  ghost function Scan(k: K, c: Ctx, i: nat, mask: Mask): (r: Scanned)
    requires KInv(k) && RunningReady(k) && CtxOk(k, c) && i <= |c.order|
    ensures !r.Crash? ==> KInv(r.k) && RunningReady(r.k) && CtxOk(r.k, c)
    ensures r.Selected? ==>
              && r.d in c.order && r.d in c.disps
              && (r.state == Done ==> c.disps[r.d].event.Some? && DetachedHandle(r.k, c.disps[r.d].eventHandle))
              && (r.state == Timeout ==> c.disps[r.d].timer.Some? && DetachedHandle(r.k, c.disps[r.d].timerHandle))
              && (r.state == Immediate ==> HandlesOf(c.disps[r.d]) == {})
              && r.state in {Done, Timeout, Immediate}
    decreases |c.order| - i
  {
    hide KInv, RunningReady, DispOk, VisitDisp, Progress, NoDup, Separate;
    if i == |c.order| then AllWait(k, mask)
    else
      var d := c.order[i];
      assert d in c.order;
      assert DispOk(k, c.disps[d]);
      VisitReady(k, c.disps[d]);
      VisitDispOk(k, c.disps[d]);
      match VisitDisp(k, c.disps[d])
      case Panic => Crash
      case Select(k', state) =>
        VisitCtx(k, c, d, k');
        ProgressGood(k, k', HandlesOf(c.disps[d]));
        Selected(k', d, state)
      case Pass(k', m) =>
        VisitCtx(k, c, d, k');
        ProgressGood(k, k', HandlesOf(c.disps[d]));
        Scan(k', c, i + 1, mask + m)
  }

  /** One turn, as the loop takes it. */
  lemma ScanStep(k: K, c: Ctx, i: nat, mask: Mask)
    requires KInv(k) && RunningReady(k) && CtxOk(k, c) && i < |c.order|
    ensures c.order[i] in c.disps && c.disps[c.order[i]].linked
    ensures k.running in k.threads && DispOk(k, c.disps[c.order[i]])
    ensures match VisitDisp(k, c.disps[c.order[i]])
            case Panic => Scan(k, c, i, mask) == Crash
            case Select(k', state) => Scan(k, c, i, mask) == Selected(k', c.order[i], state)
            case Pass(k', m) =>
              && KInv(k') && RunningReady(k') && CtxOk(k', c)
              && Scan(k, c, i, mask) == Scan(k', c, i + 1, mask + m)
  {
    hide KInv, RunningReady, DispOk, VisitDisp, Progress, NoDup, Separate;
    var d := c.order[i];
    assert d in c.order;
    assert DispOk(k, c.disps[d]);
    VisitReady(k, c.disps[d]);
    VisitDispOk(k, c.disps[d]);
    match VisitDisp(k, c.disps[d])
    case Panic =>
    case Select(k', state) =>
    case Pass(k', m) =>
      VisitCtx(k, c, d, k');
      ProgressGood(k, k', HandlesOf(c.disps[d]));
  }

  /** From k to k' events may have been taken: auto-reset ones that were set are clear, all others as they were. */
  ghost predicate EventsTaken(k: K, k': K) {
    forall e :: e in k.events ==>
      && e in k'.events && k'.events[e].autoReset == k.events[e].autoReset
      && (k'.events[e].state ==> k.events[e].state)
      && (!k.events[e].autoReset ==> k'.events[e].state == k.events[e].state)
  }

  lemma AddTakes(k: K, h: Hid, e: nat)
    requires h in k.handles && e in k.events && k.running in k.threads
    ensures var r := AddIfDetached(k, h, e); r.Some? ==> EventsTaken(k, r.value)
  {
    hide LowestFree;
  }

  lemma VisitTakes(k: K, d: Disp)
    requires KInv(k) && RunningReady(k) && DispOk(k, d) && d.linked
    ensures var v := VisitDisp(k, d); !v.Panic? ==> EventsTaken(k, v.k)
  {
    hide KInv, AddIfDetached, Progress;
    var k1 := k;
    if d.event.Some? {
      AddTakes(k, d.eventHandle, d.event.value);
      AddProgress(k, d.eventHandle, d.event.value, HandlesOf(d));
      var r := AddIfDetached(k, d.eventHandle, d.event.value);
      if r.Some? {
        k1 := r.value;
        ProgressGood(k, k1, HandlesOf(d));
        ProgressDisp(k, k1, d);
      }
    }
    if d.timer.Some? {
      VisitReady(k1, d);
      AddTakes(k1, d.timerHandle, d.timer.value);
    }
  }

  /** The turn in which the first loop selects: its kernel state kd has the dispatcher's handles as the pass found
      them, and at most auto-reset events taken since. */
  lemma {:induction false} ScanTurn(k: K, c: Ctx, i: nat, mask: Mask) returns (j: nat, kd: K)
    requires KInv(k) && RunningReady(k) && CtxOk(k, c) && i <= |c.order| && Scan(k, c, i, mask).Selected?
    ensures var r := Scan(k, c, i, mask);
            && i <= j < |c.order| && c.order[j] == r.d && r.d in c.disps && c.disps[r.d].linked
            && KInv(kd) && RunningReady(kd) && DispOk(kd, c.disps[r.d])
            && VisitDisp(kd, c.disps[r.d]) == Select(r.k, r.state)
            && EventsTaken(k, kd)
            && c.disps[r.d].eventHandle in k.handles && c.disps[r.d].timerHandle in k.handles
            && kd.handles[c.disps[r.d].eventHandle] == k.handles[c.disps[r.d].eventHandle]
            && kd.handles[c.disps[r.d].timerHandle] == k.handles[c.disps[r.d].timerHandle]
    decreases |c.order| - i
  {
    hide KInv, RunningReady, CtxOk, DispOk, Scan, VisitDisp, Progress, EventsTaken;
    if i == |c.order| {
      ScanEnd(k, c, mask);
    } else {
      ScanStep(k, c, i, mask);
      var p := c.disps[c.order[i]];
      VisitReady(k, p);
      var v := VisitDisp(k, p);
      if v.Select? {
        j, kd := i, k;
        TakenNone(k);
      } else {
        j, kd := ScanTurn(v.k, c, i + 1, mask + v.mask);
        VisitTakes(k, p);
        TakenTrans(k, v.k, kd);
        TurnApart(k, c, i, j, v);
      }
    }
  }

  lemma TakenNone(k: K)
    ensures EventsTaken(k, k)
  {
  }

  lemma TakenTrans(k: K, k1: K, k2: K)
    requires EventsTaken(k, k1) && EventsTaken(k1, k2)
    ensures EventsTaken(k, k2)
  {
  }

  lemma TurnApart(k: K, c: Ctx, i: nat, j: nat, v: Visit)
    requires KInv(k) && RunningReady(k) && CtxOk(k, c) && i < j < |c.order|
    requires c.order[i] in c.disps && c.disps[c.order[i]].linked && c.order[j] in c.disps
    requires k.running in k.threads && DispOk(k, c.disps[c.order[i]])
    requires v == VisitDisp(k, c.disps[c.order[i]]) && v.Pass?
    ensures var q := c.disps[c.order[j]];
            && q.eventHandle in k.handles && q.timerHandle in k.handles
            && q.eventHandle in v.k.handles && v.k.handles[q.eventHandle] == k.handles[q.eventHandle]
            && q.timerHandle in v.k.handles && v.k.handles[q.timerHandle] == k.handles[q.timerHandle]
  {
    hide KInv, VisitDisp;
    var p, q := c.disps[c.order[i]], c.disps[c.order[j]];
    VisitDispOk(k, p);
    assert Separate(p, q) && DispOk(k, q);
    assert q.eventHandle in {q.eventHandle, q.timerHandle} && q.timerHandle in {q.eventHandle, q.timerHandle};
  }

  /** Why the first loop serves a dispatcher: as Immediate exactly when it was added without event and timeout; for its
      timer only if the timer's event was set and the handle not in use when the pass began, and then, if its
      event has come as well, only because that was auto-reset and another dispatcher took it. */
  lemma ServedFor(k: K, c: Ctx)
    requires KInv(k) && RunningReady(k) && CtxOk(k, c) && Scan(k, c, 0, {}).Selected?
    ensures var r := Scan(k, c, 0, {});
            && r.d in c.disps
            && var p := c.disps[r.d];
            && (r.state == Immediate <==> p.event.None? && p.timer.None?)
            && (r.state == Done ==> EventReadyNow(k, p))
            && (r.state == Timeout ==> TimerReadyNow(k, p))
            && (r.state == Timeout && EventReadyNow(k, p) ==> k.events[p.event.value].autoReset)
            && (r.state == Done || r.state == Timeout || r.state == Immediate)
  {
    hide KInv, RunningReady, CtxOk, Scan, VisitDisp;
    var j, kd := ScanTurn(k, c, 0, {});
    var r := Scan(k, c, 0, {});
    VisitExact(kd, c.disps[r.d]);
    hide DispOk;
    CtxDisp(k, c, r.d);
    VisitReady(k, c.disps[r.d]);
  }

  /** h is a handle of one of the first n dispatchers of the list. */
  ghost predicate Among(c: Ctx, n: nat, h: Hid)
    requires n <= |c.order|
  {
    exists j :: 0 <= j < n && c.order[j] in c.disps && h in HandlesOf(c.disps[c.order[j]])
  }

  /** The handles of the first n dispatchers of the list are queued or pending, and mask has exactly their bits. */
  ghost predicate QueuedTo(k: K, c: Ctx, n: nat, mask: Mask)
    requires n <= |c.order|
  {
    && (forall h :: Among(c, n, h) ==> Attached(k, h) && k.handles[h].mask <= mask)
    && (forall b :: b in mask ==> exists h :: Among(c, n, h) && h in k.handles && b in k.handles[h].mask)
  }

  lemma AmongMore(c: Ctx, i: nat, h: Hid)
    requires i < |c.order| && c.order[i] in c.disps
    ensures Among(c, i + 1, h) <==> Among(c, i, h) || h in HandlesOf(c.disps[c.order[i]])
  {
    hide HandlesOf;
  }

  /** What is queued stays queued with its bits. */
  lemma QueuedSame(k: K, k': K, c: Ctx, n: nat, mask: Mask)
    requires n <= |c.order| && QueuedTo(k, c, n, mask)
    requires forall h :: Among(c, n, h) ==> Attached(k, h) && Attached(k', h) && k'.handles[h].mask == k.handles[h].mask
    ensures QueuedTo(k', c, n, mask)
  {
    hide Among;
    forall b | b in mask ensures exists h :: Among(c, n, h) && h in k'.handles && b in k'.handles[h].mask {
      var h :| Among(c, n, h) && h in k.handles && b in k.handles[h].mask;
      assert h in k'.handles && b in k'.handles[h].mask;
    }
  }

  lemma QueuedProgress(k: K, k': K, c: Ctx, n: nat, mask: Mask, hs: set<Hid>)
    requires n <= |c.order| && QueuedTo(k, c, n, mask) && Progress(k, k', hs)
    ensures QueuedTo(k', c, n, mask)
  {
    hide Progress, Among;
    forall h | Among(c, n, h) ensures Attached(k, h) && Attached(k', h) && k'.handles[h].mask == k.handles[h].mask {
      ProgressAttached(k, k', h, hs);
    }
    QueuedSame(k, k', c, n, mask);
  }

  lemma QueuedMore(k: K, c: Ctx, i: nat, mask: Mask, m: Mask)
    requires i < |c.order| && QueuedTo(k, c, i, mask) && c.order[i] in c.disps
    requires forall h :: h in HandlesOf(c.disps[c.order[i]]) ==> Attached(k, h) && k.handles[h].mask <= m
    requires m <= MaskOf(k.handles, HandlesOf(c.disps[c.order[i]]))
    ensures QueuedTo(k, c, i + 1, mask + m)
  {
    hide HandlesOf, Among;
    var hs := HandlesOf(c.disps[c.order[i]]);
    forall h ensures Among(c, i + 1, h) <==> Among(c, i, h) || h in hs {
      AmongMore(c, i, h);
    }
    forall b | b in mask + m ensures exists h :: Among(c, i + 1, h) && h in k.handles && b in k.handles[h].mask {
      if b in mask {
        var h :| Among(c, i, h) && h in k.handles && b in k.handles[h].mask;
        assert Among(c, i + 1, h);
      } else {
        var h :| h in hs && h in k.handles && b in k.handles[h].mask;
        assert Among(c, i + 1, h);
      }
    }
  }

  /** A first loop that serves nobody leaves every handle of every dispatcher of the list queued or pending, and
      its mask has exactly their bits. */
  lemma {:induction false} ScanQueues(k: K, c: Ctx, i: nat, mask: Mask)
    requires KInv(k) && RunningReady(k) && CtxOk(k, c) && i <= |c.order| && QueuedTo(k, c, i, mask)
    ensures var r := Scan(k, c, i, mask);
            r.AllWait? ==> QueuedTo(r.k, c, |c.order|, r.mask)
    decreases |c.order| - i
  {
    hide KInv, RunningReady, CtxOk, Scan, VisitDisp, Progress, QueuedTo;
    if i == |c.order| {
      ScanEnd(k, c, mask);
    } else {
      ScanStep(k, c, i, mask);
      var p := c.disps[c.order[i]];
      VisitDispOk(k, p);
      var v := VisitDisp(k, p);
      if v.Pass? {
        QueuedProgress(k, v.k, c, i, mask, HandlesOf(p));
        QueuedMore(v.k, c, i, mask, v.mask);
        ScanQueues(v.k, c, i + 1, mask + v.mask);
      }
    }
  }

  lemma ScanEnd(k: K, c: Ctx, mask: Mask)
    requires KInv(k) && RunningReady(k) && CtxOk(k, c)
    ensures Scan(k, c, |c.order|, mask) == AllWait(k, mask)
  {
    hide KInv, RunningReady, CtxOk;
  }

  lemma VisitReady(k: K, d: Disp)
    requires RunningReady(k) && DispOk(k, d)
    ensures k.running in k.threads && d.eventHandle in k.handles && d.timerHandle in k.handles
    ensures (d.event.Some? ==> d.event.value in k.events) && (d.timer.Some? ==> d.timer.value in k.events)
  {
  }

  /** The second loop: the first dispatcher with a handle that has become DONE. */
  function Rescan(k: K, c: Ctx, i: nat): (r: Option<(nat, DispState)>)
    requires i <= |c.order|
    ensures r.Some? ==>
              && r.value.0 in c.order[i..] && r.value.0 in c.disps
              && var d := c.disps[r.value.0];
              && (r.value.1 == Done ==> d.event.Some? && DoneHandle(k, d.eventHandle))
              && (r.value.1 == Timeout ==> d.timer.Some? && DoneHandle(k, d.timerHandle)
                                           && !(d.event.Some? && DoneHandle(k, d.eventHandle)))
              && r.value.1 in {Done, Timeout}
    ensures r.None? ==> forall j :: i <= j < |c.order| && c.order[j] in c.disps ==>
              forall h :: h in HandlesOf(c.disps[c.order[j]]) ==> !DoneHandle(k, h)
    decreases |c.order| - i
  {
    if i == |c.order| then None
    else
      var d := c.order[i];
      if d !in c.disps then Rescan(k, c, i + 1)
      else if c.disps[d].event.Some? && DoneHandle(k, c.disps[d].eventHandle) then Some((d, Done))
      else if c.disps[d].timer.Some? && DoneHandle(k, c.disps[d].timerHandle) then Some((d, Timeout))
      else Rescan(k, c, i + 1)
  }

  /** The dispatcher found is the first of the list that has a DONE handle. */
  lemma {:induction false} RescanFirst(k: K, c: Ctx, i: nat) returns (j: nat)
    requires i <= |c.order| && Rescan(k, c, i).Some?
    ensures i <= j < |c.order| && c.order[j] == Rescan(k, c, i).value.0
    ensures forall m, h :: i <= m < j && c.order[m] in c.disps && h in HandlesOf(c.disps[c.order[m]]) ==>
              !DoneHandle(k, h)
    decreases |c.order| - i
  {
    var d := c.order[i];
    if d in c.disps && ((c.disps[d].event.Some? && DoneHandle(k, c.disps[d].eventHandle))
                        || (c.disps[d].timer.Some? && DoneHandle(k, c.disps[d].timerHandle))) {
      j := i;
    } else {
      j := RescanFirst(k, c, i + 1);
    }
  }

  // ---------------------------------------------------------------- exos_dispatch

  /** During the wait the rest of the system may take any steps that do not work on the dispatchers'
      handles by name. */
  ghost predicate Undisturbed(k: K, k': K, c: Ctx) {
    && k.events.Keys <= k'.events.Keys
    && forall d :: d in c.disps ==>
         HandleSame(k, k', c.disps[d].eventHandle) && HandleSame(k, k', c.disps[d].timerHandle)
  }

  ghost predicate HandleSame(k: K, k': K, h: Hid) {
    h in k.handles ==> h in k'.handles && HandleKept(k.handles[h], k'.handles[h])
  }

  lemma StepEvents(k: K, s: Step)
    requires KInv(k) && Enabled(k, s)
    ensures k.events.Keys <= Apply(k, s).events.Keys
  {
    hide KInv, Resume, ResumeAll, Enqueued, Without, Append, Unlink, Toggle, PendingMeets, Core;
    InvCore(k);
    match s
    case ResumeHandle(h) => ResumeCore(k, h); ResumeKept(k, h);
    case Exit => DetachCore(k); ResumeAllCore(Detach(k), JoinL(k.running));
    case SetAuto(e) => ResumeAllCore(k, EventL(e));
    case FlushEvent(e) => ResumeAllCore(k, EventL(e));
    case Unlock(x) => UnlockEvents(k, x);
    case _ =>
  }

  /** The step works on no handle of a dispatcher by name. */
  ghost predicate NamesNone(s: Step, c: Ctx) {
    forall d :: d in c.disps ==> !Names(s, c.disps[d].eventHandle) && !Names(s, c.disps[d].timerHandle)
  }

  lemma StepUndisturbed(k: K, s: Step, c: Ctx)
    requires KInv(k) && Enabled(k, s) && NamesNone(s, c)
    ensures Undisturbed(k, Apply(k, s), c)
  {
    hide KInv, Apply, Enabled, Names, HandleKept;
    StepEvents(k, s);
    forall d | d in c.disps
      ensures HandleSame(k, Apply(k, s), c.disps[d].eventHandle) && HandleSame(k, Apply(k, s), c.disps[d].timerHandle)
    {
      if c.disps[d].eventHandle in k.handles { StepHandle(k, s, c.disps[d].eventHandle); }
      if c.disps[d].timerHandle in k.handles { StepHandle(k, s, c.disps[d].timerHandle); }
    }
  }

  /** Any run that names none of the dispatchers' handles leaves the context consistent. */
  lemma {:induction false} RunUndisturbed(k: K, c: Ctx, ss: seq<Step>)
    requires KInv(k) && CtxOk(k, c) && Legal(k, ss)
    requires forall i, d :: 0 <= i < |ss| && d in c.disps ==>
               !Names(ss[i], c.disps[d].eventHandle) && !Names(ss[i], c.disps[d].timerHandle)
    ensures Undisturbed(k, Run(k, ss), c)
    decreases |ss|
  {
    hide KInv, Apply, Enabled, Names, Run, CtxOk, HandleKept;
    assert Run(k, []) == k by { RunNil(k); }
    if ss == [] {
      KeptSame(k, c);
    } else {
      StepInv(k, ss[0]);
      var k1 := Apply(k, ss[0]);
      StepUndisturbed(k, ss[0], c);
      UndisturbedCtx(k, k1, c);
      RunUndisturbed(k1, c, ss[1..]);
      assert Run(k, ss) == Run(k1, ss[1..]) by { RunCons(k, ss); }
      UndisturbedTrans(k, k1, Run(k, ss), c);
    }
  }

  lemma RunCons(k: K, ss: seq<Step>)
    requires KInv(k) && Legal(k, ss) && ss != []
    ensures KInv(Apply(k, ss[0])) && Run(k, ss) == Run(Apply(k, ss[0]), ss[1..])
  {
    hide KInv, Apply, Enabled;
    StepInv(k, ss[0]);
  }

  lemma KeptSame(k: K, c: Ctx)
    ensures Undisturbed(k, k, c)
  {
  }

  lemma UndisturbedTrans(k: K, k1: K, k2: K, c: Ctx)
    requires Undisturbed(k, k1, c) && Undisturbed(k1, k2, c)
    ensures Undisturbed(k, k2, c)
  {
    forall d | d in c.disps
      ensures HandleSame(k, k2, c.disps[d].eventHandle) && HandleSame(k, k2, c.disps[d].timerHandle)
    {
      assert HandleSame(k, k1, c.disps[d].eventHandle) && HandleSame(k1, k2, c.disps[d].eventHandle);
      assert HandleSame(k, k1, c.disps[d].timerHandle) && HandleSame(k1, k2, c.disps[d].timerHandle);
    }
  }

  lemma UndisturbedCtx(k: K, k': K, c: Ctx)
    requires CtxOk(k, c) && Undisturbed(k, k', c)
    ensures CtxOk(k', c)
  {
    forall d | d in c.disps ensures DispOk(k', c.disps[d]) {
      assert DispOk(k, c.disps[d]);
      assert HandleSame(k, k', c.disps[d].eventHandle) && HandleSame(k, k', c.disps[d].timerHandle);
    }
  }

  /** From k, c to k', c' exactly the dispatcher d has left the list; its handles are detached, no other
      handle has changed, and every thread got back exactly the bits of those handles it owned. */
  ghost predicate UnlinksOnly(k: K, c: Ctx, d: nat, k': K, c': Ctx) {
    && d in c.order && d in c.disps && d in c'.disps
    && (forall e :: e in c'.order <==> e in c.order && e != d) && |c'.order| == |c.order| - 1
    && (forall h :: h in HandlesOf(c.disps[d]) ==> DetachedHandle(k', h))
    && (forall h :: h in k.handles && h !in HandlesOf(c.disps[d]) ==> h in k'.handles && k'.handles[h] == k.handles[h])
    && (forall t :: t in k.threads ==>
          && t in k'.threads
          && k'.threads[t].maskUsed == k.threads[t].maskUsed - OwnedBits(k, HandlesOf(c.disps[d]), t))
  }

  lemma RemoveUnlinksOnly(k: K, c: Ctx, d: nat)
    requires KInv(k) && CtxOk(k, c) && d in c.order && d in c.disps
    ensures UnlinksOnly(k, c, d, RemoveHandles(k, c.disps[d]), Unlinked(c, d))
  {
    hide KInv, RemoveHandles, OwnedBits, Without, CtxOk, DispOk;
    RemoveInv(k, c, d);
    CtxDisp(k, c, d);
    RemoveTouches(k, c.disps[d]);
    forall t | t in k.threads
      ensures t in RemoveHandles(k, c.disps[d]).threads
      ensures RemoveHandles(k, c.disps[d]).threads[t].maskUsed
           == k.threads[t].maskUsed - OwnedBits(k, HandlesOf(c.disps[d]), t)
    {
      RemoveReleases(k, c.disps[d], t);
    }
  }

  /** When nobody touched the dispatchers during the wait, the context is still consistent, and a dispatcher
      is found exactly when some handle is DONE. */
  lemma DispatchUndisturbed(k: K, c: Ctx, ss: seq<Step>)
    requires KInv(k) && RunningReady(k) && CtxOk(k, c)
    requires var r := Scan(k, c, 0, {});
             r.AllWait? && Legal(r.k, ss) && forall i, d :: 0 <= i < |ss| && d in c.disps ==>
               !Names(ss[i], c.disps[d].eventHandle) && !Names(ss[i], c.disps[d].timerHandle)
    ensures var k2 := Run(Scan(k, c, 0, {}).k, ss);
            && KInv(k2) && CtxOk(k2, c)
            && (Rescan(k2, c, 0).Some? <==>
                  exists d, h :: d in c.order && h in HandlesOf(c.disps[d]) && DoneHandle(k2, h))
  {
    hide KInv, RunningReady, Run, Legal, Undisturbed;
    var r := Scan(k, c, 0, {});
    RunUndisturbed(r.k, c, ss);
    var k2 := Run(r.k, ss);
    UndisturbedCtx(r.k, k2, c);
    RescanFinds(k2, c);
  }

  /** The second loop finds a dispatcher exactly when some handle is DONE. */
  lemma RescanFinds(k: K, c: Ctx)
    requires CtxOk(k, c)
    ensures Rescan(k, c, 0).Some? <==> exists d, h :: d in c.order && h in HandlesOf(c.disps[d]) && DoneHandle(k, h)
  {
    var r := Rescan(k, c, 0);
    if r.Some? {
      var d := r.value.0;
      assert d in c.order;
      var h := if r.value.1 == Done then c.disps[d].eventHandle else c.disps[d].timerHandle;
      assert h in HandlesOf(c.disps[d]) && DoneHandle(k, h);
    } else {
      forall d, h | d in c.order && h in HandlesOf(c.disps[d]) ensures !DoneHandle(k, h) {
        var j :| 0 <= j < |c.order| && c.order[j] == d;
      }
    }
  }

  lemma CtxDisp(k: K, c: Ctx, d: nat)
    requires CtxOk(k, c) && d in c.disps
    ensures DispOk(k, c.disps[d])
  {
  }

  // ---------------------------------------------------------------- exos_dispatcher_add

  /** Re-adding first removes; the dispatcher ends up last, with the timer of this call only. */
  function Relinked(c: Ctx, d: nat, timer: Option<nat>): Ctx
    requires d in c.disps
  {
    var c1 := Unlinked(c, d);
    c1.(order := c1.order + [d],
        disps := c1.disps[d := c1.disps[d].(timer := timer, state := AddedWaiting, linked := true)])
  }

  /** exos_dispatcher_add on a dispatcher in any state: linked exactly once, at the tail, and nothing of
      its previous life is still queued. */
  lemma AddInv(k: K, c: Ctx, d: nat, timer: Option<nat>)
    requires KInv(k) && CtxOk(k, c) && d in c.disps && (timer.Some? ==> timer.value in k.events)
    ensures var k' := if c.disps[d].linked then RemoveHandles(k, c.disps[d]) else k;
            var c' := Relinked(c, d, timer);
            && KInv(k') && CtxOk(k', c')
            && DetachedHandle(k', c.disps[d].eventHandle) && DetachedHandle(k', c.disps[d].timerHandle)
            && (forall e :: e in c'.order <==> e in c.order || e == d) && c'.order[|c'.order| - 1] == d
            && (forall e :: e in c.disps && e != d ==> e in c'.disps && c'.disps[e] == c.disps[e])
            && d in c'.disps && c'.disps[d].timer == timer && c'.disps[d].event == c.disps[d].event
            && c'.disps[d].eventHandle == c.disps[d].eventHandle && c'.disps[d].timerHandle == c.disps[d].timerHandle
            && c'.disps[d].state == AddedWaiting && c'.disps[d].linked
  {
    hide KInv, RemoveHandles, Without, Separate;
    var k' := if c.disps[d].linked then RemoveHandles(k, c.disps[d]) else k;
    var c1 := Unlinked(c, d);
    CtxDisp(k, c, d);
    CtxOrder(k, c);
    hide CtxOk;
    WithoutMembers(c.order, d);
    if c.disps[d].linked {
      RemoveInv(k, c, d);
      RemoveTouches(k, c.disps[d]);
    } else {
      NotLinked(k, c, d);
    }
    LinkLast(k', c1, d, timer);
  }

  lemma CtxOrder(k: K, c: Ctx)
    requires CtxOk(k, c)
    ensures NoDup(c.order) && forall d :: d in c.order <==> d in c.disps && c.disps[d].linked
  {
    hide DispOk, Separate;
  }

  lemma NotLinked(k: K, c: Ctx, d: nat)
    requires CtxOk(k, c) && d in c.disps && !c.disps[d].linked
    ensures Unlinked(c, d) == c
  {
    assert d !in c.order;
    assert c.disps[d := c.disps[d].(linked := false)] == c.disps;
  }

  lemma LinkLast(k: K, c: Ctx, d: nat, timer: Option<nat>)
    requires CtxOk(k, c) && d in c.disps && !c.disps[d].linked && (timer.Some? ==> timer.value in k.events)
    ensures CtxOk(k, c.(order := c.order + [d],
                        disps := c.disps[d := c.disps[d].(timer := timer, state := AddedWaiting, linked := true)]))
  {
    var d' := c.disps[d].(timer := timer, state := AddedWaiting, linked := true);
    var disps := c.disps[d := d'];
    SnocMembers(c.order, d);
    forall e | e in disps ensures DispOk(k, disps[e]) {
      assert DispOk(k, c.disps[e]);
    }
    forall e, f | e in disps && f in disps && e != f ensures Separate(disps[e], disps[f]) {
      assert Separate(c.disps[e], c.disps[f]);
    }
  }
}
