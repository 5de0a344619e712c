/** A dispatcher context over the kernel: the sections of exos/kernel/dispatch.c that run under the
    context's lock. Each method is proved to take the step that Dispatch reasons about. */
module DispatchContext {
  import opened SeqSets
  import opened KernelState
  import KernelSteps
  import KernelRuns
  import Dispatch
  import Kernel
  import LockCalls
  import opened Bits32
  import opened WaitMask

  /** How a pass over the dispatchers ends: the kernel panic for want of a mask bit, a dispatcher to
      serve, or none. */
  datatype Outcome = Panicked | Serve(d: nat, state: Dispatch.DispState) | Nobody(mask: bv32)

  class Context {
    const kernel: Kernel.Kernel
    var order: seq<nat>
    var disps: map<nat, Dispatch.Disp>

    ghost function Ctx(): Dispatch.Ctx
      reads this
    {
      Dispatch.Ctx(order, disps)
    }

    ghost predicate Valid()
      reads this, kernel
    {
      KInv(kernel.St()) && Dispatch.CtxOk(kernel.St(), Ctx())
    }

    /** exos_dispatcher_context_create */
    constructor (kernel: Kernel.Kernel)
      requires KInv(kernel.St())
      ensures this.kernel == kernel && Valid() && Ctx() == Dispatch.Ctx([], map[])
    {
      this.kernel := kernel;
      order, disps := [], map[];
    }

    /** exos_thread_dispose_wait_handle */
    method DisposeWaitHandle(h: Hid)
      requires KInv(kernel.St()) && h in kernel.St().handles
      modifies kernel
      ensures kernel.St() == Dispatch.DisposeIf(old(kernel.St()), h) && KInv(kernel.St())
    {
      hide KInv, KernelSteps.Dispose, Kernel.Abs;
      Kernel.AbsHandle(kernel.Now(), h);
      if kernel.handles[h].state != HDetached {
        InvHandle(kernel.St(), h);
        kernel.DisposeHandle(h);
      }
    }

    /** _remove */
    method Remove(d: nat)
      requires Valid() && d in disps
      modifies this, kernel
      ensures Valid()
      ensures old(disps[d]).linked ==>
                && kernel.St() == Dispatch.RemoveHandles(old(kernel.St()), old(disps[d]))
                && Ctx() == Dispatch.Unlinked(old(Ctx()), d)
      ensures !old(disps[d]).linked ==> kernel.St() == old(kernel.St()) && Ctx() == old(Ctx())
    {
      hide KInv, Dispatch.DisposeIf;
      var p := disps[d];
      if p.linked {
        Dispatch.CtxDisp(kernel.St(), Ctx(), d);
        Dispatch.RemoveTimer(kernel.St(), p);
        Dispatch.RemoveInv(kernel.St(), Ctx(), d);
        hide Dispatch.CtxOk;
        if p.timer.Some? {
          DisposeWaitHandle(p.timerHandle);
        }
        if p.event.Some? {
          DisposeWaitHandle(p.eventHandle);
        }
        order := Without(order, d);
        disps := disps[d := p.(linked := false)];
      }
    }

    /** exos_dispatcher_add under the lock: timer is the event of the timer this call creates, if any. */
    method Add(d: nat, timer: Option<nat>)
      requires Valid() && d in disps && (timer.Some? ==> timer.value in kernel.St().events)
      modifies this, kernel
      ensures Valid() && Ctx() == Dispatch.Relinked(old(Ctx()), d, timer)
      ensures d in disps && disps[d].timer == timer && disps[d].event == old(disps[d].event)
      ensures disps[d].eventHandle == old(disps[d].eventHandle) && disps[d].timerHandle == old(disps[d].timerHandle)
      ensures disps[d].state == Dispatch.AddedWaiting && disps[d].linked && order != [] && order[|order| - 1] == d
      ensures forall e :: e in old(disps) && e != d ==> e in disps && disps[e] == old(disps[e])
      ensures LockCalls.DetachedHandle(kernel.St(), disps[d].eventHandle)
      ensures LockCalls.DetachedHandle(kernel.St(), disps[d].timerHandle)
    {
      hide KInv, Kernel.Abs, Dispatch.RemoveHandles, Dispatch.CtxOk, LockCalls.DetachedHandle, Without;
      Dispatch.AddInv(kernel.St(), Ctx(), d, timer);
      if !disps[d].linked {
        Dispatch.NotLinked(kernel.St(), Ctx(), d);
      }
      Remove(d);
      disps := disps[d := disps[d].(timer := timer, state := Dispatch.AddedWaiting, linked := true)];
      order := order + [d];
    }

    /** exos_event_add_handle: the mask of the handle, 0 when it stays detached because the event is set. */
    method QueueHandle(h: Hid, e: nat) returns (panic: bool, mask: bv32)
      requires KInv(kernel.St()) && KernelRuns.RunningReady(kernel.St())
      requires h in kernel.St().handles && e in kernel.St().events
      modifies kernel
      ensures var r := Dispatch.AddIfDetached(old(kernel.St()), h, e);
              panic == r.None? && kernel.St() == (if panic then old(kernel.St()) else r.value)
      ensures KInv(kernel.St()) && KernelRuns.RunningReady(kernel.St()) && h in kernel.St().handles
      ensures Bits(mask) == kernel.St().handles[h].mask
    {
      hide KInv, Kernel.Abs, KernelRuns.EventAdd, KernelSteps.LowestFree, Bits;
      ghost var k := kernel.St();
      Dispatch.AddIfDetachedExact(k, h, e);
      Kernel.AbsIs(kernel.Now());
      Kernel.AbsHandle(kernel.Now(), h);
      Kernel.AbsEvent(kernel.Now(), e);
      panic := false;
      if kernel.handles[h].state == HDetached {
        panic := kernel.EventAddHandle(h, e);
      }
      Kernel.AbsHandle(kernel.Now(), h);
      mask := kernel.handles[h].mask;
    }

    /** The event half of a turn of the first loop. */
    method VisitEvent(d: nat) returns (r: Outcome)
      requires Valid() && KernelRuns.RunningReady(kernel.St()) && d in disps && disps[d].linked && disps[d].event.Some?
      modifies kernel
      ensures KInv(kernel.St()) && KernelRuns.RunningReady(kernel.St())
      ensures var p, k := disps[d], old(kernel.St());
              && p.eventHandle in k.handles && p.event.value in k.events
              && var q := Dispatch.AddIfDetached(k, p.eventHandle, p.event.value);
              && (r.Panicked? <==> q.None?)
              && (q.Some? ==> kernel.St() == q.value && p.eventHandle in q.value.handles)
              && (r.Serve? ==> r == Serve(d, Dispatch.Done) && q.value.handles[p.eventHandle].mask == {})
              && (r.Nobody? ==> Bits(r.mask) == q.value.handles[p.eventHandle].mask != {})
    {
      hide KInv, KernelRuns.RunningReady, Dispatch.AddIfDetached, Dispatch.CtxOk, Bits, Kernel.Abs;
      ghost var k := kernel.St();
      var p := disps[d];
      Dispatch.CtxDisp(k, Ctx(), d);
      Dispatch.VisitReady(k, p);
      var panic, mask := QueueHandle(p.eventHandle, p.event.value);
      ZeroIsEmpty(mask);
      if panic {
        return Panicked;
      }
      if mask == 0 {
        return Serve(d, Dispatch.Done);
      }
      return Nobody(mask);
    }

    /** The timer half; evMask is what the event contributed. */
    method VisitTimer(d: nat, evMask: bv32) returns (r: Outcome)
      requires KInv(kernel.St()) && KernelRuns.RunningReady(kernel.St()) && d in disps
      requires Dispatch.DispOk(kernel.St(), disps[d])
      requires Bits(evMask) == if disps[d].event.Some? then kernel.St().handles[disps[d].eventHandle].mask else {}
      modifies kernel
      ensures KInv(kernel.St()) && KernelRuns.RunningReady(kernel.St())
      ensures old(kernel.running in kernel.St().threads)
      ensures VisitReturns(Dispatch.VisitTimer(old(kernel.St()), disps[d]), d, kernel.St(), r)
    {
      hide KInv, KernelRuns.RunningReady, Dispatch.AddIfDetached, Bits, Or, Kernel.Abs;
      ghost var k := kernel.St();
      var p := disps[d];
      Kernel.AbsIs(kernel.Now());
      Dispatch.VisitReady(k, p);
      ZeroIsEmpty(evMask);
      if p.timer.None? {
        if evMask == 0 {
          return Serve(d, Dispatch.Immediate);
        }
        return Nobody(evMask);
      }
      var panic, mask := QueueHandle(p.timerHandle, p.timer.value);
      ZeroIsEmpty(mask);
      if panic {
        return Panicked;
      }
      if mask == 0 {
        return Serve(d, Dispatch.Timeout);
      }
      OrIsUnion(evMask, mask);
      return Nobody(Or(evMask, mask));
    }

    /** One turn of the first loop of exos_dispatch. */
    method Visit(d: nat) returns (r: Outcome)
      requires Valid() && KernelRuns.RunningReady(kernel.St()) && d in disps && disps[d].linked
      modifies kernel
      ensures KInv(kernel.St()) && KernelRuns.RunningReady(kernel.St())
      ensures old(kernel.running in kernel.St().threads && Dispatch.DispOk(kernel.St(), disps[d]))
      ensures VisitReturns(Dispatch.VisitDisp(old(kernel.St()), disps[d]), d, kernel.St(), r)
    {
      hide KInv, KernelRuns.RunningReady, Dispatch.AddIfDetached, Dispatch.CtxOk, Dispatch.VisitTimer, Kernel.Abs, Bits;
      ghost var k := kernel.St();
      var p := disps[d];
      Kernel.AbsIs(kernel.Now());
      Dispatch.CtxDisp(k, Ctx(), d);
      Dispatch.VisitReady(k, p);
      ZeroIsEmpty(0);
      var mask := 0;
      if p.event.Some? {
        Dispatch.AddProgress(k, p.eventHandle, p.event.value, Dispatch.HandlesOf(p));
        r := VisitEvent(d);
        if !r.Nobody? {
          return;
        }
        Dispatch.ProgressDisp(k, kernel.St(), p);
        mask := r.mask;
      }
      r := VisitTimer(d, mask);
    }

    /** The first loop of exos_dispatch: queue handles until a dispatcher can be served at once. */
    method FirstPass() returns (r: Outcome)
      requires Valid() && KernelRuns.RunningReady(kernel.St())
      modifies kernel
      ensures KInv(kernel.St()) && KernelRuns.RunningReady(kernel.St())
      ensures ScanReturns(Dispatch.Scan(old(kernel.St()), Ctx(), 0, {}), kernel.St(), r)
    {
      hide KInv, KernelRuns.RunningReady, Dispatch.VisitDisp, Dispatch.Scan, Dispatch.DispOk, Dispatch.Separate, NoDup;
      hide Kernel.Abs, Bits, Or, Dispatch.CtxOk;
      ZeroIsEmpty(0);
      var mask := 0;
      ghost var scan := Dispatch.Scan(kernel.St(), Ctx(), 0, {});
      var i := 0;
      while i < |order|
        invariant 0 <= i <= |order| && Valid() && KernelRuns.RunningReady(kernel.St())
        invariant Dispatch.Scan(kernel.St(), Ctx(), i, Bits(mask)) == scan
      {
        var d := order[i];
        Dispatch.ScanStep(kernel.St(), Ctx(), i, Bits(mask));
        r := Visit(d);
        if !r.Nobody? {
          return;
        }
        OrIsUnion(mask, r.mask);
        mask := Or(mask, r.mask);
        i := i + 1;
      }
      Dispatch.ScanEnd(kernel.St(), Ctx(), Bits(mask));
      r := Nobody(mask);
    }

    /** The dispatchers of the list, and their handles, exist. */
    lemma Orderly()
      requires Valid()
      ensures forall d :: d in order ==> d in disps && disps[d].eventHandle in kernel.St().handles
      ensures forall d :: d in order ==> disps[d].timerHandle in kernel.St().handles
    {
      hide KInv, NoDup, Kernel.Abs;
    }

    /** The second loop: the first dispatcher with a DONE handle, its event before its timer. */
    method SecondPass() returns (r: Outcome)
      requires Valid()
      ensures !r.Panicked?
      ensures var found := Dispatch.Rescan(kernel.St(), Ctx(), 0);
              r == if found.None? then Nobody(0) else Serve(found.value.0, found.value.1)
    {
      hide KInv, Dispatch.DispOk, Dispatch.Separate, NoDup, Kernel.Abs, Bits;
      Orderly();
      hide Dispatch.CtxOk;
      var i := 0;
      while i < |order|
        invariant 0 <= i <= |order|
        invariant Dispatch.Rescan(kernel.St(), Ctx(), i) == Dispatch.Rescan(kernel.St(), Ctx(), 0)
      {
        var d := order[i];
        assert d in order;
        var p := disps[d];
        Kernel.AbsHandle(kernel.Now(), p.eventHandle);
        Kernel.AbsHandle(kernel.Now(), p.timerHandle);
        if p.event.Some? && p.eventHandle in kernel.handles && kernel.handles[p.eventHandle].state == HDone {
          return Serve(d, Dispatch.Done);
        }
        if p.timer.Some? && p.timerHandle in kernel.handles && kernel.handles[p.timerHandle].state == HDone {
          return Serve(d, Dispatch.Timeout);
        }
        i := i + 1;
      }
      r := Nobody(0);
    }

    /** Recording the reason and unlinking the selected dispatcher. */
    method Select(d: nat, state: Dispatch.DispState)
      requires Valid() && d in order
      modifies this, kernel
      ensures Valid() && old(d in disps)
      ensures kernel.St() == Dispatch.RemoveHandles(old(kernel.St()), old(disps[d]))
      ensures Ctx() == Dispatch.Unlinked(Stated(old(Ctx()), d, state), d)
      ensures Dispatch.UnlinksOnly(old(kernel.St()), old(Ctx()), d, kernel.St(), Ctx())
    {
      hide KInv, Dispatch.DisposeIf, Dispatch.Separate, Dispatch.DispOk, NoDup, Dispatch.UnlinksOnly;
      assert d in disps && disps[d].linked;
      StatedOk(kernel.St(), Ctx(), d, state);
      SelectedOnly(kernel.St(), Ctx(), d, state);
      disps := disps[d := disps[d].(state := state)];
      Remove(d);
    }

    /** exos_dispatch up to its wait: when a dispatcher can be served at once, exactly that one is
        unlinked. */
    method DispatchBegin() returns (r: Outcome)
      requires Valid() && KernelRuns.RunningReady(kernel.St())
      modifies this, kernel
      ensures !r.Panicked? ==> Valid()
      ensures var scan := Dispatch.Scan(old(kernel.St()), old(Ctx()), 0, {});
              && (scan.Crash? <==> r.Panicked?)
              && (scan.AllWait? <==> r.Nobody?)
              && (r.Nobody? ==> kernel.St() == scan.k && Ctx() == old(Ctx()) && Bits(r.mask) == scan.mask
                                && Dispatch.QueuedTo(kernel.St(), Ctx(), |order|, Bits(r.mask)))
              && (r.Serve? ==>
                    && scan == Dispatch.Selected(scan.k, r.d, r.state)
                    && Dispatch.UnlinksOnly(scan.k, old(Ctx()), r.d, kernel.St(), Ctx()) && disps[r.d].state == r.state)
    {
      hide KInv, Dispatch.CtxOk, KernelRuns.RunningReady, Dispatch.Scan, Dispatch.UnlinksOnly, Dispatch.RemoveHandles;
      NoneQueued(kernel.St(), Ctx());
      Dispatch.ScanQueues(kernel.St(), Ctx(), 0, {});
      hide Dispatch.QueuedTo;
      r := FirstPass();
      if r.Serve? {
        Select(r.d, r.state);
      }
    }

    /** exos_dispatch after its wait. */
    method DispatchEnd() returns (r: Outcome)
      requires Valid()
      modifies this, kernel
      ensures Valid() && !r.Panicked?
      ensures var found := Dispatch.Rescan(old(kernel.St()), old(Ctx()), 0);
              && (r.Nobody? <==> found.None?)
              && (r.Nobody? ==> kernel.St() == old(kernel.St()) && Ctx() == old(Ctx()))
              && (r.Serve? ==>
                    && found == Some((r.d, r.state))
                    && Dispatch.UnlinksOnly(old(kernel.St()), old(Ctx()), r.d, kernel.St(), Ctx())
                    && disps[r.d].state == r.state)
    {
      hide KInv, Dispatch.CtxOk, Dispatch.UnlinksOnly, Dispatch.RemoveHandles;
      assert order[0..] == order;
      r := SecondPass();
      if r.Serve? {
        Select(r.d, r.state);
      }
    }
  }

  lemma NoneQueued(k: K, c: Dispatch.Ctx)
    ensures Dispatch.QueuedTo(k, c, 0, {})
  {
  }

  function Stated(c: Dispatch.Ctx, d: nat, state: Dispatch.DispState): Dispatch.Ctx
    requires d in c.disps
  {
    c.(disps := c.disps[d := c.disps[d].(state := state)])
  }

  lemma StatedOk(k: K, c: Dispatch.Ctx, d: nat, state: Dispatch.DispState)
    requires Dispatch.CtxOk(k, c) && d in c.disps
    ensures Dispatch.CtxOk(k, Stated(c, d, state))
  {
    var disps := Stated(c, d, state).disps;
    forall e | e in disps ensures Dispatch.DispOk(k, disps[e]) {
      assert Dispatch.DispOk(k, c.disps[e]);
    }
    forall e, f | e in disps && f in disps && e != f ensures Dispatch.Separate(disps[e], disps[f]) {
      assert Dispatch.Separate(c.disps[e], c.disps[f]);
    }
  }

  lemma SelectedOnly(k: K, c: Dispatch.Ctx, d: nat, state: Dispatch.DispState)
    requires KInv(k) && Dispatch.CtxOk(k, c) && d in c.order && d in c.disps
    ensures Dispatch.UnlinksOnly(k, c, d, Dispatch.RemoveHandles(k, c.disps[d]),
                                 Dispatch.Unlinked(Stated(c, d, state), d))
  {
    hide KInv, Dispatch.RemoveHandles, Dispatch.CtxOk;
    Dispatch.RemoveUnlinksOnly(k, c, d);
  }

  ghost predicate ScanReturns(v: Dispatch.Scanned, k: K, r: Outcome) {
    match v
    case Crash => r == Panicked
    case Selected(k', d, state) => k == k' && r == Serve(d, state)
    case AllWait(k', mask) => k == k' && r.Nobody? && Bits(r.mask) == mask
  }

  ghost predicate VisitReturns(v: Dispatch.Visit, d: nat, k: K, r: Outcome) {
    match v
    case Panic => r == Panicked
    case Select(k', state) => k == k' && r == Serve(d, state)
    case Pass(k', mask) => k == k' && r.Nobody? && Bits(r.mask) == mask
  }

  lemma InvHandle(k: K, h: Hid)
    requires KInv(k) && h in k.handles && k.handles[h].state != HDetached
    ensures KernelSteps.Attached(k, h) && KernelSteps.Resumable(k, h)
  {
    KernelRuns.DisposeInv(k, h);
  }
}
