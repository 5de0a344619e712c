/** exos_dispatch and _remove as the programs they are: each call into the kernel is a step of its own, each
    handle is looked at in a step of its own, and between any two of them the rest of the system runs. The
    context's lock keeps everybody else from the handles of its dispatchers, and from nothing more. */
module DispatchCalls {
  import opened SeqSets
  import opened KernelState
  import opened KernelSteps
  import opened KernelRuns
  import opened WaitCalls
  import opened LockCalls
  import opened JoinCalls
  import opened Dispatch

  /** Where a thread stands. QueueEvent(i), QueueTimer(i, m): in the first loop, at the dispatcher in place i,
      whose event has contributed m. Waits: the lock is released. LookEvent(i), LookTimer(i): in the second
      loop. DropTimer, DropEvent: in _remove of d, selected in kernel state was, for a reason or on request. */
  datatype Pc =
    | QueueEvent(i: nat)
    | QueueTimer(i: nat, m: Mask)
    | Waits
    | LookEvent(i: nat)
    | LookTimer(i: nat)
    | DropTimer(d: nat, reason: Option<DispState>, was: K)
    | DropEvent(d: nat, reason: Option<DispState>, was: K)
    | Removed(d: nat, reason: Option<DispState>, was: K)
    | NotServed
    | Panicked

  /** t: the thread; base: the context when it took the lock; again: whether it has waited; done: the handles
      that were DONE when it took the lock again; asked: it is not in exos_dispatch, but removes on request. */
  datatype D = D(k: K, t: Tid, c: Ctx, base: Ctx, mask: Mask, pc: Pc, again: bool, done: set<Hid>, asked: bool)

  // ---------------------------------------------------------------- DONE stays DONE

  lemma DoneOffLists(k: K, h: Hid, l: ListId)
    requires KInv(k) && DoneHandle(k, h) && !l.PendingL?
    ensures h !in L(k.lists, l)
  {
    hide MasksOk, QueuesOk, NoLostWake, ObjectsOk;
    assert HandleOk(k.handles[h], k.threads);
  }

  lemma DoneExit(k: K, h: Hid)
    requires KInv(k) && CanExit(k) && DoneHandle(k, h)
    ensures DoneHandle(RemThread(k), h)
  {
    hide KInv, ResumeEach, Without;
    DoneOffLists(k, h, JoinL(k.running));
    ResumeEachOther(Detach(k), L(k.lists, JoinL(k.running)), h);
  }

  lemma DoneUnlock(k: K, x: nat, h: Hid)
    requires KInv(k) && Enabled(k, Unlock(x)) && DoneHandle(k, h)
    ensures DoneHandle(MutexUnlock(k, x), h)
  {
    hide KInv, ResumeEach;
    DoneOffLists(k, h, MutexL(x));
    var m := k.mutexes[x].(count := k.mutexes[x].count - 1);
    ResumeEachOther(k.(mutexes := k.mutexes[x := m.(owner := None)]), L(k.lists, MutexL(x)), h);
  }

  lemma DoneWaking(k: K, s: Step, h: Hid)
    requires KInv(k) && Enabled(k, s) && (s.SetAuto? || s.FlushEvent?) && DoneHandle(k, h)
    ensures DoneHandle(Apply(k, s), h)
  {
    hide KInv, ResumeEach, Apply;
    DoneOffLists(k, h, EventL(s.e));
    ResumeEachOther(k, L(k.lists, EventL(s.e)), h);
    ApplyWaking(k, s);
  }

  lemma QuietDone(k: K, s: Step, h: Hid)
    requires KInv(k) && Enabled(k, s) && DoneHandle(k, h) && !Names(s, h) && !Resuming(s)
    ensures DoneHandle(Apply(k, s), h)
  {
    hide KInv, Enqueued, Without, Append, Unlink, Toggle, PendingMeets;
  }

  /** A handle that is DONE stays DONE until somebody works on it by name. */
  lemma StepDone(k: K, s: Step, h: Hid)
    requires KInv(k) && Enabled(k, s) && DoneHandle(k, h) && !Names(s, h)
    ensures DoneHandle(Apply(k, s), h)
  {
    hide KInv, Enabled, Apply, Resume, RemThread, MutexUnlock, DoneHandle, CanExit;
    if Resuming(s) {
      ApplyResuming(k, s);
      match s
      case ResumeHandle(g) =>
        if g == h { ResumeDone(k, h); } else { DoneOther(k, g, h); }
      case Exit => DoneExit(k, h);
      case SetAuto(_) => DoneWaking(k, s, h);
      case FlushEvent(_) => DoneWaking(k, s, h);
      case Unlock(x) => DoneUnlock(k, x, h);
    } else {
      QuietDone(k, s, h);
    }
  }

  // ---------------------------------------------------------------- the invariant

  /** Why d may be served. Before the wait: its event or its timer has come, and the handle has not been queued;
      or there is nothing to wait for. After the wait: the handle is DONE. */
  ghost predicate Reason(k: K, p: Disp, state: DispState, again: bool) {
    match state
    case Done => p.event.Some? && (if again then DoneHandle(k, p.eventHandle) else DetachedHandle(k, p.eventHandle))
    case Timeout => p.timer.Some? && (if again then DoneHandle(k, p.timerHandle) else DetachedHandle(k, p.timerHandle))
    case Immediate => !again && HandlesOf(p) == {}
    case AddedWaiting => false
  }

  /** From k to k' the handles of all dispatchers but d have kept owner and bit, and whether they are in use. */
  ghost predicate OthersKept(k: K, k': K, c: Ctx, d: nat) {
    forall e :: e in c.disps && e != d ==>
      HandleSame(k, k', c.disps[e].eventHandle) && HandleSame(k, k', c.disps[e].timerHandle)
  }

  /** d is being removed: it was selected in kernel state was, rightly, and the others are as they were then. */
  ghost predicate Removing(s: D, d: nat, reason: Option<DispState>, was: K) {
    && d in s.base.order && d in s.base.disps && CtxOk(was, s.base) && OthersKept(was, s.k, s.base, d)
    && reason.None? == s.asked
    && (reason.Some? ==> Reason(was, s.base.disps[d], reason.value, s.again))
  }

  ghost predicate Ours(c: Ctx, h: Hid) {
    exists d :: d in c.disps && h in HandlesOf(c.disps[d])
  }

  /** What was DONE when the lock was taken again still is. */
  ghost predicate DoneOk(k: K, c: Ctx, done: set<Hid>) {
    forall h :: h in done ==> Ours(c, h) && DoneHandle(k, h)
  }

  /** The first n dispatchers of the list have no handle that was DONE then. */
  ghost predicate Missed(c: Ctx, n: nat, done: set<Hid>)
    requires n <= |c.order|
  {
    forall j :: 0 <= j < n && c.order[j] in c.disps ==> HandlesOf(c.disps[c.order[j]]) !! done
  }

  ghost predicate PcOk(s: D) {
    match s.pc
    case QueueEvent(i) => s.c == s.base && !s.again && !s.asked && i <= |s.c.order| && QueuedTo(s.k, s.c, i, s.mask)
    case QueueTimer(i, m) =>
      && s.c == s.base && !s.again && !s.asked && i < |s.c.order| && QueuedTo(s.k, s.c, i, s.mask)
      && s.c.order[i] in s.c.disps && EventPart(s.k, s.c.disps[s.c.order[i]], m)
    case Waits => s.c == s.base && !s.again && !s.asked && QueuedTo(s.k, s.c, |s.c.order|, s.mask)
    case LookEvent(i) =>
      && s.c == s.base && s.again && !s.asked && i <= |s.c.order|
      && DoneOk(s.k, s.c, s.done) && Missed(s.c, i, s.done)
    case LookTimer(i) =>
      && s.c == s.base && s.again && !s.asked && i < |s.c.order|
      && DoneOk(s.k, s.c, s.done) && Missed(s.c, i, s.done)
      && s.c.order[i] in s.c.disps
      && (s.c.disps[s.c.order[i]].event.Some? ==> s.c.disps[s.c.order[i]].eventHandle !in s.done)
    case DropTimer(d, reason, was) => s.c == s.base && Removing(s, d, reason, was)
    case DropEvent(d, reason, was) =>
      && s.c == s.base && Removing(s, d, reason, was)
      && DetachedHandle(s.k, s.c.disps[d].timerHandle)
    case Removed(d, reason, was) =>
      && Removing(s, d, reason, was) && s.c == Unlinked(s.base, d)
      && DetachedHandle(s.k, s.base.disps[d].eventHandle) && DetachedHandle(s.k, s.base.disps[d].timerHandle)
    case NotServed => s.c == s.base && s.again && Missed(s.c, |s.c.order|, s.done)
    case Panicked => s.c == s.base
  }

  /** The event handle of p is in use with the bits m, or p has no event. */
  ghost predicate EventPart(k: K, p: Disp, m: Mask) {
    if p.event.Some? then Attached(k, p.eventHandle) && k.handles[p.eventHandle].mask == m else m == {}
  }

  ghost predicate DInv(s: D) {
    KInv(s.k) && IsReady(s.k, s.t) && CtxOk(s.k, s.c) && PcOk(s)
  }

  // ---------------------------------------------------------------- steps

  /** Own: the thread's next step. Rest: a step of the rest of the system. Relock: the thread comes back from its
      wait and takes the lock; others may have added and removed dispatchers meanwhile. */
  datatype DStep = Own | Rest(s: Step) | Relock(k: K, c: Ctx)

  ghost predicate Final(pc: Pc) {
    pc.Waits? || pc.Removed? || pc.NotServed? || pc.Panicked?
  }

  ghost predicate DEnabled(s: D, l: DStep) {
    match l
    case Own => s.k.running == s.t && !Final(s.pc)
    case Rest(st) => Enabled(s.k, st) && (ByThread(st) ==> s.k.running != s.t) && NamesNone(st, s.base)
    case Relock(k, c) => s.pc.Waits? && KInv(k) && IsReady(k, s.t) && CtxOk(k, c)
  }

  /** The handles of c that are DONE. */
  ghost function DoneNow(k: K, c: Ctx): set<Hid> {
    set h | h in k.handles && Ours(c, h) && DoneHandle(k, h)
  }

  /** exos_dispatch when it has taken the lock. */
  function DispatchStart(k: K, t: Tid, c: Ctx): D {
    D(k, t, c, c, {}, QueueEvent(0), false, {}, false)
  }

  /** exos_dispatch when it has taken the lock again. */
  ghost function DispatchAgain(k: K, t: Tid, c: Ctx): D {
    D(k, t, c, c, {}, LookEvent(0), true, DoneNow(k, c), false)
  }

  /** _remove of a linked dispatcher, from exos_dispatcher_add or exos_dispatcher_remove. */
  function RemoveStart(k: K, t: Tid, c: Ctx, d: nat): D {
    D(k, t, c, c, {}, DropTimer(d, None, k), false, {}, true)
  }

  lemma ListedOk(k: K, c: Ctx, i: nat)
    requires CtxOk(k, c) && i < |c.order|
    ensures var d := c.order[i]; d in c.order && d in c.disps && c.disps[d].linked && DispOk(k, c.disps[d])
  {
    hide NoDup, Separate;
    assert c.order[i] in c.order;
  }

  lemma DropOk(s: D)
    requires DInv(s) && (s.pc.DropTimer? || s.pc.DropEvent?)
    ensures s.c == s.base && s.pc.d in s.c.order && s.pc.d in s.c.disps && DispOk(s.k, s.c.disps[s.pc.d])
  {
    hide KInv, NoDup, Separate, QueuedTo, Missed, DoneOk, OthersKept;
  }

  ghost function QueueEventStep(s: D): D
    requires DInv(s) && s.k.running == s.t && s.pc.QueueEvent? && s.pc.i < |s.c.order|
  {
    hide KInv, NoDup, Separate, QueuedTo, AddIfDetached;
    ListedOk(s.k, s.c, s.pc.i);
    var d := s.c.order[s.pc.i];
    var p := s.c.disps[d];
    if p.event.None? then s.(pc := QueueTimer(s.pc.i, {}))
    else
      match AddIfDetached(s.k, p.eventHandle, p.event.value)
      case None => s.(pc := Panicked)
      case Some(k') =>
        AddIfDetachedExact(s.k, p.eventHandle, p.event.value);
        if k'.handles[p.eventHandle].mask == {} then s.(k := k', pc := DropTimer(d, Some(Done), k'))
        else s.(k := k', pc := QueueTimer(s.pc.i, k'.handles[p.eventHandle].mask))
  }

  ghost function QueueTimerStep(s: D): D
    requires DInv(s) && s.k.running == s.t && s.pc.QueueTimer?
  {
    hide KInv, NoDup, Separate, QueuedTo, AddIfDetached;
    ListedOk(s.k, s.c, s.pc.i);
    var d := s.c.order[s.pc.i];
    var p := s.c.disps[d];
    if p.timer.None? then
      if s.pc.m == {} then s.(pc := DropTimer(d, Some(Immediate), s.k))
      else s.(mask := s.mask + s.pc.m, pc := QueueEvent(s.pc.i + 1))
    else
      match AddIfDetached(s.k, p.timerHandle, p.timer.value)
      case None => s.(pc := Panicked)
      case Some(k') =>
        AddIfDetachedExact(s.k, p.timerHandle, p.timer.value);
        if k'.handles[p.timerHandle].mask == {} then s.(k := k', pc := DropTimer(d, Some(Timeout), k'))
        else s.(k := k', mask := s.mask + (s.pc.m + k'.handles[p.timerHandle].mask), pc := QueueEvent(s.pc.i + 1))
  }

  ghost function LookStep(s: D): D
    requires DInv(s) && ((s.pc.LookEvent? && s.pc.i < |s.c.order|) || s.pc.LookTimer?)
  {
    hide KInv, NoDup, Separate, QueuedTo, Missed, DoneOk;
    ListedOk(s.k, s.c, s.pc.i);
    var d := s.c.order[s.pc.i];
    var p := s.c.disps[d];
    if s.pc.LookEvent? then
      if p.event.Some? && DoneHandle(s.k, p.eventHandle) then s.(pc := DropTimer(d, Some(Done), s.k))
      else s.(pc := LookTimer(s.pc.i))
    else if p.timer.Some? && DoneHandle(s.k, p.timerHandle) then s.(pc := DropTimer(d, Some(Timeout), s.k))
    else s.(pc := LookEvent(s.pc.i + 1))
  }

  ghost function DropStep(s: D): D
    requires DInv(s) && (s.pc.DropTimer? || s.pc.DropEvent?)
  {
    hide KInv, DInv, DisposeIf;
    DropOk(s);
    var d := s.pc.d;
    var p := s.c.disps[d];
    if s.pc.DropTimer? then
      s.(k := if p.timer.Some? then DisposeIf(s.k, p.timerHandle) else s.k, pc := DropEvent(d, s.pc.reason, s.pc.was))
    else
      s.(k := if p.event.Some? then DisposeIf(s.k, p.eventHandle) else s.k,
         c := Unlinked(s.c, d), pc := Removed(d, s.pc.reason, s.pc.was))
  }

  ghost function DApply(s: D, l: DStep): D
    requires DInv(s) && DEnabled(s, l)
  {
    hide KInv, DInv, Apply, QueueEventStep, QueueTimerStep, LookStep, DropStep;
    InvIs(s);
    match l
    case Rest(st) => s.(k := Apply(s.k, st))
    case Relock(k, c) => DispatchAgain(k, s.t, c)
    case Own =>
      match s.pc
      case QueueEvent(i) => if i == |s.c.order| then s.(pc := Waits) else QueueEventStep(s)
      case QueueTimer(_, _) => QueueTimerStep(s)
      case LookEvent(i) => if i == |s.c.order| then s.(pc := NotServed) else LookStep(s)
      case LookTimer(_) => LookStep(s)
      case DropTimer(_, _, _) => DropStep(s)
      case DropEvent(_, _, _) => DropStep(s)
  }

  lemma InvIs(s: D)
    requires DInv(s)
    ensures KInv(s.k) && IsReady(s.k, s.t) && CtxOk(s.k, s.c) && PcOk(s)
    ensures s.pc.QueueEvent? || s.pc.LookEvent? ==> s.pc.i <= |s.c.order|
  {
    hide KInv, CtxOk, IsReady;
  }

  // ---------------------------------------------------------------- steps of the rest of the system

  lemma SameKept(k: K, k1: K, k2: K, h: Hid)
    requires HandleSame(k, k1, h) && HandleSame(k1, k2, h)
    ensures HandleSame(k, k2, h)
  {
  }

  lemma QueuedKept(k: K, k': K, c: Ctx, n: nat, mask: Mask)
    requires n <= |c.order| && QueuedTo(k, c, n, mask) && Undisturbed(k, k', c)
    ensures QueuedTo(k', c, n, mask)
  {
    forall h | Among(c, n, h) ensures Attached(k, h) && Attached(k', h) && k'.handles[h].mask == k.handles[h].mask {
      assert Attached(k, h) && HandleSame(k, k', h);
    }
    QueuedSame(k, k', c, n, mask);
  }

  lemma OthersStayKept(k: K, k1: K, k2: K, c: Ctx, d: nat)
    requires OthersKept(k, k1, c, d) && Undisturbed(k1, k2, c)
    ensures OthersKept(k, k2, c, d)
  {
    hide HandleSame;
    forall e | e in c.disps && e != d
      ensures HandleSame(k, k2, c.disps[e].eventHandle) && HandleSame(k, k2, c.disps[e].timerHandle)
    {
      SameKept(k, k1, k2, c.disps[e].eventHandle);
      SameKept(k, k1, k2, c.disps[e].timerHandle);
    }
  }

  lemma DoneKept(k: K, s: Step, c: Ctx, done: set<Hid>)
    requires KInv(k) && Enabled(k, s) && NamesNone(s, c) && DoneOk(k, c, done)
    ensures DoneOk(Apply(k, s), c, done)
  {
    hide KInv, Enabled, Apply, Names, DoneHandle;
    forall h | h in done ensures DoneHandle(Apply(k, s), h) {
      var d :| d in c.disps && h in HandlesOf(c.disps[d]);
      StepDone(k, s, h);
    }
  }

  lemma UndisturbedUnlinked(k: K, k': K, c: Ctx, d: nat)
    requires Undisturbed(k, k', c) && d in c.disps
    ensures Undisturbed(k, k', Unlinked(c, d))
  {
    hide Without, HandleSame;
  }

  lemma DetachedStays(k: K, k': K, c: Ctx, d: nat, h: Hid)
    requires Undisturbed(k, k', c) && d in c.disps && DetachedHandle(k, h)
    requires h == c.disps[d].eventHandle || h == c.disps[d].timerHandle
    ensures DetachedHandle(k', h)
  {
    assert HandleSame(k, k', h);
  }

  lemma EventPartKept(k: K, k': K, c: Ctx, d: nat, m: Mask)
    requires Undisturbed(k, k', c) && d in c.disps && EventPart(k, c.disps[d], m)
    ensures EventPart(k', c.disps[d], m)
  {
    assert HandleSame(k, k', c.disps[d].eventHandle);
  }

  lemma RemovingKept(s: D, k': K, d: nat, reason: Option<DispState>, was: K)
    requires Removing(s, d, reason, was) && Undisturbed(s.k, k', s.base)
    ensures Removing(s.(k := k'), d, reason, was)
  {
    hide CtxOk, Reason, OthersKept, Undisturbed;
    OthersStayKept(was, s.k, k', s.base, d);
  }

  lemma RestPcOk(s: D, st: Step)
    requires DInv(s) && DEnabled(s, Rest(st)) && Undisturbed(s.k, Apply(s.k, st), s.base)
    ensures PcOk(s.(k := Apply(s.k, st)))
  {
    hide KInv, Enabled, Apply, CtxOk, QueuedTo, Undisturbed, Missed, DoneOk, Removing, EventPart, NamesNone, Without;
    var k' := Apply(s.k, st);
    match s.pc
    case QueueEvent(i) => QueuedKept(s.k, k', s.c, i, s.mask);
    case QueueTimer(i, m) =>
      QueuedKept(s.k, k', s.c, i, s.mask);
      EventPartKept(s.k, k', s.c, s.c.order[i], m);
    case Waits => QueuedKept(s.k, k', s.c, |s.c.order|, s.mask);
    case LookEvent(_) => DoneKept(s.k, st, s.c, s.done);
    case LookTimer(_) => DoneKept(s.k, st, s.c, s.done);
    case DropTimer(d, reason, was) => RemovingKept(s, k', d, reason, was);
    case DropEvent(d, reason, was) => RemovedKept(s, k');
    case Removed(d, reason, was) => RemovedKept(s, k');
    case NotServed =>
    case Panicked =>
  }

  lemma RemovedKept(s: D, k': K)
    requires PcOk(s) && (s.pc.DropEvent? || s.pc.Removed?) && Undisturbed(s.k, k', s.base)
    ensures PcOk(s.(k := k'))
  {
    hide CtxOk, Reason, OthersKept, Undisturbed, DetachedHandle, Without;
    RemovingKept(s, k', s.pc.d, s.pc.reason, s.pc.was);
    DetachedStays(s.k, k', s.base, s.pc.d, s.base.disps[s.pc.d].timerHandle);
    if s.pc.Removed? {
      DetachedStays(s.k, k', s.base, s.pc.d, s.base.disps[s.pc.d].eventHandle);
    }
  }

  lemma RestCtx(s: D, k': K)
    requires DInv(s) && Undisturbed(s.k, k', s.base)
    ensures CtxOk(k', s.c)
  {
    hide KInv, CtxOk, QueuedTo, Missed, DoneOk, Reason, OthersKept, EventPart, Undisturbed;
    if s.pc.Removed? {
      UndisturbedUnlinked(s.k, k', s.base, s.pc.d);
    }
    UndisturbedCtx(s.k, k', s.c);
  }

  lemma RestInv(s: D, st: Step)
    requires DInv(s) && DEnabled(s, Rest(st))
    ensures DInv(s.(k := Apply(s.k, st)))
  {
    InvIs(s);
    hide KInv, Apply, CtxOk, PcOk, IsReady, NamesNone;
    StepInv(s.k, st);
    StepReady(s.k, st, s.t);
    StepUndisturbed(s.k, st, s.base);
    RestPcOk(s, st);
    RestCtx(s, Apply(s.k, st));
  }

  // ---------------------------------------------------------------- the thread's own steps

  lemma ReadyIs(k: K, t: Tid)
    requires IsReady(k, t) && k.running == t
    ensures RunningReady(k)
  {
  }

  /** Queueing handles of d leaves the handles of the others alone, and what is in use as it was. */
  lemma QueueKeeps(k: K, c: Ctx, d: nat, h: Hid, e: nat)
    requires KInv(k) && RunningReady(k) && CtxOk(k, c) && d in c.disps && c.disps[d].linked
    requires h in HandlesOf(c.disps[d]) && h in k.handles && e in k.events
    ensures k.running in k.threads
    ensures var r := AddIfDetached(k, h, e);
            r.Some? ==>
              && KInv(r.value) && IsReady(r.value, k.running) && r.value.running == k.running && CtxOk(r.value, c)
              && Progress(k, r.value, HandlesOf(c.disps[d])) && h in r.value.handles
              && (r.value.handles[h].mask == {} ==> DetachedHandle(r.value, h))
              && (r.value.handles[h].mask != {} ==> Attached(r.value, h))
  {
    hide KInv, AddIfDetached, CtxOk, Progress;
    AddProgress(k, h, e, HandlesOf(c.disps[d]));
    var r := AddIfDetached(k, h, e);
    if r.Some? {
      VisitCtx(k, c, d, r.value);
      ProgressGood(k, r.value, HandlesOf(c.disps[d]));
      SameRunning(k, r.value, HandlesOf(c.disps[d]));
    }
  }

  lemma SameRunning(k: K, k': K, hs: set<Hid>)
    requires Progress(k, k', hs)
    ensures k'.running == k.running && IsReady(k', k.running)
  {
    hide KInv;
  }

  lemma OthersSelf(k: K, c: Ctx, d: nat)
    ensures OthersKept(k, k, c, d)
  {
  }

  lemma Selects(s: D, d: nat, state: DispState)
    requires KInv(s.k) && IsReady(s.k, s.t) && CtxOk(s.k, s.c) && s.c == s.base && !s.asked
    requires d in s.c.order && d in s.c.disps
    requires Reason(s.k, s.c.disps[d], state, s.again)
    ensures DInv(s.(pc := DropTimer(d, Some(state), s.k)))
  {
    hide KInv, CtxOk, IsReady, Reason, OthersKept;
    OthersSelf(s.k, s.c, d);
  }

  lemma QueueEventInv(s: D)
    requires DInv(s) && s.k.running == s.t && s.pc.QueueEvent? && s.pc.i < |s.c.order|
    ensures DInv(QueueEventStep(s))
  {
    hide KInv, CtxOk, IsReady, AddIfDetached, QueuedTo, Progress, RunningReady, Attached, DetachedHandle;
    ListedOk(s.k, s.c, s.pc.i);
    var d := s.c.order[s.pc.i];
    var p := s.c.disps[d];
    ReadyIs(s.k, s.t);
    if p.event.Some? {
      QueueKeeps(s.k, s.c, d, p.eventHandle, p.event.value);
      var r := AddIfDetached(s.k, p.eventHandle, p.event.value);
      if r.Some? {
        if r.value.handles[p.eventHandle].mask == {} {
          Selects(s.(k := r.value), d, Done);
        } else {
          QueuedProgress(s.k, r.value, s.c, s.pc.i, s.mask, HandlesOf(p));
        }
      }
    }
  }

  lemma QueueTimerInv(s: D)
    requires DInv(s) && s.k.running == s.t && s.pc.QueueTimer?
    ensures DInv(QueueTimerStep(s))
  {
    hide KInv, CtxOk, IsReady, AddIfDetached, QueuedTo, Progress, RunningReady;
    ListedOk(s.k, s.c, s.pc.i);
    var d := s.c.order[s.pc.i];
    var p := s.c.disps[d];
    ReadyIs(s.k, s.t);
    if p.timer.None? {
      NoTimer(s, d, p);
    } else {
      QueueKeeps(s.k, s.c, d, p.timerHandle, p.timer.value);
      var r := AddIfDetached(s.k, p.timerHandle, p.timer.value);
      if r.Some? {
        if r.value.handles[p.timerHandle].mask == {} {
          Selects(s.(k := r.value), d, Timeout);
        } else {
          TimerQueued(s, r.value, p);
        }
      }
    }
  }

  lemma NoTimer(s: D, d: nat, p: Disp)
    requires DInv(s) && s.pc.QueueTimer? && d == s.c.order[s.pc.i] && d in s.c.disps && p == s.c.disps[d]
    requires d in s.c.order && p.timer.None?
    ensures s.pc.m == {} ==> DInv(s.(pc := DropTimer(d, Some(Immediate), s.k)))
    ensures s.pc.m != {} ==> QueuedTo(s.k, s.c, s.pc.i + 1, s.mask + s.pc.m)
  {
    hide CtxOk, IsReady, QueuedTo, Progress, KInv;
    if p.event.Some? {
      HandleAt(s.k, p.eventHandle);
    }
    if s.pc.m == {} {
      Selects(s, d, Immediate);
    } else {
      QueuedMore(s.k, s.c, s.pc.i, s.mask, s.pc.m);
    }
  }

  lemma TimerQueued(s: D, k': K, p: Disp)
    requires DInv(s) && s.pc.QueueTimer? && s.c.order[s.pc.i] in s.c.disps && p == s.c.disps[s.c.order[s.pc.i]]
    requires Progress(s.k, k', HandlesOf(p)) && p.timer.Some? && Attached(k', p.timerHandle)
    ensures QueuedTo(k', s.c, s.pc.i + 1, s.mask + (s.pc.m + k'.handles[p.timerHandle].mask))
  {
    hide KInv, CtxOk, IsReady, QueuedTo, Progress;
    if p.event.Some? {
      ProgressAttached(s.k, k', p.eventHandle, HandlesOf(p));
    }
    QueuedProgress(s.k, k', s.c, s.pc.i, s.mask, HandlesOf(p));
    QueuedMore(k', s.c, s.pc.i, s.mask, s.pc.m + k'.handles[p.timerHandle].mask);
  }

  lemma LookInv(s: D)
    requires DInv(s) && ((s.pc.LookEvent? && s.pc.i < |s.c.order|) || s.pc.LookTimer?)
    ensures DInv(LookStep(s))
  {
    hide KInv, CtxOk, IsReady;
    ListedOk(s.k, s.c, s.pc.i);
    var d := s.c.order[s.pc.i];
    var p := s.c.disps[d];
    if s.pc.LookEvent? {
      if p.event.Some? && DoneHandle(s.k, p.eventHandle) {
        Selects(s, d, Done);
      }
    } else if p.timer.Some? && DoneHandle(s.k, p.timerHandle) {
      Selects(s, d, Timeout);
    }
  }

  // ---------------------------------------------------------------- _remove, section by section

  /** Disposing of a handle of d keeps the context. */
  lemma DropCtx(k: K, c: Ctx, d: nat, h: Hid)
    requires KInv(k) && CtxOk(k, c) && d in c.order && d in c.disps && h in HandlesOf(c.disps[d])
    ensures var k' := DisposeIf(k, h);
            && KInv(k') && CtxOk(k', c) && DetachedHandle(k', h)
            && (forall g :: g in k.handles && g != h ==> g in k'.handles && k'.handles[g] == k.handles[g])
            && forall t :: IsReady(k, t) ==> IsReady(k', t)
  {
    hide KInv, DisposeIf, NoDup;
    assert DispOk(k, c.disps[d]);
    DisposeIfExact(k, h);
    var k' := DisposeIf(k, h);
    forall e | e in c.disps ensures DispOk(k', c.disps[e]) {
      assert DispOk(k, c.disps[e]);
      DispStays(k, k', c.disps[e]);
    }
  }

  lemma DropOthers(was: K, k: K, k': K, c: Ctx, d: nat, h: Hid)
    requires OthersKept(was, k, c, d) && CtxOk(k, c) && d in c.disps && h in HandlesOf(c.disps[d])
    requires forall g :: g in k.handles && g != h ==> g in k'.handles && k'.handles[g] == k.handles[g]
    ensures OthersKept(was, k', c, d)
  {
    hide NoDup, DispOk;
    forall e | e in c.disps && e != d
      ensures HandleSame(was, k', c.disps[e].eventHandle) && HandleSame(was, k', c.disps[e].timerHandle)
    {
      assert Separate(c.disps[d], c.disps[e]);
      assert h in {c.disps[d].eventHandle, c.disps[d].timerHandle};
      assert c.disps[e].eventHandle != h && c.disps[e].timerHandle != h;
      assert HandleSame(was, k, c.disps[e].eventHandle) && HandleSame(was, k, c.disps[e].timerHandle);
    }
  }

  /** A dispatcher whose two handles are detached can be taken off the list. */
  lemma UnlinkCtx(k: K, c: Ctx, d: nat)
    requires CtxOk(k, c) && d in c.order && d in c.disps
    requires DetachedHandle(k, c.disps[d].eventHandle) && DetachedHandle(k, c.disps[d].timerHandle)
    ensures CtxOk(k, Unlinked(c, d))
  {
    hide Without;
    WithoutMembers(c.order, d);
    var c' := Unlinked(c, d);
    forall e | e in c'.disps ensures DispOk(k, c'.disps[e]) {
      assert DispOk(k, c.disps[e]);
    }
    forall e, f | e in c'.disps && f in c'.disps && e != f ensures Separate(c'.disps[e], c'.disps[f]) {
      assert Separate(c.disps[e], c.disps[f]);
    }
  }

  lemma DropTimerInv(s: D)
    requires DInv(s) && s.pc.DropTimer?
    ensures DInv(DropStep(s))
  {
    hide KInv, CtxOk, IsReady, DisposeIf, Reason, OthersKept;
    DropOk(s);
    var d := s.pc.d;
    var p := s.c.disps[d];
    if p.timer.Some? {
      DropCtx(s.k, s.c, d, p.timerHandle);
      DropOthers(s.pc.was, s.k, DisposeIf(s.k, p.timerHandle), s.c, d, p.timerHandle);
    } else {
      UnusedDetached(s.k, s.c, d);
    }
  }

  lemma UnusedDetached(k: K, c: Ctx, d: nat)
    requires CtxOk(k, c) && d in c.disps
    ensures c.disps[d].timer.None? ==> DetachedHandle(k, c.disps[d].timerHandle)
    ensures c.disps[d].event.None? ==> DetachedHandle(k, c.disps[d].eventHandle)
    ensures c.disps[d].eventHandle != c.disps[d].timerHandle
  {
    assert DispOk(k, c.disps[d]);
  }

  lemma DropEventInv(s: D)
    requires DInv(s) && s.pc.DropEvent?
    ensures DInv(DropStep(s))
  {
    hide KInv, CtxOk, IsReady, DisposeIf, Reason, OthersKept, Unlinked;
    DropOk(s);
    var d := s.pc.d;
    var p := s.c.disps[d];
    UnusedDetached(s.k, s.c, d);
    if p.event.Some? {
      DropCtx(s.k, s.c, d, p.eventHandle);
      DropOthers(s.pc.was, s.k, DisposeIf(s.k, p.eventHandle), s.c, d, p.eventHandle);
      UnlinkCtx(DisposeIf(s.k, p.eventHandle), s.c, d);
    } else {
      UnlinkCtx(s.k, s.c, d);
    }
  }

  lemma RelockInv(k: K, t: Tid, c: Ctx)
    requires KInv(k) && IsReady(k, t) && CtxOk(k, c)
    ensures DInv(DispatchAgain(k, t, c))
  {
    hide KInv, CtxOk, IsReady, Ours;
  }

  lemma OwnInv(s: D)
    requires DInv(s) && DEnabled(s, Own)
    ensures DInv(DApply(s, Own))
  {
    InvIs(s);
    hide KInv, CtxOk, IsReady, QueuedTo, Missed, DoneOk, QueueEventStep, QueueTimerStep, LookStep, DropStep;
    match s.pc
    case QueueEvent(i) => if i < |s.c.order| { QueueEventInv(s); }
    case QueueTimer(_, _) => QueueTimerInv(s);
    case LookEvent(i) => if i < |s.c.order| { LookInv(s); }
    case LookTimer(_) => LookInv(s);
    case DropTimer(_, _, _) => DropTimerInv(s);
    case DropEvent(_, _, _) => DropEventInv(s);
  }

  /** Every step, of the thread and of everybody else, keeps the invariant. */
  lemma DStepInv(s: D, l: DStep)
    requires DInv(s) && DEnabled(s, l)
    ensures DInv(DApply(s, l))
  {
    match l
    case Own => OwnInv(s);
    case Rest(st) => RestInv(s, st);
    case Relock(k, c) => RelockInv(k, s.t, c);
  }

  // ---------------------------------------------------------------- runs

  ghost predicate Dropping(pc: Pc) {
    pc.DropTimer? || pc.DropEvent? || pc.Removed?
  }

  /** What a run does not change: the thread, from one lock to the next the context it found, and the dispatcher
      that is being removed. */
  ghost predicate SameCall(s: D, s': D) {
    && s'.t == s.t && s'.asked == s.asked && (s.again ==> s'.again && s'.done == s.done)
    && (s.again == s'.again ==> s'.base == s.base)
    && (Dropping(s.pc) ==>
          && Dropping(s'.pc) && s'.pc.d == s.pc.d && s'.pc.reason == s.pc.reason && s'.pc.was == s.pc.was
          && s'.again == s.again)
  }

  lemma StepSameCall(s: D, l: DStep)
    requires DInv(s) && DEnabled(s, l)
    ensures SameCall(s, DApply(s, l))
  {
    hide KInv, CtxOk, IsReady, QueuedTo, Missed, DoneOk, Apply, AddIfDetached, DisposeIf, Unlinked, NamesNone;
  }

  ghost predicate DLegal(s: D, ls: seq<DStep>)
    requires DInv(s)
    decreases |ls|
  {
    hide DInv, DApply;
    ls == [] || (DEnabled(s, ls[0]) && (DStepInv(s, ls[0]); DLegal(DApply(s, ls[0]), ls[1..])))
  }

  /** State after any interleaving of the thread's steps with those of the rest of the system. */
  ghost function DRun(s: D, ls: seq<DStep>): (s': D)
    requires DInv(s) && DLegal(s, ls)
    ensures DInv(s') && SameCall(s, s')
    decreases |ls|
  {
    hide DInv, DApply, DEnabled;
    if ls == [] then s
    else
      DStepInv(s, ls[0]);
      StepSameCall(s, ls[0]);
      DRun(DApply(s, ls[0]), ls[1..])
  }

  lemma StartInv(k: K, t: Tid, c: Ctx)
    requires KInv(k) && IsReady(k, t) && CtxOk(k, c)
    ensures DInv(DispatchStart(k, t, c))
  {
    hide KInv, IsReady, CtxOk;
  }

  lemma ListedMember(k: K, c: Ctx, d: nat)
    requires CtxOk(k, c) && d in c.order
    ensures d in c.disps
  {
    hide NoDup, DispOk, Separate;
  }

  lemma RemoveStartInv(k: K, t: Tid, c: Ctx, d: nat)
    requires KInv(k) && IsReady(k, t) && CtxOk(k, c) && d in c.order
    ensures DInv(RemoveStart(k, t, c, d))
  {
    hide KInv, IsReady, CtxOk, OthersKept;
    ListedMember(k, c, d);
    OthersSelf(k, c, d);
  }

  /** Exactly d has left the list; its handles own nothing any more; the handles of all others have kept owner,
      bit and whether they are in use since d was selected. */
  ghost predicate OnlyGone(was: K, c: Ctx, d: nat, k': K, c': Ctx) {
    && d in c.order && d in c.disps && c' == Unlinked(c, d)
    && (forall e :: e in c'.order <==> e in c.order && e != d) && |c'.order| == |c.order| - 1
    && DetachedHandle(k', c.disps[d].eventHandle) && k'.handles[c.disps[d].eventHandle].mask == {}
    && DetachedHandle(k', c.disps[d].timerHandle) && k'.handles[c.disps[d].timerHandle].mask == {}
    && OthersKept(was, k', c, d)
  }

  lemma RemovedOnly(s: D)
    requires DInv(s) && s.pc.Removed?
    ensures OnlyGone(s.pc.was, s.base, s.pc.d, s.k, s.c)
  {
    hide KInv, IsReady, Reason, OthersKept, DispOk, Separate, Without;
    WithoutMembers(s.base.order, s.pc.d);
    HandleAt(s.k, s.base.disps[s.pc.d].eventHandle);
    HandleAt(s.k, s.base.disps[s.pc.d].timerHandle);
  }

  /** exos_dispatch up to its wait, for every interleaving. Nobody is unlinked but a dispatcher that could be
      served, for the reason recorded; and the thread goes to wait only with every handle of every dispatcher
      queued or pending and all their bits in its mask. */
  lemma DispatchBegins(k: K, t: Tid, c: Ctx, ls: seq<DStep>)
    requires KInv(k) && IsReady(k, t) && CtxOk(k, c)
    requires (StartInv(k, t, c); DLegal(DispatchStart(k, t, c), ls))
    ensures var s := DRun(DispatchStart(k, t, c), ls);
            !s.again ==>
              && KInv(s.k) && CtxOk(s.k, s.c)
              && (s.pc.Removed? ==> OnlyGone(s.pc.was, c, s.pc.d, s.k, s.c))
              && (s.pc.Removed? ==> s.pc.reason.Some? && Reason(s.pc.was, c.disps[s.pc.d], s.pc.reason.value, false))
              && (!s.pc.Removed? ==> s.c == c)
              && (s.pc.Waits? ==> QueuedTo(s.k, c, |c.order|, s.mask))
  {
    hide KInv, CtxOk, IsReady, DLegal, DRun, QueuedTo, OnlyGone, Reason, OthersKept, DoneOk, Missed;
    StartInv(k, t, c);
    var s := DRun(DispatchStart(k, t, c), ls);
    if s.pc.Removed? {
      RemovedOnly(s);
    }
  }

  /** exos_dispatch after its wait, for every interleaving: whoever is unlinked had a DONE handle, exactly that
      dispatcher is, and the call gives up only if no handle was DONE when it took the lock. */
  lemma DispatchEnds(k: K, t: Tid, c: Ctx, ls: seq<DStep>)
    requires KInv(k) && IsReady(k, t) && CtxOk(k, c)
    requires (RelockInv(k, t, c); DLegal(DispatchAgain(k, t, c), ls))
    ensures var s := DRun(DispatchAgain(k, t, c), ls);
            && KInv(s.k) && CtxOk(s.k, s.c)
            && (s.pc.Removed? ==> OnlyGone(s.pc.was, c, s.pc.d, s.k, s.c))
            && (s.pc.Removed? ==> s.pc.reason.Some? && Reason(s.pc.was, c.disps[s.pc.d], s.pc.reason.value, true))
            && (!s.pc.Removed? ==> s.c == c)
            && (s.pc.NotServed? ==> forall d, h :: d in c.order && h in HandlesOf(c.disps[d]) ==> !DoneHandle(k, h))
  {
    hide KInv, CtxOk, IsReady, DLegal, DRun, QueuedTo, OnlyGone, Reason, OthersKept, DoneOk, Missed, DoneNow;
    RelockInv(k, t, c);
    var s := DRun(DispatchAgain(k, t, c), ls);
    if s.pc.Removed? {
      RemovedOnly(s);
    } else if s.pc.NotServed? {
      MissedAll(k, c);
    }
  }

  lemma MissedAll(k: K, c: Ctx)
    requires CtxOk(k, c) && Missed(c, |c.order|, DoneNow(k, c))
    ensures forall d, h :: d in c.order && h in HandlesOf(c.disps[d]) ==> !DoneHandle(k, h)
  {
    hide NoDup, Separate, DispOk;
    forall d, h | d in c.order && h in HandlesOf(c.disps[d]) ensures !DoneHandle(k, h) {
      var j :| 0 <= j < |c.order| && c.order[j] == d;
      assert HandlesOf(c.disps[c.order[j]]) !! DoneNow(k, c);
      assert Ours(c, h);
    }
  }

  /** _remove for every interleaving. */
  lemma RemoveEnds(k: K, t: Tid, c: Ctx, d: nat, ls: seq<DStep>)
    requires KInv(k) && IsReady(k, t) && CtxOk(k, c) && d in c.order
    requires (RemoveStartInv(k, t, c, d); DLegal(RemoveStart(k, t, c, d), ls))
    ensures var s := DRun(RemoveStart(k, t, c, d), ls);
            && KInv(s.k) && CtxOk(s.k, s.c)
            && if s.pc.Removed? then OnlyGone(k, c, d, s.k, s.c) else s.c == c
  {
    hide KInv, CtxOk, IsReady, DLegal, DRun, OnlyGone, QueuedTo, Reason, OthersKept, DoneOk, Missed;
    RemoveStartInv(k, t, c, d);
    var s := DRun(RemoveStart(k, t, c, d), ls);
    if s.pc.Removed? {
      RemovedOnly(s);
    }
  }

  // ---------------------------------------------------------------- progress

  /** Bound on the steps the thread has still to take before it waits or returns. */
  ghost function Remaining(s: D): int {
    match s.pc
    case QueueEvent(i) => 2 * (|s.c.order| - i) + 3
    case QueueTimer(i, _) => 2 * (|s.c.order| - i) + 2
    case LookEvent(i) => 2 * (|s.c.order| - i) + 3
    case LookTimer(i) => 2 * (|s.c.order| - i) + 2
    case DropTimer(_, _, _) => 2
    case DropEvent(_, _, _) => 1
    case _ => 0
  }

  /** Every own step brings the thread nearer to its wait or its end, nobody else takes it back, and it panics only
      when it has no mask bit left. */
  lemma OwnAdvances(s: D, l: DStep)
    requires DInv(s) && DEnabled(s, l) && !l.Relock?
    ensures 0 <= Remaining(DApply(s, l)) && (l.Own? ==> Remaining(DApply(s, l)) < Remaining(s))
    ensures l.Rest? ==> Remaining(DApply(s, l)) == Remaining(s)
    ensures s.t in s.k.threads
    ensures l.Own? && DApply(s, l).pc.Panicked? ==> LowestFree(s.k.threads[s.t].maskUsed) == MASK_BITS
  {
    hide KInv, CtxOk, QueuedTo, Missed, DoneOk, Apply, EventAdd, LowestFree, DisposeIf, Unlinked, NamesNone;
  }
}
