/** exos_mutex_lock as the program it is: add the handle, sleep, dispose, test the owner, repeat. Any
    number of threads may be inside it at once, on any mutexes, interleaved with everything else. */
module LockCalls {
  import opened SeqSets
  import opened KernelState
  import opened KernelSteps
  import opened KernelRuns
  import opened WaitCalls

  /** Where a thread stands in exos_mutex_lock. Testing(taken): at the loop test, the last
      ___mutex_cond having taken the mutex or not. */
  datatype Pc = Adding | Queued | Inside | Testing(taken: bool)

  /** One activation: the mutex, its stack-allocated handle, and how often the thread held the mutex
      when it called. */
  datatype Call = Call(x: nat, h: Hid, pc: Pc, base: nat)

  /** held: locks minus unlocks, by mutex and thread. */
  datatype S = S(k: K, calls: map<Tid, Call>, held: map<(nat, Tid), nat>)

  function Held(held: map<(nat, Tid), nat>, x: nat, t: Tid): nat {
    if (x, t) in held then held[(x, t)] else 0
  }

  /** Count is the owner's locks minus unlocks; nobody else holds the mutex. */
  ghost predicate HeldOk(k: K, held: map<(nat, Tid), nat>) {
    forall x, t :: Held(held, x, t) == Holds(k, x, t)
  }

  ghost function Holds(k: K, x: nat, t: Tid): nat {
    if x in k.mutexes && k.mutexes[x].owner == Some(t) then k.mutexes[x].count else 0
  }

  ghost predicate DetachedHandle(k: K, h: Hid) {
    h in k.handles && k.handles[h].state == HDetached
  }

  ghost predicate IsReady(k: K, t: Tid) {
    t in k.threads && k.threads[t].state == Ready
  }

  ghost predicate CallOk(k: K, t: Tid, c: Call) {
    && c.x in k.mutexes
    && match c.pc
       case Adding => DetachedHandle(k, c.h) && IsReady(k, t) && Holds(k, c.x, t) == c.base
       case Queued => Owns(k.handles, c.h, t) && IsReady(k, t) && Holds(k, c.x, t) == c.base == 0
       case Inside => InWait(k, t, {c.h}) && Holds(k, c.x, t) == c.base == 0
       case Testing(taken) =>
         && DetachedHandle(k, c.h) && IsReady(k, t)
         && if taken then Holds(k, c.x, t) == c.base + 1 else Holds(k, c.x, t) == c.base == 0
  }

  ghost predicate CallsOk(k: K, calls: map<Tid, Call>) {
    && (forall t :: t in calls ==> CallOk(k, t, calls[t]))
    && (forall t, u :: t in calls && u in calls && t != u ==> calls[t].h != calls[u].h)
  }

  ghost predicate SInv(s: S) {
    KInv(s.k) && HeldOk(s.k, s.held) && CallsOk(s.k, s.calls)
  }

  // ---------------------------------------------------------------- what one kernel step leaves alone

  /** The step works on handle h by name. */
  predicate Names(s: Step, h: Hid) {
    match s
    case CreateHandle(g) => g == h
    case DisposeHandle(g) => g == h
    case AddToEvent(g, _) => g == h
    case AddToMutex(g, _) => g == h
    case AddToJoin(g, _) => g == h
    case _ => false
  }

  lemma KeptHandle(k: K, k': K, h: Hid)
    requires Kept(k, k') && h in k.handles
    ensures h in k'.handles && HandleKept(k.handles[h], k'.handles[h])
  {
  }

  /** A handle changes owner, mask or detachment only by a step that names it. */
  lemma StepHandle(k: K, s: Step, h: Hid)
    requires KInv(k) && Enabled(k, s) && h in k.handles && !Names(s, h)
    ensures h in Apply(k, s).handles && HandleKept(k.handles[h], Apply(k, s).handles[h])
  {
    hide KInv, Enabled, Apply, MutexUnlock, RemThread, HandleKept;
    if Resuming(s) {
      ApplyResuming(k, s);
      match s
      case ResumeHandle(g) => ResumeHandleKeeps(k, g, h);
      case Exit => ExitKeeps(k, h);
      case SetAuto(e) => ResumeAllKeeps(k, EventL(e), h);
      case FlushEvent(e) => ResumeAllKeeps(k, EventL(e), h);
      case Unlock(x) => UnlockHandle(k, x, h);
    } else {
      QuietStepHandle(k, s, h);
    }
  }

  lemma ResumeHandleKeeps(k: K, g: Hid, h: Hid)
    requires KInv(k) && Resumable(k, g) && h in k.handles
    ensures h in Resume(k, g).handles && HandleKept(k.handles[h], Resume(k, g).handles[h])
  {
    hide KInv, Resume, Kept, HandleKept;
    InvCore(k);
    ResumeCore(k, g);
    ResumeKept(k, g);
    KeptHandle(k, Resume(k, g), h);
  }

  lemma ResumeAllKeeps(k: K, l: ListId, h: Hid)
    requires KInv(k) && !l.PendingL? && h in k.handles
    ensures h in ResumeAll(k, l).handles && HandleKept(k.handles[h], ResumeAll(k, l).handles[h])
  {
    hide KInv, ResumeAll, Kept, HandleKept;
    InvCore(k);
    ResumeAllCore(k, l);
    KeptHandle(k, ResumeAll(k, l), h);
  }

  predicate Resuming(s: Step) {
    s.ResumeHandle? || s.Exit? || s.SetAuto? || s.FlushEvent? || s.Unlock?
  }

  lemma ApplyResuming(k: K, s: Step)
    requires KInv(k) && Enabled(k, s) && Resuming(s)
    ensures s.ResumeHandle? ==> Resumable(k, s.h) && Apply(k, s) == Resume(k, s.h)
    ensures s.Exit? ==> CanExit(k) && Apply(k, s) == RemThread(k)
    ensures s.SetAuto? || s.FlushEvent? ==>
              var k' := ResumeAll(k, EventL(s.e));
              Apply(k, s).handles == k'.handles && Apply(k, s).mutexes == k'.mutexes
    ensures s.Unlock? ==> Apply(k, s) == MutexUnlock(k, s.x)
  {
    hide KInv, Resume, ResumeAll, MutexUnlock, RemThread, CanExit;
    InvCore(k);
    if s.ResumeHandle? {
      AttachedResumable(k, s.h);
    }
  }

  lemma QuietStepHandle(k: K, s: Step, h: Hid)
    requires KInv(k) && Enabled(k, s) && h in k.handles && !Names(s, h) && !Resuming(s)
    ensures h in Apply(k, s).handles && HandleKept(k.handles[h], Apply(k, s).handles[h])
  {
    hide KInv, Enqueued, Without, Append, Unlink, Toggle, PendingMeets, HandleKept;
    KeptSelf(k.handles[h]);
  }

  lemma KeptSelf(h: Handle)
    ensures HandleKept(h, h)
  {
  }

  lemma ExitKeeps(k: K, h: Hid)
    requires KInv(k) && CanExit(k) && h in k.handles
    ensures h in RemThread(k).handles && HandleKept(k.handles[h], RemThread(k).handles[h])
  {
    hide KInv, ResumeAll, Kept, Without;
    InvCore(k);
    DetachCore(k);
    ResumeAllCore(Detach(k), JoinL(k.running));
    KeptHandle(Detach(k), RemThread(k), h);
  }

  lemma ExitMutexes(k: K)
    requires KInv(k) && CanExit(k)
    ensures RemThread(k).mutexes == k.mutexes
  {
    hide KInv, ResumeAll, Without;
    InvCore(k);
    DetachCore(k);
    ResumeAllCore(Detach(k), JoinL(k.running));
  }

  lemma UnlockHandle(k: K, x: nat, h: Hid)
    requires KInv(k) && Enabled(k, Unlock(x)) && h in k.handles
    ensures h in MutexUnlock(k, x).handles && HandleKept(k.handles[h], MutexUnlock(k, x).handles[h])
    ensures MutexUnlock(k, x).mutexes ==
            var m := k.mutexes[x];
            k.mutexes[x := if m.count == 1 then Mutex(None, 0) else m.(count := m.count - 1)]
  {
    UnlockMutexes(k, x);
    hide KInv, Core, ResumeAll, Kept;
    InvCore(k);
    if k.mutexes[x].count == 1 {
      var k1 := k.(mutexes := k.mutexes[x := Mutex(None, 0)]);
      CoreIgnores(k, k1);
      ResumeAllCore(k1, MutexL(x));
      KeptHandle(k1, MutexUnlock(k, x), h);
    }
  }

  lemma UnlockMutexes(k: K, x: nat)
    requires KInv(k) && Enabled(k, Unlock(x))
    ensures MutexUnlock(k, x).mutexes ==
            var m := k.mutexes[x];
            k.mutexes[x := if m.count == 1 then Mutex(None, 0) else m.(count := m.count - 1)]
  {
    hide KInv, Core, ResumeAll;
    InvCore(k);
    if k.mutexes[x].count == 1 {
      var k1 := k.(mutexes := k.mutexes[x := Mutex(None, 0)]);
      CoreIgnores(k, k1);
      ResumeAllCore(k1, MutexL(x));
    }
  }

  lemma UnlockEvents(k: K, x: nat)
    requires KInv(k) && Enabled(k, Unlock(x))
    ensures MutexUnlock(k, x).events == k.events
  {
    hide KInv, Core, ResumeAll;
    InvCore(k);
    if k.mutexes[x].count == 1 {
      var k1 := k.(mutexes := k.mutexes[x := Mutex(None, 0)]);
      CoreIgnores(k, k1);
      ResumeAllCore(k1, MutexL(x));
    }
  }

  /** Steps that can change a mutex. */
  predicate OnMutex(s: Step) {
    s.CreateMutex? || s.AddToMutex? || s.TryMutex? || s.Unlock?
  }

  lemma StepMutexes(k: K, s: Step)
    requires KInv(k) && Enabled(k, s) && !OnMutex(s)
    ensures Apply(k, s).mutexes == k.mutexes
  {
    hide KInv, Enabled, Core, Resume, ResumeAll, Apply, RemThread;
    if Resuming(s) {
      InvCore(k);
      ApplyResuming(k, s);
      match s
      case ResumeHandle(h) => ResumeMutexes(k, h);
      case Exit => ExitMutexes(k);
      case SetAuto(e) => ResumeAllCore(k, EventL(e));
      case FlushEvent(e) => ResumeAllCore(k, EventL(e));
      case Unlock(_) => assert false;
    } else {
      QuietStepMutexes(k, s);
    }
  }

  lemma ResumeMutexes(k: K, h: Hid)
    requires Resumable(k, h)
    ensures Resume(k, h).mutexes == k.mutexes
  {
    hide Enqueued, Without, Append, Unlink;
  }

  lemma QuietStepMutexes(k: K, s: Step)
    requires KInv(k) && Enabled(k, s) && !OnMutex(s) && !Resuming(s)
    ensures Apply(k, s).mutexes == k.mutexes
  {
    hide KInv, Enqueued, Without, Append, Unlink, Toggle, PendingMeets;
  }

  /** Only its own code takes a READY thread off the ready list. */
  lemma StepReady(k: K, s: Step, t: Tid)
    requires KInv(k) && Enabled(k, s) && IsReady(k, t) && (ByThread(s) ==> k.running != t)
    ensures IsReady(Apply(k, s), t)
  {
    hide KInv, Enabled, Resume, Apply, RemThread, MutexUnlock, IsReady, CanExit;
    if Resuming(s) {
      ApplyResuming(k, s);
      match s
      case ResumeHandle(h) => ResumeReady(k, h, t);
      case Exit => ExitReady(k, t);
      case SetAuto(e) => EventReady(k, s, t);
      case FlushEvent(e) => EventReady(k, s, t);
      case Unlock(x) => UnlockReady(k, x, t);
    } else {
      QuietStepReady(k, s, t);
    }
  }

  lemma QuietStepReady(k: K, s: Step, t: Tid)
    requires KInv(k) && Enabled(k, s) && IsReady(k, t) && (ByThread(s) ==> k.running != t) && !Resuming(s)
    ensures IsReady(Apply(k, s), t)
  {
    hide KInv, Enqueued, Without, Append, Unlink, Toggle, PendingMeets;
  }

  lemma ResumeReady(k: K, h: Hid, t: Tid)
    requires Resumable(k, h) && IsReady(k, t)
    ensures IsReady(Resume(k, h), t)
  {
    hide Enqueued, Without, Append, Unlink;
  }

  lemma {:induction false} ResumeEachReady(k: K, l: seq<Hid>, t: Tid)
    requires IsReady(k, t)
    ensures IsReady(ResumeEach(k, l), t)
    decreases |l|
  {
    hide Resume, IsReady, Resumable;
    if l != [] && Resumable(k, l[0]) {
      ResumeReady(k, l[0], t);
      ResumeEachReady(Resume(k, l[0]), l[1..], t);
    }
  }

  lemma ExitReady(k: K, t: Tid)
    requires CanExit(k) && IsReady(k, t) && t != k.running
    ensures IsReady(RemThread(k), t)
  {
    hide Without, ResumeEach;
    ResumeEachReady(Detach(k), L(k.lists, JoinL(k.running)), t);
  }

  lemma EventReady(k: K, s: Step, t: Tid)
    requires KInv(k) && Enabled(k, s) && (s.SetAuto? || s.FlushEvent?) && IsReady(k, t)
    ensures IsReady(Apply(k, s), t)
  {
    hide KInv, ResumeEach;
    ResumeEachReady(k, L(k.lists, EventL(s.e)), t);
  }

  lemma UnlockReady(k: K, x: nat, t: Tid)
    requires KInv(k) && Enabled(k, Unlock(x)) && IsReady(k, t)
    ensures IsReady(MutexUnlock(k, x), t)
  {
    hide KInv, ResumeEach;
    var m := k.mutexes[x].(count := k.mutexes[x].count - 1);
    ResumeEachReady(k.(mutexes := k.mutexes[x := m.(owner := None)]), L(k.lists, MutexL(x)), t);
  }

  // ---------------------------------------------------------------- the other callers during one step

  /** Activation c of thread t is untouched by step s. */
  ghost predicate Bystander(k: K, s: Step, t: Tid, c: Call) {
    (ByThread(s) ==> k.running != t) && !Names(s, c.h)
  }

  lemma HoldsStep(k: K, s: Step, x: nat, t: Tid)
    requires KInv(k) && Enabled(k, s) && x in k.mutexes
    requires ByThread(s) ==> k.running != t
    requires s.CreateMutex? && s.x in k.mutexes ==> k.mutexes[s.x].owner == None
    ensures x in Apply(k, s).mutexes && Holds(Apply(k, s), x, t) == Holds(k, x, t)
  {
    hide Core, ResumeAll, Apply, MutexUnlock, ObjectsOk;
    if OnMutex(s) {
      HoldsOnMutex(k, s, x, t);
    } else {
      StepMutexes(k, s);
    }
  }

  lemma HoldsOnMutex(k: K, s: Step, x: nat, t: Tid)
    requires KInv(k) && Enabled(k, s) && OnMutex(s) && x in k.mutexes
    requires ByThread(s) ==> k.running != t
    requires s.CreateMutex? && s.x in k.mutexes ==> k.mutexes[s.x].owner == None
    ensures x in Apply(k, s).mutexes && Holds(Apply(k, s), x, t) == Holds(k, x, t)
  {
    hide Core, ResumeAll, MutexUnlock, ObjectsOk, Append;
    if s.Unlock? {
      UnlockMutexes(k, s.x);
    }
  }

  lemma CallKept(k: K, s: Step, t: Tid, c: Call)
    requires KInv(k) && Enabled(k, s) && CallOk(k, t, c) && Bystander(k, s, t, c)
    requires s.CreateMutex? && s.x in k.mutexes ==> k.mutexes[s.x].owner == None
    ensures CallOk(Apply(k, s), t, c)
  {
    hide KInv, Apply, InWait, IsReady, Holds, Enabled;
    HoldsStep(k, s, c.x, t);
    match c.pc
    case Inside => InWaitStep(k, s, t, {c.h});
    case _ => StepReady(k, s, t); StepHandle(k, s, c.h);
  }

  // ---------------------------------------------------------------- steps of the whole system

  datatype LStep =
    | CallLock(x: nat, h: Hid)
    | DoAdd
    | DoWait
    | DoDispose
    | DoTest
    | Other(s: Step)

  ghost predicate Calling(s: S, pc: Pc) {
    s.k.running in s.calls && s.calls[s.k.running].pc == pc
  }

  /** Steps of code outside exos_mutex_lock: it does not touch the handles of activations, runs no thread
      that is inside one, and does not re-create a mutex that is owned. */
  ghost predicate OtherOk(s: S, st: Step) {
    && Enabled(s.k, st) && !st.AddToMutex?
    && (ByThread(st) ==> s.k.running !in s.calls)
    && (forall t :: t in s.calls ==> !Names(st, s.calls[t].h))
    && (st.CreateMutex? && st.x in s.k.mutexes ==> s.k.mutexes[st.x].owner == None)
  }

  ghost predicate LEnabled(s: S, l: LStep) {
    var r := s.k.running;
    match l
    case CallLock(x, h) =>
      && IsReady(s.k, r) && r !in s.calls && x in s.k.mutexes && Enabled(s.k, CreateHandle(h))
      && forall t :: t in s.calls ==> s.calls[t].h != h
    case DoAdd => Calling(s, Adding) && Enabled(s.k, AddToMutex(s.calls[r].h, s.calls[r].x))
    case DoWait =>
      && Calling(s, Queued) && s.calls[r].h in s.k.handles
      && Enabled(s.k, WaitFor(s.k.handles[s.calls[r].h].mask))
    case DoDispose => Calling(s, Inside) && IsReady(s.k, r)
    case DoTest => r in s.calls && s.calls[r].pc.Testing?
    case Other(st) => OtherOk(s, st)
  }

  function Bump(held: map<(nat, Tid), nat>, x: nat, t: Tid): map<(nat, Tid), nat> {
    held[(x, t) := Held(held, x, t) + 1]
  }

  function Moved(s: S, pc: Pc): map<Tid, Call>
    requires s.k.running in s.calls
  {
    s.calls[s.k.running := s.calls[s.k.running].(pc := pc)]
  }

  /** Locks and unlocks by code outside exos_mutex_lock. */
  function OtherHeld(s: S, st: Step): map<(nat, Tid), nat> {
    match st
    case TryMutex(x) => if MutexFree(s.k, x) then Bump(s.held, x, s.k.running) else s.held
    case Unlock(x) => var n := Held(s.held, x, s.k.running); s.held[(x, s.k.running) := if n > 0 then n - 1 else 0]
    case _ => s.held
  }

  ghost function LApply(s: S, l: LStep): S
    requires SInv(s) && LEnabled(s, l)
  {
    hide KInv, Apply;
    var r := s.k.running;
    match l
    case CallLock(x, h) =>
      S(Apply(s.k, CreateHandle(h)), s.calls[r := Call(x, h, Adding, Held(s.held, x, r))], s.held)
    case DoAdd =>
      var c := s.calls[r];
      var taken := MutexFree(s.k, c.x);
      S(Apply(s.k, AddToMutex(c.h, c.x)), Moved(s, if taken then Testing(true) else Queued),
        if taken then Bump(s.held, c.x, r) else s.held)
    case DoWait => S(Apply(s.k, WaitFor(s.k.handles[s.calls[r].h].mask)), Moved(s, Inside), s.held)
    case DoDispose =>
      AwakeIsDone(s);
      S(Apply(s.k, DisposeHandle(s.calls[r].h)), Moved(s, Testing(false)), s.held)
    case DoTest =>
      if s.calls[r].x in s.k.mutexes && s.k.mutexes[s.calls[r].x].owner == Some(r)
      then s.(calls := s.calls - {r})
      else s.(calls := Moved(s, Adding))
    case Other(st) => S(Apply(s.k, st), s.calls, OtherHeld(s, st))
  }

  /** The thread that leaves exos_thread_wait inside exos_mutex_lock finds its handle DONE. */
  lemma AwakeIsDone(s: S)
    requires SInv(s) && LEnabled(s, DoDispose)
    ensures var h := s.calls[s.k.running].h;
            h in s.k.handles && s.k.handles[h].state == HDone && Attached(s.k, h)
  {
    hide KInv, HeldOk;
    assert CallOk(s.k, s.k.running, s.calls[s.k.running]);
  }

  /** exos_mutex_lock leaves its loop exactly when this call has taken the mutex, once; it is the owner
      then and holds it once more often than when it called. Otherwise it does not hold the mutex. */
  lemma LockReturnsOwning(s: S)
    requires SInv(s) && LEnabled(s, DoTest)
    ensures var r, c := s.k.running, s.calls[s.k.running];
            && c.x in s.k.mutexes
            && (s.k.mutexes[c.x].owner == Some(r) <==> c.pc == Testing(true))
            && (c.pc == Testing(true) ==> Held(s.held, c.x, r) == c.base + 1 == s.k.mutexes[c.x].count)
            && (c.pc == Testing(false) ==> Held(s.held, c.x, r) == 0)
            && (r !in LApply(s, DoTest).calls <==> c.pc == Testing(true))
            && (r in LApply(s, DoTest).calls ==> LApply(s, DoTest).calls[r] == c.(pc := Adding))
            && LApply(s, DoTest).k == s.k && LApply(s, DoTest).held == s.held
  {
    hide Core, EventsOk, JoinsOk;
    var r, c := s.k.running, s.calls[s.k.running];
    assert CallOk(s.k, r, c);
    assert Held(s.held, c.x, r) == Holds(s.k, c.x, r);
  }

  // ---------------------------------------------------------------- every step keeps the invariant

  lemma TakeHolds(k: K, x: nat, y: nat, t: Tid)
    requires KInv(k) && MutexFree(k, x) && CountFits(k, x)
    ensures Holds(MutexTake(k, x), y, t) == Holds(k, y, t) + (if y == x && t == k.running then 1 else 0)
  {
    hide Core, EventsOk, JoinsOk;
  }

  lemma UnlockHolds(k: K, x: nat, y: nat, t: Tid)
    requires KInv(k) && Enabled(k, Unlock(x))
    ensures Holds(MutexUnlock(k, x), y, t) == Holds(k, y, t) - (if y == x && t == k.running then 1 else 0)
  {
    UnlockMutexes(k, x);
    hide Core, EventsOk, JoinsOk, MutexUnlock;
  }

  lemma SameHolds(k: K, k': K, held: map<(nat, Tid), nat>)
    requires HeldOk(k, held) && k'.mutexes == k.mutexes
    ensures HeldOk(k', held)
  {
  }

  lemma OtherHeldOk(s: S, st: Step)
    requires SInv(s) && OtherOk(s, st)
    ensures HeldOk(Apply(s.k, st), OtherHeld(s, st))
  {
    hide Core, CallsOk, EventsOk, JoinsOk, Apply, MutexUnlock, MutexTake;
    var k' := Apply(s.k, st);
    if !OnMutex(st) {
      StepMutexes(s.k, st);
      SameHolds(s.k, k', s.held);
    } else {
      forall x, t ensures Held(OtherHeld(s, st), x, t) == Holds(k', x, t) {
        OtherHeldAt(s, st, x, t);
      }
    }
  }

  lemma OtherHeldAt(s: S, st: Step, x: nat, t: Tid)
    requires SInv(s) && OtherOk(s, st) && OnMutex(st)
    ensures Held(OtherHeld(s, st), x, t) == Holds(Apply(s.k, st), x, t)
  {
    hide Core, CallsOk, EventsOk, JoinsOk, MutexUnlock, MutexTake, MutexesOk;
    assert Held(s.held, x, t) == Holds(s.k, x, t);
    match st
    case TryMutex(y) => if MutexFree(s.k, y) { TakeHolds(s.k, y, x, t); }
    case Unlock(y) => UnlockHolds(s.k, y, x, t);
    case CreateMutex(y) =>
  }

  lemma OthersKept(s: S, st: Step, t: Tid)
    requires SInv(s) && Enabled(s.k, st) && t in s.calls && Bystander(s.k, st, t, s.calls[t])
    requires st.CreateMutex? && st.x in s.k.mutexes ==> s.k.mutexes[st.x].owner == None
    ensures CallOk(Apply(s.k, st), t, s.calls[t])
  {
    hide KInv, HeldOk, Apply, CallOk, Enabled;
    CallKept(s.k, st, t, s.calls[t]);
  }

  /** One activation moves, the others stay as they are. */
  lemma CallsMove(s: S, st: Step, c: Call)
    requires SInv(s) && Enabled(s.k, st) && !st.CreateMutex?
    requires forall t :: t in s.calls && t != s.k.running ==> s.calls[t].h != c.h && !Names(st, s.calls[t].h)
    requires CallOk(Apply(s.k, st), s.k.running, c)
    ensures CallsOk(Apply(s.k, st), s.calls[s.k.running := c])
  {
    hide KInv, HeldOk, Apply, CallOk, Enabled;
    var calls' := s.calls[s.k.running := c];
    forall t | t in calls' ensures CallOk(Apply(s.k, st), t, calls'[t]) {
      if t != s.k.running {
        OthersKept(s, st, t);
      }
    }
  }

  lemma CallLockInv(s: S, x: nat, h: Hid)
    requires SInv(s) && LEnabled(s, CallLock(x, h))
    ensures SInv(LApply(s, CallLock(x, h)))
  {
    hide KInv, CallsOk;
    var st, c := CreateHandle(h), Call(x, h, Adding, Held(s.held, x, s.k.running));
    StepInv(s.k, st);
    assert Held(s.held, x, s.k.running) == Holds(s.k, x, s.k.running);
    SameHolds(s.k, Apply(s.k, st), s.held);
    assert CallOk(Apply(s.k, st), s.k.running, c);
    CallsMove(s, st, c);
  }

  lemma DoAddInv(s: S)
    requires SInv(s) && LEnabled(s, DoAdd)
    ensures SInv(LApply(s, DoAdd))
  {
    hide KInv, Apply, Enabled, HeldOk, CallOk, MutexFree, CallsOk;
    var r, c := s.k.running, s.calls[s.k.running];
    var st := AddToMutex(c.h, c.x);
    CallAt(s, r);
    StepInv(s.k, st);
    AddedCall(s.k, r, c);
    CallsMove(s, st, c.(pc := if MutexFree(s.k, c.x) then Testing(true) else Queued));
    AddedHeld(s, c.h, c.x);
  }

  lemma CallAt(s: S, t: Tid)
    requires SInv(s) && t in s.calls
    ensures CallOk(s.k, t, s.calls[t])
    ensures forall u :: u in s.calls && u != t ==> s.calls[u].h != s.calls[t].h
  {
    hide KInv, HeldOk, CallOk;
  }

  lemma AddedHeld(s: S, h: Hid, x: nat)
    requires SInv(s) && Enabled(s.k, AddToMutex(h, x))
    ensures HeldOk(Apply(s.k, AddToMutex(h, x)), if MutexFree(s.k, x) then Bump(s.held, x, s.k.running) else s.held)
  {
    hide KInv, CallsOk, MutexTake, AddHandle, CountFits;
    if MutexFree(s.k, x) {
      TakeHeld(s, x);
    } else {
      AddHandleMutexes(s.k, h, MutexL(x));
      SameHolds(s.k, Apply(s.k, AddToMutex(h, x)), s.held);
    }
  }

  lemma AddHandleMutexes(k: K, h: Hid, l: ListId)
    requires k.running in k.threads
    ensures AddHandle(k, h, l).mutexes == k.mutexes
  {
  }

  lemma TakeHeld(s: S, x: nat)
    requires KInv(s.k) && HeldOk(s.k, s.held) && MutexFree(s.k, x) && CountFits(s.k, x)
    ensures HeldOk(MutexTake(s.k, x), Bump(s.held, x, s.k.running))
  {
    hide KInv, MutexTake, Holds, CountFits;
    forall y, t ensures Held(Bump(s.held, x, s.k.running), y, t) == Holds(MutexTake(s.k, x), y, t) {
      TakeHolds(s.k, x, y, t);
    }
  }

  lemma AddedCall(k: K, r: Tid, c: Call)
    requires KInv(k) && CallOk(k, r, c) && r == k.running && c.pc == Adding && Enabled(k, AddToMutex(c.h, c.x))
    ensures CallOk(Apply(k, AddToMutex(c.h, c.x)), r, c.(pc := if MutexFree(k, c.x) then Testing(true) else Queued))
  {
    hide Core, EventsOk, JoinsOk;
    if MutexFree(k, c.x) {
      TakeHolds(k, c.x, c.x, r);
    }
  }

  lemma DoWaitInv(s: S)
    requires SInv(s) && LEnabled(s, DoWait)
    ensures SInv(LApply(s, DoWait))
  {
    hide KInv, InWait, Wait;
    var r, c := s.k.running, s.calls[s.k.running];
    var st := WaitFor(s.k.handles[c.h].mask);
    assert CallOk(s.k, r, c);
    StepInv(s.k, st);
    assert MaskOf(s.k.handles, {c.h}) == s.k.handles[c.h].mask;
    InWaitEnter(s.k, {c.h});
    StepMutexes(s.k, st);
    SameHolds(s.k, Apply(s.k, st), s.held);
    CallsMove(s, st, c.(pc := Inside));
  }

  lemma DoDisposeInv(s: S)
    requires SInv(s) && LEnabled(s, DoDispose)
    ensures SInv(LApply(s, DoDispose))
  {
    hide KInv, Unlink, Toggle;
    var r, c := s.k.running, s.calls[s.k.running];
    var st := DisposeHandle(c.h);
    assert CallOk(s.k, r, c);
    AwakeIsDone(s);
    StepInv(s.k, st);
    SameHolds(s.k, Apply(s.k, st), s.held);
    CallsMove(s, st, c.(pc := Testing(false)));
  }

  lemma DoTestInv(s: S)
    requires SInv(s) && LEnabled(s, DoTest)
    ensures SInv(LApply(s, DoTest))
  {
    LockReturnsOwning(s);
    hide KInv, HeldOk;
    assert CallOk(s.k, s.k.running, s.calls[s.k.running]);
  }

  lemma OtherInv(s: S, st: Step)
    requires SInv(s) && OtherOk(s, st)
    ensures SInv(LApply(s, Other(st)))
  {
    hide KInv, Apply, CallOk, HeldOk, Enabled;
    StepInv(s.k, st);
    OtherHeldOk(s, st);
    forall t | t in s.calls ensures CallOk(Apply(s.k, st), t, s.calls[t]) {
      OthersKept(s, st, t);
    }
  }

  /** Every step of every thread keeps it: at most one thread holds a mutex, its count is exactly that
      thread's locks minus unlocks, and it is 0 exactly when there is no owner. */
  lemma LStepInv(s: S, l: LStep)
    requires SInv(s) && LEnabled(s, l)
    ensures SInv(LApply(s, l))
  {
    hide SInv, LEnabled, LApply;
    match l
    case CallLock(x, h) => CallLockInv(s, x, h);
    case DoAdd => DoAddInv(s);
    case DoWait => DoWaitInv(s);
    case DoDispose => DoDisposeInv(s);
    case DoTest => DoTestInv(s);
    case Other(st) => assert OtherOk(s, st) by { OtherEnabled(s, st); } OtherInv(s, st);
  }

  lemma OtherEnabled(s: S, st: Step)
    requires LEnabled(s, Other(st))
    ensures OtherOk(s, st)
  {
  }

  /** The system starts within the invariant: nobody is inside exos_mutex_lock and nothing is held. */
  lemma LBootInv(main: Tid, idle: Tid, priority: int)
    requires main != idle && -128 <= priority <= 127
    ensures SInv(S(Boot(main, idle, priority), map[], map[]))
  {
    hide KInv, Core;
    BootInv(main, idle, priority);
  }

  ghost predicate LLegal(s: S, ls: seq<LStep>)
    requires SInv(s)
    decreases |ls|
  {
    hide SInv, LApply;
    ls == [] || (LEnabled(s, ls[0]) && (LStepInv(s, ls[0]); LLegal(LApply(s, ls[0]), ls[1..])))
  }

  ghost function LRun(s: S, ls: seq<LStep>): (s': S)
    requires SInv(s) && LLegal(s, ls)
    ensures SInv(s')
    decreases |ls|
  {
    hide SInv, LApply, LEnabled;
    if ls == [] then s else (LStepInv(s, ls[0]); LRun(LApply(s, ls[0]), ls[1..]))
  }

  /** In every state any interleaving can reach: a thread that holds a mutex is its owner, two threads
      never hold it together, and the count is the owner's locks minus unlocks. */
  lemma MutualExclusion(s: S, ls: seq<LStep>, x: nat, t: Tid, u: Tid)
    requires SInv(s) && LLegal(s, ls) && x in LRun(s, ls).k.mutexes
    ensures var s' := LRun(s, ls);
            var m := s'.k.mutexes[x];
            && (Held(s'.held, x, t) > 0 <==> m.owner == Some(t))
            && (m.owner == Some(t) ==> m.count == Held(s'.held, x, t))
            && (m.owner == None <==> m.count == 0)
            && (Held(s'.held, x, t) > 0 && Held(s'.held, x, u) > 0 ==> t == u)
  {
    hide Core, EventsOk, JoinsOk, CallsOk, LLegal, LRun;
    var s' := LRun(s, ls);
    assert Held(s'.held, x, t) == Holds(s'.k, x, t) && Held(s'.held, x, u) == Holds(s'.k, x, u);
  }

  /** The count is exact after a lock by the owner unless it stood at its maximum; then it wraps to 0
      while the mutex stays owned. */
  lemma CountWraps(k: K, x: nat)
    requires KInv(k) && RunningReady(k) && x in k.mutexes && k.mutexes[x].owner == Some(k.running)
    ensures Holds(MutexTake(k, x), x, k.running) == Holds(k, x, k.running) + 1
            <==> k.mutexes[x].count != COUNT_LIMIT - 1
    ensures MutexesOk(MutexTake(k, x).lists, MutexTake(k, x).mutexes) <==> k.mutexes[x].count != COUNT_LIMIT - 1
  {
    hide Core, EventsOk, JoinsOk;
    var k' := MutexTake(k, x);
    if k.mutexes[x].count != COUNT_LIMIT - 1 {
      MutexTakeInv(k, x);
    } else {
      assert k'.mutexes[x].count == 0;
    }
  }
}
