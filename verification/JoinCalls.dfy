/** exos_thread_join: what the joiner finds when its wait returns. */
module JoinCalls {
  import opened SeqSets
  import opened KernelState
  import opened KernelSteps
  import opened KernelRuns
  import opened WaitCalls
  import opened LockCalls

  ghost predicate IsDetached(k: K, u: Tid) {
    u in k.threads && k.threads[u].state == Detached
  }

  ghost predicate QueuedOn(k: K, h: Hid, l: ListId) {
    h in k.handles && k.handles[h].state == HWaiting && k.handles[h].on == Some(l)
  }

  /** The joiner's handle is still queued on u, or u has exited. */
  ghost predicate Joining(k: K, h: Hid, u: Tid) {
    u in k.threads && (IsDetached(k, u) || QueuedOn(k, h, JoinL(u)))
  }

  /** Nobody but u's exit takes the handle off u's list, and u is not created again. */
  ghost predicate JoinLeaves(k: K, s: Step, h: Hid, u: Tid) {
    && !(s.CreateThread? && s.t == u)
    && (!IsDetached(k, u) ==> s != ResumeHandle(h) && s != DisposeHandle(h))
  }

  // ---------------------------------------------------------------- resumes

  /** A thread that is not asleep stays as it is. */
  lemma ResumeState(k: K, g: Hid, u: Tid)
    requires Resumable(k, g) && u in k.threads
    ensures u in Resume(k, g).threads
    ensures k.threads[u].state != Waiting ==> Resume(k, g).threads[u].state == k.threads[u].state
  {
    hide Enqueued, Without, Append, Unlink;
  }

  lemma ResumeOther(k: K, g: Hid, h: Hid)
    requires Resumable(k, g) && g != h && h in k.handles
    ensures h in Resume(k, g).handles && Resume(k, g).handles[h] == k.handles[h]
  {
    hide Enqueued, Without, Append, Unlink;
  }

  lemma ResumeDone(k: K, h: Hid)
    requires Resumable(k, h)
    ensures DoneHandle(Resume(k, h), h)
  {
    hide Enqueued, Without, Append, Unlink;
  }

  lemma DoneOther(k: K, g: Hid, h: Hid)
    requires Resumable(k, g) && g != h && DoneHandle(k, h)
    ensures DoneHandle(Resume(k, g), h)
  {
    hide Resume;
    ResumeOther(k, g, h);
  }

  lemma {:induction false} ResumeEachState(k: K, hs: seq<Hid>, u: Tid)
    requires u in k.threads
    ensures u in ResumeEach(k, hs).threads
    ensures k.threads[u].state == Detached ==> ResumeEach(k, hs).threads[u].state == Detached
    decreases |hs|
  {
    hide Resume, Resumable;
    if hs != [] && Resumable(k, hs[0]) {
      ResumeState(k, hs[0], u);
      ResumeEachState(Resume(k, hs[0]), hs[1..], u);
    }
  }

  /** Resuming a list leaves a handle outside it alone. */
  lemma {:induction false} ResumeEachOther(k: K, hs: seq<Hid>, h: Hid)
    requires h in k.handles && h !in hs
    ensures h in ResumeEach(k, hs).handles && ResumeEach(k, hs).handles[h] == k.handles[h]
    decreases |hs|
  {
    hide Resume, Resumable;
    if hs != [] && Resumable(k, hs[0]) {
      ResumeOther(k, hs[0], h);
      ResumeEachOther(Resume(k, hs[0]), hs[1..], h);
    }
  }

  // ---------------------------------------------------------------- every step

  lemma DetachedExit(k: K, u: Tid)
    requires k.running in k.threads && u in k.threads
    ensures u in RemThread(k).threads
    ensures k.threads[u].state == Detached || u == k.running ==> IsDetached(RemThread(k), u)
  {
    hide ResumeEach, Without;
    ResumeEachState(Detach(k), L(k.lists, JoinL(k.running)), u);
  }

  lemma DetachedUnlock(k: K, x: nat, u: Tid)
    requires Enabled(k, Unlock(x)) && u in k.threads
    ensures u in MutexUnlock(k, x).threads
    ensures k.threads[u].state == Detached ==> IsDetached(MutexUnlock(k, x), u)
  {
    hide ResumeEach;
    var m := k.mutexes[x].(count := k.mutexes[x].count - 1);
    ResumeEachState(k.(mutexes := k.mutexes[x := m.(owner := None)]), L(k.lists, MutexL(x)), u);
  }

  lemma QuietDetached(k: K, s: Step, u: Tid)
    requires KInv(k) && Enabled(k, s) && u in k.threads && !Resuming(s) && !(s.CreateThread? && s.t == u)
    ensures u in Apply(k, s).threads
    ensures k.threads[u].state == Detached ==> IsDetached(Apply(k, s), u)
  {
    hide KInv, Enqueued, Without, Append, Unlink, Toggle, PendingMeets;
  }

  /** A thread that has exited stays detached until it is created again. */
  lemma StepDetached(k: K, s: Step, u: Tid)
    requires KInv(k) && Enabled(k, s) && u in k.threads && !(s.CreateThread? && s.t == u)
    ensures u in Apply(k, s).threads
    ensures k.threads[u].state == Detached ==> IsDetached(Apply(k, s), u)
  {
    hide KInv, Resume, ResumeEach, Apply, RemThread, MutexUnlock;
    match s
    case ResumeHandle(g) => ApplyResuming(k, s); ResumeState(k, g, u);
    case Exit => ApplyResuming(k, s); DetachedExit(k, u);
    case SetAuto(e) => ResumeEachState(k, L(k.lists, EventL(e)), u); ApplyWaking(k, s);
    case FlushEvent(e) => ResumeEachState(k, L(k.lists, EventL(e)), u); ApplyWaking(k, s);
    case Unlock(x) => ApplyResuming(k, s); DetachedUnlock(k, x, u);
    case _ => QuietDetached(k, s, u);
  }

  lemma ApplyWaking(k: K, s: Step)
    requires KInv(k) && Enabled(k, s) && (s.SetAuto? || s.FlushEvent?)
    ensures var k' := ResumeEach(k, L(k.lists, EventL(s.e)));
            Apply(k, s).threads == k'.threads && Apply(k, s).handles == k'.handles
  {
    hide KInv, ResumeEach;
  }

  lemma NotOnList(k: K, h: Hid, l: ListId, m: ListId)
    requires KInv(k) && QueuedOn(k, h, l) && l != m
    ensures h !in L(k.lists, m)
  {
    hide HandlesOk, MasksOk, QueuesOk, NoLostWake, ObjectsOk;
  }

  lemma QueuedExit(k: K, h: Hid, u: Tid)
    requires KInv(k) && CanExit(k) && QueuedOn(k, h, JoinL(u)) && u != k.running
    ensures QueuedOn(RemThread(k), h, JoinL(u))
  {
    hide KInv, ResumeEach, Without;
    NotOnList(k, h, JoinL(u), JoinL(k.running));
    ResumeEachOther(Detach(k), L(k.lists, JoinL(k.running)), h);
  }

  lemma QueuedUnlock(k: K, x: nat, h: Hid, u: Tid)
    requires KInv(k) && Enabled(k, Unlock(x)) && QueuedOn(k, h, JoinL(u))
    ensures QueuedOn(MutexUnlock(k, x), h, JoinL(u))
  {
    hide KInv, ResumeEach;
    NotOnList(k, h, JoinL(u), MutexL(x));
    var m := k.mutexes[x].(count := k.mutexes[x].count - 1);
    ResumeEachOther(k.(mutexes := k.mutexes[x := m.(owner := None)]), L(k.lists, MutexL(x)), h);
  }

  lemma QuietQueued(k: K, s: Step, h: Hid, l: ListId)
    requires KInv(k) && Enabled(k, s) && QueuedOn(k, h, l) && !Resuming(s) && s != DisposeHandle(h)
    ensures QueuedOn(Apply(k, s), h, l)
  {
    hide KInv, Enqueued, Without, Append, Unlink, Toggle, PendingMeets;
  }

  lemma StepQueued(k: K, s: Step, h: Hid, u: Tid)
    requires KInv(k) && Enabled(k, s) && QueuedOn(k, h, JoinL(u)) && s != ResumeHandle(h) && s != DisposeHandle(h)
    requires s.Exit? ==> k.running != u
    ensures QueuedOn(Apply(k, s), h, JoinL(u))
  {
    hide KInv, Resume, ResumeEach, Apply, RemThread, MutexUnlock;
    match s
    case ResumeHandle(g) => ApplyResuming(k, s); ResumeOther(k, g, h);
    case Exit => ApplyResuming(k, s); QueuedExit(k, h, u);
    case SetAuto(e) => WakingOther(k, s, h, u);
    case FlushEvent(e) => WakingOther(k, s, h, u);
    case Unlock(x) => ApplyResuming(k, s); QueuedUnlock(k, x, h, u);
    case _ => QuietQueued(k, s, h, JoinL(u));
  }

  lemma WakingOther(k: K, s: Step, h: Hid, u: Tid)
    requires KInv(k) && Enabled(k, s) && (s.SetAuto? || s.FlushEvent?) && QueuedOn(k, h, JoinL(u))
    ensures QueuedOn(Apply(k, s), h, JoinL(u))
  {
    hide KInv, ResumeEach, Apply;
    NotOnList(k, h, JoinL(u), EventL(s.e));
    ResumeEachOther(k, L(k.lists, EventL(s.e)), h);
    ApplyWaking(k, s);
  }

  /** Whatever the rest of the system does, the handle stays queued on u until u exits. */
  lemma JoinStep(k: K, s: Step, h: Hid, u: Tid)
    requires KInv(k) && Enabled(k, s) && Joining(k, h, u) && JoinLeaves(k, s, h, u)
    ensures Joining(Apply(k, s), h, u)
  {
    hide KInv, Apply, RemThread, QueuedOn;
    StepDetached(k, s, u);
    if !IsDetached(k, u) {
      if s.Exit? && k.running == u {
        ApplyResuming(k, s);
        DetachedExit(k, u);
      } else {
        StepQueued(k, s, h, u);
      }
    }
  }

  // ---------------------------------------------------------------- runs

  ghost predicate AllJoinLeave(k: K, ss: seq<Step>, h: Hid, u: Tid)
    requires KInv(k) && Legal(k, ss)
    decreases |ss|
  {
    hide KInv, Apply, Enabled;
    ss == [] || (JoinLeaves(k, ss[0], h, u) && (StepInv(k, ss[0]); AllJoinLeave(Apply(k, ss[0]), ss[1..], h, u)))
  }

  lemma {:induction false} JoinRun(k: K, ss: seq<Step>, h: Hid, u: Tid)
    requires KInv(k) && Legal(k, ss) && Joining(k, h, u) && AllJoinLeave(k, ss, h, u)
    ensures Joining(Run(k, ss), h, u)
    decreases |ss|
  {
    hide KInv, Apply, Enabled, Joining, JoinLeaves;
    if ss != [] {
      StepInv(k, ss[0]);
      JoinStep(k, ss[0], h, u);
      JoinRun(Apply(k, ss[0]), ss[1..], h, u);
    }
  }

  /** Offering the handle starts the join, whether u is still there or has exited already. */
  lemma JoinStarts(k: K, h: Hid, u: Tid)
    requires KInv(k) && Enabled(k, AddToJoin(h, u)) && u in k.threads
    ensures Joining(Apply(k, AddToJoin(h, u)), h, u)
  {
    hide KInv, Append;
  }

  /** Both assertions of exos_thread_join: when the wait returns, its handle is DONE and the joined thread is
      DETACHED, provided nobody has created it again or resumed the handle by hand. */
  lemma JoinDelivers(k: K, ss: seq<Step>, t: Tid, h: Hid, u: Tid)
    requires KInv(k) && Legal(k, ss) && InWait(k, t, {h}) && AllLeave(k, ss, t, {h})
    requires Joining(k, h, u) && AllJoinLeave(k, ss, h, u)
    ensures var k' := Run(k, ss);
            && t in k'.threads
            && (k'.threads[t].state == Ready ==> DoneHandle(k', h) && IsDetached(k', u))
  {
    hide KInv, Legal, Run, AllLeave, AllJoinLeave;
    WaitDelivers(k, ss, t, {h});
    JoinRun(k, ss, h, u);
  }

  /** Creating the joined thread again before the joiner has run makes the second assertion fail. */
  lemma RecreatedTooEarly(k: K, t: Tid, h: Hid, u: Tid, priority: int)
    requires KInv(k) && InWait(k, t, {h}) && IsReady(k, t) && IsDetached(k, u)
    ensures Enabled(k, CreateThread(u, priority))
    ensures var k' := Apply(k, CreateThread(u, priority));
            IsReady(k', t) && DoneHandle(k', h) && !IsDetached(k', u)
  {
    hide KInv, Enqueued;
  }
}
