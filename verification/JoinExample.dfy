/** A run from boot after which the second assertion of exos_thread_join fails: main joins thread 2, thread 2
    exits, and thread 3 creates it again before main has run. Each state on the way is written out. */
module JoinExample {
  import opened SeqSets
  import IntrusiveList
  import opened KernelState
  import opened KernelSteps
  import opened KernelRuns
  import opened WaitCalls
  import opened LockCalls
  import opened JoinCalls

  const BIT: Mask := {0}

  /** Threads 2 and 3 have been created by the main thread 0; thread 1 is idle. */
  function Created(): K {
    K([0, 2, 3, 1], [], 0, 1, 4,
      map[0 := Thread(Ready, 0, {}, {}, 0), 1 := Thread(Ready, -128, {}, {}, 1),
          2 := Thread(Ready, 0, {}, {}, 2), 3 := Thread(Ready, 0, {}, {}, 3)],
      map[], map[PendingL(2) := [], JoinL(2) := [], PendingL(3) := [], JoinL(3) := []], map[], map[])
  }

  /** The main thread has queued its handle on thread 2. */
  function Joined(): K {
    Created().(
      threads := Created().threads[0 := Thread(Ready, 0, BIT, {}, 0)],
      handles := map[0 := Handle(HWaiting, Some(0), BIT, Some(JoinL(2)))],
      lists := Created().lists[JoinL(2) := [0]])
  }

  /** It sleeps until thread 2 exits. */
  function Sleeping(): K {
    Joined().(
      ready := [2, 3, 1], wait := [0], clock := 5,
      threads := Created().threads[0 := Thread(Waiting, 0, BIT, BIT, 4)])
  }

  /** Thread 2 runs and is off the ready list; the handle is on the main thread's pending list. */
  function Left(): K {
    Sleeping().(
      ready := [3, 1], running := 2,
      threads := Sleeping().threads[2 := Thread(Detached, 0, {}, {}, 2)],
      handles := map[0 := Handle(HDone, Some(0), BIT, Some(PendingL(0)))],
      lists := Created().lists[PendingL(0) := [0]])
  }

  /** The main thread has been woken. */
  function Woken(): K {
    Left().(
      ready := [3, 0, 1], wait := [], clock := 6,
      threads := Left().threads[0 := Thread(Ready, 0, BIT, BIT, 5)])
  }

  lemma FirstCreated(k1: K)
    requires k1 == AddThread(Boot(0, 1, 0), 2, 0)
    ensures k1.ready == [0, 2, 1]
  {
    var k := Boot(0, 1, 0);
    assert KernelSteps.Priorities(k.ready, k.threads) == [0, -128];
    assert IntrusiveList.EnqueuePos([0, -128], 0) == 1;
  }

  lemma CreatedReached(k1: K)
    requires k1 == AddThread(Boot(0, 1, 0), 2, 0)
    ensures AddThread(k1, 3, 0) == Created()
  {
    FirstCreated(k1);
    assert KernelSteps.Priorities(k1.ready, k1.threads) == [0, 0, -128];
    assert IntrusiveList.EnqueuePos([0, 0, -128], 0) == 2;
    var c := AddThread(k1, 3, 0);
    assert c.ready == [0, 2, 3, 1];
    assert c.threads == Created().threads;
    assert c.lists == Created().lists;
  }

  lemma FirstBit(k: K, h: Hid, l: ListId)
    requires k.running in k.threads && k.threads[k.running].maskUsed == {}
    ensures LowestFree(k.threads[k.running].maskUsed) == 0
    ensures AddHandle(k, h, l) == k.(handles := k.handles[h := Handle(HWaiting, Some(k.running), BIT, Some(l))],
                                     threads := k.threads[k.running := k.threads[k.running].(maskUsed := BIT)],
                                     lists := k.lists[l := L(k.lists, l) + [h]])
  {
    var none: Mask := {};
    assert none + BIT == BIT;
  }

  lemma JoinedReached(k3: K)
    requires k3 == Created().(handles := map[0 := DETACHED_HANDLE])
    ensures Enabled(k3, AddToJoin(0, 2)) && JoinAdd(k3, 0, 2) == Joined()
  {
    FirstBit(k3, 0, JoinL(2));
    hide BIT, AddHandle, LowestFree;
    var k4 := AddHandle(k3, 0, JoinL(2));
    assert k4.threads == Joined().threads;
    assert k4.handles == Joined().handles;
    var l: seq<Hid> := [];
    assert L(k3.lists, JoinL(2)) == l && l + [0] == [0];
    assert k4.lists == Joined().lists;
  }

  lemma SleepReady()
    ensures Without(Joined().ready, 0) == Sleeping().ready
  {
    hide BIT;
  }

  lemma SleepWait()
    ensures Enqueued(Joined().wait, Joined().threads, 0, 0) == Sleeping().wait
  {
    hide BIT;
  }

  lemma SleeperHasNothing()
    ensures !PendingMeets(Joined(), 0, BIT)
  {
    hide BIT;
  }

  lemma SleepReached()
    ensures RunningReady(Joined()) && Wait(Joined(), BIT) == Sleeping()
  {
    SleepReady();
    SleepWait();
    SleeperHasNothing();
    hide BIT, Without, Enqueued, PendingMeets;
    assert Wait(Joined(), BIT).threads == Sleeping().threads;
  }

  /** Thread 2 runs. */
  function Leaving(): K {
    Sleeping().(running := 2)
  }

  lemma CanLeave()
    ensures CanExit(Leaving())
  {
    hide BIT;
  }

  lemma LeftThreads()
    ensures Detach(Leaving()) == Leaving().(ready := Left().ready, threads := Left().threads)
  {
    assert Without(Leaving().ready, 2) == Left().ready;
    hide BIT, Without;
    assert Detach(Leaving()).threads == Left().threads;
  }

  lemma LeftLists()
    ensures L(Leaving().lists, JoinL(2)) == [0]
    ensures Append(Unlink(Leaving().lists, JoinL(2), 0), PendingL(0), 0) == Left().lists
  {
    hide BIT;
    assert Without([0], 0) == [];
    var l: seq<Hid> := [];
    assert l + [0] == [0];
  }

  lemma LeftWakes(k: K)
    requires k == Leaving().(ready := Left().ready, threads := Left().threads)
    ensures Resumable(k, 0) && Wakes(k, 0) && k.handles[0].owner == Some(0) && k.handles[0].on == Some(JoinL(2))
    ensures k.handles[0 := k.handles[0].(state := HDone, on := Some(PendingL(0)))] == Left().handles
  {
    assert !(BIT !! BIT) by { assert 0 in BIT; }
    hide BIT;
  }

  lemma LeftSame()
    ensures Left() == Leaving().(ready := Left().ready, threads := Left().threads, handles := Left().handles,
                                 lists := Left().lists)
  {
    hide BIT, Created;
  }

  lemma LeftReached()
    ensures var k := Detach(Leaving());
            L(k.lists, JoinL(2)) == [0] && Resumable(k, 0) && Wakes(k, 0) && ToPending(k, 0) == Left()
  {
    LeftThreads();
    LeftLists();
    LeftWakes(Detach(Leaving()));
    LeftSame();
    hide Append, Unlink, Detach, Left, Leaving, Wakes;
  }

  lemma WokenReached()
    ensures RemThread(Leaving()) == Woken()
  {
    LeftReached();
    WokenFromLeft();
    var k := Detach(Leaving());
    hide Left, Woken, Leaving, ToPending, WakeUp, Wakes, Resumable, CanExit;
    assert [0][1..] == [];
    assert ResumeEach(k, [0]) == Resume(k, 0);
  }

  lemma WokenFromLeft()
    ensures WakeUp(Left(), 0) == Woken()
  {
    hide BIT;
    var k, k' := Left(), WakeUp(Left(), 0);
    assert Without([0], 0) == [];
    assert KernelSteps.Priorities([3, 1], k.threads) == [0, -128];
    assert IntrusiveList.EnqueuePos([0, -128], 0) == 1;
    assert k'.ready == [3, 0, 1];
    assert k'.threads == Woken().threads;
  }

  ghost predicate Leads(k: K, s: Step, k': K) {
    KInv(k) && Enabled(k, s) && Apply(k, s) == k' && KInv(k')
  }

  /** The run ss leads through the states ks. */
  ghost predicate Path(ks: seq<K>, ss: seq<Step>) {
    |ks| == |ss| + 1 && forall i :: 0 <= i < |ss| ==> Leads(ks[i], ss[i], ks[i + 1])
  }

  lemma {:induction false} PathRuns(ks: seq<K>, ss: seq<Step>)
    requires Path(ks, ss) && KInv(ks[|ss|])
    ensures KInv(ks[0]) && Legal(ks[0], ss) && Run(ks[0], ss) == ks[|ss|]
    decreases |ss|
  {
    hide KInv, Enabled, Apply, Legal, Run;
    if ss == [] {
      RunNil(ks[0]);
    } else {
      assert Leads(ks[0], ss[0], ks[1]);
      var ks', ss' := ks[1..], ss[1..];
      forall i | 0 <= i < |ss'| ensures Leads(ks'[i], ss'[i], ks'[i + 1]) {
        assert Leads(ks[i + 1], ss[i + 1], ks[i + 1 + 1]);
      }
      PathRuns(ks[1..], ss[1..]);
      RunFirst(ks[0], ss[0], ss[1..]);
      assert [ss[0]] + ss[1..] == ss;
    }
  }

  lemma LeadsTo(k: K, s: Step, k': K)
    requires KInv(k) && Enabled(k, s) && Apply(k, s) == k'
    ensures Leads(k, s, k')
  {
    hide KInv, Enabled, Apply;
    StepTo(k, s, k');
  }

  lemma StillGone(k1: K)
    requires k1 == AddThread(Boot(0, 1, 0), 2, 0)
    ensures Gone(Boot(0, 1, 0).threads, 2) && Gone(k1.threads, 3)
  {
    hide Enqueued;
  }

  lemma ThreadApplies(k: K, t: Tid)
    requires KInv(k) && Gone(k.threads, t)
    ensures Enabled(k, CreateThread(t, 0)) && Apply(k, CreateThread(t, 0)) == AddThread(k, t, 0)
  {
    hide KInv, AddThread, Gone;
  }

  lemma ToCreated(k1: K)
    requires k1 == AddThread(Boot(0, 1, 0), 2, 0)
    ensures Leads(Boot(0, 1, 0), CreateThread(2, 0), k1) && Leads(k1, CreateThread(3, 0), Created())
  {
    hide KInv, Enabled, Apply, Created, Boot, AddThread, Gone;
    BootInv(0, 1, 0);
    CreatedReached(k1);
    StillGone(k1);
    ThreadApplies(Boot(0, 1, 0), 2);
    LeadsTo(Boot(0, 1, 0), CreateThread(2, 0), k1);
    ThreadApplies(k1, 3);
    LeadsTo(k1, CreateThread(3, 0), Created());
  }

  lemma CreateApplies(k: K, h: Hid)
    requires KInv(k) && h !in k.handles
    ensures Enabled(k, CreateHandle(h)) && Apply(k, CreateHandle(h)) == k.(handles := k.handles[h := DETACHED_HANDLE])
  {
    hide KInv;
  }

  lemma JoinApplies(k: K, h: Hid, u: Tid)
    requires KInv(k) && Enabled(k, AddToJoin(h, u))
    ensures k.running in k.threads && Apply(k, AddToJoin(h, u)) == JoinAdd(k, h, u)
  {
    hide KInv, JoinAdd;
  }

  lemma NoHandles()
    ensures Created().handles == map[]
  {
  }

  lemma ToJoined(k3: K)
    requires KInv(Created()) && k3 == Created().(handles := map[0 := DETACHED_HANDLE])
    ensures Leads(Created(), CreateHandle(0), k3) && Leads(k3, AddToJoin(0, 2), Joined())
  {
    hide KInv, Enabled, Apply, Joined, JoinAdd, Created;
    JoinedReached(k3);
    NoHandles();
    CreateApplies(Created(), 0);
    LeadsTo(Created(), CreateHandle(0), k3);
    JoinApplies(k3, 0, 2);
    LeadsTo(k3, AddToJoin(0, 2), Joined());
  }

  lemma NonEmpty()
    ensures BIT != {}
  {
  }

  lemma ToLeaving()
    requires KInv(Joined())
    ensures Leads(Joined(), WaitFor(BIT), Sleeping()) && Leads(Sleeping(), Switch, Leaving())
  {
    SleepReached();
    NonEmpty();
    hide KInv, Wait, BIT;
    LeadsTo(Joined(), WaitFor(BIT), Sleeping());
    LeadsTo(Sleeping(), Switch, Leaving());
  }

  lemma ToWoken()
    requires KInv(Leaving())
    ensures Leads(Leaving(), Exit, Woken()) && Leads(Woken(), Switch, Woken().(running := 3))
  {
    WokenReached();
    CanLeave();
    hide KInv, Leaving, RemThread, CanExit;
    LeadsTo(Leaving(), Exit, Woken());
    LeadsTo(Woken(), Switch, Woken().(running := 3));
  }

  lemma WokenWaits()
    ensures var k := Woken().(running := 3);
            InWait(k, 0, {0}) && IsReady(k, 0) && DoneHandle(k, 0) && IsDetached(k, 2)
  {
    assert DoneHandle(Woken().(running := 3), 0) && 0 in {0};
  }

  lemma ToRecreated(k8: K, k9: K)
    requires k8 == Woken().(running := 3) && KInv(k8) && k9 == AddThread(k8, 2, 0)
    ensures Leads(k8, CreateThread(2, 0), k9)
    ensures IsReady(k9, 0) && DoneHandle(k9, 0) && !IsDetached(k9, 2)
  {
    WokenWaits();
    hide KInv, Woken, Enqueued;
    LeadsTo(k8, CreateThread(2, 0), k9);
  }

  /** Created, joined, exited and created again: the joiner is READY with its handle DONE, and the thread it
      joined is not DETACHED. */
  lemma RecreatedRun()
    ensures var ss := [CreateThread(2, 0), CreateThread(3, 0), CreateHandle(0), AddToJoin(0, 2), WaitFor(BIT), Switch,
                       Exit, Switch, CreateThread(2, 0)];
            && KInv(Boot(0, 1, 0)) && Legal(Boot(0, 1, 0), ss)
            && var k := Run(Boot(0, 1, 0), ss);
            && IsReady(k, 0) && DoneHandle(k, 0) && !IsDetached(k, 2)
  {
    hide KInv, Boot, Created, Joined, Sleeping, Woken, AddThread, Legal, Run, Enabled, Apply,
         BIT, IsReady, DoneHandle, IsDetached;
    var k1, k3 := AddThread(Boot(0, 1, 0), 2, 0), Created().(handles := map[0 := DETACHED_HANDLE]);
    var k8 := Woken().(running := 3);
    var k9 := AddThread(k8, 2, 0);
    ToCreated(k1);
    ToJoined(k3);
    ToLeaving();
    ToWoken();
    ToRecreated(k8, k9);
    PathRuns([Boot(0, 1, 0), k1, Created(), k3, Joined(), Sleeping(), Leaving(), Woken(), k8, k9],
             [CreateThread(2, 0), CreateThread(3, 0), CreateHandle(0), AddToJoin(0, 2), WaitFor(BIT), Switch, Exit,
              Switch, CreateThread(2, 0)]);
  }
}
