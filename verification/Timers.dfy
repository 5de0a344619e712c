/** The timer queue of timer.c for one-shot timers, and the uptime counter.

    A queued timer keeps its time relative to `ticks`, the count of ticks handled so far; the hardware
    reports the ticks elapsed since then. */
module Timers {
  import opened SeqSets
  import opened Words

  datatype Timer = Timer(id: nat, time: int)

  ghost predicate Sorted(q: seq<Timer>) {
    forall i, j :: 0 <= i < j < |q| ==> q[i].time <= q[j].time
  }

  ghost predicate Distinct(q: seq<Timer>) {
    forall i, j :: 0 <= i < j < |q| ==> q[i].id != q[j].id
  }

  /** Where _enqueue puts a timer: behind every timer that is not later. */
  function Position(q: seq<Timer>, time: int): (k: int)
    ensures 0 <= k <= |q|
    ensures forall i :: 0 <= i < k ==> q[i].time <= time
    ensures k < |q| ==> time < q[k].time
  {
    if q == [] || time < q[0].time then 0 else 1 + Position(q[1..], time)
  }

  function Enqueued(q: seq<Timer>, t: Timer): seq<Timer> {
    InsertedAt(q, Position(q, t.time), t)
  }

  /** What _tick_handler leaves in the queue: the timers that are not due, that much closer. */
  function Survivors(q: seq<Timer>, elapsed: int): seq<Timer> {
    if q == [] then []
    else
      var l := q[|q| - 1];
      Survivors(q[..|q| - 1], elapsed) + (if l.time <= elapsed then [] else [l.(time := l.time - elapsed)])
  }

  /** Whom it fires, in queue order. */
  function Due(q: seq<Timer>, elapsed: int): seq<nat> {
    if q == [] then []
    else
      var l := q[|q| - 1];
      Due(q[..|q| - 1], elapsed) + (if l.time <= elapsed then [l.id] else [])
  }

  // ---------------------------------------------------------------- queue facts

  lemma EnqueuedSorted(q: seq<Timer>, t: Timer)
    requires Sorted(q)
    ensures Sorted(Enqueued(q, t))
  {
    hide Position;
    var k, q' := Position(q, t.time), Enqueued(q, t);
    assert forall i :: k < i < |q| ==> q[k].time <= q[i].time;
    forall i, j | 0 <= i < j < |q'| ensures q'[i].time <= q'[j].time {
      var i0, j0 := if i < k then i else i - 1, if j < k then j else j - 1;
      assert i != k ==> q'[i] == q[i0];
      assert j != k ==> q'[j] == q[j0];
    }
  }

  lemma EnqueuedMembers(q: seq<Timer>, t: Timer, u: Timer)
    ensures u in Enqueued(q, t) <==> u in q || u == t
  {
    hide Position;
    var k := Position(q, t.time);
    assert q == q[..k] + q[k..];
  }

  lemma EnqueuedDistinct(q: seq<Timer>, t: Timer)
    requires Distinct(q) && forall i :: 0 <= i < |q| ==> q[i].id != t.id
    ensures Distinct(Enqueued(q, t))
  {
    hide Position;
    var k, q' := Position(q, t.time), Enqueued(q, t);
    forall i, j | 0 <= i < j < |q'| ensures q'[i].id != q'[j].id {
      var i0, j0 := if i < k then i else i - 1, if j < k then j else j - 1;
      assert i != k ==> q'[i] == q[i0];
      assert j != k ==> q'[j] == q[j0];
    }
  }

  /** A timer survives exactly when it is not due, and keeps its absolute deadline. */
  lemma {:induction false} SurvivorsMembers(q: seq<Timer>, elapsed: int, u: Timer)
    ensures u in Survivors(q, elapsed) <==> u.time > 0 && Timer(u.id, u.time + elapsed) in q
  {
    if q != [] {
      var p, l := q[..|q| - 1], q[|q| - 1];
      SurvivorsMembers(p, elapsed, u);
      assert q == p + [l];
    }
  }

  lemma {:induction false} DueMembers(q: seq<Timer>, elapsed: int, id: nat)
    ensures id in Due(q, elapsed) <==> exists t :: t in q && t.id == id && t.time <= elapsed
  {
    if q != [] {
      var p, l := q[..|q| - 1], q[|q| - 1];
      DueMembers(p, elapsed, id);
      assert q == p + [l];
      assert forall t :: t in q <==> t in p || t == l;
      if id in Due(p, elapsed) {
        var t :| t in p && t.id == id && t.time <= elapsed;
        assert t in q;
      }
      if l.id == id && l.time <= elapsed {
        assert l in q;
      }
    }
  }

  lemma {:induction false} SurvivorsSorted(q: seq<Timer>, elapsed: int)
    requires Sorted(q)
    ensures Sorted(Survivors(q, elapsed))
    ensures forall i :: 0 <= i < |Survivors(q, elapsed)| ==> Survivors(q, elapsed)[i].time + elapsed <= q[|q| - 1].time
  {
    if q != [] {
      var p, l := q[..|q| - 1], q[|q| - 1];
      SurvivorsSorted(p, elapsed);
      assert p != [] ==> p[|p| - 1].time <= l.time;
    }
  }

  lemma {:induction false} SurvivorsDistinct(q: seq<Timer>, elapsed: int)
    requires Distinct(q)
    ensures Distinct(Survivors(q, elapsed))
  {
    if q != [] {
      var p, l := q[..|q| - 1], q[|q| - 1];
      SurvivorsDistinct(p, elapsed);
      var s := Survivors(p, elapsed);
      forall i | 0 <= i < |s| ensures s[i].id != l.id {
        assert s[i] in s;
        SurvivorsMembers(p, elapsed, s[i]);
        var k :| 0 <= k < |p| && p[k] == Timer(s[i].id, s[i].time + elapsed);
        assert q[k].id != q[|q| - 1].id;
      }
    }
  }

  lemma TickStart(q: seq<Timer>, elapsed: int)
    ensures Survivors(q[..0], elapsed) == [] && Due(q[..0], elapsed) == []
  {
  }

  lemma TickStep(q: seq<Timer>, elapsed: int, k: int)
    requires 0 <= k < |q|
    ensures Survivors(q[..k + 1], elapsed) ==
            Survivors(q[..k], elapsed) + (if q[k].time <= elapsed then [] else [q[k].(time := q[k].time - elapsed)])
    ensures Due(q[..k + 1], elapsed) == Due(q[..k], elapsed) + (if q[k].time <= elapsed then [q[k].id] else [])
  {
    assert q[..k + 1][..k] == q[..k];
  }

  /** Working on the first element behind a prefix. */
  lemma AtBorder(done: seq<Timer>, rest: seq<Timer>, x: Timer)
    requires rest != []
    ensures (done + rest)[|done|] == rest[0]
    ensures (done + rest)[..|done|] + (done + rest)[|done| + 1..] == done + rest[1..]
    ensures (done + rest)[|done| := x] == done + [x] + rest[1..]
  {
  }

  /** Whether _enqueue reports the timer as the first one. */
  predicate BecomesFirst(q: seq<Timer>, time: int) {
    q == [] || time < q[0].time
  }

  function IndexOfId(q: seq<Timer>, id: nat): (k: int)
    ensures 0 <= k <= |q|
    ensures k < |q| ==> q[k].id == id
    ensures forall i :: 0 <= i < k ==> q[i].id != id
  {
    if q == [] || q[0].id == id then 0 else 1 + IndexOfId(q[1..], id)
  }

  predicate Queued(q: seq<Timer>, id: nat) {
    IndexOfId(q, id) < |q|
  }

  function Dropped(q: seq<Timer>, id: nat): seq<Timer> {
    if Queued(q, id) then RemovedAt(q, IndexOfId(q, id)) else q
  }

  lemma {:induction false} AllDue(q: seq<Timer>, elapsed: int)
    requires forall i :: 0 <= i < |q| ==> q[i].time <= elapsed
    ensures |Due(q, elapsed)| == |q| && Survivors(q, elapsed) == []
    ensures forall i :: 0 <= i < |q| ==> Due(q, elapsed)[i] == q[i].id
  {
    if q != [] {
      AllDue(q[..|q| - 1], elapsed);
    }
  }

  /** Queue q has n timers that are due, all in front. */
  ghost predicate Front(q: seq<Timer>, elapsed: int, n: nat) {
    n <= |q| && (forall i :: 0 <= i < n ==> q[i].time <= elapsed) && (forall i :: n <= i < |q| ==> q[i].time > elapsed)
  }

  lemma {:induction false} SortedFront(q: seq<Timer>, elapsed: int) returns (n: nat)
    requires Sorted(q)
    ensures Front(q, elapsed, n)
  {
    if q == [] || q[|q| - 1].time <= elapsed {
      n := |q|;
    } else {
      n := SortedFront(q[..|q| - 1], elapsed);
    }
  }

  lemma {:induction false} FrontFires(q: seq<Timer>, elapsed: int, n: nat)
    requires Front(q, elapsed, n)
    ensures |Due(q, elapsed)| == n && forall i :: 0 <= i < n ==> Due(q, elapsed)[i] == q[i].id
  {
    if n == |q| {
      AllDue(q, elapsed);
    } else {
      FrontFires(q[..|q| - 1], elapsed, n);
    }
  }

  lemma {:induction false} RestStays(q: seq<Timer>, elapsed: int, n: nat)
    requires Front(q, elapsed, n)
    ensures |Survivors(q, elapsed)| == |q| - n
    ensures forall i :: 0 <= i < |q| - n ==>
              Survivors(q, elapsed)[i] == Timer(q[n + i].id, q[n + i].time - elapsed)
  {
    if n == |q| {
      AllDue(q, elapsed);
    } else {
      RestStays(q[..|q| - 1], elapsed, n);
    }
  }

  /** On a sorted queue a tick fires a front part, in queue order, and leaves the rest, in order, with the elapsed time
      taken off. */
  lemma TickSplits(q: seq<Timer>, elapsed: int) returns (n: nat)
    requires Sorted(q)
    ensures n <= |q| && (forall i :: 0 <= i < |q| ==> (i < n <==> q[i].time <= elapsed))
    ensures |Due(q, elapsed)| == n && forall i :: 0 <= i < n ==> Due(q, elapsed)[i] == q[i].id
    ensures |Survivors(q, elapsed)| == |q| - n
    ensures forall i :: 0 <= i < |q| - n ==>
              Survivors(q, elapsed)[i] == Timer(q[n + i].id, q[n + i].time - elapsed)
  {
    hide Due, Survivors;
    n := SortedFront(q, elapsed);
    FrontFires(q, elapsed, n);
    RestStays(q, elapsed, n);
  }

  // ---------------------------------------------------------------- runs

  /** When the hardware will call the handler. */
  datatype Alarm = Off | At(tick: int)

  /** due: absolute deadline of every timer ever created; fired: when each one fired; disposed: those
      taken out before; alarm: what __machine_tick_prepare was last told. */
  datatype T = T(queue: seq<Timer>, ticks: nat, due: map<nat, int>, fired: map<nat, int>, disposed: set<nat>,
                 alarm: Alarm)

  /** An operation happens at true time `now`, counted in ticks. */
  datatype Op = Add(id: nat, time: nat, now: nat) | Dispose(id: nat, now: nat) | Tick(now: nat)

  /** Each timer is queued, fired or disposed; a queued one keeps its deadline as ticks + time and has not
      been due at any handled tick; a fired one had been due. */
  ghost predicate TInv(s: T) {
    && Sorted(s.queue) && Distinct(s.queue)
    && (forall t :: t in s.queue ==> TimerOk(s, t))
    && (forall id :: id in s.fired ==> id in s.due && s.due[id] <= s.fired[id] <= s.ticks)
    && (forall id :: id in s.due <==> HasId(s.queue, id) || id in s.fired || id in s.disposed)
    && (forall id :: !(HasId(s.queue, id) && (id in s.fired || id in s.disposed)))
    && s.fired.Keys !! s.disposed
  }

  ghost predicate TimerOk(s: T, t: Timer) {
    t.time > 0 && t.id in s.due && s.due[t.id] == s.ticks + t.time
  }

  ghost predicate HasId(q: seq<Timer>, id: nat) {
    exists t :: t in q && t.id == id
  }

  /** What the callers and the hardware guarantee: time does not run backwards, the counter of elapsed
      ticks has not wrapped, and a timer is created once, for at least one tick. */
  ghost predicate Performs(s: T, op: Op) {
    && s.ticks <= op.now < s.ticks + WORD
    && (op.Add? ==> op.id !in s.due && 0 < op.time < WORD)
    && (op.Dispose? ==> op.id in s.due)
  }

  /** And the relative time of a new timer fits into 32 bits. */
  ghost predicate Legal(s: T, op: Op) {
    Performs(s, op) && (op.Add? ==> op.time + (op.now - s.ticks) < WORD)
  }

  /** The tick handler at true time now. */
  ghost function Handle(s: T, now: nat): T
    requires s.ticks <= now
  {
    var e := now - s.ticks;
    var q := Survivors(s.queue, e);
    s.(queue := q, ticks := now, fired := s.fired + Stamped(Due(s.queue, e), now),
       alarm := if q == [] then Off else At(now + q[0].time))
  }

  function Stamped(ids: seq<nat>, now: nat): map<nat, int> {
    map id | id in ids :: now
  }

  ghost function Apply(s: T, op: Op): T
    requires Performs(s, op)
  {
    match op
    case Add(id, time, now) =>
      var rel := (time + (now - s.ticks)) % WORD;
      var s1 := s.(queue := Enqueued(s.queue, Timer(id, rel)), due := s.due[id := now + time]);
      if BecomesFirst(s.queue, rel) then Handle(s1, now) else s1
    case Dispose(id, now) =>
      if Queued(s.queue, id) then Handle(s.(queue := Dropped(s.queue, id), disposed := s.disposed + {id}), now) else s
    case Tick(now) => Handle(s, now)
  }

  lemma HandleMembers(s: T, now: nat, id: nat)
    requires TInv(s) && s.ticks <= now
    ensures HasId(Handle(s, now).queue, id) <==> HasId(s.queue, id) && id in s.due && s.due[id] > now
    ensures id in Due(s.queue, now - s.ticks) <==> HasId(s.queue, id) && id in s.due && s.due[id] <= now
  {
    hide Survivors, Due, Sorted, Distinct;
    var e := now - s.ticks;
    DueMembers(s.queue, e, id);
    if HasId(Handle(s, now).queue, id) {
      var u :| u in Handle(s, now).queue && u.id == id;
      SurvivorsMembers(s.queue, e, u);
      assert TimerOk(s, Timer(u.id, u.time + e));
      assert HasId(s.queue, id);
    }
    if HasId(s.queue, id) {
      var t :| t in s.queue && t.id == id;
      assert TimerOk(s, t);
      if s.due[id] > now {
        SurvivorsMembers(s.queue, e, Timer(id, t.time - e));
        assert t == Timer(id, t.time - e + e);
      }
      if u :| u in s.queue && u.id == id && u.time <= e {
        assert TimerOk(s, u);
      }
    }
  }

  /** The handler fires exactly the timers whose deadline has passed; the rest keep their deadline and
      still have time to go. */
  lemma HandleInv(s: T, now: nat)
    requires TInv(s) && s.ticks <= now
    ensures TInv(Handle(s, now))
  {
    hide Survivors, Due, Sorted, Distinct, HasId;
    var e, s' := now - s.ticks, Handle(s, now);
    SurvivorsSorted(s.queue, e);
    SurvivorsDistinct(s.queue, e);
    forall u | u in s'.queue ensures TimerOk(s', u) {
      SurvivorsMembers(s.queue, e, u);
      assert TimerOk(s, Timer(u.id, u.time + e));
    }
    forall id ensures HasId(s'.queue, id) <==> HasId(s.queue, id) && id in s.due && s.due[id] > now
      ensures id in s'.fired <==> id in s.fired || (HasId(s.queue, id) && id in s.due && s.due[id] <= now)
    {
      HandleMembers(s, now, id);
    }
  }

  lemma EnqueuedIds(q: seq<Timer>, t: Timer, id: nat)
    ensures HasId(Enqueued(q, t), id) <==> HasId(q, id) || id == t.id
  {
    hide Enqueued;
    if HasId(Enqueued(q, t), id) {
      var u :| u in Enqueued(q, t) && u.id == id;
      EnqueuedMembers(q, t, u);
    }
    if HasId(q, id) {
      var u :| u in q && u.id == id;
      EnqueuedMembers(q, t, u);
    }
    EnqueuedMembers(q, t, t);
  }

  /** A new timer is queued with deadline now + time. */
  lemma LinkInv(s: T, id: nat, time: nat, now: nat)
    requires TInv(s) && Legal(s, Add(id, time, now))
    ensures TInv(s.(queue := Enqueued(s.queue, Timer(id, time + now - s.ticks)), due := s.due[id := now + time]))
  {
    hide Enqueued, Sorted, Distinct;
    var t := Timer(id, time + now - s.ticks);
    var s' := s.(queue := Enqueued(s.queue, t), due := s.due[id := now + time]);
    forall i | 0 <= i < |s.queue| ensures s.queue[i].id != t.id {
      assert s.queue[i] in s.queue && TimerOk(s, s.queue[i]);
    }
    EnqueuedSorted(s.queue, t);
    EnqueuedDistinct(s.queue, t);
    forall u | u in s'.queue ensures TimerOk(s', u) {
      EnqueuedMembers(s.queue, t, u);
      assert u in s.queue ==> TimerOk(s, u);
    }
    forall i ensures HasId(s'.queue, i) <==> HasId(s.queue, i) || i == id {
      EnqueuedIds(s.queue, t, i);
    }
  }

  lemma AddInv(s: T, id: nat, time: nat, now: nat)
    requires TInv(s) && Legal(s, Add(id, time, now))
    ensures TInv(Apply(s, Add(id, time, now)))
  {
    hide TInv, Handle, Enqueued;
    var rel := time + now - s.ticks;
    assert rel % WORD == rel;
    LinkInv(s, id, time, now);
    var s1 := s.(queue := Enqueued(s.queue, Timer(id, rel)), due := s.due[id := now + time]);
    if BecomesFirst(s.queue, rel) {
      HandleInv(s1, now);
    }
  }

  lemma DroppedMembers(q: seq<Timer>, id: nat, u: Timer)
    requires Distinct(q) && Queued(q, id)
    ensures u in Dropped(q, id) <==> u in q && u.id != id
  {
    hide IndexOfId, RemovedAt, Distinct;
    if u in Dropped(q, id) {
      DroppedFrom(q, id, u);
    }
    if u in q && u.id != id {
      DroppedKeeps(q, id, u);
    }
  }

  lemma DroppedFrom(q: seq<Timer>, id: nat, u: Timer)
    requires Distinct(q) && Queued(q, id) && u in Dropped(q, id)
    ensures u in q && u.id != id
  {
    hide IndexOfId, RemovedAt;
    var k, d := IndexOfId(q, id), Dropped(q, id);
    RemovedIndices(q, k);
    var i :| 0 <= i < |d| && d[i] == u;
    var j := Skip(k, i);
    assert q[j] == u && q[j].id != q[k].id;
  }

  lemma DroppedKeeps(q: seq<Timer>, id: nat, u: Timer)
    requires Queued(q, id) && u in q && u.id != id
    ensures u in Dropped(q, id)
  {
    hide IndexOfId, RemovedAt;
    var k, d := IndexOfId(q, id), Dropped(q, id);
    RemovedIndices(q, k);
    var i :| 0 <= i < |q| && q[i] == u;
    if i < k { assert d[i] == u; } else { assert Skip(k, i - 1) == i && d[i - 1] == u; }
  }

  /** Where position i of a sequence without element k came from. */
  function Skip(k: int, i: int): int {
    if i < k then i else i + 1
  }

  lemma RemovedIndices(q: seq<Timer>, k: int)
    requires 0 <= k < |q|
    ensures |RemovedAt(q, k)| == |q| - 1
    ensures forall i :: 0 <= i < |q| - 1 ==>
              0 <= Skip(k, i) < |q| && Skip(k, i) != k && RemovedAt(q, k)[i] == q[Skip(k, i)]
  {
  }

  lemma DroppedOrder(q: seq<Timer>, id: nat)
    requires Sorted(q) && Distinct(q) && Queued(q, id)
    ensures Sorted(Dropped(q, id)) && Distinct(Dropped(q, id)) && HasId(q, id)
  {
    hide IndexOfId, RemovedAt;
    var k, d := IndexOfId(q, id), Dropped(q, id);
    assert q[k] in q;
    RemovedIndices(q, k);
    forall i, j | 0 <= i < j < |d| ensures d[i].time <= d[j].time && d[i].id != d[j].id {
      assert Skip(k, i) < Skip(k, j);
      assert d[i] == q[Skip(k, i)] && d[j] == q[Skip(k, j)];
    }
  }

  lemma UnlinkInv(s: T, id: nat)
    requires TInv(s) && Queued(s.queue, id)
    ensures TInv(s.(queue := Dropped(s.queue, id), disposed := s.disposed + {id}))
  {
    hide Dropped, Sorted, Distinct, Queued;
    var s' := s.(queue := Dropped(s.queue, id), disposed := s.disposed + {id});
    DroppedOrder(s.queue, id);
    forall u | u in s'.queue ensures TimerOk(s', u) {
      DroppedMembers(s.queue, id, u);
      assert TimerOk(s, u);
    }
    forall i ensures HasId(s'.queue, i) <==> HasId(s.queue, i) && i != id {
      DroppedIds(s.queue, id, i);
    }
  }

  lemma DroppedIds(q: seq<Timer>, id: nat, i: nat)
    requires Distinct(q) && Queued(q, id)
    ensures HasId(Dropped(q, id), i) <==> HasId(q, i) && i != id
  {
    hide Dropped, Distinct, Queued;
    if HasId(Dropped(q, id), i) {
      var u :| u in Dropped(q, id) && u.id == i;
      DroppedMembers(q, id, u);
    }
    if HasId(q, i) && i != id {
      var u :| u in q && u.id == i;
      DroppedMembers(q, id, u);
    }
  }

  lemma StepInv(s: T, op: Op)
    requires TInv(s) && Legal(s, op)
    ensures TInv(Apply(s, op))
  {
    hide TInv, Handle, Enqueued, Dropped;
    match op
    case Add(id, time, now) => AddInv(s, id, time, now);
    case Dispose(id, now) =>
      if Queued(s.queue, id) {
        UnlinkInv(s, id);
        HandleInv(s.(queue := Dropped(s.queue, id), disposed := s.disposed + {id}), now);
      }
    case Tick(now) => HandleInv(s, now);
  }

  // ---------------------------------------------------------------- the alarm

  /** The hardware is armed for the deadline of the first timer, and for nothing when there is none. */
  ghost predicate Armed(s: T) {
    s.alarm == if s.queue == [] then Off else At(s.ticks + s.queue[0].time)
  }

  lemma HandleArmed(s: T, now: nat)
    requires s.ticks <= now
    ensures Armed(Handle(s, now))
  {
    hide Survivors, Due;
  }

  lemma BehindFirst(q: seq<Timer>, t: Timer)
    requires !BecomesFirst(q, t.time)
    ensures q != [] && Enqueued(q, t) != [] && Enqueued(q, t)[0] == q[0]
  {
  }

  /** Every operation, whether or not its time wraps, leaves the hardware armed. */
  lemma StepArmed(s: T, op: Op)
    requires Armed(s) && Performs(s, op)
    ensures Armed(Apply(s, op))
  {
    hide Handle, Enqueued, Dropped;
    match op
    case Add(id, time, now) =>
      var t := Timer(id, (time + (now - s.ticks)) % WORD);
      if BecomesFirst(s.queue, t.time) {
        HandleArmed(s.(queue := Enqueued(s.queue, t), due := s.due[id := now + time]), now);
      } else {
        BehindFirst(s.queue, t);
      }
    case Dispose(id, now) =>
      if Queued(s.queue, id) {
        HandleArmed(s.(queue := Dropped(s.queue, id), disposed := s.disposed + {id}), now);
      }
    case Tick(now) => HandleArmed(s, now);
  }

  ghost predicate LegalRun(s: T, ops: seq<Op>)
    requires TInv(s)
    decreases |ops|
  {
    hide TInv, Apply;
    ops == [] || (Legal(s, ops[0]) && (StepInv(s, ops[0]); LegalRun(Apply(s, ops[0]), ops[1..])))
  }

  /** Over any run of one-shot timers: the queue stays sorted, each queued timer's ticks + time is still
      the deadline it was created with and lies after the last handled tick, and every timer that fired
      had reached its deadline. */
  ghost function Run(s: T, ops: seq<Op>): (s': T)
    requires TInv(s) && LegalRun(s, ops)
    ensures TInv(s')
    decreases |ops|
  {
    hide TInv, Apply, Legal;
    if ops == [] then s else (StepInv(s, ops[0]); Run(Apply(s, ops[0]), ops[1..]))
  }

  /** In every state of every run the hardware is armed for the least deadline of all queued timers, and is not armed
      exactly when there is none. */
  lemma {:induction false} RunArmed(s: T, ops: seq<Op>)
    requires TInv(s) && LegalRun(s, ops) && Armed(s)
    ensures var s' := Run(s, ops);
            && Armed(s') && (s'.alarm == Off <==> s'.queue == [])
            && (forall t :: t in s'.queue ==> t.id in s'.due && s'.alarm.At? && s'.alarm.tick <= s'.due[t.id])
            && (s'.queue != [] ==> s'.queue[0].id in s'.due && s'.alarm == At(s'.due[s'.queue[0].id]))
    decreases |ops|
  {
    hide TInv, Apply, Legal, Armed;
    if ops == [] {
      LeastDeadline(s);
    } else {
      StepInv(s, ops[0]);
      LegalPerforms(s, ops[0]);
      StepArmed(s, ops[0]);
      RunArmed(Apply(s, ops[0]), ops[1..]);
    }
  }

  lemma LegalPerforms(s: T, op: Op)
    requires Legal(s, op)
    ensures Performs(s, op)
  {
  }

  lemma LeastDeadline(s: T)
    requires TInv(s) && Armed(s)
    ensures s.alarm == Off <==> s.queue == []
    ensures forall t :: t in s.queue ==> t.id in s.due && s.alarm.At? && s.alarm.tick <= s.due[t.id]
    ensures s.queue != [] ==> s.queue[0].id in s.due && s.alarm == At(s.due[s.queue[0].id])
  {
    hide Distinct, HasId;
    if s.queue != [] {
      assert s.queue[0] in s.queue && TimerOk(s, s.queue[0]);
    }
    forall t | t in s.queue ensures t.id in s.due && s.alarm.At? && s.alarm.tick <= s.due[t.id] {
      assert TimerOk(s, t);
      var i :| 0 <= i < |s.queue| && s.queue[i] == t;
    }
  }

  /** The hardware keeps its word: nothing happens later than the tick it is armed for. */
  ghost predicate OnTime(s: T, op: Op) {
    s.alarm.At? ==> op.now <= s.alarm.tick
  }

  ghost predicate Punctual(s: T, ops: seq<Op>)
    requires TInv(s) && LegalRun(s, ops)
    decreases |ops|
  {
    hide TInv, Apply, Legal;
    ops == [] || (OnTime(s, ops[0]) && (StepInv(s, ops[0]); Punctual(Apply(s, ops[0]), ops[1..])))
  }

  /** Whoever fired did so at its deadline. */
  ghost predicate Exact(s: T) {
    forall id :: id in s.fired ==> id in s.due && s.fired[id] == s.due[id]
  }

  lemma HandleExact(s: T, now: nat)
    requires TInv(s) && Exact(s) && s.ticks <= now && forall t :: t in s.queue ==> t.id in s.due && now <= s.due[t.id]
    ensures Exact(Handle(s, now))
  {
    hide Survivors, Due, Sorted, Distinct;
    forall id | id in Handle(s, now).fired ensures id in s.due && Handle(s, now).fired[id] == s.due[id] {
      HandleMembers(s, now, id);
    }
  }

  lemma StepExact(s: T, op: Op)
    requires TInv(s) && Armed(s) && Exact(s) && Legal(s, op) && OnTime(s, op)
    ensures Exact(Apply(s, op))
  {
    hide TInv, Armed, Handle, Enqueued, Dropped, Exact;
    LeastDeadline(s);
    match op
    case Add(id, time, now) => AddExact(s, id, time, now);
    case Dispose(id, now) => if Queued(s.queue, id) { DisposeExact(s, id, now); }
    case Tick(now) => HandleExact(s, now);
  }

  lemma AddExact(s: T, id: nat, time: nat, now: nat)
    requires TInv(s) && Exact(s) && Legal(s, Add(id, time, now))
    requires forall t :: t in s.queue ==> t.id in s.due && now <= s.due[t.id]
    ensures Exact(Apply(s, Add(id, time, now)))
  {
    hide TInv, Handle, Enqueued;
    FiredKnown(s);
    var t := Timer(id, time + (now - s.ticks));
    LinkInv(s, id, time, now);
    var s1 := s.(queue := Enqueued(s.queue, t), due := s.due[id := now + time]);
    forall u | u in s1.queue ensures u.id in s1.due && now <= s1.due[u.id] {
      EnqueuedMembers(s.queue, t, u);
    }
    if BecomesFirst(s.queue, t.time) {
      HandleExact(s1, now);
    }
  }

  lemma FiredKnown(s: T)
    requires TInv(s)
    ensures forall id :: id in s.fired ==> id in s.due
  {
  }

  lemma DisposeExact(s: T, id: nat, now: nat)
    requires TInv(s) && Exact(s) && s.ticks <= now && Queued(s.queue, id) && id in s.due
    requires forall t :: t in s.queue ==> t.id in s.due && now <= s.due[t.id]
    ensures Exact(Handle(s.(queue := Dropped(s.queue, id), disposed := s.disposed + {id}), now))
  {
    hide Handle, Dropped, Sorted;
    UnlinkInv(s, id);
    var s1 := s.(queue := Dropped(s.queue, id), disposed := s.disposed + {id});
    forall u | u in s1.queue ensures u.id in s1.due && now <= s1.due[u.id] {
      DroppedMembers(s.queue, id, u);
    }
    hide TInv;
    HandleExact(s1, now);
  }

  /** With hardware that keeps its word, every timer fires exactly at its deadline, not earlier and not later. */
  lemma {:induction false} FiresExactly(s: T, ops: seq<Op>)
    requires TInv(s) && LegalRun(s, ops) && Armed(s) && Exact(s) && Punctual(s, ops)
    ensures Exact(Run(s, ops))
    decreases |ops|
  {
    hide TInv, Apply, Legal, Armed, Exact, OnTime;
    if ops != [] {
      StepInv(s, ops[0]);
      LegalPerforms(s, ops[0]);
      StepArmed(s, ops[0]);
      StepExact(s, ops[0]);
      FiresExactly(Apply(s, ops[0]), ops[1..]);
    }
  }

  lemma InitialInv()
    ensures TInv(T([], 0, map[], map[], {}, Off)) && Armed(T([], 0, map[], map[], {}, Off))
  {
  }

  /** A tick at time now fires exactly the timers whose deadline has come and leaves exactly the others
      queued. */
  lemma TickFiresDue(s: T, now: nat, id: nat)
    requires TInv(s) && s.ticks <= now && id in s.due
    ensures id in Handle(s, now).fired <==> id in s.fired || (HasId(s.queue, id) && s.due[id] <= now)
    ensures HasId(Handle(s, now).queue, id) <==> HasId(s.queue, id) && s.due[id] > now
    ensures HasId(s.queue, id) && s.due[id] <= now ==> Handle(s, now).fired[id] == now
  {
    hide Survivors, Due, HasId;
    HandleMembers(s, now, id);
  }

  /** The 32-bit sum in ___add_timer keeps the deadline exactly when it does not wrap. */
  lemma AddWraps(s: T, id: nat, time: nat, now: nat)
    requires s.ticks <= now && time < WORD && now - s.ticks < WORD
    ensures s.ticks + (time + (now - s.ticks)) % WORD == now + time <==> time + (now - s.ticks) < WORD
  {
  }

  /** A timer whose relative time wraps is queued as overdue: it fires in the same call, or stands in the queue
      with a wrong deadline. */
  lemma WrapBreaks(s: T, id: nat, time: nat, now: nat)
    requires TInv(s) && Performs(s, Add(id, time, now)) && time + (now - s.ticks) >= WORD
    ensures !TInv(Apply(s, Add(id, time, now)))
  {
    hide Survivors, Due, Sorted, Distinct, Enqueued;
    var e := now - s.ticks;
    var t := Timer(id, (time + e) % WORD);
    assert t.time == time + e - WORD;
    EnqueuedMembers(s.queue, t, t);
    var s' := Apply(s, Add(id, time, now));
    if BecomesFirst(s.queue, t.time) {
      DueMembers(Enqueued(s.queue, t), e, id);
      assert id in s'.fired && s'.fired[id] == now && s'.due[id] == now + time;
    } else {
      assert !TimerOk(s', t);
    }
  }

  /** Adding a timer keeps order and deadlines exactly when time plus elapsed ticks fit into 32 bits. */
  lemma AddIff(s: T, id: nat, time: nat, now: nat)
    requires TInv(s) && Performs(s, Add(id, time, now))
    ensures TInv(Apply(s, Add(id, time, now))) <==> time + (now - s.ticks) < WORD
  {
    hide TInv, Apply;
    if time + (now - s.ticks) < WORD {
      StepInv(s, Add(id, time, now));
    } else {
      WrapBreaks(s, id, time, now);
    }
  }

  // ---------------------------------------------------------------- timer.c

  class TimerQueue {
    var queue: seq<Timer>
    var ticks: int          // _ticks, 32-bit unsigned
    ghost var total: nat    // ticks handled in truth
    ghost var due: map<nat, int>
    ghost var fired: map<nat, int>
    ghost var disposed: set<nat>
    ghost var alarm: Alarm  // what __machine_tick_prepare was last told

    ghost function St(): T
      reads this
    {
      T(queue, total, due, fired, disposed, alarm)
    }

    ghost predicate Valid()
      reads this
    {
      ticks == total % WORD && TInv(St()) && Armed(St())
    }

    constructor ()
      ensures Valid() && St() == T([], 0, map[], map[], {}, Off)
    {
      queue, ticks, total, due, fired, disposed, alarm := [], 0, 0, map[], map[], {}, Off;
    }

    /** _enqueue; true when the timer became the first. */
    method Enqueue(t: Timer) returns (first: bool)
      modifies this`queue
      ensures queue == Enqueued(old(queue), t)
      ensures first <==> BecomesFirst(old(queue), t.time)
    {
      var k := 0;
      while k < |queue| && !(t.time < queue[k].time)
        invariant 0 <= k <= Position(queue, t.time) && queue == old(queue)
      {
        k := k + 1;
      }
      first := k == 0;
      queue := queue[..k] + [t] + queue[k..];
    }

    /** The walk of _tick_handler over one-shot timers, removing as it goes. Returns who fires. */
    method Walk(elapsed: nat) returns (ids: seq<nat>)
      modifies this`queue
      ensures queue == Survivors(old(queue), elapsed) && ids == Due(old(queue), elapsed)
    {
      hide Survivors, Due;
      ids := [];
      var i := 0;
      ghost var q := queue;
      ghost var k := 0;
      TickStart(q, elapsed);
      while i < |queue|
        invariant 0 <= k <= |q| && i == |Survivors(q[..k], elapsed)|
        invariant queue == Survivors(q[..k], elapsed) + q[k..]
        invariant ids == Due(q[..k], elapsed)
        decreases |q| - k
      {
        TickStep(q, elapsed, k);
        AtBorder(Survivors(q[..k], elapsed), q[k..], q[k].(time := q[k].time - elapsed));
        assert q[k..][1..] == q[k + 1..];
        if queue[i].time <= elapsed {
          ids := ids + [queue[i].id];
          queue := queue[..i] + queue[i + 1..];
        } else {
          queue := queue[i := queue[i].(time := queue[i].time - elapsed)];
          i := i + 1;
        }
        k := k + 1;
      }
      assert q[..k] == q;
    }

    /** The stores of _tick_handler, whatever the queue holds. */
    method Handler(elapsed: nat) returns (ids: seq<nat>, wait: int)
      requires ticks == total % WORD
      modifies this
      ensures ticks == total % WORD && St() == Handle(old(St()), old(total) + elapsed)
      ensures ids == Due(old(queue), elapsed) && wait == (if queue == [] then 0 else queue[0].time)
    {
      hide Survivors, Due, Handle;
      HandleIs(St(), total + elapsed);
      ids := Walk(elapsed);
      wait := if queue == [] then 0 else queue[0].time;
      WrapAdd(total, elapsed);
      ticks := (ticks + elapsed) % WORD;
      total := total + elapsed;
      fired := fired + Stamped(ids, total);
      alarm := if queue == [] then Off else At(total + wait);
    }

    /** _tick_handler: fires exactly the timers that are due at the true time total + elapsed. wait is the
        delay the hardware is armed with, 0 for none. */
    method TickHandler(elapsed: nat) returns (ids: seq<nat>, wait: int)
      requires Valid()
      modifies this
      ensures Valid() && St() == Handle(old(St()), old(total) + elapsed) && ids == Due(old(queue), elapsed)
      ensures wait == (if queue == [] then 0 else queue[0].time) && (queue != [] ==> wait > 0)
    {
      hide Survivors, Due, TInv, Handle, Armed;
      HandleInv(St(), total + elapsed);
      HandleArmed(St(), total + elapsed);
      ids, wait := Handler(elapsed);
      if queue != [] {
        FirstWaits(St());
      }
    }

    /** ___add_timer at the true time now. */
    method AddTimer(id: nat, time: nat, ghost now: nat, elapsed: nat)
      requires Valid() && Performs(St(), Add(id, time, now)) && elapsed == now - total
      modifies this
      ensures St() == Apply(old(St()), Add(id, time, now))
      ensures Valid() <==> time + elapsed < WORD
    {
      hide TInv, Handle, Enqueued, BecomesFirst, Armed;
      AddIff(St(), id, time, now);
      StepArmed(St(), Add(id, time, now));
      due := due[id := now + time];
      var first := Enqueue(Timer(id, (time + elapsed) % WORD));
      if first {
        var ids, wait := Handler(elapsed);
      }
    }

    /** ___rem_timer at the true time now. */
    method RemTimer(id: nat, ghost now: nat, elapsed: nat)
      requires Valid() && Legal(St(), Dispose(id, now)) && elapsed == now - total
      modifies this
      ensures Valid() && St() == Apply(old(St()), Dispose(id, now))
    {
      hide TInv, Handle, Armed, Dropped;
      if Queued(queue, id) {
        DropHandled(St(), id, now);
      }
      var k := 0;
      while k < |queue| && queue[k].id != id
        invariant 0 <= k <= IndexOfId(queue, id)
      {
        k := k + 1;
      }
      if k < |queue| {
        queue := queue[..k] + queue[k + 1..];
        disposed := disposed + {id};
        var ids, wait := Handler(elapsed);
      }
    }
  }

  lemma DropHandled(s: T, id: nat, now: nat)
    requires TInv(s) && Queued(s.queue, id) && id in s.due && s.ticks <= now
    ensures var k := IndexOfId(s.queue, id);
            && Dropped(s.queue, id) == s.queue[..k] + s.queue[k + 1..]
            && var s' := Handle(s.(queue := Dropped(s.queue, id), disposed := s.disposed + {id}), now);
            TInv(s') && Armed(s')
  {
    hide TInv, Handle, Armed;
    var s1 := s.(queue := Dropped(s.queue, id), disposed := s.disposed + {id});
    UnlinkInv(s, id);
    HandleInv(s1, now);
    HandleArmed(s1, now);
  }

  lemma WrapAdd(a: nat, b: nat)
    ensures (a % WORD + b) % WORD == (a + b) % WORD
  {
  }

  lemma HandleIs(s: T, now: nat)
    requires s.ticks <= now
    ensures var q := Survivors(s.queue, now - s.ticks);
            Handle(s, now) == s.(queue := q, ticks := now,
                                 fired := s.fired + Stamped(Due(s.queue, now - s.ticks), now),
                                 alarm := if q == [] then Off else At(now + q[0].time))
  {
  }

  lemma FirstWaits(s: T)
    requires TInv(s) && s.queue != []
    ensures s.queue[0].time > 0
  {
    assert TimerOk(s, s.queue[0]);
  }

  // ---------------------------------------------------------------- ___uptime

  const TICK_FREQ := 1000

  /** The static variables of ___uptime, 32-bit unsigned. */
  class Uptime {
    var lastTime: int
    var seconds: int
    var fraction: int
    ghost var total: nat  // true ticks at the last query

    ghost predicate Valid()
      reads this
    {
      && lastTime == total % WORD
      && seconds == (total / TICK_FREQ) % WORD
      && fraction == total % TICK_FREQ
    }

    constructor ()
      ensures Valid() && total == 0
    {
      lastTime, seconds, fraction, total := 0, 0, 0, 0;
    }

    /** ___uptime at true time now, read from a tick counter that wraps. The seconds are exact as long as
        the ticks since the last query, added to the left-over fraction, fit into 32 bits. */
    method Query(ghost now: nat, time: int) returns (uptime: int)
      requires Valid() && time == now % WORD && total <= now
      requires now - total <= WORD - TICK_FREQ
      modifies this
      ensures Valid() && total == now && uptime == (now / TICK_FREQ) % WORD
    {
      hide Mod, Div;
      UptimeStep(total, now);
      var add := Mod(time - lastTime, WORD);
      lastTime := time;
      fraction := Mod(fraction + add, WORD);
      seconds := Mod(seconds + Div(fraction, TICK_FREQ), WORD);
      fraction := Mod(fraction, TICK_FREQ);
      total := now;
      uptime := seconds;
    }
  }

  function Mod(a: int, b: int): int
    requires b > 0
  {
    a % b
  }

  function Div(a: int, b: int): int
    requires b > 0
  {
    a / b
  }

  /** One query, computed on the wrapped variables. */
  lemma UptimeStep(total: nat, now: nat)
    requires total <= now && now - total <= WORD - TICK_FREQ
    ensures var add := Mod(now % WORD - total % WORD, WORD);
            var f := Mod(total % TICK_FREQ + add, WORD);
            && Mod((total / TICK_FREQ) % WORD + Div(f, TICK_FREQ), WORD) == (now / TICK_FREQ) % WORD
            && Mod(f, TICK_FREQ) == now % TICK_FREQ
  {
    WrapDifference(now, total);
    SecondsStep(total, now);
    SmallMod(total % TICK_FREQ + (now - total));
  }

  lemma SmallMod(x: nat)
    ensures x < WORD ==> x % WORD == x
  {
  }

  /** The difference of two wrapped counters is the true difference. */
  lemma WrapDifference(now: nat, total: nat)
    requires total <= now && now - total < WORD
    ensures (now % WORD - total % WORD) % WORD == now - total
  {
  }

  lemma SecondsStep(total: nat, now: nat)
    requires total <= now && now - total <= WORD - TICK_FREQ
    ensures var f := total % TICK_FREQ + (now - total);
            && f < WORD
            && ((total / TICK_FREQ) % WORD + f / TICK_FREQ) % WORD == (now / TICK_FREQ) % WORD
            && f % TICK_FREQ == now % TICK_FREQ
  {
    var f := total % TICK_FREQ + (now - total);
    assert now == TICK_FREQ * (total / TICK_FREQ) + f;
    assert now / TICK_FREQ == total / TICK_FREQ + f / TICK_FREQ;
  }

  /** Queries at the true times nows, each soon enough after the one before. */
  ghost predicate Frequent(total: nat, nows: seq<nat>)
    decreases |nows|
  {
    nows == [] || (total <= nows[0] <= total + WORD - TICK_FREQ && Frequent(nows[0], nows[1..]))
  }

  /** What ___uptime answers, starting from the variables seconds and fraction left by a query at total. */
  function Answers(total: nat, seconds: int, fraction: int, nows: seq<nat>): seq<int>
    decreases |nows|
  {
    if nows == [] then []
    else
      var add := (nows[0] % WORD - total % WORD) % WORD;
      var f := (fraction + add) % WORD;
      var s := (seconds + f / TICK_FREQ) % WORD;
      [s] + Answers(nows[0], s, f % TICK_FREQ, nows[1..])
  }

  /** Over any run of queries the answers are the true elapsed seconds, however often the 32-bit tick
      counter wrapped in total. */
  lemma {:induction false} UptimeExact(total: nat, nows: seq<nat>)
    requires Frequent(total, nows)
    ensures var a := Answers(total, (total / TICK_FREQ) % WORD, total % TICK_FREQ, nows);
            |a| == |nows| && forall i :: 0 <= i < |nows| ==> a[i] == (nows[i] / TICK_FREQ) % WORD
    decreases |nows|
  {
    if nows != [] {
      UptimeStep(total, nows[0]);
      UptimeExact(nows[0], nows[1..]);
      var rest := Answers(nows[0], (nows[0] / TICK_FREQ) % WORD, nows[0] % TICK_FREQ, nows[1..]);
      forall i | 0 < i < |nows| ensures rest[i - 1] == (nows[i] / TICK_FREQ) % WORD {
        assert nows[1..][i - 1] == nows[i];
      }
    }
  }

  /** One query, after any gap, is exact modulo 2^32 exactly when the left-over fraction plus the ticks since the
      last query have wrapped a multiple of 1000 times; in particular when they have not wrapped. */
  lemma UptimeExactIff(total: nat, now: nat)
    requires total <= now
    ensures Answers(total, (total / TICK_FREQ) % WORD, total % TICK_FREQ, [now])[0] == (now / TICK_FREQ) % WORD
            <==> ((total % TICK_FREQ + (now - total)) / WORD) % TICK_FREQ == 0
  {
    var x := total % TICK_FREQ + (now - total);
    WrappedSum(total % TICK_FREQ, now, total);
    assert now / TICK_FREQ == total / TICK_FREQ + x / TICK_FREQ;
    var wraps := x / WORD;
    LostSeconds(wraps / TICK_FREQ, wraps % TICK_FREQ, x % WORD, x);
    SameSeconds(total / TICK_FREQ, (x % WORD) / TICK_FREQ, x / TICK_FREQ);
  }

  lemma WrappedSum(f: nat, now: nat, total: nat)
    requires total <= now
    ensures (f + (now % WORD - total % WORD) % WORD) % WORD == (f + (now - total)) % WORD
  {
    WrappedDifference(now, total);
    WrapAdd(now - total, f);
  }

  lemma WrappedDifference(now: nat, total: nat)
    requires total <= now
    ensures (now % WORD - total % WORD) % WORD == (now - total) % WORD
  {
    var a, b := now / WORD, total / WORD;
    assert now % WORD - total % WORD == now - total + WORD * (b - a);
    Multiples(now - total, b - a);
  }

  lemma Multiples(x: int, k: int)
    ensures (x + WORD * k) % WORD == x % WORD
  {
  }

  lemma SameSeconds(secs: nat, a: nat, b: nat)
    requires a <= b
    ensures (secs % WORD + a) % WORD == (secs + b) % WORD <==> (b - a) % WORD == 0
  {
    WrapAdd(secs, a);
    var x, y := secs + a, secs + b;
    assert y - x == b - a;
    if (b - a) % WORD == 0 {
      Multiples(x, (b - a) / WORD);
    }
    if x % WORD == y % WORD {
      assert y - x == WORD * (y / WORD - x / WORD);
      Multiples(0, y / WORD - x / WORD);
    }
  }

  /** x wrapped 1000 * m + r times: it loses m * 2^32 seconds and some more, less than 2^32, unless r is 0. */
  lemma LostSeconds(m: nat, r: nat, y: nat, x: nat)
    requires r < TICK_FREQ && y < WORD && x / WORD == TICK_FREQ * m + r && x % WORD == y
    ensures y / TICK_FREQ <= x / TICK_FREQ
    ensures (x / TICK_FREQ - y / TICK_FREQ) % WORD == 0 <==> r == 0
  {
    var z := WORD * r + y;
    assert x == TICK_FREQ * (WORD * m) + z;
    Thousands(WORD * m, z);
    var lost := z / TICK_FREQ - y / TICK_FREQ;
    assert x / TICK_FREQ - y / TICK_FREQ == lost + WORD * m;
    assert r > 0 ==> 4294967 <= lost < WORD;
    Multiples(lost, m);
  }

  lemma Thousands(k: int, z: nat)
    ensures (TICK_FREQ * k + z) / TICK_FREQ == k + z / TICK_FREQ
  {
  }
}
