/** The doubly linked priority list of the kernel, at the level of memory words.

    A `node_t` at address n keeps Succ at n, Pred at n + 1 and Priority at n + 3. A `list_t` at
    address l is three words Head, Tail, TailPred; the kernel treats l itself as a node (LIST_HEAD,
    whose Succ is Head) and l + 1 as another one (LIST_TAIL, whose Pred is TailPred). Both end
    markers therefore take part in the same linking rule as ordinary nodes.
 */
module IntrusiveList {
  import opened SeqSets

  /** Word-addressed memory. Address 0 is NULL. */
  type Mem = seq<int>

  const NULL := 0
  const NODE_WORDS := 4
  const LIST_WORDS := 3

  /** The nodes a walk over Succ meets, end markers included. */
  function Chain(l: int, ns: seq<int>): seq<int> {
    [l] + ns + [l + 1]
  }

  ghost predicate ListAt(m: Mem, l: int) {
    NULL < l && l + LIST_WORDS <= |m|
  }

  /** A node that can join the list at l: inside memory and clear of the list header. */
  ghost predicate NodeAt(m: Mem, l: int, n: int) {
    && NULL < n && n + NODE_WORDS <= |m|
    && (n + NODE_WORDS <= l || l + LIST_WORDS <= n)
  }

  ghost predicate Apart(a: int, b: int) {
    a + NODE_WORDS <= b || b + NODE_WORDS <= a
  }

  ghost predicate NodesApart(ns: seq<int>) {
    forall i, j :: 0 <= i < j < |ns| ==> Apart(ns[i], ns[j])
  }

  /** a is followed by b: the forward and the backward link agree. */
  ghost predicate Link(m: Mem, a: int, b: int) {
    && 0 <= a < |m| && 0 <= b < |m| - 1
    && m[a] == b && m[b + 1] == a
  }

  ghost predicate Linked(m: Mem, c: seq<int>) {
    forall i :: 0 <= i < |c| - 1 ==> Link(m, c[i], c[i + 1])
  }

  /** The list header at l holds exactly the nodes ns, in this order. */
  ghost predicate IsList(m: Mem, l: int, ns: seq<int>) {
    && ListAt(m, l)
    && (forall i :: 0 <= i < |ns| ==> NodeAt(m, l, ns[i]))
    && NodesApart(ns)
    && m[l + 1] == NULL
    && Linked(m, Chain(l, ns))
  }

  // ---------------------------------------------------------------- operations on memory

  ghost predicate CanInsert(m: Mem, pred: int, node: int) {
    && 0 <= pred < |m| && 0 <= node < |m| - 1 && pred != node && pred != node + 1
    && 0 <= m[pred] < |m| - 1 && m[pred] + 1 != node && m[pred] != node && m[pred] + 1 != pred
  }

  ghost predicate CanRemove(m: Mem, node: int) {
    && 0 <= node < |m| - 1
    && 0 <= m[node + 1] < |m| && m[node + 1] != node && m[node + 1] != node + 1
    && 0 <= m[node] < |m| - 1
  }

  /** The three stores of list_initialize. */
  function Emptied(m: Mem, l: int): (m': Mem)
    requires 0 <= l && l + LIST_WORDS <= |m|
    ensures |m'| == |m|
  {
    m[l := l + 1][l + 2 := l][l + 1 := NULL]
  }

  /** The four stores of list_insert, in program order. */
  function Insert(m: Mem, pred: int, node: int): (m': Mem)
    requires CanInsert(m, pred, node)
    ensures |m'| == |m|
  {
    var m1 := m[node + 1 := pred];
    var m2 := m1[node := m1[pred]];
    var m3 := m2[m2[node] + 1 := node];
    m3[m3[node + 1] := node]
  }

  /** The two stores of list_remove, in program order. */
  function Remove(m: Mem, node: int): (m': Mem)
    requires CanRemove(m, node)
    ensures |m'| == |m|
  {
    var m1 := m[m[node + 1] := m[node]];
    m1[m1[node] + 1 := m1[node + 1]]
  }

  // ---------------------------------------------------------------- refinement to sequences

  /** No two link words of a list share an address. */
  lemma ChainDistinct(m: Mem, l: int, ns: seq<int>, i: int, j: int)
    requires IsList(m, l, ns) && 0 <= i < |ns| + 2 && 0 <= j < |ns| + 2
    ensures i != j ==> Chain(l, ns)[i] != Chain(l, ns)[j]
    ensures i <= |ns| && 1 <= j ==> Chain(l, ns)[i] != Chain(l, ns)[j] + 1
  {
    var c := Chain(l, ns);
    assert 1 <= i <= |ns| ==> c[i] == ns[i - 1] && NodeAt(m, l, ns[i - 1]);
    assert 1 <= j <= |ns| ==> c[j] == ns[j - 1] && NodeAt(m, l, ns[j - 1]);
    if 1 <= i < j <= |ns| {
      assert Apart(ns[i - 1], ns[j - 1]);
    } else if 1 <= j < i <= |ns| {
      assert Apart(ns[j - 1], ns[i - 1]);
    }
  }

  /** A node that may join the list shares no link word with it. */
  lemma FreshDistinct(m: Mem, l: int, ns: seq<int>, node: int, i: int)
    requires IsList(m, l, ns) && Joinable(m, l, ns, node) && 0 <= i < |ns| + 2
    ensures var a := Chain(l, ns)[i]; a != node && a != node + 1 && a + 1 != node
  {
    if 1 <= i <= |ns| {
      assert Chain(l, ns)[i] == ns[i - 1];
      assert Apart(ns[i - 1], node);
    }
  }

  ghost predicate Joinable(m: Mem, l: int, ns: seq<int>, node: int) {
    NodeAt(m, l, node) && forall i :: 0 <= i < |ns| ==> Apart(ns[i], node)
  }

  lemma InsertedChain(l: int, ns: seq<int>, k: int, node: int)
    requires 0 <= k <= |ns|
    ensures var c, c' := Chain(l, ns), Chain(l, InsertedAt(ns, k, node));
            && |c'| == |c| + 1 && c'[k + 1] == node
            && (forall i :: 0 <= i <= k ==> c'[i] == c[i])
            && (forall i :: k + 2 <= i < |c'| ==> c'[i] == c[i - 1])
  {
    assert Chain(l, InsertedAt(ns, k, node)) == Chain(l, ns)[..k + 1] + [node] + Chain(l, ns)[k + 1..];
  }

  lemma InsertReady(m: Mem, l: int, ns: seq<int>, k: int, node: int)
    requires IsList(m, l, ns) && 0 <= k <= |ns| && Joinable(m, l, ns, node)
    ensures CanInsert(m, Chain(l, ns)[k], node) && m[Chain(l, ns)[k]] == Chain(l, ns)[k + 1]
  {
    assert Link(m, Chain(l, ns)[k], Chain(l, ns)[k + 1]);
    FreshDistinct(m, l, ns, node, k);
    FreshDistinct(m, l, ns, node, k + 1);
    ChainDistinct(m, l, ns, k, k + 1);
  }

  /** What the four stores leave behind. */
  lemma InsertWords(m: Mem, pred: int, node: int)
    requires CanInsert(m, pred, node)
    ensures var m', succ := Insert(m, pred, node), m[pred];
            && |m'| == |m| && Link(m', pred, node) && Link(m', node, succ)
            && forall a :: 0 <= a < |m| && a != pred && a != succ + 1 && a != node && a != node + 1 ==> m'[a] == m[a]
  {
  }

  /** Every link of the list after list_insert. */
  lemma InsertLink(m: Mem, l: int, ns: seq<int>, k: int, node: int, i: int)
    requires IsList(m, l, ns) && 0 <= k <= |ns| && Joinable(m, l, ns, node)
    requires 0 <= i <= |ns| + 1
    requires CanInsert(m, Chain(l, ns)[k], node)
    ensures var c' := Chain(l, InsertedAt(ns, k, node));
            |c'| == |ns| + 3 && Link(Insert(m, Chain(l, ns)[k], node), c'[i], c'[i + 1])
  {
    InsertedChain(l, ns, k, node);
    InsertReady(m, l, ns, k, node);
    InsertWords(m, Chain(l, ns)[k], node);
    if i < k {
      OldLink(m, l, ns, k, node, i);
    } else if i > k + 1 {
      OldLink(m, l, ns, k, node, i - 1);
    }
  }

  /** A link away from the insertion point stays. */
  lemma OldLink(m: Mem, l: int, ns: seq<int>, k: int, node: int, j: int)
    requires IsList(m, l, ns) && 0 <= k <= |ns| && Joinable(m, l, ns, node)
    requires 0 <= j <= |ns| && j != k
    requires CanInsert(m, Chain(l, ns)[k], node)
    ensures Link(Insert(m, Chain(l, ns)[k], node), Chain(l, ns)[j], Chain(l, ns)[j + 1])
  {
    InsertReady(m, l, ns, k, node);
    InsertWords(m, Chain(l, ns)[k], node);
    assert Link(m, Chain(l, ns)[j], Chain(l, ns)[j + 1]);
    FreshDistinct(m, l, ns, node, j);
    FreshDistinct(m, l, ns, node, j + 1);
    ChainDistinct(m, l, ns, j, k);
    ChainDistinct(m, l, ns, j, k + 1);
    ChainDistinct(m, l, ns, j + 1, k + 1);
    ChainDistinct(m, l, ns, k, j + 1);
  }

  /** list_insert after position k of the chain puts the node at index k of the sequence. */
  lemma InsertRefines(m: Mem, l: int, ns: seq<int>, k: int, node: int)
    requires IsList(m, l, ns) && 0 <= k <= |ns| && Joinable(m, l, ns, node)
    ensures CanInsert(m, Chain(l, ns)[k], node)
    ensures IsList(Insert(m, Chain(l, ns)[k], node), l, InsertedAt(ns, k, node))
  {
    InsertReady(m, l, ns, k, node);
    var m', ns' := Insert(m, Chain(l, ns)[k], node), InsertedAt(ns, k, node);
    forall i | 0 <= i < |Chain(l, ns')| - 1
      ensures Link(m', Chain(l, ns')[i], Chain(l, ns')[i + 1])
    {
      InsertLink(m, l, ns, k, node, i);
    }
    InsertedApart(m, l, ns, k, node);
    TailUntouched(m, l, ns, k, node);
  }

  lemma InsertedApart(m: Mem, l: int, ns: seq<int>, k: int, node: int)
    requires NodesApart(ns) && 0 <= k <= |ns| && Joinable(m, l, ns, node)
    ensures NodesApart(InsertedAt(ns, k, node))
  {
    var ns' := InsertedAt(ns, k, node);
    forall i, j | 0 <= i < j < |ns'|
      ensures Apart(ns'[i], ns'[j])
    {
      var i0 := if i < k then i else i - 1;
      var j0 := if j < k then j else j - 1;
      if i == k {
        assert Apart(ns[j0], node);
      } else if j == k {
        assert Apart(ns[i0], node);
      } else {
        assert Apart(ns[i0], ns[j0]);
      }
    }
  }

  lemma TailUntouched(m: Mem, l: int, ns: seq<int>, k: int, node: int)
    requires IsList(m, l, ns) && 0 <= k <= |ns| && Joinable(m, l, ns, node)
    requires CanInsert(m, Chain(l, ns)[k], node)
    ensures Insert(m, Chain(l, ns)[k], node)[l + 1] == NULL
  {
    InsertReady(m, l, ns, k, node);
    ChainDistinct(m, l, ns, k, |ns| + 1);
    if k + 1 <= |ns| {
      ChainDistinct(m, l, ns, k + 1, 0);
    }
  }

  lemma RemovedChain(l: int, ns: seq<int>, k: int)
    requires 0 <= k < |ns|
    ensures var c, c' := Chain(l, ns), Chain(l, RemovedAt(ns, k));
            && |c'| == |c| - 1
            && (forall i :: 0 <= i <= k ==> c'[i] == c[i])
            && (forall i :: k < i < |c'| ==> c'[i] == c[i + 1])
  {
    assert Chain(l, RemovedAt(ns, k)) == Chain(l, ns)[..k + 1] + Chain(l, ns)[k + 2..];
  }

  lemma RemoveReady(m: Mem, l: int, ns: seq<int>, k: int)
    requires IsList(m, l, ns) && 0 <= k < |ns|
    ensures Chain(l, ns)[k + 1] == ns[k]
    ensures CanRemove(m, ns[k])
    ensures m[ns[k] + 1] == Chain(l, ns)[k] && m[ns[k]] == Chain(l, ns)[k + 2]
  {
    assert Link(m, Chain(l, ns)[k], Chain(l, ns)[k + 1]);
    assert Link(m, Chain(l, ns)[k + 1], Chain(l, ns)[k + 2]);
    ChainDistinct(m, l, ns, k, k + 1);
    ChainDistinct(m, l, ns, k, k + 2);
    ChainDistinct(m, l, ns, k + 1, k + 1);
  }

  /** Every link of the list after list_remove. */
  lemma RemoveLink(m: Mem, l: int, ns: seq<int>, k: int, i: int)
    requires IsList(m, l, ns) && 0 <= k < |ns| && 0 <= i < |ns|
    requires CanRemove(m, ns[k])
    ensures var c' := Chain(l, RemovedAt(ns, k));
            |c'| == |ns| + 1 && Link(Remove(m, ns[k]), c'[i], c'[i + 1])
  {
    RemovedChain(l, ns, k);
    RemoveReady(m, l, ns, k);
    ChainDistinct(m, l, ns, k, k + 2);
    if i != k {
      var j := if i < k then i else i + 1;
      assert Link(m, Chain(l, ns)[j], Chain(l, ns)[j + 1]);
      ChainDistinct(m, l, ns, j, k);
      ChainDistinct(m, l, ns, j, k + 2);
      ChainDistinct(m, l, ns, k, j + 1);
      ChainDistinct(m, l, ns, j + 1, k + 2);
    }
  }

  /** list_remove of the node at index k drops exactly that index. */
  lemma RemoveRefines(m: Mem, l: int, ns: seq<int>, k: int)
    requires IsList(m, l, ns) && 0 <= k < |ns|
    ensures CanRemove(m, ns[k]) && IsList(Remove(m, ns[k]), l, RemovedAt(ns, k))
  {
    RemoveReady(m, l, ns, k);
    var m', ns' := Remove(m, ns[k]), RemovedAt(ns, k);
    forall i | 0 <= i < |Chain(l, ns')| - 1
      ensures Link(m', Chain(l, ns')[i], Chain(l, ns')[i + 1])
    {
      RemoveLink(m, l, ns, k, i);
    }
    ChainDistinct(m, l, ns, k, |ns| + 1);
    ChainDistinct(m, l, ns, 0, k + 2);
  }

  /** Taking a node out again right after putting it in restores every word but the node's own. */
  lemma RemoveUndoesInsert(m: Mem, l: int, ns: seq<int>, k: int, node: int)
    requires IsList(m, l, ns) && 0 <= k <= |ns| && Joinable(m, l, ns, node)
    ensures CanInsert(m, Chain(l, ns)[k], node)
    ensures var m' := Insert(m, Chain(l, ns)[k], node);
            && CanRemove(m', node)
            && forall a :: 0 <= a < |m| && a != node && a != node + 1 ==> Remove(m', node)[a] == m[a]
  {
    InsertRefines(m, l, ns, k, node);
    InsertReady(m, l, ns, k, node);
    RemoveReady(Insert(m, Chain(l, ns)[k], node), l, InsertedAt(ns, k, node), k);
    assert Link(m, Chain(l, ns)[k], Chain(l, ns)[k + 1]);
  }

  // ---------------------------------------------------------------- frames

  /** Address a belongs to no link of the list at l. */
  ghost predicate Outside(l: int, ns: seq<int>, a: int) {
    && !(l <= a < l + LIST_WORDS)
    && forall i :: 0 <= i < |ns| ==> a != ns[i] && a != ns[i] + 1
  }

  lemma ChainWords(l: int, ns: seq<int>, a: int, i: int)
    requires Outside(l, ns, a) && 0 <= i < |ns| + 2
    ensures i <= |ns| ==> a != Chain(l, ns)[i]
    ensures 1 <= i ==> a != Chain(l, ns)[i] + 1
  {
    assert 1 <= i <= |ns| ==> Chain(l, ns)[i] == ns[i - 1];
  }

  lemma InsertFrame(m: Mem, l: int, ns: seq<int>, k: int, node: int, a: int)
    requires IsList(m, l, ns) && 0 <= k <= |ns| && Joinable(m, l, ns, node)
    requires CanInsert(m, Chain(l, ns)[k], node)
    requires 0 <= a < |m| && Outside(l, ns, a) && a != node && a != node + 1
    ensures Insert(m, Chain(l, ns)[k], node)[a] == m[a]
  {
    InsertReady(m, l, ns, k, node);
    ChainWords(l, ns, a, k);
    ChainWords(l, ns, a, k + 1);
  }

  lemma RemoveFrame(m: Mem, l: int, ns: seq<int>, k: int, a: int)
    requires IsList(m, l, ns) && 0 <= k < |ns| && CanRemove(m, ns[k])
    requires 0 <= a < |m| && Outside(l, ns, a)
    ensures Remove(m, ns[k])[a] == m[a]
  {
    RemoveReady(m, l, ns, k);
    ChainWords(l, ns, a, k);
    ChainWords(l, ns, a, k + 2);
  }

  /** A list depends on its link words only. */
  lemma ListFrame(m: Mem, m': Mem, l: int, ns: seq<int>)
    requires IsList(m, l, ns) && |m'| == |m|
    requires m'[l] == m[l] && m'[l + 1] == m[l + 1] && m'[l + 2] == m[l + 2]
    requires forall i :: 0 <= i < |ns| ==>
               0 <= ns[i] < |m| - 1 && m'[ns[i]] == m[ns[i]] && m'[ns[i] + 1] == m[ns[i] + 1]
    ensures IsList(m', l, ns)
  {
    var c := Chain(l, ns);
    forall i | 0 <= i < |c| - 1
      ensures Link(m', c[i], c[i + 1])
    {
      assert Link(m, c[i], c[i + 1]);
      assert 1 <= i ==> c[i] == ns[i - 1];
      assert i < |ns| ==> c[i + 1] == ns[i];
    }
    assert Linked(m', c);
  }

  // ---------------------------------------------------------------- priority order

  ghost predicate Descending(ps: seq<int>) {
    forall i, j :: 0 <= i < j < |ps| ==> ps[i] >= ps[j]
  }

  /** The index list_enqueue picks: in front of the first strictly lower priority. */
  function EnqueuePos(ps: seq<int>, p: int): (k: int)
    ensures 0 <= k <= |ps|
    ensures forall i :: 0 <= i < k ==> ps[i] >= p
    ensures k < |ps| ==> ps[k] < p
  {
    if ps == [] then 0 else if ps[0] < p then 0 else 1 + EnqueuePos(ps[1..], p)
  }

  /** Enqueueing keeps the list sorted by priority, behind every node that is at least as urgent and
      in front of every less urgent one: equals leave in arrival order. */
  lemma EnqueueSorted(ps: seq<int>, p: int)
    requires Descending(ps)
    ensures Descending(InsertedAt(ps, EnqueuePos(ps, p), p))
    ensures forall i :: 0 <= i < |ps| ==> (i < EnqueuePos(ps, p) <==> ps[i] >= p)
  {
    EnqueueSortedAt(ps, p, EnqueuePos(ps, p));
  }

  lemma EnqueueSortedAt(ps: seq<int>, p: int, k: int)
    requires Descending(ps) && 0 <= k <= |ps|
    requires forall i :: 0 <= i < k ==> ps[i] >= p
    requires k < |ps| ==> ps[k] < p
    ensures Descending(InsertedAt(ps, k, p))
    ensures forall i :: 0 <= i < |ps| ==> (i < k <==> ps[i] >= p)
  {
    forall i | k <= i < |ps| ensures ps[i] < p {
      assert ps[k] >= ps[i];
    }
    var qs := InsertedAt(ps, k, p);
    forall i, j | 0 <= i < j < |qs| ensures qs[i] >= qs[j] {
      var i0 := if i <= k then i else i - 1;
      var j0 := if j <= k then j else j - 1;
      assert i0 < j0 < |ps| ==> ps[i0] >= ps[j0];
    }
  }

  function Priority(m: Mem, n: int): int
    requires 0 <= n && n + NODE_WORDS <= |m|
  {
    m[n + 3]
  }

  function Priorities(m: Mem, ns: seq<int>): (ps: seq<int>)
    requires forall i :: 0 <= i < |ns| ==> 0 <= ns[i] && ns[i] + NODE_WORDS <= |m|
    ensures |ps| == |ns| && forall i :: 0 <= i < |ns| ==> ps[i] == Priority(m, ns[i])
  {
    seq(|ns|, i requires 0 <= i < |ns| => Priority(m, ns[i]))
  }

  // ---------------------------------------------------------------- the functions of list.c

  method ListInitialize(mem: array<int>, l: int)
    requires ListAt(mem[..], l)
    modifies mem
    ensures mem[..] == Emptied(old(mem[..]), l) && IsList(mem[..], l, [])
  {
    mem[l] := l + 1;
    mem[l + 2] := l;
    mem[l + 1] := NULL;
    assert Link(mem[..], l, l + 1);
  }

  method ListInsert(mem: array<int>, pred: int, node: int)
    requires CanInsert(mem[..], pred, node)
    modifies mem
    ensures mem[..] == Insert(old(mem[..]), pred, node)
  {
    mem[node + 1] := pred;
    mem[node] := mem[pred];
    mem[mem[node] + 1] := node;
    mem[mem[node + 1]] := node;
  }

  method ListRemove(mem: array<int>, node: int)
    requires CanRemove(mem[..], node)
    modifies mem
    ensures mem[..] == Remove(old(mem[..]), node)
  {
    mem[mem[node + 1]] := mem[node];
    mem[mem[node] + 1] := mem[node + 1];
  }

  method ListEnqueue(mem: array<int>, l: int, node: int, ghost ns: seq<int>)
    requires IsList(mem[..], l, ns) && Joinable(mem[..], l, ns, node)
    modifies mem
    ensures var k := EnqueueIndex(old(mem[..]), l, ns, node);
            && CanInsert(old(mem[..]), Chain(l, ns)[k], node)
            && mem[..] == Insert(old(mem[..]), Chain(l, ns)[k], node)
            && IsList(mem[..], l, InsertedAt(ns, k, node))
  {
    hide InsertedAt, CanInsert, Insert;
    ghost var m0 := mem[..];
    ghost var k := EnqueueIndex(m0, l, ns, node);
    WalkStep(m0, l, ns, 0);
    WalkStep(m0, l, ns, |ns|);
    var pred := mem[l + 2];
    var cur := mem[l];
    ghost var i := 0;
    while cur != l + 1
      invariant mem[..] == m0
      invariant 0 <= i <= k <= |ns| && cur == Chain(l, ns)[i + 1]
      invariant pred == Chain(l, ns)[|ns|]
      decreases |ns| - i
    {
      EnqueueStep(m0, l, ns, node, i);
      if mem[cur + 3] < mem[node + 3] {
        pred := mem[cur + 1];
        break;
      }
      cur := mem[cur];
      i := i + 1;
    }
    EnqueueStep(m0, l, ns, node, i);
    assert pred == Chain(l, ns)[k];
    InsertRefines(m0, l, ns, k, node);
    ListInsert(mem, pred, node);
  }

  ghost function EnqueueIndex(m: Mem, l: int, ns: seq<int>, node: int): (k: int)
    requires IsList(m, l, ns) && Joinable(m, l, ns, node)
    ensures 0 <= k <= |ns|
  {
    EnqueuePos(Priorities(m, ns), Priority(m, node))
  }

  lemma EnqueueStep(m: Mem, l: int, ns: seq<int>, node: int, i: int)
    requires IsList(m, l, ns) && Joinable(m, l, ns, node)
    requires 0 <= i <= EnqueueIndex(m, l, ns, node)
    ensures var cur, k := Chain(l, ns)[i + 1], EnqueueIndex(m, l, ns, node);
            && (cur == l + 1 <==> i == |ns|)
            && (i < |ns| ==>
                  && 0 <= cur < |m| - 3 && 0 <= node < |m| - 3
                  && (m[cur + 3] < m[node + 3] <==> i == k)
                  && m[cur] == Chain(l, ns)[i + 2] && m[cur + 1] == Chain(l, ns)[i])
  {
    WalkStep(m, l, ns, i);
    if i < |ns| {
      WalkStep(m, l, ns, i + 1);
      assert Priorities(m, ns)[i] == Priority(m, ns[i]);
    }
  }

  /** One step of a FOREACH walk: where the chain leads, and that only the end marker ends it. */
  lemma WalkStep(m: Mem, l: int, ns: seq<int>, i: int)
    requires IsList(m, l, ns) && 0 <= i <= |ns|
    ensures var c := Chain(l, ns);
            && 0 <= c[i] < |m| && 0 <= c[i + 1] < |m| - 1
            && m[c[i]] == c[i + 1] && m[c[i + 1] + 1] == c[i]
            && (c[i + 1] == l + 1 <==> i == |ns|)
            && (i < |ns| ==> c[i + 1] == ns[i] && NodeAt(m, l, ns[i]))
            && (i == 0 ==> c[i] == l) && (i == |ns| ==> c[i + 1] == l + 1)
  {
    assert Link(m, Chain(l, ns)[i], Chain(l, ns)[i + 1]);
    ChainDistinct(m, l, ns, i + 1, |ns| + 1);
  }

  method ListFindNode(mem: array<int>, l: int, node: int, ghost ns: seq<int>) returns (found: int)
    requires IsList(mem[..], l, ns)
    ensures found == if node in ns then node else NULL
  {
    var cur := mem[l];
    ghost var i := 0;
    WalkStep(mem[..], l, ns, 0);
    while cur != l + 1
      invariant 0 <= i <= |ns| && cur == Chain(l, ns)[i + 1]
      invariant node !in ns[..i]
      decreases |ns| - i
    {
      WalkStep(mem[..], l, ns, i);
      WalkStep(mem[..], l, ns, i + 1);
      if cur == node {
        return node;
      }
      cur := mem[cur];
      i := i + 1;
    }
    WalkStep(mem[..], l, ns, i);
    assert ns[..i] == ns;
    found := NULL;
  }

  method ListRemHead(mem: array<int>, l: int, ghost ns: seq<int>) returns (node: int)
    requires IsList(mem[..], l, ns)
    modifies mem
    ensures ns == [] ==> node == NULL && mem[..] == old(mem[..])
    ensures ns != [] ==> node == ns[0] && IsList(mem[..], l, ns[1..])
    ensures forall a :: 0 <= a < mem.Length && Outside(l, ns, a) ==> mem[a] == old(mem[a])
  {
    WalkStep(mem[..], l, ns, 0);
    if mem[l] == l + 1 {
      node := NULL;
    } else {
      node := mem[l];
      RemoveRefines(mem[..], l, ns, 0);
      assert RemovedAt(ns, 0) == ns[1..];
      ghost var m := mem[..];
      forall a | 0 <= a < |m| && Outside(l, ns, a) ensures Remove(m, node)[a] == m[a] {
        RemoveFrame(m, l, ns, 0, a);
      }
      ListRemove(mem, node);
    }
  }
}
