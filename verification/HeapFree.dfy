/** Releasing a block: two-sided coalescing and relinking. */
module HeapFree {
  import opened SeqSets
  import opened IntrusiveList
  import opened HeapLayout
  import opened HeapState
  import opened HeapAlloc

  // ---------------------------------------------------------------- taking neighbours off the list

  /** The free nodes of the blocks lo..hi have been taken off the list, which is now ns. */
  ghost predicate Detached(m: Mem, h: Heap, ns: seq<int>, lo: int, hi: int) {
    && Shape(m, h) && ListsFree(h)
    && 0 <= lo <= hi <= |h.blocks|
    && IsList(m, h.list, ns)
    && multiset(ns) + multiset(FreeNodes(h.blocks[lo..hi])) == multiset(h.free)
  }

  /** A node still listed belongs to a block outside the window. */
  lemma ListedOutside(m: Mem, h: Heap, ns: seq<int>, lo: int, hi: int, k: int) returns (j: int)
    requires Detached(m, h, ns, lo, hi) && 0 <= k < |ns|
    ensures 0 <= j < |h.blocks| && h.blocks[j].free && h.blocks[j].Contents() == ns[k]
    ensures !(lo <= j < hi)
  {
    hide IsList;
    var n := ns[k];
    assert n in multiset(ns);
    assert n in multiset(FreeNodes(h.blocks));
    j := FreeNodesMember(h.blocks, n);
    FreeNodesOnce(h.blocks, h.Lo(), h.Hi(), n);
    assert n !in multiset(FreeNodes(h.blocks[lo..hi]));
    if lo <= j < hi {
      assert h.blocks[lo..hi][j - lo] == h.blocks[j];
      FreeNodesHas(h.blocks[lo..hi], j - lo);
    }
  }

  lemma NotInWindow(bs: seq<Block>, lo0: int, hi0: int, lo: int, hi: int, j: int)
    requires Tiles(bs, lo0, hi0) && 0 <= lo <= hi <= |bs|
    requires 0 <= j < |bs| && !(lo <= j < hi)
    ensures bs[j].Contents() !in FreeNodes(bs[lo..hi])
  {
    hide FreeNodes, Tiles;
    if bs[j].Contents() in FreeNodes(bs[lo..hi]) {
      var i := FreeNodesMember(bs[lo..hi], bs[j].Contents());
      assert bs[lo..hi][i] == bs[lo + i];
      TilesBounds(bs, lo0, hi0);
      if lo + i < j {
        TilesOrdered(bs, lo0, hi0, lo + i, j);
      } else {
        TilesOrdered(bs, lo0, hi0, j, lo + i);
      }
    }
  }

  /** A free block outside the window is still listed. */
  lemma StillListed(m: Mem, h: Heap, ns: seq<int>, lo: int, hi: int, j: int)
    requires Detached(m, h, ns, lo, hi)
    requires 0 <= j < |h.blocks| && h.blocks[j].free && !(lo <= j < hi)
    ensures h.blocks[j].Contents() in ns
  {
    hide IsList, FreeNodes, Tiles, AllTagged;
    var n := h.blocks[j].Contents();
    FreeNodesHas(h.blocks, j);
    assert n in multiset(h.free);
    NotInWindow(h.blocks, h.Lo(), h.Hi(), lo, hi, j);
    assert n !in multiset(FreeNodes(h.blocks[lo..hi]));
    assert n in multiset(ns);
  }

  lemma DetachedNodesIn(m: Mem, h: Heap, ns: seq<int>, lo: int, hi: int)
    requires Detached(m, h, ns, lo, hi)
    ensures NodesIn(ns, h.blocks)
  {
    hide IsList, Shape;
    forall k | 0 <= k < |ns| ensures ns[k] in ContentsOf(h.blocks) {
      var j := ListedOutside(m, h, ns, lo, hi, k);
      assert h.blocks[j] in h.blocks;
    }
  }

  /** Unlinking one more free block, next to the window. */
  lemma DetachNode(m: Mem, h: Heap, ns: seq<int>, lo: int, hi: int, k: int, lo': int, hi': int, j: int)
    requires Detached(m, h, ns, lo, hi) && 0 <= k < |ns|
    requires 0 <= j < |h.blocks| && h.blocks[j].free && ns[k] == h.blocks[j].Contents()
    requires (j == hi && lo' == lo && hi' == hi + 1) || (j == lo - 1 && lo' == lo - 1 && hi' == hi)
    ensures CanRemove(m, ns[k])
    ensures Detached(Remove(m, ns[k]), h, RemovedAt(ns, k), lo', hi')
    ensures LinksOnly(m, Remove(m, ns[k]), h.list, ns)
    ensures m[ns[k] + 1] == Chain(h.list, RemovedAt(ns, k))[k] && Chain(h.list, RemovedAt(ns, k))[k] != NULL
  {
    hide IsList, Shape, FreeNodes;
    RemoveRefines(m, h.list, ns, k);
    RemoveReady(m, h.list, ns, k);
    RemovedChain(h.list, ns, k);
    ChainNotNull(m, h.list, ns, k);
    var m' := Remove(m, ns[k]);
    forall a | 0 <= a < |m| && Outside(h.list, ns, a) ensures m'[a] == m[a] {
      RemoveFrame(m, h.list, ns, k, a);
    }
    DetachedNodesIn(m, h, ns, lo, hi);
    ShapeRelinked(m, m', h, ns);
    WindowNodes(h.blocks, lo, hi, lo', hi', j);
    RemovedCounts(ns, k);
  }

  lemma ChainNotNull(m: Mem, l: int, ns: seq<int>, k: int)
    requires IsList(m, l, ns) && 0 <= k <= |ns|
    ensures Chain(l, ns)[k] != NULL
  {
    assert k > 0 ==> Chain(l, ns)[k] == ns[k - 1] && NodeAt(m, l, ns[k - 1]);
  }

  lemma WindowNodes(bs: seq<Block>, lo: int, hi: int, lo': int, hi': int, j: int)
    requires 0 <= lo <= hi <= |bs| && 0 <= j < |bs| && bs[j].free
    requires (j == hi && lo' == lo && hi' == hi + 1) || (j == lo - 1 && lo' == lo - 1 && hi' == hi)
    ensures multiset(FreeNodes(bs[lo'..hi'])) == multiset(FreeNodes(bs[lo..hi])) + multiset{bs[j].Contents()}
  {
    FreeNodesOne(bs[j]);
    if j == hi {
      assert bs[lo'..hi'] == bs[lo..hi] + [bs[j]];
      FreeNodesConcat(bs[lo..hi], [bs[j]]);
    } else {
      assert bs[lo'..hi'] == [bs[j]] + bs[lo..hi];
      FreeNodesConcat([bs[j]], bs[lo..hi]);
    }
  }

  lemma RemovedCounts(ns: seq<int>, k: int)
    requires 0 <= k < |ns|
    ensures multiset(RemovedAt(ns, k)) + multiset{ns[k]} == multiset(ns)
  {
    assert ns == ns[..k] + [ns[k]] + ns[k + 1..];
  }

  lemma InsertedCounts(ns: seq<int>, k: int, n: int)
    requires 0 <= k <= |ns|
    ensures multiset(InsertedAt(ns, k, n)) == multiset(ns) + multiset{n}
  {
    assert ns == ns[..k] + ns[k..];
  }

  // ---------------------------------------------------------------- one block over the window

  function Merged(bs: seq<Block>, lo: int, hi: int): Block
    requires 0 <= lo < hi <= |bs|
  {
    Block(bs[lo].at, bs[hi - 1].End() - bs[lo].at - 3, true)
  }

  lemma WindowSpan(h: Heap, lo: int, hi: int)
    requires Tiles(h.blocks, h.Lo(), h.Hi()) && 0 <= lo < hi <= |h.blocks|
    ensures var b := Merged(h.blocks, lo, hi);
            && h.Lo() <= b.at && b.size >= MIN_CONTENTS && b.End() == h.blocks[hi - 1].End() <= h.Hi()
            && Tiles([b], b.at, b.End())
  {
    TilesBounds(h.blocks, h.Lo(), h.Hi());
    if lo < hi - 1 {
      TilesOrdered(h.blocks, h.Lo(), h.Hi(), lo, hi - 1);
    }
    assert [Merged(h.blocks, lo, hi)][1..] == [];
  }

  ghost predicate CanRelink(m: Mem, h: Heap, ns: seq<int>, lo: int, hi: int, p: int) {
    && 0 <= lo < hi <= |h.blocks| && 0 <= p <= |ns|
    && var b := Merged(h.blocks, lo, hi);
    && 0 <= b.at && b.at + 3 <= b.End() <= |m|
    && CanInsert(InitBlock(m, h.region, b.at, b.End()), Chain(h.list, ns)[p], b.Contents())
  }

  ghost function Relinked(m: Mem, h: Heap, ns: seq<int>, lo: int, hi: int, p: int): (m': Mem)
    requires CanRelink(m, h, ns, lo, hi, p)
    ensures |m'| == |m|
  {
    var b := Merged(h.blocks, lo, hi);
    Insert(InitBlock(m, h.region, b.at, b.End()), Chain(h.list, ns)[p], b.Contents())
  }

  function RelinkedHeap(h: Heap, ns: seq<int>, lo: int, hi: int, p: int): Heap
    requires 0 <= lo < hi <= |h.blocks| && 0 <= p <= |ns|
  {
    var b := Merged(h.blocks, lo, hi);
    h.(blocks := Replaced(h.blocks, lo, hi, [b]), free := InsertedAt(ns, p, b.Contents()))
  }

  /** Listed nodes keep clear of the window's words. */
  lemma ListedClear(m: Mem, h: Heap, ns: seq<int>, lo: int, hi: int, k: int)
    requires Detached(m, h, ns, lo, hi) && lo < hi && 0 <= k < |ns|
    ensures var b := Merged(h.blocks, lo, hi);
            && 0 < h.Lo() + 2 <= ns[k] && ns[k] + NODE_WORDS < h.Hi() <= |m|
            && (ns[k] + NODE_WORDS < b.at || b.End() < ns[k])
  {
    hide IsList;
    var j := ListedOutside(m, h, ns, lo, hi, k);
    OutsideRange(h, lo, hi, j);
    WindowSpan(h, lo, hi);
    TilesBounds(h.blocks, h.Lo(), h.Hi());
  }

  lemma InitWords(m: Mem, region: int, b: Block)
    requires 0 <= b.at && 0 <= b.size && b.End() <= |m| && b.free
    ensures var m' := InitBlock(m, region, b.at, b.End());
            && |m'| == |m| && Tagged(m', region, b)
            && forall a :: 0 <= a < |m| && !(b.at <= a < b.End()) ==> m'[a] == m[a]
  {
  }

  /** Writing the merged block's tags. */
  lemma InitShape(m: Mem, h: Heap, ns: seq<int>, lo: int, hi: int, free': seq<int>)
    requires Detached(m, h, ns, lo, hi) && lo < hi
    ensures var b := Merged(h.blocks, lo, hi);
            && 0 <= b.at && b.at + 3 <= b.End() <= |m|
            && Shape(InitBlock(m, h.region, b.at, b.End()),
                     h.(blocks := Replaced(h.blocks, lo, hi, [b]), free := free'))
  {
    hide IsList, InitBlock;
    WindowSpan(h, lo, hi);
    var b := Merged(h.blocks, lo, hi);
    InitWords(m, h.region, b);
    ShapeReplaced(m, InitBlock(m, h.region, b.at, b.End()), h, lo, hi, [b], free');
  }

  lemma InitList(m: Mem, h: Heap, ns: seq<int>, lo: int, hi: int)
    requires Detached(m, h, ns, lo, hi) && lo < hi
    ensures var b := Merged(h.blocks, lo, hi);
            && 0 <= b.at && b.at + 3 <= b.End() <= |m|
            && var m' := InitBlock(m, h.region, b.at, b.End());
            && IsList(m', h.list, ns) && Joinable(m', h.list, ns, b.Contents())
  {
    hide IsList, InitBlock;
    WindowSpan(h, lo, hi);
    var b := Merged(h.blocks, lo, hi);
    var m' := InitBlock(m, h.region, b.at, b.End());
    InitWords(m, h.region, b);
    forall k | 0 <= k < |ns|
      ensures 0 <= ns[k] < |m| - 1 && m'[ns[k]] == m[ns[k]] && m'[ns[k] + 1] == m[ns[k] + 1]
      ensures Apart(ns[k], b.Contents())
    {
      ListedClear(m, h, ns, lo, hi, k);
    }
    ListFrame(m, m', h.list, ns);
  }

  lemma RelinkNodesIn(m: Mem, h: Heap, ns: seq<int>, lo: int, hi: int, p: int)
    requires Detached(m, h, ns, lo, hi) && lo < hi && 0 <= p <= |ns|
    ensures NodesIn(RelinkedHeap(h, ns, lo, hi, p).free, RelinkedHeap(h, ns, lo, hi, p).blocks)
  {
    hide IsList, Shape;
    var b := Merged(h.blocks, lo, hi);
    var bs := Replaced(h.blocks, lo, hi, [b]);
    assert b == bs[lo];
    assert b in bs && b.Contents() in ContentsOf(bs);
    forall k | 0 <= k < |ns| ensures ns[k] in ContentsOf(bs) {
      var j := ListedOutside(m, h, ns, lo, hi, k);
      assert h.blocks[j] == bs[if j < lo then j else j - hi + lo + 1];
      assert h.blocks[j] in bs;
    }
  }

  lemma RelinkListsFree(m: Mem, h: Heap, ns: seq<int>, lo: int, hi: int, p: int)
    requires Detached(m, h, ns, lo, hi) && lo < hi && 0 <= p <= |ns|
    ensures ListsFree(RelinkedHeap(h, ns, lo, hi, p))
  {
    hide IsList, Shape, FreeNodes, InsertedAt, Replaced;
    var b := Merged(h.blocks, lo, hi);
    FreeNodesOne(b);
    InsertedCounts(ns, p, b.Contents());
    ReplacedFree(h.blocks, lo, hi, [b], h.free, InsertedAt(ns, p, b.Contents()));
  }

  lemma RelinkNeighbours(h: Heap, ns: seq<int>, lo: int, hi: int, p: int)
    requires NoFreeNeighbours(h.blocks) && 0 <= lo < hi <= |h.blocks| && 0 <= p <= |ns|
    requires lo > 0 ==> !h.blocks[lo - 1].free
    requires hi < |h.blocks| ==> !h.blocks[hi].free
    ensures NoFreeNeighbours(RelinkedHeap(h, ns, lo, hi, p).blocks)
  {
    var bs := RelinkedHeap(h, ns, lo, hi, p).blocks;
    var d := hi - lo - 1;
    forall j | 0 < j < |bs| ensures !(bs[j - 1].free && bs[j].free) {
      if j < lo {
        assert bs[j - 1] == h.blocks[j - 1] && bs[j] == h.blocks[j];
      } else if j == lo {
        assert bs[j - 1] == h.blocks[lo - 1];
      } else if j == lo + 1 {
        assert bs[j] == h.blocks[hi];
      } else {
        assert bs[j - 1] == h.blocks[j + d - 1] && bs[j] == h.blocks[j + d];
      }
    }
  }

  /** With the window's free neighbours taken off the list, one merged free block restores the
      invariant. */
  lemma RelinkInv(m: Mem, h: Heap, ns: seq<int>, lo: int, hi: int, p: int)
    requires Detached(m, h, ns, lo, hi) && lo < hi && 0 <= p <= |ns| && NoFreeNeighbours(h.blocks)
    requires lo > 0 ==> !h.blocks[lo - 1].free
    requires hi < |h.blocks| ==> !h.blocks[hi].free
    ensures CanRelink(m, h, ns, lo, hi, p)
    ensures Inv(Relinked(m, h, ns, lo, hi, p), RelinkedHeap(h, ns, lo, hi, p))
  {
    hide IsList, Shape, InitBlock, Insert, CanInsert, Joinable, NoFreeNeighbours, ListsFree;
    var b := Merged(h.blocks, lo, hi);
    var h' := RelinkedHeap(h, ns, lo, hi, p);
    InitShape(m, h, ns, lo, hi, h'.free);
    InitList(m, h, ns, lo, hi);
    var m1 := InitBlock(m, h.region, b.at, b.End());
    InsertRefines(m1, h.list, ns, p, b.Contents());
    InsertLinksOnly(m1, h.list, ns, p, b.Contents());
    RelinkNodesIn(m, h, ns, lo, hi, p);
    ShapeRelinked(m1, Relinked(m, h, ns, lo, hi, p), h', h'.free);
    RelinkListsFree(m, h, ns, lo, hi, p);
    RelinkNeighbours(h, ns, lo, hi, p);
  }

  lemma InsertLinksOnly(m: Mem, l: int, ns: seq<int>, k: int, node: int)
    requires IsList(m, l, ns) && 0 <= k <= |ns| && Joinable(m, l, ns, node)
    ensures CanInsert(m, Chain(l, ns)[k], node)
    ensures LinksOnly(m, Insert(m, Chain(l, ns)[k], node), l, InsertedAt(ns, k, node))
  {
    hide IsList, Insert, Joinable, Outside;
    InsertRefines(m, l, ns, k, node);
    InsertWords(m, Chain(l, ns)[k], node);
    var m' := Insert(m, Chain(l, ns)[k], node);
    forall a | 0 <= a < |m| && Outside(l, InsertedAt(ns, k, node), a) ensures m'[a] == m[a] {
      OutsideInserted(l, ns, k, node, a);
      InsertFrame(m, l, ns, k, node, a);
    }
  }

  // ---------------------------------------------------------------- the whole release

  /** Block i is in use and may be released. */
  ghost predicate Live(h: Heap, i: int) {
    0 <= i < |h.blocks| && !h.blocks[i].free
  }

  predicate NextFree(h: Heap, i: int) {
    0 <= i + 1 < |h.blocks| && h.blocks[i + 1].free
  }

  predicate PrevFree(h: Heap, i: int) {
    0 <= i - 1 < |h.blocks| && h.blocks[i - 1].free
  }

  function WindowLo(h: Heap, i: int): int { if PrevFree(h, i) then i - 1 else i }
  function WindowHi(h: Heap, i: int): int { if NextFree(h, i) then i + 2 else i + 1 }

  /** Free list after the successor was taken off, and where the merged block goes if it was. */
  function List1(h: Heap, i: int): seq<int> {
    if NextFree(h, i) then Without(h.free, h.blocks[i + 1].Contents()) else h.free
  }

  function Pos1(h: Heap, i: int): int {
    if NextFree(h, i) then IndexOf(h.free, h.blocks[i + 1].Contents()) else 0
  }

  /** The same after the predecessor was looked at as well. */
  function List2(h: Heap, i: int): seq<int> {
    if PrevFree(h, i) then Without(List1(h, i), h.blocks[i - 1].Contents()) else List1(h, i)
  }

  function Pos2(h: Heap, i: int): int {
    if PrevFree(h, i) then IndexOf(List1(h, i), h.blocks[i - 1].Contents()) else Pos1(h, i)
  }

  /** Abstract state after releasing block i: it merges with its free neighbours and takes the list
      position of the predecessor, else of the successor, else the head of the list. */
  function FreeHeap(h: Heap, i: int): Heap
    requires 0 <= i < |h.blocks|
  {
    RelinkedHeap(h, List2(h, i), WindowLo(h, i), WindowHi(h, i), Pos2(h, i))
  }

  /** The free list after a release. A block without free neighbour goes to the head; one that merges takes the
      place its neighbour had, the lower one's if both were free; all others keep their order. */
  lemma FreePlace(m: Mem, h: Heap, i: int)
    requires Inv(m, h) && Live(h, i)
    ensures var a, f, f' := h.blocks[i].Contents(), h.free, FreeHeap(h, i).free;
            && (!NextFree(h, i) && !PrevFree(h, i) ==> f' == [a] + f)
            && (NextFree(h, i) && !PrevFree(h, i) ==>
                  exists p :: 0 <= p < |f| && f[p] == h.blocks[i + 1].Contents() && f' == f[p := a])
            && (!NextFree(h, i) && PrevFree(h, i) ==> f' == f)
            && (NextFree(h, i) && PrevFree(h, i) ==>
                  exists p :: 0 <= p < |f| && f[p] == h.blocks[i + 1].Contents() && f' == f[..p] + f[p + 1..])
  {
    hide Inv, IndexOf, InsertedAt, RemovedAt;
    var f, g := h.free, List1(h, i);
    if NextFree(h, i) {
      FreeListed(m, h, i + 1);
      TakenOut(f, IndexOf(f, h.blocks[i + 1].Contents()));
    }
    if PrevFree(h, i) {
      FreeListed(m, h, i - 1);
      if NextFree(h, i) { NotSame(m, h, i); }
      PutBack(g, IndexOf(g, h.blocks[i - 1].Contents()), h.blocks[i - 1].Contents());
    } else if NextFree(h, i) {
      PutBack(f, IndexOf(f, h.blocks[i + 1].Contents()), h.blocks[i].Contents());
    } else {
      AtHead(f, h.blocks[i].Contents());
    }
  }

  lemma TakenOut(s: seq<int>, k: int)
    requires 0 <= k < |s|
    ensures RemovedAt(s, k) == s[..k] + s[k + 1..]
    ensures forall x :: x in s && x != s[k] ==> x in RemovedAt(s, k)
  {
    forall x | x in s && x != s[k] ensures x in RemovedAt(s, k) {
      var i :| 0 <= i < |s| && s[i] == x;
      assert RemovedAt(s, k)[if i < k then i else i - 1] == x;
    }
  }

  lemma PutBack(s: seq<int>, k: int, x: int)
    requires 0 <= k < |s|
    ensures |RemovedAt(s, k)| == |s| - 1 && InsertedAt(RemovedAt(s, k), k, x) == s[k := x]
  {
  }

  lemma AtHead(s: seq<int>, x: int)
    ensures InsertedAt(s, 0, x) == [x] + s
  {
  }

  lemma FreeListed(m: Mem, h: Heap, j: int)
    requires Inv(m, h) && 0 <= j < |h.blocks| && h.blocks[j].free
    ensures h.blocks[j].Contents() in h.free
    ensures IndexOf(h.free, h.blocks[j].Contents()) < |h.free|
  {
    hide IsList, NoFreeNeighbours, Tiles, AllTagged;
    var k := IndexOfFree(h, j);
  }

  lemma NotSame(m: Mem, h: Heap, i: int)
    requires Inv(m, h) && Live(h, i) && PrevFree(h, i) && NextFree(h, i)
    ensures h.blocks[i - 1].Contents() != h.blocks[i + 1].Contents()
  {
    hide IsList, NoFreeNeighbours, AllTagged;
    TilesBounds(h.blocks, h.Lo(), h.Hi());
    TilesOrdered(h.blocks, h.Lo(), h.Hi(), i - 1, i + 1);
  }

  lemma Start(m: Mem, h: Heap, i: int)
    requires Inv(m, h) && Live(h, i)
    ensures Detached(m, h, h.free, i, i + 1)
  {
    assert h.blocks[i..i + 1] == [h.blocks[i]];
    FreeNodesOne(h.blocks[i]);
  }

  /** Unlinking the free block next to the window, by address. */
  lemma DetachBlock(m: Mem, h: Heap, ns: seq<int>, lo: int, hi: int, lo': int, hi': int, j: int)
    requires Detached(m, h, ns, lo, hi) && 0 <= j < |h.blocks| && h.blocks[j].free
    requires (j == hi && lo' == lo && hi' == hi + 1) || (j == lo - 1 && lo' == lo - 1 && hi' == hi)
    ensures CanRemove(m, h.blocks[j].Contents())
    ensures Unlinked(m, Remove(m, h.blocks[j].Contents()), h, ns, h.blocks[j].Contents())
    ensures Detached(Remove(m, h.blocks[j].Contents()), h, Without(ns, h.blocks[j].Contents()), lo', hi')
  {
    hide IsList, Shape, Remove, ListsFree;
    StillListed(m, h, ns, lo, hi, j);
    DetachNode(m, h, ns, lo, hi, IndexOf(ns, h.blocks[j].Contents()), lo', hi', j);
  }

  /** m' is m with node n unlinked from the list ns; the node's Pred tells its old position. */
  ghost predicate Unlinked(m: Mem, m': Mem, h: Heap, ns: seq<int>, n: int) {
    && LinksOnly(m, m', h.list, ns)
    && CanRemove(m, n) && m' == Remove(m, n)
    && IndexOf(ns, n) < |ns|
    && m[n + 1] == Chain(h.list, Without(ns, n))[IndexOf(ns, n)] != NULL
  }

  ghost function Mem1(m: Mem, h: Heap, i: int): (m1: Mem)
    requires Inv(m, h) && Live(h, i)
    ensures Detached(m1, h, List1(h, i), i, WindowHi(h, i))
    ensures NextFree(h, i) ==> Unlinked(m, m1, h, h.free, h.blocks[i + 1].Contents())
    ensures !NextFree(h, i) ==> m1 == m
    ensures |m1| == |m|
  {
    hide Inv, IsList, Shape, Remove, Detached, Without, Unlinked, CanRemove;
    Start(m, h, i);
    if NextFree(h, i) then
      DetachBlock(m, h, h.free, i, i + 1, i, i + 2, i + 1);
      Remove(m, h.blocks[i + 1].Contents())
    else m
  }

  ghost function Mem2(m: Mem, h: Heap, i: int): (m2: Mem)
    requires Inv(m, h) && Live(h, i)
    ensures Detached(m2, h, List2(h, i), WindowLo(h, i), WindowHi(h, i))
    ensures PrevFree(h, i) ==> Unlinked(Mem1(m, h, i), m2, h, List1(h, i), h.blocks[i - 1].Contents())
    ensures !PrevFree(h, i) ==> m2 == Mem1(m, h, i)
    ensures |m2| == |m|
  {
    hide Inv, IsList, Shape, Remove, Detached, Without, Unlinked, CanRemove, List1;
    var m1 := Mem1(m, h, i);
    if PrevFree(h, i) then
      DetachBlock(m1, h, List1(h, i), i, WindowHi(h, i), i - 1, WindowHi(h, i), i - 1);
      Remove(m1, h.blocks[i - 1].Contents())
    else m1
  }

  lemma WindowEdges(h: Heap, i: int)
    requires NoFreeNeighbours(h.blocks) && Live(h, i)
    ensures WindowLo(h, i) > 0 ==> !h.blocks[WindowLo(h, i) - 1].free
    ensures WindowHi(h, i) < |h.blocks| ==> !h.blocks[WindowHi(h, i)].free
  {
    assert 0 < i - 1 ==> !(h.blocks[i - 1 - 1].free && h.blocks[i - 1].free);
    assert i + 2 < |h.blocks| ==> !(h.blocks[i + 2 - 1].free && h.blocks[i + 2].free);
  }

  /** Memory after releasing block i. */
  ghost function FreeMem(m: Mem, h: Heap, i: int): (m': Mem)
    requires Inv(m, h) && Live(h, i)
    ensures CanRelink(Mem2(m, h, i), h, List2(h, i), WindowLo(h, i), WindowHi(h, i), Pos2(h, i))
    ensures m' == Relinked(Mem2(m, h, i), h, List2(h, i), WindowLo(h, i), WindowHi(h, i), Pos2(h, i))
    ensures |m'| == |m| && Inv(m', FreeHeap(h, i))
  {
    hide IsList, Shape, Remove, Detached, List2, Unlinked, CanRelink, Relinked, RelinkedHeap, Mem2;
    WindowEdges(h, i);
    PosInRange(h, i);
    RelinkInv(Mem2(m, h, i), h, List2(h, i), WindowLo(h, i), WindowHi(h, i), Pos2(h, i));
    Relinked(Mem2(m, h, i), h, List2(h, i), WindowLo(h, i), WindowHi(h, i), Pos2(h, i))
  }

  lemma PosInRange(h: Heap, i: int)
    requires 0 <= i < |h.blocks|
    ensures 0 <= Pos2(h, i) <= |List2(h, i)|
  {
  }

  /** A live block other than i keeps its extent and its bytes. */
  lemma FreeKeepsLive(m: Mem, h: Heap, i: int, b: Block, a: int)
    requires Inv(m, h) && Live(h, i) && b in h.blocks && !b.free && b != h.blocks[i]
    requires b.at <= a < b.End()
    ensures b in FreeHeap(h, i).blocks
    ensures 0 <= a < |m| && |FreeMem(m, h, i)| == |m| && FreeMem(m, h, i)[a] == m[a]
  {
    hide Inv, IsList, Shape, Detached, List2, Relinked, CanRelink, Mem2, FreeMem, Pos2;
    var j :| 0 <= j < |h.blocks| && h.blocks[j] == b;
    var lo, hi := WindowLo(h, i), WindowHi(h, i);
    assert b == FreeHeap(h, i).blocks[if j < lo then j else j - hi + lo + 1];
    Detaching(m, h, i, b, a);
    PosInRange(h, i);
    var m' := FreeMem(m, h, i);
    assert m' == Relinked(Mem2(m, h, i), h, List2(h, i), lo, hi, Pos2(h, i));
    RelinkFrame(Mem2(m, h, i), h, List2(h, i), lo, hi, Pos2(h, i), j, a);
  }

  lemma Detaching(m: Mem, h: Heap, i: int, b: Block, a: int)
    requires Inv(m, h) && Live(h, i) && b in h.blocks && !b.free && b.at <= a < b.End()
    ensures 0 <= a < |m| && |Mem2(m, h, i)| == |m| && Mem2(m, h, i)[a] == m[a]
  {
    hide IsList, Remove, Detached, CanRemove, List2, NoFreeNeighbours;
    BlocksApart(h, b, b);
    LiveNotListed(m, h, b);
    FreeNodesIn(h);
    WordOutside(m, h, h.free, b, a);
    OutsideWithout(h.list, h.free, if NextFree(h, i) then h.blocks[i + 1].Contents() else 0, a);
  }

  lemma OutsideWithout(l: int, ns: seq<int>, n: int, a: int)
    requires Outside(l, ns, a)
    ensures Outside(l, Without(ns, n), a)
  {
    var ns' := Without(ns, n);
    forall i | 0 <= i < |ns'| ensures a != ns'[i] && a != ns'[i] + 1 {
      assert ns'[i] == ns[if |ns'| == |ns| || i < IndexOf(ns, n) then i else i + 1];
    }
  }

  /** The merged block's tags and links touch no word of a live block outside the window. */
  lemma RelinkFrame(m: Mem, h: Heap, ns: seq<int>, lo: int, hi: int, p: int, j: int, a: int)
    requires Detached(m, h, ns, lo, hi) && CanRelink(m, h, ns, lo, hi, p)
    requires 0 <= j < |h.blocks| && !(lo <= j < hi) && !h.blocks[j].free
    requires h.blocks[j].at <= a < h.blocks[j].End()
    ensures 0 <= a < |m| && |Relinked(m, h, ns, lo, hi, p)| == |m|
    ensures Relinked(m, h, ns, lo, hi, p)[a] == m[a]
  {
    hide IsList, CanInsert, Insert, InitBlock, AllTagged, Joinable;
    var b := Merged(h.blocks, lo, hi);
    TilesBounds(h.blocks, h.Lo(), h.Hi());
    WindowSpan(h, lo, hi);
    OutsideRange(h, lo, hi, j);
    InitWords(m, h.region, b);
    InitList(m, h, ns, lo, hi);
    DetachedNodesIn(m, h, ns, lo, hi);
    NotListed(m, h, ns, lo, hi, h.blocks[j]);
    WordOutside(m, h, ns, h.blocks[j], a);
    var m1 := InitBlock(m, h.region, b.at, b.End());
    InsertWords(m1, Chain(h.list, ns)[p], b.Contents());
    InsertFrame(m1, h.list, ns, p, b.Contents(), a);
  }

  lemma NotListed(m: Mem, h: Heap, ns: seq<int>, lo: int, hi: int, b: Block)
    requires Detached(m, h, ns, lo, hi) && b in h.blocks && !b.free
    ensures b.Contents() !in ns
  {
    hide IsList, AllTagged;
    if b.Contents() in ns {
      var k :| 0 <= k < |ns| && ns[k] == b.Contents();
      var j := ListedOutside(m, h, ns, lo, hi, k);
      BlocksApart(h, b, h.blocks[j]);
      BlocksApart(h, h.blocks[j], b);
    }
  }
}
