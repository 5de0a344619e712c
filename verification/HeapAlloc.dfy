/** Allocation: first fit, optional split, unlinking from the free list. */
module HeapAlloc {
  import opened SeqSets
  import opened IntrusiveList
  import opened HeapLayout
  import opened HeapState

  /** _init_block: header and footer of a free block over the words s..e. */
  function InitBlock(m: Mem, region: int, s: int, e: int): Mem
    requires 0 <= s && s + 3 <= e <= |m|
  {
    m[s := region][s + 1 := e - s - 3][e - 1 := e - s - 3]
  }

  /** Position in the free list of the first block with room for n words, or its length. */
  function FirstFit(m: Mem, ns: seq<int>, n: int): (k: int)
    requires forall i :: 0 <= i < |ns| ==> 1 <= ns[i] <= |m|
    ensures 0 <= k <= |ns|
    ensures forall i :: 0 <= i < k ==> m[ns[i] - 1] < n
    ensures k < |ns| ==> m[ns[k] - 1] >= n
  {
    if ns == [] || m[ns[0] - 1] >= n then 0 else 1 + FirstFit(m, ns[1..], n)
  }

  // ---------------------------------------------------------------- splitting

  ghost predicate Splittable(h: Heap, i: int, k: int, n: int) {
    && 0 <= i < |h.blocks| && h.blocks[i].free
    && 0 <= k < |h.free| && h.free[k] == h.blocks[i].Contents()
    && MIN_CONTENTS <= n && h.blocks[i].size - n >= HEADER_WORDS + NODE_WORDS + FOOTER_WORDS
  }

  /** The two blocks a split leaves. */
  function Halves(b: Block, n: int): seq<Block> {
    [Block(b.at, n, false), Block(b.at + 3 + n, b.size - n - 3, true)]
  }

  function SplitTags(m: Mem, region: int, b: Block, n: int): Mem
    requires 0 <= b.at && 0 <= n && n + 3 <= b.size && b.End() <= |m|
  {
    InitBlock(m[b.at + 1 := n][b.at + 2 + n := 0], region, b.at + 3 + n, b.End())
  }

  function SplitHeap(h: Heap, i: int, k: int, n: int): Heap
    requires 0 <= i < |h.blocks| && 0 <= k < |h.free|
  {
    var b := h.blocks[i];
    h.(blocks := Replaced(h.blocks, i, i + 1, Halves(b, n)), free := h.free[k := b.at + 5 + n])
  }

  lemma BlockFits(m: Mem, h: Heap, i: int)
    requires Inv(m, h) && 0 <= i < |h.blocks|
    ensures var b := h.blocks[i];
            h.start < b.at && b.End() <= h.end - 2 <= |m| - 2 && b.size >= MIN_CONTENTS && Tagged(m, h.region, b)
  {
    TilesBounds(h.blocks, h.Lo(), h.Hi());
  }

  lemma SplitTagsWords(m: Mem, region: int, b: Block, n: int)
    requires 0 <= b.at && MIN_CONTENTS <= n && n + 3 + MIN_CONTENTS <= b.size && b.End() <= |m|
    requires m[b.at] == region
    ensures var m' := SplitTags(m, region, b, n);
            && |m'| == |m|
            && AllTagged(m', region, Halves(b, n)) && Tiles(Halves(b, n), b.at, b.End())
            && (forall a :: 0 <= a < |m| && !(b.at <= a < b.End()) ==> m'[a] == m[a])
            && m'[b.at + 2] == m[b.at + 2] && m'[b.at + 3] == m[b.at + 3]
  {
    var cs := Halves(b, n);
    assert cs[1..][1..] == [];
    assert Tiles(cs[1..], b.at + 3 + n, b.End());
    assert Tagged(SplitTags(m, region, b, n), region, cs[0]);
    assert Tagged(SplitTags(m, region, b, n), region, cs[1]);
  }

  /** Rewriting the tags gives the tiling with the block cut in two. */
  lemma SplitTagsShape(m: Mem, h: Heap, i: int, k: int, n: int)
    requires Inv(m, h) && Splittable(h, i, k, n)
    ensures var b := h.blocks[i];
            && 0 <= b.at && b.End() <= |m|
            && Shape(SplitTags(m, h.region, b, n), SplitHeap(h, i, k, n))
  {
    hide SplitTags, Halves, Shape, AllTagged;
    BlockFits(m, h, i);
    var b := h.blocks[i];
    SplitTagsWords(m, h.region, b, n);
    ShapeReplaced(m, SplitTags(m, h.region, b, n), h, i, i + 1, Halves(b, n), h.free[k := b.at + 5 + n]);
  }

  /** Storing inside block i, but not to its two link words, leaves the free list as it was. */
  lemma TagsLeaveList(m: Mem, m': Mem, h: Heap, i: int)
    requires Inv(m, h) && 0 <= i < |h.blocks| && |m'| == |m|
    requires forall a :: 0 <= a < |m| && !(h.blocks[i].at <= a < h.blocks[i].End()) ==> m'[a] == m[a]
    requires 0 <= h.blocks[i].at < |m| - 3
    requires m'[h.blocks[i].at + 2] == m[h.blocks[i].at + 2] && m'[h.blocks[i].at + 3] == m[h.blocks[i].at + 3]
    ensures IsList(m', h.list, h.free)
  {
    hide IsList;
    var b := h.blocks[i];
    TilesBounds(h.blocks, h.Lo(), h.Hi());
    FreeNodesIn(h);
    forall j | 0 <= j < |h.free|
      ensures 0 <= h.free[j] < |m| - 1 && m'[h.free[j]] == m[h.free[j]] && m'[h.free[j] + 1] == m[h.free[j] + 1]
    {
      var c := OwnerOf(h, h.free, j);
      BlocksApart(h, b, c);
      BlocksApart(h, c, b);
    }
    ListFrame(m, m', h.list, h.free);
  }

  /** Rewriting the tags leaves the free list as it was. */
  lemma SplitTagsList(m: Mem, h: Heap, i: int, k: int, n: int)
    requires Inv(m, h) && Splittable(h, i, k, n)
    ensures var b := h.blocks[i];
            && 0 <= b.at && b.End() <= |m|
            && IsList(SplitTags(m, h.region, b, n), h.list, h.free)
  {
    hide SplitTags, IsList;
    BlockFits(m, h, i);
    SplitTagsWords(m, h.region, h.blocks[i], n);
    TagsLeaveList(m, SplitTags(m, h.region, h.blocks[i], n), h, i);
  }

  /** The contents of the upper half can carry a list node. */
  lemma UpperJoinable(m: Mem, m': Mem, h: Heap, i: int, k: int, n: int)
    requires Inv(m, h) && Splittable(h, i, k, n) && |m'| == |m|
    ensures Joinable(m', h.list, h.free, h.blocks[i].at + 5 + n)
  {
    BlockFits(m, h, i);
    var b := h.blocks[i];
    FreeNodesIn(h);
    forall j | 0 <= j < |h.free| ensures Apart(h.free[j], b.at + 5 + n) {
      var c := OwnerOf(h, h.free, j);
      BlocksApart(h, b, c);
      BlocksApart(h, c, b);
    }
  }

  lemma SwapNode(ns: seq<int>, k: int, node: int)
    requires 0 <= k < |ns|
    ensures RemovedAt(InsertedAt(ns, k + 1, node), k) == ns[k := node]
    ensures InsertedAt(ns, k + 1, node)[k] == ns[k]
  {
  }

  lemma SwapNodeCounts(ns: seq<int>, k: int, node: int)
    requires 0 <= k < |ns|
    ensures multiset(ns[k := node]) + multiset([ns[k]]) == multiset(ns) + multiset([node])
  {
    assert ns == ns[..k] + [ns[k]] + ns[k + 1..];
    assert ns[k := node] == ns[..k] + [node] + ns[k + 1..];
    SwapMiddle(ns[..k], [ns[k]], [node], ns[k + 1..]);
  }

  ghost predicate CanTakeSplit(m: Mem, region: int, b: Block, n: int) {
    && 0 <= b.at && 0 <= n && n + 3 <= b.size && b.End() <= |m|
    && CanInsert(SplitTags(m, region, b, n), b.Contents(), b.at + 5 + n)
    && CanRemove(Insert(SplitTags(m, region, b, n), b.Contents(), b.at + 5 + n), b.Contents())
  }

  /** Memory after allocating n words from the larger free block b. */
  function TakeSplit(m: Mem, region: int, b: Block, n: int): (m': Mem)
    requires CanTakeSplit(m, region, b, n)
    ensures |m'| == |m|
  {
    Remove(Insert(SplitTags(m, region, b, n), b.Contents(), b.at + 5 + n), b.Contents())
  }

  /** The free list after the split: the upper half stands where the whole block stood. */
  lemma SplitList(m: Mem, h: Heap, i: int, k: int, n: int)
    requires Inv(m, h) && Splittable(h, i, k, n)
    ensures CanTakeSplit(m, h.region, h.blocks[i], n)
    ensures IsList(TakeSplit(m, h.region, h.blocks[i], n), h.list, h.free[k := h.blocks[i].at + 5 + n])
  {
    hide Inv, IsList, SplitTags, Insert, Remove, InsertedAt, RemovedAt, CanInsert, CanRemove;
    var b := h.blocks[i];
    var nd := b.at + 5 + n;
    SplitInsert(m, h, i, k, n);
    SwapNode(h.free, k, nd);
    InsertedLength(h.free, k + 1, nd);
    RemoveRefines(Insert(SplitTags(m, h.region, b, n), b.Contents(), nd), h.list, InsertedAt(h.free, k + 1, nd), k);
  }

  /** First half of it: the upper half is linked behind the whole block. */
  lemma SplitInsert(m: Mem, h: Heap, i: int, k: int, n: int)
    requires Inv(m, h) && Splittable(h, i, k, n)
    ensures var b := h.blocks[i];
            && 0 <= b.at && b.End() <= |m| && 0 <= k < |h.free|
            && CanInsert(SplitTags(m, h.region, b, n), b.Contents(), b.at + 5 + n)
            && IsList(Insert(SplitTags(m, h.region, b, n), b.Contents(), b.at + 5 + n), h.list,
                      InsertedAt(h.free, k + 1, b.at + 5 + n))
            && |Insert(SplitTags(m, h.region, b, n), b.Contents(), b.at + 5 + n)| == |m|
  {
    hide IsList, SplitTags, Insert, InsertedAt, CanInsert, NoFreeNeighbours;
    var b := h.blocks[i];
    var m1 := SplitTags(m, h.region, b, n);
    BlockFits(m, h, i);
    SplitTagsWords(m, h.region, b, n);
    SplitTagsList(m, h, i, k, n);
    UpperJoinable(m, m1, h, i, k, n);
    assert Chain(h.list, h.free)[k + 1] == b.Contents();
    InsertRefines(m1, h.list, h.free, k + 1, b.at + 5 + n);
  }

  lemma InsertedLength(ns: seq<int>, k: int, node: int)
    requires 0 <= k <= |ns|
    ensures |InsertedAt(ns, k, node)| == |ns| + 1
  {
  }

  /** Beyond the tags, splitting stores to link words only. */
  lemma SplitLinksOnly(m: Mem, h: Heap, i: int, k: int, n: int)
    requires Inv(m, h) && Splittable(h, i, k, n)
    requires CanTakeSplit(m, h.region, h.blocks[i], n)
    ensures LinksOnly(SplitTags(m, h.region, h.blocks[i], n), TakeSplit(m, h.region, h.blocks[i], n),
                      h.list, InsertedAt(h.free, k + 1, h.blocks[i].at + 5 + n))
  {
    var b := h.blocks[i];
    var nd := b.at + 5 + n;
    SplitTagsList(m, h, i, k, n);
    var m1 := SplitTags(m, h.region, b, n);
    UpperJoinable(m, m1, h, i, k, n);
    assert Chain(h.list, h.free)[k + 1] == b.Contents();
    InsertRefines(m1, h.list, h.free, k + 1, nd);
    SwapNode(h.free, k, nd);
    var m2 := Insert(m1, b.Contents(), nd);
    var ns := InsertedAt(h.free, k + 1, nd);
    forall a | 0 <= a < |m1| && Outside(h.list, ns, a) ensures Remove(m2, b.Contents())[a] == m1[a] {
      OutsideInserted(h.list, h.free, k + 1, nd, a);
      InsertFrame(m1, h.list, h.free, k + 1, nd, a);
      RemoveFrame(m2, h.list, ns, k, a);
    }
  }

  lemma OutsideInserted(l: int, ns: seq<int>, k: int, node: int, a: int)
    requires 0 <= k <= |ns|
    ensures Outside(l, InsertedAt(ns, k, node), a) <==> Outside(l, ns, a) && a != node && a != node + 1
  {
    var ns' := InsertedAt(ns, k, node);
    assert forall i :: 0 <= i < |ns| ==> ns[i] == ns'[if i < k then i else i + 1];
    assert ns'[k] == node;
  }

  lemma SplitContents(h: Heap, i: int, k: int, n: int, c: Block)
    requires 0 <= i < |h.blocks| && 0 <= k < |h.free| && c in h.blocks
    ensures c.Contents() in ContentsOf(SplitHeap(h, i, k, n).blocks)
  {
    var bs := SplitHeap(h, i, k, n).blocks;
    var j :| 0 <= j < |h.blocks| && h.blocks[j] == c;
    if j == i {
      assert bs[i] in bs && bs[i].Contents() == c.Contents();
    } else {
      assert c == bs[if j < i then j else j + 1];
    }
  }

  lemma SplitNodesIn(h: Heap, i: int, k: int, n: int)
    requires ListsFree(h) && Splittable(h, i, k, n)
    ensures NodesIn(InsertedAt(h.free, k + 1, h.blocks[i].at + 5 + n), SplitHeap(h, i, k, n).blocks)
  {
    var bs := SplitHeap(h, i, k, n).blocks;
    FreeNodesIn(h);
    assert bs[i + 1] == Halves(h.blocks[i], n)[1];
    assert bs[i + 1] in bs && bs[i + 1].Contents() == h.blocks[i].at + 5 + n;
    hide SplitHeap, Splittable, ListsFree;
    forall j | 0 <= j < |h.free| ensures h.free[j] in ContentsOf(bs) {
      var c := OwnerOf(h, h.free, j);
      SplitContents(h, i, k, n, c);
    }
  }

  lemma SplitListsFree(h: Heap, i: int, k: int, n: int)
    requires ListsFree(h) && Splittable(h, i, k, n)
    ensures ListsFree(SplitHeap(h, i, k, n))
  {
    hide Halves, Replaced, FreeNodes;
    var b := h.blocks[i];
    assert h.blocks[i..i + 1] == [b];
    FreeNodesOne(b);
    HalvesNodes(b, n);
    SwapNodeCounts(h.free, k, b.at + 5 + n);
    ReplacedFree(h.blocks, i, i + 1, Halves(b, n), h.free, h.free[k := b.at + 5 + n]);
  }

  lemma HalvesNodes(b: Block, n: int)
    ensures FreeNodes(Halves(b, n)) == [b.at + 5 + n]
  {
    var cs := Halves(b, n);
    assert cs == [cs[0]] + [cs[1]];
    FreeNodesConcat([cs[0]], [cs[1]]);
    FreeNodesOne(cs[0]);
    FreeNodesOne(cs[1]);
  }

  lemma SplitNeighbours(h: Heap, i: int, k: int, n: int)
    requires NoFreeNeighbours(h.blocks) && Splittable(h, i, k, n)
    ensures NoFreeNeighbours(SplitHeap(h, i, k, n).blocks)
  {
    var bs := SplitHeap(h, i, k, n).blocks;
    forall j | 0 < j < |bs| ensures !(bs[j - 1].free && bs[j].free) {
      if j > i + 2 {
        assert bs[j - 1] == h.blocks[j - 2] && bs[j] == h.blocks[j - 1];
      } else if j == i + 2 {
        assert bs[j] == h.blocks[i + 1];
        assert !(h.blocks[i + 1 - 1].free && h.blocks[i + 1].free);
      } else if j < i {
        assert bs[j - 1] == h.blocks[j - 1] && bs[j] == h.blocks[j];
      }
    }
  }

  /** Allocation by splitting keeps the region's invariant. */
  lemma SplitInv(m: Mem, h: Heap, i: int, k: int, n: int)
    requires Inv(m, h) && Splittable(h, i, k, n)
    ensures CanTakeSplit(m, h.region, h.blocks[i], n)
    ensures Inv(TakeSplit(m, h.region, h.blocks[i], n), SplitHeap(h, i, k, n))
  {
    hide Shape, IsList, SplitTags, TakeSplit, NoFreeNeighbours, InsertedAt;
    SplitList(m, h, i, k, n);
    SplitTagsShape(m, h, i, k, n);
    SplitLinksOnly(m, h, i, k, n);
    SplitNodesIn(h, i, k, n);
    var h' := SplitHeap(h, i, k, n);
    ShapeRelinked(SplitTags(m, h.region, h.blocks[i], n), TakeSplit(m, h.region, h.blocks[i], n), h',
                  InsertedAt(h.free, k + 1, h.blocks[i].at + 5 + n));
    SplitListsFree(h, i, k, n);
    SplitNeighbours(h, i, k, n);
  }

  /** A live block keeps its extent and its bytes when another block is split. */
  lemma SplitKeepsLive(m: Mem, h: Heap, i: int, k: int, n: int, b: Block, a: int)
    requires Inv(m, h) && Splittable(h, i, k, n)
    requires CanTakeSplit(m, h.region, h.blocks[i], n)
    requires b in h.blocks && !b.free && b.at <= a < b.End()
    ensures b in SplitHeap(h, i, k, n).blocks
    ensures 0 <= a < |m| && TakeSplit(m, h.region, h.blocks[i], n)[a] == m[a]
  {
    hide SplitTags, TakeSplit, CanTakeSplit, Inv, InsertedAt, Outside, LinksOnly, Tiles, AllTagged;
    SplitLinksOnly(m, h, i, k, n);
    SplitLiveTags(m, h, i, k, n, b, a);
    OtherBlock(h, i, Halves(h.blocks[i], n), b);
    SplitOutside(m, h, i, k, n, b, a);
    LinksOnlyAt(SplitTags(m, h.region, h.blocks[i], n), TakeSplit(m, h.region, h.blocks[i], n),
                h.list, InsertedAt(h.free, k + 1, h.blocks[i].at + 5 + n), a);
  }

  lemma LinksOnlyAt(m: Mem, m': Mem, l: int, ns: seq<int>, a: int)
    requires LinksOnly(m, m', l, ns) && 0 <= a < |m| && Outside(l, ns, a)
    ensures a < |m'| && m'[a] == m[a]
  {
    hide Outside;
  }

  /** The tags of the halves lie outside any live block. */
  lemma SplitLiveTags(m: Mem, h: Heap, i: int, k: int, n: int, b: Block, a: int)
    requires Inv(m, h) && Splittable(h, i, k, n)
    requires b in h.blocks && !b.free && b.at <= a < b.End()
    ensures 0 <= h.blocks[i].at && h.blocks[i].End() <= |m| && 0 <= a < |m|
    ensures var m' := SplitTags(m, h.region, h.blocks[i], n);
            |m'| == |m| && m'[a] == m[a]
  {
    hide SplitTags, IsList, NoFreeNeighbours, AllTagged;
    BlockFits(m, h, i);
    var j :| 0 <= j < |h.blocks| && h.blocks[j] == b;
    BlockFits(m, h, j);
    SplitTagsWords(m, h.region, h.blocks[i], n);
    BlocksApart(h, b, h.blocks[i]);
  }

  /** So do the link words of the free list and of the new upper half. */
  lemma SplitOutside(m: Mem, h: Heap, i: int, k: int, n: int, b: Block, a: int)
    requires Inv(m, h) && Splittable(h, i, k, n)
    requires b in h.blocks && !b.free && b.at <= a < b.End()
    ensures Outside(h.list, InsertedAt(h.free, k + 1, h.blocks[i].at + 5 + n), a)
  {
    hide IsList, NoFreeNeighbours, AllTagged, InsertedAt, Outside;
    BlocksApart(h, b, h.blocks[i]);
    LiveNotListed(m, h, b);
    FreeNodesIn(h);
    WordOutside(m, h, h.free, b, a);
    OutsideInserted(h.list, h.free, k + 1, h.blocks[i].at + 5 + n, a);
  }

  lemma OtherBlock(h: Heap, i: int, cs: seq<Block>, b: Block)
    requires 0 <= i < |h.blocks| && b in h.blocks && b != h.blocks[i]
    ensures b in Replaced(h.blocks, i, i + 1, cs)
  {
    var j :| 0 <= j < |h.blocks| && h.blocks[j] == b;
    assert b == Replaced(h.blocks, i, i + 1, cs)[if j < i then j else j - 1 + |cs|];
  }

  // ---------------------------------------------------------------- taking the whole block

  ghost predicate Takeable(h: Heap, i: int, k: int) {
    && 0 <= i < |h.blocks| && h.blocks[i].free
    && 0 <= k < |h.free| && h.free[k] == h.blocks[i].Contents()
  }

  function WholeHeap(h: Heap, i: int, k: int): Heap
    requires 0 <= i < |h.blocks| && 0 <= k < |h.free|
  {
    h.(blocks := Replaced(h.blocks, i, i + 1, [h.blocks[i].(free := false)]), free := RemovedAt(h.free, k))
  }

  ghost predicate CanTakeWhole(m: Mem, b: Block) {
    0 <= b.Foot() < |m| && CanRemove(m[b.Foot() := 0], b.Contents())
  }

  /** Memory after allocating all of the free block b. */
  function TakeWhole(m: Mem, b: Block): (m': Mem)
    requires CanTakeWhole(m, b)
    ensures |m'| == |m|
  {
    Remove(m[b.Foot() := 0], b.Contents())
  }

  lemma WholeTags(m: Mem, h: Heap, i: int, k: int)
    requires Inv(m, h) && Takeable(h, i, k)
    ensures var b := h.blocks[i];
            && 0 <= b.Foot() < |m|
            && Shape(m[b.Foot() := 0], WholeHeap(h, i, k))
  {
    hide Shape;
    BlockFits(m, h, i);
    var b := h.blocks[i];
    var m' := m[b.Foot() := 0];
    var cs := [b.(free := false)];
    assert cs[1..] == [];
    assert Tagged(m', h.region, cs[0]);
    ShapeReplaced(m, m', h, i, i + 1, cs, RemovedAt(h.free, k));
  }

  lemma WholeTagsList(m: Mem, h: Heap, i: int, k: int)
    requires Inv(m, h) && Takeable(h, i, k)
    ensures var b := h.blocks[i]; 0 <= b.Foot() < |m| && IsList(m[b.Foot() := 0], h.list, h.free)
  {
    BlockFits(m, h, i);
    var b := h.blocks[i];
    TagsLeaveList(m, m[b.Foot() := 0], h, i);
  }

  lemma WholeLinksOnly(m: Mem, h: Heap, i: int, k: int)
    requires Inv(m, h) && Takeable(h, i, k)
    ensures CanTakeWhole(m, h.blocks[i])
    ensures IsList(TakeWhole(m, h.blocks[i]), h.list, RemovedAt(h.free, k))
    ensures LinksOnly(m[h.blocks[i].Foot() := 0], TakeWhole(m, h.blocks[i]), h.list, h.free)
  {
    WholeTagsList(m, h, i, k);
    var m1 := m[h.blocks[i].Foot() := 0];
    RemoveRefines(m1, h.list, h.free, k);
    forall a | 0 <= a < |m1| && Outside(h.list, h.free, a) ensures TakeWhole(m, h.blocks[i])[a] == m1[a] {
      RemoveFrame(m1, h.list, h.free, k, a);
    }
  }

  lemma WholeListsFree(h: Heap, i: int, k: int)
    requires ListsFree(h) && Takeable(h, i, k)
    ensures ListsFree(WholeHeap(h, i, k))
  {
    var b := h.blocks[i];
    var ns := RemovedAt(h.free, k);
    assert h.blocks[i..i + 1] == [b];
    FreeNodesOne(b);
    FreeNodesOne(b.(free := false));
    assert h.free == h.free[..k] + [h.free[k]] + h.free[k + 1..];
    assert ns == h.free[..k] + [] + h.free[k + 1..];
    SwapMiddle(h.free[..k], [h.free[k]], [], h.free[k + 1..]);
    ReplacedFree(h.blocks, i, i + 1, [b.(free := false)], h.free, ns);
  }

  lemma WholeNodesIn(h: Heap, i: int, k: int)
    requires ListsFree(h) && Takeable(h, i, k)
    ensures NodesIn(h.free, WholeHeap(h, i, k).blocks)
  {
    FreeNodesIn(h);
    var bs := WholeHeap(h, i, k).blocks;
    forall j | 0 <= j < |h.free| ensures h.free[j] in ContentsOf(bs) {
      var c := OwnerOf(h, h.free, j);
      if c == h.blocks[i] {
        assert bs[i] in bs && bs[i].Contents() == c.Contents();
      } else {
        OtherBlock(h, i, [h.blocks[i].(free := false)], c);
      }
    }
  }

  lemma WholeNeighbours(h: Heap, i: int, k: int)
    requires NoFreeNeighbours(h.blocks) && Takeable(h, i, k)
    ensures NoFreeNeighbours(WholeHeap(h, i, k).blocks)
  {
    var bs := WholeHeap(h, i, k).blocks;
    assert bs == h.blocks[i := h.blocks[i].(free := false)];
    forall j | 0 < j < |bs| ensures !(bs[j - 1].free && bs[j].free) {
      assert !(h.blocks[j - 1].free && h.blocks[j].free);
    }
  }

  /** Allocating a whole free block keeps the region's invariant. */
  lemma WholeInv(m: Mem, h: Heap, i: int, k: int)
    requires Inv(m, h) && Takeable(h, i, k)
    ensures CanTakeWhole(m, h.blocks[i])
    ensures Inv(TakeWhole(m, h.blocks[i]), WholeHeap(h, i, k))
  {
    WholeTags(m, h, i, k);
    WholeLinksOnly(m, h, i, k);
    WholeListsFree(h, i, k);
    WholeNodesIn(h, i, k);
    WholeNeighbours(h, i, k);
    ShapeRelinked(m[h.blocks[i].Foot() := 0], TakeWhole(m, h.blocks[i]), WholeHeap(h, i, k), h.free);
  }

  /** A live block keeps its extent and its bytes when another block is taken whole. */
  lemma WholeKeepsLive(m: Mem, h: Heap, i: int, k: int, b: Block, a: int)
    requires Inv(m, h) && Takeable(h, i, k) && CanTakeWhole(m, h.blocks[i])
    requires b in h.blocks && !b.free && b.at <= a < b.End()
    ensures b in WholeHeap(h, i, k).blocks
    ensures 0 <= a < |m| && TakeWhole(m, h.blocks[i])[a] == m[a]
  {
    WholeLinksOnly(m, h, i, k);
    BlockFits(m, h, i);
    OtherBlock(h, i, [h.blocks[i].(free := false)], b);
    BlocksApart(h, b, h.blocks[i]);
    LiveNotListed(m, h, b);
    FreeNodesIn(h);
    WordOutside(m, h, h.free, b, a);
  }

  // ---------------------------------------------------------------- the contents handed out

  lemma ContentsOutside(m: Mem, h: Heap, i: int, a: int)
    requires Inv(m, h) && 0 <= i < |h.blocks| && h.blocks[i].at + 4 <= a < h.blocks[i].Foot()
    ensures 0 <= a < |m| && Outside(h.list, h.free, a)
  {
    hide IsList, NoFreeNeighbours, AllTagged, Outside;
    BlockFits(m, h, i);
    FreeNodesIn(h);
    WordOutside(m, h, h.free, h.blocks[i], a);
  }

  /** Behind its two link words, the block that a cut hands out keeps its words. */
  lemma SplitKeepsContents(m: Mem, h: Heap, i: int, k: int, n: int, a: int)
    requires Inv(m, h) && Splittable(h, i, k, n) && CanTakeSplit(m, h.region, h.blocks[i], n)
    requires h.blocks[i].at + 4 <= a < h.blocks[i].at + 2 + n
    ensures 0 <= a < |m| && TakeSplit(m, h.region, h.blocks[i], n)[a] == m[a]
  {
    hide TakeSplit, CanTakeSplit, Inv, InsertedAt, Outside, LinksOnly;
    SplitLinksOnly(m, h, i, k, n);
    BlockFits(m, h, i);
    ContentsOutside(m, h, i, a);
    OutsideInserted(h.list, h.free, k + 1, h.blocks[i].at + 5 + n, a);
    LinksOnlyAt(SplitTags(m, h.region, h.blocks[i], n), TakeSplit(m, h.region, h.blocks[i], n),
                h.list, InsertedAt(h.free, k + 1, h.blocks[i].at + 5 + n), a);
  }

  /** So does a block that is handed out whole. */
  lemma WholeKeepsContents(m: Mem, h: Heap, i: int, k: int, a: int)
    requires Inv(m, h) && Takeable(h, i, k) && CanTakeWhole(m, h.blocks[i])
    requires h.blocks[i].at + 4 <= a < h.blocks[i].Foot()
    ensures 0 <= a < |m| && TakeWhole(m, h.blocks[i])[a] == m[a]
  {
    hide TakeWhole, CanTakeWhole, Inv, Outside, LinksOnly;
    WholeLinksOnly(m, h, i, k);
    BlockFits(m, h, i);
    ContentsOutside(m, h, i, a);
    LinksOnlyAt(m[h.blocks[i].Foot() := 0], TakeWhole(m, h.blocks[i]), h.list, h.free, a);
  }
}
