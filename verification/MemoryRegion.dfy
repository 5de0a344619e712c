/** exos/kernel/memory.c on one region: the operations that read and write the region's words. */
module MemoryRegion {
  import opened SeqSets
  import opened IntrusiveList
  import opened HeapLayout
  import opened HeapState
  import opened HeapAlloc
  import opened HeapFree
  import opened HeapRuns
  import opened Words

  class Region {
    const mem: array<int>
    const list: int
    const id: int
    const start: int
    const end: int
    ghost var heap: Heap

    ghost predicate Valid()
      reads this, mem
    {
      && heap.list == list && heap.region == id && heap.start == start && heap.end == end
      && Inv(mem[..], heap)
    }

    ghost function St(): State
      reads this, mem
    {
      State(mem[..], heap)
    }

    constructor (mem: array<int>, list: int, id: int, start: int, end: int, ghost heap: Heap)
      requires heap.list == list && heap.region == id && heap.start == start && heap.end == end
      requires Inv(mem[..], heap)
      ensures this.mem == mem && this.heap == heap && Valid()
    {
      this.mem, this.list, this.id, this.start, this.end := mem, list, id, start, end;
      this.heap := heap;
    }

    /** First node of the free list whose block has room for n words. */
    method FindRoom(n: int) returns (node: int)
      requires Valid()
      ensures var k := FitIndex(St(), n); node == if k == |heap.free| then NULL else heap.free[k]
    {
      hide Inv, FirstFit, Chain;
      ghost var m := mem[..];
      ghost var k := FitIndex(St(), n);
      FitStep(m, heap, n, 0);
      node := mem[list];
      ghost var i := 0;
      while node != list + 1
        invariant 0 <= i <= k && node == At2(list, heap.free, i)
        decreases |heap.free| - i
      {
        FitStep(m, heap, n, i);
        if mem[node - 1] >= n {
          return;
        }
        node := mem[node];
        i := i + 1;
      }
      FitStep(m, heap, n, i);
      node := NULL;
    }

    /** _init_block */
    method InitBlockAt(s: int, e: int)
      requires 0 <= s && s + 3 <= e <= mem.Length
      modifies mem
      ensures mem[..] == InitBlock(old(mem[..]), id, s, e)
    {
      mem[s] := id;
      mem[s + 1] := e - s - 3;
      mem[e - 1] := mem[s + 1];
    }

    /** The stores of exos_mem_alloc once a block has been found. */
    method TakeAt(node: int, n: int, ghost i: int, ghost k: int)
      requires Valid() && Takeable(heap, i, k) && heap.free[k] == node
      requires 0 <= n <= heap.blocks[i].size && (n < MIN_CONTENTS ==> !Splits(heap.blocks[i], n))
      modifies mem
      ensures var b, m := heap.blocks[i], old(mem[..]);
              if Splits(b, n)
              then CanTakeSplit(m, id, b, n) && mem[..] == TakeSplit(m, id, b, n)
              else CanTakeWhole(m, b) && mem[..] == TakeWhole(m, b)
    {
      hide Inv, CanInsert, CanRemove, Insert, Remove, SplitHeap, WholeHeap;
      ghost var b := heap.blocks[i];
      BlockFits(mem[..], heap, i);
      var header := node - 2;
      var size := mem[header + 1];
      if size - n >= HEADER_WORDS + NODE_WORDS + FOOTER_WORDS {
        SplitInv(mem[..], heap, i, k, n);
        var split, stop := header + 3 + n, header + 3 + size;
        mem[header + 1] := n;
        mem[split - 1] := 0;
        InitBlockAt(split, stop);
        ListInsert(mem, node, split + 2);
      } else {
        WholeInv(mem[..], heap, i, k);
        mem[node + size] := 0;
      }
      ListRemove(mem, node);
    }

    /** __mem_set(..., 0) over n words. */
    method Clear(a: int, n: int)
      requires 0 <= a && 0 <= n && a + n <= mem.Length
      modifies mem
      ensures mem[..] == Zeroed(old(mem[..]), a, n)
    {
      var i := 0;
      while i < n
        invariant 0 <= i <= n
        invariant forall j :: 0 <= j < mem.Length ==> mem[j] == if a <= j < a + i then 0 else old(mem[j])
      {
        mem[a + i] := 0;
        i := i + 1;
      }
    }

    /** The turn of exos_mem_alloc on this region. */
    method Serve(bytes: int, clear: bool) returns (addr: int)
      requires Valid() && 0 <= bytes < WORD && !WritesNull(heap, bytes)
      modifies this`heap, mem
      ensures Valid()
      ensures addr == AllocAddress(old(St()), bytes)
      ensures St() == AllocState(old(St()), bytes, clear)
    {
      hide Inv, TakeSplit, TakeWhole, CanTakeSplit, CanTakeWhole, SplitHeap, WholeHeap, Zeroed, FirstFit;
      addr := NULL;
      if bytes == 0 { return; }
      var n := RequestWords(bytes);
      ghost var s := St();
      FreeInside(s.mem, s.heap);
      NodesArePositive(s.mem, s.heap);
      addr := FindRoom(n);
      if addr != NULL {
        ghost var k := FitIndex(s, n);
        RequestServes(s, bytes);
        FreeBlock(s.mem, s.heap, k);
        TakeAt(addr, n, BlockIndex(heap.blocks, addr), k);
        ghost var t := Take(s, k, n);
        heap := t.heap;
        TakeRegion(s, k, n);
        if clear {
          TakenFits(s, k, n);
          ClearInv(t, addr, n);
          Clear(addr, n);
        }
      }
    }

    /** exos_mem_alloc on this region. With clear every word of the request is 0; without, every word of the
        block behind the two of the list node is as it was. */
    method Alloc(bytes: int, clear: bool) returns (addr: int)
      requires Valid() && 0 <= bytes < WORD && !WritesNull(heap, bytes)
      modifies this`heap, mem
      ensures Valid()
      ensures addr == AllocAddress(old(St()), bytes)
      ensures St() == AllocState(old(St()), bytes, clear)
      ensures addr != NULL ==>
                0 < addr && 0 <= RequestWords(bytes) <= AllocBlock(old(St()), bytes).size <= mem.Length - addr
      ensures addr != NULL && clear ==> forall j :: addr <= j < addr + RequestWords(bytes) ==> mem[j] == 0
      ensures addr != NULL && !clear ==>
                forall j :: addr + 2 <= j < addr + AllocBlock(old(St()), bytes).size ==> mem[j] == old(mem[j])
    {
      hide Inv, AllocState, AllocAddress, AllocBlock, WritesNull, RequestWords;
      ghost var s := St();
      addr := Serve(bytes, clear);
      if addr != NULL {
        AllocWords(s, bytes, clear);
      }
    }

    lemma TakeRegion(s: State, k: int, n: int)
      requires Inv(s.mem, s.heap) && Serves(s, k, n)
      ensures var h, h' := s.heap, Take(s, k, n).heap;
              h'.list == h.list && h'.region == h.region && h'.start == h.start && h'.end == h.end
    {
      hide Inv;
    }

    /** Coalescence to the linear successor. */
    method AbsorbNext(foot: int, ghost i: int) returns (foot': int, pred: int)
      requires Valid() && Live(heap, i) && foot == heap.blocks[i].Foot()
      modifies mem
      ensures mem[..] == Mem1(old(mem[..]), heap, i)
      ensures foot' == heap.blocks[WindowHi(heap, i) - 1].Foot()
      ensures pred == if NextFree(heap, i) then Chain(list, List1(heap, i))[Pos1(heap, i)] else NULL
    {
      hide Inv, Remove, Detached, LinksOnly, IndexOf, RemovedAt, Chain;
      foot', pred := foot, NULL;
      NextTag(mem[..], heap, i);
      ghost var m1 := Mem1(mem[..], heap, i);
      var next := foot + 1;
      if mem[next + 1] != 0 {
        var nextFoot := next + 2 + mem[next + 1];
        if mem[nextFoot] == mem[next + 1] {
          pred := mem[next + 3];
          ListRemove(mem, next + 2);
          foot' := nextFoot;
        }
      }
    }

    /** Coalescence to the linear predecessor. */
    method AbsorbPrev(header: int, pred: int, ghost m: Mem, ghost i: int) returns (header': int, pred': int)
      requires Inv(m, heap) && heap.list == list && Live(heap, i) && header == heap.blocks[i].at
      requires mem[..] == Mem1(m, heap, i)
      modifies mem
      ensures mem[..] == Mem2(m, heap, i)
      ensures header' == heap.blocks[WindowLo(heap, i)].at
      ensures pred' == if PrevFree(heap, i) then Chain(list, List2(heap, i))[Pos2(heap, i)] else pred
    {
      hide Inv, Remove, LinksOnly, IndexOf, RemovedAt, Chain, Mem1, IsList, Shape, List1;
      header', pred' := header, pred;
      PrevTag(mem[..], heap, i);
      ghost var m2 := Mem2(m, heap, i);
      if mem[header - 1] != 0 {
        var prev := header - 1 - (mem[header - 1] + 2);
        pred' := mem[prev + 3];
        ListRemove(mem, prev + 2);
        header' := prev;
      }
    }

    /** exos_mem_free. A block that is already free is detected by its footer: kernel_panic. */
    method Free(addr: int) returns (panic: bool)
      requires Valid() && BlockIndex(heap.blocks, addr) < |heap.blocks|
      modifies this`heap, mem
      ensures Valid()
      ensures panic <==> !Allowed(old(heap), HeapRuns.Free(addr))
      ensures St() == if panic then old(St()) else Next(old(St()), HeapRuns.Free(addr))
    {
      hide Inv, Detached, List1, List2, Pos1, Pos2, RelinkedHeap, Unlinked, Mem1, Mem2, FreeMem, FreeHeap, Chain;
      ghost var m0, h0, i := mem[..], heap, BlockIndex(heap.blocks, addr);
      BlockFits(mem[..], heap, i);
      var header := addr - 2;
      var size := mem[header + 1];
      var foot := addr + size;
      panic := size < NODE_WORDS || mem[foot] != 0;
      if panic { return; }
      var pred;
      foot, pred := AbsorbNext(foot, i);
      header, pred := AbsorbPrev(header, pred, m0, i);
      ReleasePred(m0, h0, i);
      Relink(header, foot, pred, m0, i);
      heap := FreeHeap(h0, i);
      StepRegion(State(m0, h0), HeapRuns.Free(addr));
    }

    /** Tags and links of the merged block. */
    method Relink(header: int, foot: int, pred: int, ghost m: Mem, ghost i: int)
      requires Inv(m, heap) && heap.list == list && heap.region == id && Live(heap, i)
      requires mem[..] == Mem2(m, heap, i)
      requires header == heap.blocks[WindowLo(heap, i)].at && foot == heap.blocks[WindowHi(heap, i) - 1].Foot()
      requires 0 <= Pos2(heap, i) <= |List2(heap, i)|
      requires (if pred != NULL then pred else list) == Chain(list, List2(heap, i))[Pos2(heap, i)]
      modifies mem
      ensures mem[..] == FreeMem(m, heap, i)
    {
      hide Inv, InitBlock, Insert, CanInsert, Detached, List2, Pos2, Mem2, FreeHeap;
      ghost var m' := FreeMem(m, heap, i);
      InitBlockAt(header, foot + 1);
      if pred != NULL {
        ListInsert(mem, pred, header + 2);
      } else {
        ListInsert(mem, list, header + 2);
      }
    }
  }

  // ---------------------------------------------------------------- exos_mem_add_region

  /** The smallest size the guard admits, and the smallest that can serve a request. */
  const MIN_REGION := HEADER_WORDS + HEADER_WORDS + FOOTER_WORDS + 1
  const MIN_SERVING := MIN_REGION + NODE_WORDS

  /** The tags a new region starts with. */
  function RegionTags(m: Mem, region: int, start: int, end: int): (m': Mem)
    requires 0 <= start && start + MIN_REGION <= end <= |m|
    ensures |m'| == |m|
  {
    InitBlock(m[start := 0][end - 2 := region][end - 1 := 0], region, start + 1, end - 2)
  }

  lemma InitialShape(m: Mem, list: int, region: int, start: int, end: int)
    requires Placed(m, Initial(list, region, start, end))
    ensures Shape(RegionTags(m, region, start, end), Initial(list, region, start, end))
  {
    var h := Initial(list, region, start, end);
    assert h.blocks[1..] == [];
    assert Tagged(RegionTags(m, region, start, end), region, h.blocks[0]);
  }

  /** Linking the one free block completes the invariant. */
  lemma InitialInv(m: Mem, list: int, region: int, start: int, end: int)
    requires Shape(m, Initial(list, region, start, end)) && IsList(m, list, [])
    ensures CanInsert(m, list, start + 3)
    ensures Inv(Insert(m, list, start + 3), Initial(list, region, start, end))
  {
    hide Shape, Insert;
    assert Placed(m, Initial(list, region, start, end)) by { ShapePlaced(m, Initial(list, region, start, end)); }
    var h := Initial(list, region, start, end);
    var b := h.blocks[0];
    assert Chain(list, [])[0] == list;
    InsertLinksOnly(m, list, [], 0, start + 3);
    InsertRefines(m, list, [], 0, start + 3);
    assert InsertedAt([], 0, start + 3) == h.free;
    assert b in h.blocks && b.Contents() == h.free[0];
    ShapeRelinked(m, Insert(m, list, start + 3), h, h.free);
    FreeNodesOne(b);
  }

  lemma ShapePlaced(m: Mem, h: Heap)
    requires Shape(m, h)
    ensures Placed(m, h)
  {
  }

  ghost predicate CanFormat(m: Mem, list: int, start: int, end: int) {
    && NULL < list && list + LIST_WORDS <= |m| && NULL < start <= end <= |m|
    && (list + LIST_WORDS <= start || end <= list)
  }

  /** All stores of exos_mem_add_region to the region and to its free list, for every size it admits. */
  function Formatted(m: Mem, list: int, region: int, start: int, end: int): Mem
    requires CanFormat(m, list, start, end) && start + MIN_REGION <= end
  {
    var m1 := RegionTags(m, region, start, end);
    Insert(Emptied(m1, list), list, start + 3)
  }

  lemma FormattedWords(m: Mem, list: int, region: int, start: int, end: int)
    requires CanFormat(m, list, start, end) && start + MIN_REGION <= end
    ensures var m' := Formatted(m, list, region, start, end);
            && |m'| == |m| && m'[list] == start + 3 && m'[list + 2] == start + 3 && m'[list + 1] == NULL
            && m'[start + 3] == list + 1 && m'[start + 4] == list
            && m'[start] == 0 && m'[start + 1] == region && m'[start + 2] == end - start - MIN_REGION
            && (end - start > MIN_REGION + 1 ==> m'[end - 3] == end - start - MIN_REGION)
            && (end - start > MIN_REGION ==> m'[end - 2] == region) && m'[end - 1] == 0
  {
  }

  /** The one block of a region of any size. */
  function FirstBlock(start: int, end: int): Block {
    Block(start + 1, end - start - MIN_REGION, true)
  }

  /** Linking the first block leaves its tags intact exactly from 8 words on; in a smaller region the link
      words fall on the block's own footer. */
  lemma TagsSurviveIff(m: Mem, list: int, region: int, start: int, end: int)
    requires CanFormat(m, list, start, end) && start + MIN_REGION <= end && list > 1
    ensures Tagged(Formatted(m, list, region, start, end), region, FirstBlock(start, end)) <==> end - start >= 8
  {
    FormattedWords(m, list, region, start, end);
    hide Formatted;
  }

  /** A new region satisfies the region invariant exactly from 10 words on, where a list node fits between the
      tags. A smaller one has no room for even the smallest request, so nothing is ever allocated from it. */
  lemma FormattedIff(m: Mem, list: int, region: int, start: int, end: int)
    requires CanFormat(m, list, start, end) && start + MIN_REGION <= end
    ensures var m' := Formatted(m, list, region, start, end);
            && (Inv(m', Initial(list, region, start, end)) <==> end - start >= MIN_SERVING)
            && (end - start < MIN_SERVING ==>
                  m'[list] == start + 3 && m'[start + 3] == list + 1 && m'[start + 2] < MIN_CONTENTS)
  {
    FormattedWords(m, list, region, start, end);
    hide Formatted;
    if end - start >= MIN_SERVING {
      FormattedInv(m, list, region, start, end);
    }
  }

  /** A region of 24 bytes: the guard admits it, and its block has lost its footer. */
  lemma TinyRegion(m: Mem, region: int)
    requires |m| == 16
    ensures CanFormat(m, 2, 8, 14) && !Tagged(Formatted(m, 2, region, 8, 14), region, Block(9, 0, true))
  {
    TagsSurviveIff(m, 2, region, 8, 14);
  }

  lemma FormattedInv(m: Mem, list: int, region: int, start: int, end: int)
    requires CanFormat(m, list, start, end) && end - start >= MIN_SERVING
    ensures Inv(Formatted(m, list, region, start, end), Initial(list, region, start, end))
  {
    hide Inv, Shape, Insert, RegionTags;
    var h := Initial(list, region, start, end);
    InitialShape(m, list, region, start, end);
    var m1 := RegionTags(m, region, start, end);
    var m2 := Emptied(m1, list);
    InitialList(m1, m2, h);
    assert Link(m2, list, list + 1);
    InitialInv(m2, list, region, start, end);
  }

  /** A request of 0xFFFFFFF1 bytes to a new region of 88 bytes: the code answers with the first block, of 0
      words, and has stored through NULL. */
  lemma HugeRequest(m: Mem, region: int)
    requires |m| == 32
    ensures var s := State(Formatted(m, 2, region, 8, 30), Initial(2, region, 8, 30));
            && CanFormat(m, 2, 8, 30) && Inv(s.mem, s.heap) && WritesNull(s.heap, 0xFFFF_FFF1)
            && AllocAddress(s, 0xFFFF_FFF1) == 11 && AllocBlock(s, 0xFFFF_FFF1) == Block(9, 0, false)
            && Insert(SplitTags(s.mem, region, Block(9, 16, true), 0), 11, 14)[NULL + 1] == 14
  {
    hide Inv, Insert, SplitTags, Align;
    FormattedInv(m, 2, region, 8, 30);
    var s := State(Formatted(m, 2, region, 8, 30), Initial(2, region, 8, 30));
    assert BlockIndex(s.heap.blocks, 11) == 0;
    NullStore(s, 0xFFFF_FFF1);
    FreeInside(s.mem, s.heap);
    FreeBlock(s.mem, s.heap, 0);
  }

  /** exos_mem_add_region: refuses a region too small for the sentinels and one block's tags, else formats
      it. From 10 words on the result is a region in the sense of the invariant. */
  method AddRegion(mem: array<int>, list: int, id: int, start: int, end: int) returns (added: bool, r: Region?)
    requires CanFormat(mem[..], list, start, end)
    modifies mem
    ensures added <==> end - start > HEADER_WORDS + HEADER_WORDS + FOOTER_WORDS
    ensures mem[..] == if added then Formatted(old(mem[..]), list, id, start, end) else old(mem[..])
    ensures r != null <==> end - start >= MIN_SERVING
    ensures r != null ==> r.mem == mem && r.Valid() && r.heap == Initial(list, id, start, end)
  {
    hide Inv, Insert, CanInsert, RegionTags;
    added, r := false, null;
    if end - start > HEADER_WORDS + HEADER_WORDS + FOOTER_WORDS {
      ghost var m := mem[..];
      Format(mem, id, start, end);
      ListInitialize(mem, list);
      FormatInserts(m, list, id, start, end);
      ListInsert(mem, mem[list + 2], start + 3);
      added := true;
      if end - start >= MIN_SERVING {
        FormattedInv(m, list, id, start, end);
        r := new Region(mem, list, id, start, end, Initial(list, id, start, end));
      }
    }
  }

  lemma FormatInserts(m: Mem, list: int, region: int, start: int, end: int)
    requires CanFormat(m, list, start, end) && start + MIN_REGION <= end
    ensures CanInsert(Emptied(RegionTags(m, region, start, end), list), list, start + 3)
  {
  }

  lemma InitialList(m: Mem, m': Mem, h: Heap)
    requires Shape(m, h) && |m'| == |m|
    requires forall a :: 0 <= a < |m| && !(h.list <= a < h.list + LIST_WORDS) ==> m'[a] == m[a]
    ensures Shape(m', h)
  {
    TilesBounds(h.blocks, h.Lo(), h.Hi());
    forall i | 0 <= i < |h.blocks| ensures Tagged(m', h.region, h.blocks[i]) {
      assert Tagged(m, h.region, h.blocks[i]);
    }
  }

  method Format(mem: array<int>, id: int, start: int, end: int)
    requires 0 <= start && start + MIN_REGION <= end <= mem.Length
    modifies mem
    ensures mem[..] == RegionTags(old(mem[..]), id, start, end)
  {
    mem[start] := 0;
    mem[end - 2] := id;
    mem[end - 1] := 0;
    mem[start + 1] := id;
    mem[start + 2] := end - start - 6;
    mem[end - 3] := mem[start + 2];
  }

  // ---------------------------------------------------------------- exos_mem_stats

  function SizeAt(m: Mem, n: int): int {
    if 1 <= n <= |m| then m[n - 1] else 0
  }

  function SumSizes(m: Mem, ns: seq<int>): int {
    if ns == [] then 0 else SumSizes(m, ns[..|ns| - 1]) + SizeAt(m, ns[|ns| - 1])
  }

  lemma {:induction false} SumConcat(m: Mem, x: seq<int>, y: seq<int>)
    ensures SumSizes(m, x + y) == SumSizes(m, x) + SumSizes(m, y)
  {
    if y == [] {
      assert x + y == x;
    } else {
      var z := x + y;
      assert z[..|z| - 1] == x + y[..|y| - 1];
      SumConcat(m, x, y[..|y| - 1]);
    }
  }

  lemma SumOne(m: Mem, n: int)
    ensures SumSizes(m, [n]) == SizeAt(m, n)
  {
    assert [n][..0] == [];
  }

  lemma SumDrop(m: Mem, x: seq<int>, k: int)
    requires 0 <= k < |x|
    ensures SumSizes(m, x) == SumSizes(m, RemovedAt(x, k)) + SizeAt(m, x[k])
  {
    hide SumSizes;
    var u, v := x[..k], x[k + 1..];
    assert x == u + [x[k]] + v;
    SumConcat(m, u, v);
    SumConcat(m, u + [x[k]], v);
    SumConcat(m, u, [x[k]]);
    SumOne(m, x[k]);
  }

  /** The order of the free list does not matter for its total. */
  lemma {:induction false} SumPermuted(m: Mem, x: seq<int>, y: seq<int>)
    requires multiset(x) == multiset(y)
    ensures SumSizes(m, x) == SumSizes(m, y)
    decreases |x|
  {
    hide RemovedAt;
    assert |multiset(x)| == |x| && |multiset(y)| == |y|;
    if x != [] {
      assert x[0] in multiset(y);
      var k :| 0 <= k < |y| && y[k] == x[0];
      SumDrop(m, x, 0);
      SumDrop(m, y, k);
      RemovedCounts(x, 0);
      RemovedCounts(y, k);
      SameRest(multiset(x), multiset(y), multiset(RemovedAt(x, 0)), multiset(RemovedAt(y, k)),
               multiset{x[0]}, multiset{});
      assert |multiset(RemovedAt(x, 0))| == |RemovedAt(x, 0)|;
      SumPermuted(m, RemovedAt(x, 0), RemovedAt(y, k));
    }
  }

  lemma {:induction false} SumOfBlocks(m: Mem, region: int, bs: seq<Block>)
    requires AllTagged(m, region, bs)
    ensures SumSizes(m, FreeNodes(bs)) == FreeWords(bs)
  {
    if bs != [] {
      assert Tagged(m, region, bs[0]);
      SumOfBlocks(m, region, bs[1..]);
      FreeNodesOne(bs[0]);
      var hd := if bs[0].free then [bs[0].Contents()] else [];
      SumConcat(m, hd, FreeNodes(bs[1..]));
      SumOne(m, bs[0].Contents());
    }
  }

  /** Walking the free list in memory adds up exactly the free blocks of the tiling. */
  lemma ListTotals(m: Mem, h: Heap)
    requires Inv(m, h)
    ensures SumSizes(m, h.free) == FreeWords(h.blocks) && |h.free| == |FreeNodes(h.blocks)|
  {
    hide IsList, NoFreeNeighbours, Tiles, SumSizes, FreeWords, FreeNodes;
    SumOfBlocks(m, h.region, h.blocks);
    SumPermuted(m, h.free, FreeNodes(h.blocks));
    assert |multiset(h.free)| == |h.free| && |multiset(FreeNodes(h.blocks))| == |FreeNodes(h.blocks)|;
  }

  method Stats(r: Region) returns (free: int, fragments: int, largest: int)
    requires r.Valid()
    ensures free == FreeWords(r.heap.blocks)
    ensures fragments == |FreeNodes(r.heap.blocks)|
    ensures forall b :: b in r.heap.blocks && b.free ==> b.size <= largest
    ensures largest == 0 || exists b :: b in r.heap.blocks && b.free && b.size == largest
  {
    hide Inv, FreeWords, FreeNodes, Chain;
    ghost var m, ns := r.mem[..], r.heap.free;
    ListTotals(m, r.heap);
    free, fragments, largest := 0, 0, 0;
    StatsStep(m, r.heap, 0);
    var node := r.mem[r.list];
    while node != r.list + 1
      invariant 0 <= fragments <= |ns| && node == At2(r.list, ns, fragments)
      invariant free == SumSizes(m, ns[..fragments])
      invariant forall j :: 0 <= j < fragments ==> SizeAt(m, ns[j]) <= largest
      invariant largest == 0 || exists j :: 0 <= j < fragments && SizeAt(m, ns[j]) == largest
      decreases |ns| - fragments
    {
      StatsStep(m, r.heap, fragments);
      assert ns[..fragments + 1][..fragments] == ns[..fragments];
      if r.mem[node - 1] > largest {
        largest := r.mem[node - 1];
      }
      free := free + r.mem[node - 1];
      fragments := fragments + 1;
      node := r.mem[node];
    }
    StatsStep(m, r.heap, fragments);
    assert ns[..fragments] == ns;
    LargestOfBlocks(m, r.heap, largest);
  }

  /** The node a walk holds after i steps. */
  function At2(l: int, ns: seq<int>, i: int): int
    requires 0 <= i <= |ns|
  {
    Chain(l, ns)[i + 1]
  }

  lemma StatsStep(m: Mem, h: Heap, i: int)
    requires Inv(m, h) && 0 <= i <= |h.free|
    ensures 0 <= h.list < |m|
    ensures i == 0 ==> m[h.list] == At2(h.list, h.free, 0)
    ensures At2(h.list, h.free, i) == h.list + 1 <==> i == |h.free|
    ensures i < |h.free| ==>
              var n := At2(h.list, h.free, i);
              n == h.free[i] && 1 <= n < |m| && SizeAt(m, n) == m[n - 1] && m[n] == At2(h.list, h.free, i + 1)
  {
    WalkStep(m, h.list, h.free, i);
    if i < |h.free| {
      WalkStep(m, h.list, h.free, i + 1);
    }
  }

  lemma FitStep(m: Mem, h: Heap, n: int, i: int)
    requires Inv(m, h) && 0 <= i <= FitIndex(State(m, h), n)
    ensures 0 <= h.list < |m|
    ensures i == 0 ==> m[h.list] == At2(h.list, h.free, 0)
    ensures At2(h.list, h.free, i) == h.list + 1 <==> i == |h.free|
    ensures i < |h.free| ==>
              var a := At2(h.list, h.free, i);
              && a == h.free[i] && 1 <= a < |m| && m[a] == At2(h.list, h.free, i + 1)
              && (m[a - 1] >= n <==> i == FitIndex(State(m, h), n))
  {
    hide Inv;
    FreeInside(m, h);
    StatsStep(m, h, i);
  }

  lemma LargestOfBlocks(m: Mem, h: Heap, largest: int)
    requires Inv(m, h)
    requires forall j :: 0 <= j < |h.free| ==> SizeAt(m, h.free[j]) <= largest
    requires largest == 0 || exists j :: 0 <= j < |h.free| && SizeAt(m, h.free[j]) == largest
    ensures forall b :: b in h.blocks && b.free ==> b.size <= largest
    ensures largest == 0 || exists b :: b in h.blocks && b.free && b.size == largest
  {
    hide IsList, NoFreeNeighbours, Tiles;
    forall b | b in h.blocks && b.free ensures b.size <= largest {
      var i :| 0 <= i < |h.blocks| && h.blocks[i] == b;
      var k := IndexOfFree(h, i);
      assert Tagged(m, h.region, h.blocks[i]);
    }
    if largest != 0 {
      var j :| 0 <= j < |h.free| && SizeAt(m, h.free[j]) == largest;
      FreeBlock(m, h, j);
      var b := h.blocks[BlockIndex(h.blocks, h.free[j])];
      assert b in h.blocks && b.free && b.size == largest;
    }
  }

  /** Where the release links the merged block: behind what the last absorbed node followed. */
  lemma ReleasePred(m: Mem, h: Heap, i: int)
    requires Inv(m, h) && Live(h, i)
    ensures 0 <= Pos2(h, i) <= |List2(h, i)| && 0 <= Pos1(h, i) <= |List1(h, i)|
    ensures var p1 := if NextFree(h, i) then Chain(h.list, List1(h, i))[Pos1(h, i)] else NULL;
            var p2 := if PrevFree(h, i) then Chain(h.list, List2(h, i))[Pos2(h, i)] else p1;
            (if p2 != NULL then p2 else h.list) == Chain(h.list, List2(h, i))[Pos2(h, i)]
  {
    hide Inv, Detached, LinksOnly;
    PosInRange(h, i);
    var m1, m2 := Mem1(m, h, i), Mem2(m, h, i);
  }

  /** The tags after block i tell whether its successor is free. */
  lemma NextTag(m: Mem, h: Heap, i: int)
    requires Inv(m, h) && Live(h, i)
    ensures var e := h.blocks[i].End();
            && 0 < e && e + 1 < |m|
            && (m[e + 1] != 0 ==>
                  && 0 <= e + 2 + m[e + 1] < |m|
                  && (m[e + 2 + m[e + 1]] == m[e + 1] <==> NextFree(h, i)))
            && (NextFree(h, i) ==> m[e + 1] != 0 && h.blocks[i + 1].at == e && h.blocks[i + 1].size == m[e + 1])
  {
    hide IsList, NoFreeNeighbours, ListsFree;
    TilesBounds(h.blocks, h.Lo(), h.Hi());
    EndsAt(h, i + 1);
    if i + 1 < |h.blocks| {
      assert Tagged(m, h.region, h.blocks[i + 1]);
    }
  }

  /** The word before block i tells whether its predecessor is free, and its size. */
  lemma PrevTag(m: Mem, h: Heap, i: int)
    requires Shape(m, h) && Live(h, i)
    ensures var a := h.blocks[i].at;
            && 1 <= a < |m|
            && (m[a - 1] != 0 <==> PrevFree(h, i))
            && (PrevFree(h, i) ==> h.blocks[i - 1].size == m[a - 1] && h.blocks[i - 1].End() == a)
  {
    TilesBounds(h.blocks, h.Lo(), h.Hi());
    if i > 0 {
      EndsAt(h, i);
      assert Tagged(m, h.region, h.blocks[i - 1]);
    }
  }
}
