/** Whole runs of one memory region: any sequence of allocations, releases and stores by the users
    of live blocks. */
module HeapRuns {
  import opened IntrusiveList
  import opened HeapLayout
  import opened HeapState
  import opened HeapAlloc
  import opened HeapFree
  import opened Words

  const MAX_REQUEST := 0xFFFF_FFF0

  /** (size + 15) & ~15 on 32-bit unsigned values. */
  function Align(bytes: int): int {
    var t := (bytes + 15) % WORD;
    t - t % 16
  }

  /** Rounding up covers the request exactly for requests up to MAX_REQUEST; beyond that the sum wraps
      and the rounded size is 0. */
  lemma AlignCovers(bytes: int)
    requires 0 <= bytes < WORD
    ensures Align(bytes) >= bytes <==> bytes <= MAX_REQUEST
    ensures bytes <= MAX_REQUEST ==> Align(bytes) % 16 == 0 && bytes <= Align(bytes) <= bytes + 15
    ensures bytes > MAX_REQUEST ==> Align(bytes) == 0
  {
    if bytes <= MAX_REQUEST {
      assert bytes + 15 < WORD;
    } else {
      assert bytes + 15 - WORD < 16;
    }
  }

  /** Words to look for, at least one list node for a non-zero request. */
  function RequestWords(bytes: int): int {
    Align(bytes) / 4
  }

  datatype State = State(mem: Mem, heap: Heap)

  ghost predicate Good(s: State) {
    Inv(s.mem, s.heap)
  }

  /** Index of the block whose contents start at a, or the number of blocks. */
  function BlockIndex(bs: seq<Block>, a: int): (i: int)
    ensures 0 <= i <= |bs|
    ensures i < |bs| ==> bs[i].Contents() == a
    ensures i == |bs| ==> forall j :: 0 <= j < |bs| ==> bs[j].Contents() != a
  {
    if bs == [] || bs[0].Contents() == a then 0 else 1 + BlockIndex(bs[1..], a)
  }

  // ---------------------------------------------------------------- initial state

  function Initial(list: int, region: int, start: int, end: int): Heap {
    Heap(list, region, start, end, [Block(start + 1, end - start - 6, true)], [start + 3])
  }

  // ---------------------------------------------------------------- stores into live blocks

  /** What the users do with a live block's contents cannot break the region. */
  lemma ContentsStore(m: Mem, m': Mem, h: Heap, i: int)
    requires Inv(m, h) && Live(h, i) && |m'| == |m|
    requires forall a :: 0 <= a < |m| && !(h.blocks[i].Contents() <= a < h.blocks[i].Foot()) ==> m'[a] == m[a]
    ensures Inv(m', h)
  {
    hide IsList, NoFreeNeighbours;
    var b := h.blocks[i];
    TilesBounds(h.blocks, h.Lo(), h.Hi());
    forall j | 0 <= j < |h.blocks| ensures Tagged(m', h.region, h.blocks[j]) {
      assert Tagged(m, h.region, h.blocks[j]);
      BlocksApart(h, b, h.blocks[j]);
    }
    FreeNodesIn(h);
    LiveNotListed(m, h, b);
    forall k | 0 <= k < |h.free|
      ensures 0 <= h.free[k] < |m| - 1 && m'[h.free[k]] == m[h.free[k]] && m'[h.free[k] + 1] == m[h.free[k] + 1]
    {
      var c := OwnerOf(h, h.free, k);
      BlocksApart(h, b, c);
      BlocksApart(h, c, b);
    }
    ListFrame(m, m', h.list, h.free);
  }

  function Zeroed(m: Mem, a: int, n: int): Mem
    requires 0 <= a && 0 <= n && a + n <= |m|
  {
    m[..a] + seq(n, _ => 0) + m[a + n..]
  }

  // ---------------------------------------------------------------- allocation

  ghost function FitIndex(s: State, n: int): (k: int)
    requires Good(s)
    ensures 0 <= k <= |s.heap.free|
  {
    FreeInside(s.mem, s.heap);
    FirstFit(s.mem, s.heap.free, n)
  }

  lemma FreeInside(m: Mem, h: Heap)
    requires Inv(m, h)
    ensures forall k :: 0 <= k < |h.free| ==> 1 <= h.free[k] <= |m|
  {
    assert forall k :: 0 <= k < |h.free| ==> NodeAt(m, h.list, h.free[k]);
  }

  /** The k-th free block of the list. */
  lemma FreeBlock(m: Mem, h: Heap, k: int)
    requires Inv(m, h) && 0 <= k < |h.free|
    ensures var i := BlockIndex(h.blocks, h.free[k]);
            && i < |h.blocks| && Takeable(h, i, k) && 1 <= h.free[k] <= |m|
            && h.blocks[i] == Block(h.free[k] - 2, m[h.free[k] - 1], true)
  {
    hide IsList, NoFreeNeighbours;
    var j := FreeBlockOf(h, k);
    var i := BlockIndex(h.blocks, h.free[k]);
    TilesBounds(h.blocks, h.Lo(), h.Hi());
    BlocksApart(h, h.blocks[i], h.blocks[j]);
    assert Tagged(m, h.region, h.blocks[i]);
  }

  /** Whether the kernel splits block b to serve n words. */
  predicate Splits(b: Block, n: int) {
    b.size - n >= HEADER_WORDS + NODE_WORDS + FOOTER_WORDS
  }

  /** The k-th free block can serve n words: it is large enough, and it is not cut below the size of a node. */
  ghost predicate Serves(s: State, k: int, n: int) {
    && 0 <= k < |s.heap.free| && 1 <= s.heap.free[k] <= |s.mem| && 0 <= n <= s.mem[s.heap.free[k] - 1]
    && (n < MIN_CONTENTS ==> !Splits(Block(s.heap.free[k] - 2, s.mem[s.heap.free[k] - 1], true), n))
  }

  /** Taking n words from the k-th free block: split it when the rest can hold a block. */
  ghost function Take(s: State, k: int, n: int): (s': State)
    requires Inv(s.mem, s.heap) && Serves(s, k, n)
    ensures Inv(s'.mem, s'.heap) && |s'.mem| == |s.mem|
  {
    hide Inv, SplitHeap, WholeHeap, TakeSplit, TakeWhole, CanTakeSplit, CanTakeWhole;
    FreeBlock(s.mem, s.heap, k);
    var i := BlockIndex(s.heap.blocks, s.heap.free[k]);
    var b := s.heap.blocks[i];
    if Splits(b, n) then
      SplitInv(s.mem, s.heap, i, k, n);
      State(TakeSplit(s.mem, s.heap.region, b, n), SplitHeap(s.heap, i, k, n))
    else
      WholeInv(s.mem, s.heap, i, k);
      State(TakeWhole(s.mem, b), WholeHeap(s.heap, i, k))
  }

  /** The block an allocation of n words hands out when it takes b. */
  function Taken(b: Block, n: int): Block {
    Block(b.at, if Splits(b, n) then n else b.size, false)
  }

  ghost predicate LiveBlock(h: Heap, b: Block) {
    b in h.blocks && !b.free
  }

  /** Taking adds exactly one live block, inside the free block it came from. */
  lemma TakeLive(s: State, k: int, n: int, c: Block)
    requires Inv(s.mem, s.heap) && Serves(s, k, n)
    ensures var b := Block(s.heap.free[k] - 2, s.mem[s.heap.free[k] - 1], true);
            && b in s.heap.blocks
            && (LiveBlock(Take(s, k, n).heap, c) <==> c == Taken(b, n) || LiveBlock(s.heap, c))
  {
    hide Inv, TakeSplit, TakeWhole, CanTakeSplit, CanTakeWhole;
    FreeBlock(s.mem, s.heap, k);
    var bs := s.heap.blocks;
    var i := BlockIndex(bs, s.heap.free[k]);
    assert bs[i] in bs;
    var cs := if Splits(bs[i], n) then Halves(bs[i], n) else [bs[i].(free := false)];
    ReplacedMember(bs, i, i + 1, cs, c);
    if LiveBlock(s.heap, c) {
      OtherBlock(s.heap, i, cs, c);
    }
  }

  /** Taking changes no word of a block that is already live. */
  lemma TakeKeeps(s: State, k: int, n: int, b: Block, a: int)
    requires Inv(s.mem, s.heap) && Serves(s, k, n)
    requires LiveBlock(s.heap, b) && b.at <= a < b.End()
    ensures 0 <= a < |s.mem| && a < |Take(s, k, n).mem| && Take(s, k, n).mem[a] == s.mem[a]
  {
    hide Inv, SplitHeap, WholeHeap, TakeSplit, TakeWhole, CanTakeSplit, CanTakeWhole;
    FreeBlock(s.mem, s.heap, k);
    var i := BlockIndex(s.heap.blocks, s.heap.free[k]);
    if Splits(s.heap.blocks[i], n) {
      SplitInv(s.mem, s.heap, i, k, n);
      SplitKeepsLive(s.mem, s.heap, i, k, n, b, a);
    } else {
      WholeInv(s.mem, s.heap, i, k);
      WholeKeepsLive(s.mem, s.heap, i, k, b, a);
    }
  }

  /** Behind its two link words, the block handed out keeps its words. */
  lemma TakeContents(s: State, k: int, n: int, a: int)
    requires Inv(s.mem, s.heap) && Serves(s, k, n)
    requires var b := Taken(Block(s.heap.free[k] - 2, s.mem[s.heap.free[k] - 1], true), n);
             b.Contents() + 2 <= a < b.Foot()
    ensures 0 <= a < |s.mem| && a < |Take(s, k, n).mem| && Take(s, k, n).mem[a] == s.mem[a]
  {
    hide Inv, SplitHeap, WholeHeap, TakeSplit, TakeWhole, CanTakeSplit, CanTakeWhole;
    FreeBlock(s.mem, s.heap, k);
    var i := BlockIndex(s.heap.blocks, s.heap.free[k]);
    if Splits(s.heap.blocks[i], n) {
      SplitInv(s.mem, s.heap, i, k, n);
      SplitKeepsContents(s.mem, s.heap, i, k, n, a);
    } else {
      WholeInv(s.mem, s.heap, i, k);
      WholeKeepsContents(s.mem, s.heap, i, k, a);
    }
  }

  /** The free list keeps its order: what is left of the block stands in its place, or nothing does. */
  lemma TakeList(s: State, k: int, n: int)
    requires Inv(s.mem, s.heap) && Serves(s, k, n)
    ensures var a, size, free := s.heap.free[k], s.mem[s.heap.free[k] - 1], s.heap.free;
            Take(s, k, n).heap.free == if size - n >= 7 then free[k := a + n + 3] else free[..k] + free[k + 1..]
  {
    hide Inv, TakeSplit, TakeWhole, CanTakeSplit, CanTakeWhole;
    FreeBlock(s.mem, s.heap, k);
  }

  // ---------------------------------------------------------------- steps

  /** exos_mem_alloc on this region; NULL when no free block is large enough. */
  ghost function AllocAddress(s: State, bytes: int): int
    requires Inv(s.mem, s.heap)
  {
    var k := FitIndex(s, RequestWords(bytes));
    if bytes == 0 || k == |s.heap.free| then NULL else s.heap.free[k]
  }

  /** The block a successful allocation hands out. */
  ghost function AllocBlock(s: State, bytes: int): Block
    requires Inv(s.mem, s.heap) && AllocAddress(s, bytes) != NULL
  {
    FreeInside(s.mem, s.heap);
    var a := AllocAddress(s, bytes);
    Taken(Block(a - 2, s.mem[a - 1], true), RequestWords(bytes))
  }

  lemma RequestFits(bytes: int)
    requires 0 < bytes <= MAX_REQUEST
    ensures RequestWords(bytes) >= MIN_CONTENTS && bytes <= 4 * RequestWords(bytes) < bytes + 16
  {
    hide Align;
    AlignCovers(bytes);
    Quarter(Align(bytes));
  }

  lemma Quarter(x: int)
    requires x > 0 && x % 16 == 0
    ensures x / 4 >= MIN_CONTENTS && 4 * (x / 4) == x
  {
  }

  /** The request wraps to 0 words and the first free block is cut: the code will write through NULL. */
  ghost predicate WritesNull(h: Heap, bytes: int) {
    && bytes > MAX_REQUEST && h.free != []
    && var i := BlockIndex(h.blocks, h.free[0]); i < |h.blocks| && Splits(h.blocks[i], 0)
  }

  lemma RequestServes(s: State, bytes: int)
    requires Inv(s.mem, s.heap) && 0 < bytes < WORD && !WritesNull(s.heap, bytes)
    requires FitIndex(s, RequestWords(bytes)) < |s.heap.free|
    ensures Serves(s, FitIndex(s, RequestWords(bytes)), RequestWords(bytes))
  {
    hide Inv, Align;
    var n := RequestWords(bytes);
    var k := FitIndex(s, n);
    FreeInside(s.mem, s.heap);
    FreeBlock(s.mem, s.heap, k);
    if bytes <= MAX_REQUEST {
      RequestFits(bytes);
    } else {
      AlignCovers(bytes);
      FirstServes(s);
    }
  }

  /** A request of 0 words is served by the first free block. */
  lemma FirstServes(s: State)
    requires Inv(s.mem, s.heap) && s.heap.free != []
    ensures FitIndex(s, 0) == 0
  {
    hide Inv;
    FreeInside(s.mem, s.heap);
    FreeBlock(s.mem, s.heap, 0);
    BlockFits(s.mem, s.heap, BlockIndex(s.heap.blocks, s.heap.free[0]));
  }

  ghost function AllocState(s: State, bytes: int, clear: bool): (s': State)
    requires Inv(s.mem, s.heap) && 0 <= bytes < WORD && !WritesNull(s.heap, bytes)
    ensures Inv(s'.mem, s'.heap) && |s'.mem| == |s.mem|
  {
    hide Inv, Take, WritesNull;
    var n := RequestWords(bytes);
    FreeInside(s.mem, s.heap);
    var k := FitIndex(s, n);
    if bytes == 0 || k == |s.heap.free| then s
    else
      RequestServes(s, bytes);
      var t := Take(s, k, n);
      if clear then
        TakenFits(s, k, n);
        ClearInv(t, s.heap.free[k], n);
        t.(mem := Zeroed(t.mem, s.heap.free[k], n))
      else t
  }

  lemma TakenFits(s: State, k: int, n: int)
    requires Inv(s.mem, s.heap) && Serves(s, k, n)
    ensures var i := BlockIndex(Take(s, k, n).heap.blocks, s.heap.free[k]);
            Live(Take(s, k, n).heap, i) && Take(s, k, n).heap.blocks[i].size >= n
  {
    hide Inv, Take;
    var b := Block(s.heap.free[k] - 2, s.mem[s.heap.free[k] - 1], true);
    TakeLive(s, k, n, Taken(b, n));
    LiveAt(Take(s, k, n), Taken(b, n));
  }

  lemma LiveAt(s: State, b: Block)
    requires Inv(s.mem, s.heap) && LiveBlock(s.heap, b)
    ensures var i := BlockIndex(s.heap.blocks, b.Contents()); Live(s.heap, i) && s.heap.blocks[i] == b
  {
    hide IsList, NoFreeNeighbours, AllTagged;
    var i := BlockIndex(s.heap.blocks, b.Contents());
    assert i < |s.heap.blocks|;
    BlocksApart(s.heap, b, s.heap.blocks[i]);
    BlocksApart(s.heap, s.heap.blocks[i], b);
  }

  lemma ClearInv(t: State, a: int, n: int)
    requires Inv(t.mem, t.heap) && 0 <= n
    requires var i := BlockIndex(t.heap.blocks, a); Live(t.heap, i) && t.heap.blocks[i].size >= n
    ensures 0 <= a && a + n <= |t.mem| && Inv(Zeroed(t.mem, a, n), t.heap)
  {
    hide IsList, NoFreeNeighbours, AllTagged;
    TilesBounds(t.heap.blocks, t.heap.Lo(), t.heap.Hi());
    ContentsStore(t.mem, Zeroed(t.mem, a, n), t.heap, BlockIndex(t.heap.blocks, a));
  }

  /** A request of any size fails exactly when it is 0 or no free block is large enough for its rounded size. */
  lemma AllocFails(s: State, bytes: int)
    requires Inv(s.mem, s.heap)
    ensures AllocAddress(s, bytes) == NULL <==>
              bytes == 0 || forall b :: b in s.heap.blocks && b.free ==> b.size < RequestWords(bytes)
  {
    hide Inv, RequestWords;
    var n := RequestWords(bytes);
    FreeInside(s.mem, s.heap);
    var k := FitIndex(s, n);
    NodesArePositive(s.mem, s.heap);
    if bytes != 0 {
      if k < |s.heap.free| {
        FreeBlock(s.mem, s.heap, k);
        assert s.heap.blocks[BlockIndex(s.heap.blocks, s.heap.free[k])] in s.heap.blocks;
      } else {
        NoFit(s, n);
      }
    }
  }

  /** exos_mem_alloc answers NULL or with at least the requested bytes, for all 32-bit requests, exactly when
      the request is at most MAX_REQUEST or nothing is free. */
  lemma AllocPromise(s: State, bytes: int)
    requires Inv(s.mem, s.heap) && 0 <= bytes < WORD
    ensures (AllocAddress(s, bytes) != NULL ==> 4 * AllocBlock(s, bytes).size >= bytes) <==>
            bytes <= MAX_REQUEST || s.heap.free == []
  {
    hide Inv, Align;
    FreeInside(s.mem, s.heap);
    NodesArePositive(s.mem, s.heap);
    var k := FitIndex(s, RequestWords(bytes));
    AlignCovers(bytes);
    if bytes > MAX_REQUEST && s.heap.free != [] {
      FirstServes(s);
    } else if 0 < bytes <= MAX_REQUEST {
      RequestFits(bytes);
      if k < |s.heap.free| {
        FreeBlock(s.mem, s.heap, k);
      }
    }
  }

  /** When a request that wraps cuts its block, the footer of 0 words and the header of the rest overwrite the
      links of the block, and linking the rest behind it stores its address into the second word of NULL. */
  lemma NullStore(s: State, bytes: int)
    requires Inv(s.mem, s.heap) && bytes < WORD && WritesNull(s.heap, bytes)
    ensures RequestWords(bytes) == 0 && AllocAddress(s, bytes) == s.heap.free[0]
    ensures var b := s.heap.blocks[BlockIndex(s.heap.blocks, s.heap.free[0])];
            && b.Contents() == s.heap.free[0] && 0 <= b.at && b.End() <= |s.mem| && b.size >= 3
            && var m := SplitTags(s.mem, s.heap.region, b, 0);
            && |m| == |s.mem| && m[b.Contents()] == NULL && m[b.Contents() + 1] == s.heap.region
            && CanInsert(m, b.Contents(), b.at + 5)
            && Insert(m, b.Contents(), b.at + 5)[NULL + 1] == b.at + 5
  {
    hide Inv;
    AlignCovers(bytes);
    FirstServes(s);
    FreeInside(s.mem, s.heap);
    FreeBlock(s.mem, s.heap, 0);
    BlockFits(s.mem, s.heap, BlockIndex(s.heap.blocks, s.heap.free[0]));
    StartsAbove(s);
  }

  lemma StartsAbove(s: State)
    requires Inv(s.mem, s.heap)
    ensures s.heap.start >= 1
  {
  }

  /** What exos_mem_alloc does, unless it writes through NULL: without an answer it changes nothing; otherwise it
      adds one live block at the answer and removes none. The block holds the request exactly when the request
      does not wrap. */
  lemma AllocSpec(s: State, bytes: int, clear: bool)
    requires Inv(s.mem, s.heap) && 0 <= bytes < WORD && !WritesNull(s.heap, bytes)
    ensures AllocAddress(s, bytes) == NULL ==> AllocState(s, bytes, clear) == s
    ensures AllocAddress(s, bytes) != NULL ==>
              var b := AllocBlock(s, bytes);
              && b.Contents() == AllocAddress(s, bytes) && b !in s.heap.blocks
              && (4 * b.size >= bytes <==> bytes <= MAX_REQUEST) && b.size < RequestWords(bytes) + 7
              && forall c :: LiveBlock(AllocState(s, bytes, clear).heap, c) <==> c == b || LiveBlock(s.heap, c)
  {
    hide Inv, Take, LiveBlock, WritesNull, Align;
    var n := RequestWords(bytes);
    FreeInside(s.mem, s.heap);
    var k := FitIndex(s, n);
    NodesArePositive(s.mem, s.heap);
    if bytes != 0 && k < |s.heap.free| {
      RequestServes(s, bytes);
      AllocPromise(s, bytes);
      FreeBlock(s.mem, s.heap, k);
      var b := Block(s.heap.free[k] - 2, s.mem[s.heap.free[k] - 1], true);
      var nb := Taken(b, n);
      forall c ensures LiveBlock(Take(s, k, n).heap, c) <==> c == nb || LiveBlock(s.heap, c) {
        TakeLive(s, k, n, c);
      }
      TakeLive(s, k, n, nb);
      OnlyOneAt(s, b, nb);
      assert nb.Contents() == AllocAddress(s, bytes) && nb !in s.heap.blocks;
    }
  }

  /** The free list after an allocation: first fit, and what is left of the block stands where the block stood. */
  lemma AllocList(s: State, bytes: int, clear: bool) returns (k: int)
    requires Inv(s.mem, s.heap) && 0 <= bytes < WORD && !WritesNull(s.heap, bytes) && AllocAddress(s, bytes) != NULL
    ensures forall i :: 0 <= i < |s.heap.free| ==> 1 <= s.heap.free[i] <= |s.mem|
    ensures 0 <= k < |s.heap.free| && s.heap.free[k] == AllocAddress(s, bytes)
    ensures forall i :: 0 <= i < k ==> s.mem[s.heap.free[i] - 1] < RequestWords(bytes)
    ensures var a, n, f := AllocAddress(s, bytes), RequestWords(bytes), s.heap.free;
            AllocState(s, bytes, clear).heap.free ==
            if s.mem[a - 1] - n >= 7 then f[k := a + n + 3] else f[..k] + f[k + 1..]
  {
    hide Inv, Take, WritesNull, Align, FirstFit;
    FreeInside(s.mem, s.heap);
    k := FitIndex(s, RequestWords(bytes));
    RequestServes(s, bytes);
    TakeList(s, k, RequestWords(bytes));
  }

  /** What the caller finds in the block: zeroes in every word of the request if it asked for them, and
      otherwise, behind the two words of the list node, what was there before. */
  lemma AllocWords(s: State, bytes: int, clear: bool)
    requires Inv(s.mem, s.heap) && 0 <= bytes < WORD && !WritesNull(s.heap, bytes) && AllocAddress(s, bytes) != NULL
    ensures var a, n, size := AllocAddress(s, bytes), RequestWords(bytes), AllocBlock(s, bytes).size;
            var m' := AllocState(s, bytes, clear).mem;
            && 0 < a && 0 <= n <= size && a + size <= |s.mem| == |m'|
            && (clear ==> forall j :: a <= j < a + n ==> m'[j] == 0)
            && (!clear ==> forall j :: a + 2 <= j < a + size ==> m'[j] == s.mem[j])
  {
    hide Inv, Take, WritesNull, Align;
    var n := RequestWords(bytes);
    FreeInside(s.mem, s.heap);
    var k := FitIndex(s, n);
    RequestServes(s, bytes);
    FreeBlock(s.mem, s.heap, k);
    BlockFits(s.mem, s.heap, BlockIndex(s.heap.blocks, s.heap.free[k]));
    TakenFits(s, k, n);
    ClearInv(Take(s, k, n), s.heap.free[k], n);
    if !clear {
      var a, size := AllocAddress(s, bytes), AllocBlock(s, bytes).size;
      forall j | a + 2 <= j < a + size ensures AllocState(s, bytes, clear).mem[j] == s.mem[j] {
        TakeContents(s, k, n, j);
      }
    }
  }

  lemma NodesArePositive(m: Mem, h: Heap)
    requires Inv(m, h)
    ensures forall k :: 0 <= k < |h.free| ==> h.free[k] != NULL
  {
    assert forall k :: 0 <= k < |h.free| ==> NodeAt(m, h.list, h.free[k]);
  }

  lemma OnlyOneAt(s: State, b: Block, c: Block)
    requires Inv(s.mem, s.heap) && b in s.heap.blocks && b.free && !c.free && c.at == b.at
    ensures c !in s.heap.blocks
  {
    hide IsList, NoFreeNeighbours, AllTagged;
    if c in s.heap.blocks {
      BlocksApart(s.heap, b, c);
      BlocksApart(s.heap, c, b);
    }
  }

  lemma NoFit(s: State, n: int)
    requires Inv(s.mem, s.heap) && FitIndex(s, n) == |s.heap.free|
    ensures forall b :: b in s.heap.blocks && b.free ==> b.size < n
  {
    hide IsList, NoFreeNeighbours, Tiles;
    FreeInside(s.mem, s.heap);
    forall b | b in s.heap.blocks && b.free ensures b.size < n {
      var i :| 0 <= i < |s.heap.blocks| && s.heap.blocks[i] == b;
      var k := IndexOfFree(s.heap, i);
      assert Tagged(s.mem, s.heap.region, s.heap.blocks[i]);
    }
  }

  /** Allocation changes no byte of a block that was already live. */
  lemma AllocKeeps(s: State, bytes: int, clear: bool, b: Block, a: int)
    requires Inv(s.mem, s.heap) && 0 <= bytes < WORD && !WritesNull(s.heap, bytes)
    requires LiveBlock(s.heap, b) && b.at <= a < b.End()
    ensures LiveBlock(AllocState(s, bytes, clear).heap, b)
    ensures 0 <= a < |s.mem| && AllocState(s, bytes, clear).mem[a] == s.mem[a]
  {
    hide Inv, Take;
    LiveInside(s, b);
    var n := RequestWords(bytes);
    FreeInside(s.mem, s.heap);
    var k := FitIndex(s, n);
    if bytes != 0 && k < |s.heap.free| {
      RequestServes(s, bytes);
      TakeLive(s, k, n, b);
      TakeKeeps(s, k, n, b, a);
      TakenFits(s, k, n);
      var t := Take(s, k, n);
      var c := t.heap.blocks[BlockIndex(t.heap.blocks, s.heap.free[k])];
      ClearInv(t, s.heap.free[k], n);
      NewIsApart(s, k, n, b, c);
    }
  }

  lemma LiveInside(s: State, b: Block)
    requires Inv(s.mem, s.heap) && LiveBlock(s.heap, b)
    ensures 0 < b.at && b.End() <= |s.mem| && b.size >= MIN_CONTENTS
  {
    hide IsList, NoFreeNeighbours, AllTagged;
    BlocksApart(s.heap, b, b);
  }

  lemma NewIsApart(s: State, k: int, n: int, b: Block, c: Block)
    requires Inv(s.mem, s.heap) && Serves(s, k, n)
    requires LiveBlock(s.heap, b) && LiveBlock(Take(s, k, n).heap, b)
    requires LiveBlock(Take(s, k, n).heap, c) && c.Contents() == s.heap.free[k]
    ensures b.End() <= c.at || c.End() <= b.at
  {
    hide IsList, NoFreeNeighbours, AllTagged, Take, ListsFree;
    LiveNotListed(s.mem, s.heap, b);
    BlocksApart(Take(s, k, n).heap, b, c);
  }

  // ---------------------------------------------------------------- runs

  datatype Op =
    | Alloc(bytes: int, clear: bool)
    | Free(a: int)
    | Store(obj: int, offset: int, value: int)

  /** What the kernel demands of its callers: no request that makes it write through NULL, free and store only
      through the address of a live block, and stores inside its contents. */
  ghost predicate Allowed(h: Heap, op: Op) {
    match op
    case Alloc(bytes, _) => 0 <= bytes < WORD && !WritesNull(h, bytes)
    case Free(a) => Live(h, BlockIndex(h.blocks, a))
    case Store(obj, offset, _) =>
      var i := BlockIndex(h.blocks, obj);
      Live(h, i) && 0 <= offset < h.blocks[i].size
  }

  lemma StoreInv(s: State, obj: int, offset: int, value: int)
    requires Inv(s.mem, s.heap) && Allowed(s.heap, Store(obj, offset, value))
    ensures 0 <= obj + offset < |s.mem| && Inv(s.mem[obj + offset := value], s.heap)
  {
    hide IsList, NoFreeNeighbours, AllTagged;
    TilesBounds(s.heap.blocks, s.heap.Lo(), s.heap.Hi());
    ContentsStore(s.mem, s.mem[obj + offset := value], s.heap, BlockIndex(s.heap.blocks, obj));
  }

  ghost function Next(s: State, op: Op): (s': State)
    requires Inv(s.mem, s.heap) && Allowed(s.heap, op)
    ensures Inv(s'.mem, s'.heap) && |s'.mem| == |s.mem|
  {
    hide Inv, AllocState, FreeHeap, FreeMem;
    match op
    case Alloc(bytes, clear) => AllocState(s, bytes, clear)
    case Free(a) =>
      var i := BlockIndex(s.heap.blocks, a);
      State(FreeMem(s.mem, s.heap, i), FreeHeap(s.heap, i))
    case Store(obj, offset, value) =>
      StoreInv(s, obj, offset, value);
      s.(mem := s.mem[obj + offset := value])
  }

  ghost predicate Legal(s: State, ops: seq<Op>)
    requires Inv(s.mem, s.heap)
    decreases |ops|
  {
    ops == [] || (Allowed(s.heap, ops[0]) && Legal(Next(s, ops[0]), ops[1..]))
  }

  /** State after a run. In every state a run can reach, the region is tiled between its sentinels by
      correctly tagged blocks, the free list holds exactly the free blocks once each, and no two
      neighbours are both free. */
  ghost function Run(s: State, ops: seq<Op>): (s': State)
    requires Inv(s.mem, s.heap) && Legal(s, ops)
    ensures Inv(s'.mem, s'.heap) && |s'.mem| == |s.mem|
    decreases |ops|
  {
    hide Inv, Next, Allowed;
    if ops == [] then s else Run(Next(s, ops[0]), ops[1..])
  }

  /** An operation neither frees b nor stores into it. */
  ghost predicate Spares(op: Op, b: Block) {
    match op
    case Alloc(_, _) => true
    case Free(a) => a != b.Contents()
    case Store(obj, _, _) => obj != b.Contents()
  }

  lemma StepKeeps(s: State, op: Op, b: Block, a: int)
    requires Inv(s.mem, s.heap) && Allowed(s.heap, op) && Spares(op, b)
    requires LiveBlock(s.heap, b) && b.at <= a < b.End()
    ensures LiveBlock(Next(s, op).heap, b)
    ensures 0 <= a < |s.mem| && Next(s, op).mem[a] == s.mem[a]
  {
    hide Inv, AllocState, FreeHeap, FreeMem;
    LiveInside(s, b);
    match op
    case Alloc(bytes, clear) => AllocKeeps(s, bytes, clear, b, a);
    case Free(f) =>
      var i := BlockIndex(s.heap.blocks, f);
      FreeKeepsLive(s.mem, s.heap, i, b, a);
    case Store(obj, offset, value) =>
      StoreApart(s, obj, offset, value, b);
  }

  lemma StoreApart(s: State, obj: int, offset: int, value: int, b: Block)
    requires Inv(s.mem, s.heap) && Allowed(s.heap, Store(obj, offset, value))
    requires LiveBlock(s.heap, b) && obj != b.Contents()
    ensures !(b.at <= obj + offset < b.End())
  {
    hide IsList, NoFreeNeighbours, AllTagged;
    BlocksApart(s.heap, b, s.heap.blocks[BlockIndex(s.heap.blocks, obj)]);
  }

  /** Over any run that neither frees a live block nor stores into it, its extent, its bytes and its
      tags stay as they were, whatever happens to the other blocks. */
  lemma {:induction false} RunKeeps(s: State, ops: seq<Op>, b: Block, a: int)
    requires Inv(s.mem, s.heap) && Legal(s, ops) && LiveBlock(s.heap, b) && b.at <= a < b.End()
    requires forall i :: 0 <= i < |ops| ==> Spares(ops[i], b)
    ensures LiveBlock(Run(s, ops).heap, b)
    ensures 0 <= a < |s.mem| && Run(s, ops).mem[a] == s.mem[a]
    decreases |ops|
  {
    hide Inv, Next, Allowed, LiveBlock;
    LiveInside(s, b);
    if ops != [] {
      StepKeeps(s, ops[0], b, a);
      RunKeeps(Next(s, ops[0]), ops[1..], b, a);
    }
  }

  /** Two live blocks never share a word, and a live block overlaps no tag, no sentinel and no node of
      the free list. */
  lemma LiveDisjoint(s: State, b: Block, c: Block)
    requires Inv(s.mem, s.heap) && LiveBlock(s.heap, b) && c in s.heap.blocks && b != c
    ensures b.End() <= c.at || c.End() <= b.at
    ensures s.heap.start < b.at && b.End() <= s.heap.end - 2
  {
    hide IsList, NoFreeNeighbours, AllTagged;
    BlocksApart(s.heap, b, c);
  }

  /** In every reachable state the free bytes, the live bytes, 12 bytes per block and 12 bytes of
      sentinels make up the region. */
  lemma RunConserves(s: State, ops: seq<Op>)
    requires Inv(s.mem, s.heap) && Legal(s, ops)
    ensures var h := Run(s, ops).heap;
            4 * FreeWords(h.blocks) + 4 * LiveWords(h.blocks) + 12 * |h.blocks| + 12 == 4 * (s.heap.end - s.heap.start)
  {
    hide IsList, NoFreeNeighbours, AllTagged, Next, Legal;
    var h := Run(s, ops).heap;
    Conservation(h.blocks, h.Lo(), h.Hi());
    RunRegion(s, ops);
  }

  lemma {:induction false} RunRegion(s: State, ops: seq<Op>)
    requires Inv(s.mem, s.heap) && Legal(s, ops)
    ensures var h, h' := s.heap, Run(s, ops).heap;
            h'.list == h.list && h'.region == h.region && h'.start == h.start && h'.end == h.end
    decreases |ops|
  {
    hide Inv, Allowed;
    if ops != [] {
      StepRegion(s, ops[0]);
      RunRegion(Next(s, ops[0]), ops[1..]);
    }
  }

  lemma StepRegion(s: State, op: Op)
    requires Inv(s.mem, s.heap) && Allowed(s.heap, op)
    ensures var h, h' := s.heap, Next(s, op).heap;
            h'.list == h.list && h'.region == h.region && h'.start == h.start && h'.end == h.end
  {
    hide Inv;
  }

  // ---------------------------------------------------------------- giving everything back

  /** Releasing removes exactly the released block from the live ones. */
  lemma FreeLive(m: Mem, h: Heap, i: int, c: Block)
    requires Inv(m, h) && Live(h, i)
    ensures LiveBlock(FreeHeap(h, i), c) <==> LiveBlock(h, c) && c != h.blocks[i]
  {
    hide IsList, NoFreeNeighbours, AllTagged, Pos2, List2, ListsFree, Tiles;
    var bs, lo, hi := h.blocks, WindowLo(h, i), WindowHi(h, i);
    PosInRange(h, i);
    ReplacedMember(bs, lo, hi, [Merged(bs, lo, hi)], c);
    if LiveBlock(h, c) && c != bs[i] {
      var j :| 0 <= j < |bs| && bs[j] == c;
      assert j < lo ==> c == bs[..lo][j];
      assert j >= hi ==> c == bs[hi..][j - hi];
    }
    if LiveBlock(FreeHeap(h, i), c) {
      NotTwice(h, lo, hi, i, c);
    }
  }

  lemma NotTwice(h: Heap, lo: int, hi: int, i: int, c: Block)
    requires Tiles(h.blocks, h.Lo(), h.Hi()) && 0 <= lo <= i < hi <= |h.blocks|
    requires c in h.blocks[..lo] || c in h.blocks[hi..]
    ensures c in h.blocks && c != h.blocks[i]
  {
    hide Tiles;
    TilesBounds(h.blocks, h.Lo(), h.Hi());
    if c in h.blocks[..lo] {
      var j :| 0 <= j < lo && h.blocks[j] == c;
      TilesOrdered(h.blocks, h.Lo(), h.Hi(), j, i);
    } else {
      var j :| 0 <= j < |h.blocks| - hi && h.blocks[hi..][j] == c;
      assert h.blocks[hi + j] == c;
      TilesOrdered(h.blocks, h.Lo(), h.Hi(), i, hi + j);
    }
  }

  lemma LiveIndex(s: State, a: int)
    requires Inv(s.mem, s.heap)
    ensures Live(s.heap, BlockIndex(s.heap.blocks, a)) <==> exists b :: LiveBlock(s.heap, b) && b.Contents() == a
  {
    hide Inv;
    var i := BlockIndex(s.heap.blocks, a);
    if Live(s.heap, i) {
      assert LiveBlock(s.heap, s.heap.blocks[i]);
    }
    if b :| LiveBlock(s.heap, b) && b.Contents() == a {
      LiveAt(s, b);
    }
  }

  /** order names every live block once. */
  ghost predicate NamesLive(h: Heap, order: seq<int>) {
    && (forall i, j :: 0 <= i < j < |order| ==> order[i] != order[j])
    && forall a :: a in order <==> Live(h, BlockIndex(h.blocks, a))
  }

  lemma NamesRest(s: State, order: seq<int>)
    requires Inv(s.mem, s.heap) && order != [] && NamesLive(s.heap, order)
    ensures Allowed(s.heap, Free(order[0])) && NamesLive(Next(s, Free(order[0])).heap, order[1..])
  {
    hide Inv, Next, LiveBlock;
    assert order[0] in order;
    var s' := Next(s, Free(order[0]));
    forall a ensures a in order[1..] <==> Live(s'.heap, BlockIndex(s'.heap.blocks, a)) {
      StillLive(s, order[0], a);
      assert a in order <==> a == order[0] || a in order[1..];
    }
  }

  lemma StillLive(s: State, f: int, a: int)
    requires Inv(s.mem, s.heap) && Allowed(s.heap, Free(f))
    ensures var h' := Next(s, Free(f)).heap;
            Live(h', BlockIndex(h'.blocks, a)) <==> Live(s.heap, BlockIndex(s.heap.blocks, a)) && a != f
  {
    hide Inv, FreeHeap, FreeMem, LiveBlock;
    var s' := Next(s, Free(f));
    LiveIndex(s', a);
    LiveIndex(s, a);
    FreedIndex(s, BlockIndex(s.heap.blocks, f), a);
  }

  lemma FreedIndex(s: State, i: int, a: int)
    requires Inv(s.mem, s.heap) && Live(s.heap, i)
    ensures (exists b :: LiveBlock(FreeHeap(s.heap, i), b) && b.Contents() == a) <==>
            (exists b :: LiveBlock(s.heap, b) && b.Contents() == a) && a != s.heap.blocks[i].Contents()
  {
    hide Inv, FreeHeap;
    if b :| LiveBlock(FreeHeap(s.heap, i), b) && b.Contents() == a {
      FreeLive(s.mem, s.heap, i, b);
      LiveAt(s, b);
      LiveAt(s, s.heap.blocks[i]);
    }
    if b :| LiveBlock(s.heap, b) && b.Contents() == a && a != s.heap.blocks[i].Contents() {
      FreeLive(s.mem, s.heap, i, b);
    }
  }

  lemma NothingLeft(s: State)
    requires Inv(s.mem, s.heap) && NamesLive(s.heap, [])
    ensures s.heap == Initial(s.heap.list, s.heap.region, s.heap.start, s.heap.end)
  {
    hide IsList, AllTagged, FreeNodes, NamesLive;
    var h := s.heap;
    forall i | 0 <= i < |h.blocks| ensures h.blocks[i].free {
      NotLive(s, i);
    }
    LiveExists(h.blocks);
    NothingLive(h.blocks, h.Lo(), h.Hi());
    FreeNodesOne(h.blocks[0]);
    assert multiset(h.free) == multiset([h.start + 3]);
    assert |h.free| == |multiset(h.free)| == 1;
    assert h.free[0] in multiset(h.free);
  }

  lemma NotLive(s: State, i: int)
    requires Inv(s.mem, s.heap) && NamesLive(s.heap, []) && 0 <= i < |s.heap.blocks|
    ensures s.heap.blocks[i].free
  {
    hide Inv;
    if !s.heap.blocks[i].free {
      LiveAt(s, s.heap.blocks[i]);
    }
  }

  function Frees(order: seq<int>): (ops: seq<Op>)
    ensures |ops| == |order| && forall i :: 0 <= i < |order| ==> ops[i] == Free(order[i])
  {
    seq(|order|, i requires 0 <= i < |order| => Free(order[i]))
  }

  /** Releasing all live blocks, in any order, is legal and restores the initial single free block. */
  lemma {:induction false} FreeAll(s: State, order: seq<int>)
    requires Inv(s.mem, s.heap) && NamesLive(s.heap, order)
    ensures Legal(s, Frees(order))
    ensures Run(s, Frees(order)).heap == Initial(s.heap.list, s.heap.region, s.heap.start, s.heap.end)
    decreases |order|
  {
    hide Inv, Next, NamesLive, Allowed;
    if order == [] {
      NothingLeft(s);
    } else {
      NamesRest(s, order);
      assert Frees(order)[1..] == Frees(order[1..]);
      StepRegion(s, Free(order[0]));
      FreeAll(Next(s, Free(order[0])), order[1..]);
    }
  }
}
