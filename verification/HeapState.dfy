/** The invariant of one memory region: physical tiling, boundary tags and free list agree. */
module HeapState {
  import opened IntrusiveList
  import opened HeapLayout

  /** Abstract state of a region: its blocks in address order and its free list in list order.
      `list` is the address of the region's list_t, `region` the value stored in every header. */
  datatype Heap = Heap(list: int, region: int, start: int, end: int, blocks: seq<Block>, free: seq<int>) {
    function Lo(): int { start + 1 }
    function Hi(): int { end - 2 }
  }

  /** The header and footer words of b are as the kernel keeps them: the footer repeats the size of a
      free block and is 0 for a block in use. */
  ghost predicate Tagged(m: Mem, region: int, b: Block) {
    && 0 <= b.at && 0 <= b.size && b.End() <= |m|
    && m[b.at] == region && m[b.at + 1] == b.size
    && m[b.Foot()] == if b.free then b.size else 0
  }

  ghost predicate AllTagged(m: Mem, region: int, bs: seq<Block>) {
    forall i :: 0 <= i < |bs| ==> Tagged(m, region, bs[i])
  }

  ghost predicate Placed(m: Mem, h: Heap) {
    && NULL < h.list && h.list + LIST_WORDS <= |m|
    && NULL < h.start && h.start + 10 <= h.end <= |m|
    && (h.list + LIST_WORDS <= h.start || h.end <= h.list)
  }

  ghost predicate Sentinels(m: Mem, h: Heap)
    requires Placed(m, h)
  {
    m[h.start] == 0 && m[h.end - 2] == h.region && m[h.end - 1] == 0
  }

  /** The region is tiled by correctly tagged blocks between the two sentinels. */
  ghost predicate Shape(m: Mem, h: Heap) {
    && Placed(m, h)
    && Sentinels(m, h)
    && Tiles(h.blocks, h.Lo(), h.Hi())
    && AllTagged(m, h.region, h.blocks)
  }

  /** The free list holds exactly the free blocks, once each. */
  ghost predicate ListsFree(h: Heap) {
    multiset(h.free) == multiset(FreeNodes(h.blocks))
  }

  ghost predicate Inv(m: Mem, h: Heap) {
    && Shape(m, h)
    && NoFreeNeighbours(h.blocks)
    && IsList(m, h.list, h.free)
    && ListsFree(h)
  }

  ghost function ContentsOf(bs: seq<Block>): set<int> {
    set b | b in bs :: b.Contents()
  }

  /** Every node is the contents of some block. */
  ghost predicate NodesIn(ns: seq<int>, bs: seq<Block>) {
    forall k :: 0 <= k < |ns| ==> ns[k] in ContentsOf(bs)
  }

  // ---------------------------------------------------------------- blocks and nodes

  lemma BlocksApart(h: Heap, b: Block, c: Block)
    requires Tiles(h.blocks, h.Lo(), h.Hi()) && b in h.blocks && c in h.blocks
    ensures b == c || b.End() <= c.at || c.End() <= b.at
    ensures h.Lo() <= b.at && b.End() <= h.Hi() && b.size >= MIN_CONTENTS
  {
    var i :| 0 <= i < |h.blocks| && h.blocks[i] == b;
    var j :| 0 <= j < |h.blocks| && h.blocks[j] == c;
    TilesBounds(h.blocks, h.Lo(), h.Hi());
    if i < j {
      TilesOrdered(h.blocks, h.Lo(), h.Hi(), i, j);
    } else if j < i {
      TilesOrdered(h.blocks, h.Lo(), h.Hi(), j, i);
    }
  }

  lemma OwnerOf(h: Heap, ns: seq<int>, k: int) returns (b: Block)
    requires NodesIn(ns, h.blocks) && 0 <= k < |ns|
    ensures b in h.blocks && b.Contents() == ns[k]
  {
    assert ns[k] in ContentsOf(h.blocks);
    b :| b in h.blocks && b.Contents() == ns[k];
  }

  /** A word of block b that is not the link word of a listed node belongs to no link. */
  lemma WordOutside(m: Mem, h: Heap, ns: seq<int>, b: Block, a: int)
    requires Placed(m, h) && Tiles(h.blocks, h.Lo(), h.Hi()) && NodesIn(ns, h.blocks)
    requires b in h.blocks && b.at <= a < b.End()
    requires b.Contents() in ns ==> a != b.at + 2 && a != b.at + 3
    ensures Outside(h.list, ns, a)
  {
    BlocksApart(h, b, b);
    forall k | 0 <= k < |ns| ensures a != ns[k] && a != ns[k] + 1 {
      var c := OwnerOf(h, ns, k);
      BlocksApart(h, b, c);
      BlocksApart(h, c, b);
    }
  }

  lemma EdgeOutside(m: Mem, h: Heap, ns: seq<int>, a: int)
    requires Placed(m, h) && Tiles(h.blocks, h.Lo(), h.Hi()) && NodesIn(ns, h.blocks)
    requires h.start <= a < h.Lo() || h.Hi() <= a < h.end
    ensures Outside(h.list, ns, a)
  {
    forall k | 0 <= k < |ns| ensures a != ns[k] && a != ns[k] + 1 {
      var c := OwnerOf(h, ns, k);
      BlocksApart(h, c, c);
    }
  }

  /** m' differs from m in link words of the listed nodes only. */
  ghost predicate LinksOnly(m: Mem, m': Mem, l: int, ns: seq<int>) {
    |m'| == |m| && forall a :: 0 <= a < |m| && Outside(l, ns, a) ==> m'[a] == m[a]
  }

  /** Relinking nodes that live in block contents leaves every tag alone. */
  lemma ShapeRelinked(m: Mem, m': Mem, h: Heap, ns: seq<int>)
    requires Shape(m, h) && NodesIn(ns, h.blocks) && LinksOnly(m, m', h.list, ns)
    ensures Shape(m', h)
  {
    EdgeOutside(m, h, ns, h.start);
    EdgeOutside(m, h, ns, h.end - 2);
    EdgeOutside(m, h, ns, h.end - 1);
    forall i | 0 <= i < |h.blocks| ensures Tagged(m', h.region, h.blocks[i]) {
      var b := h.blocks[i];
      assert Tagged(m, h.region, b);
      BlocksApart(h, b, b);
      WordOutside(m, h, ns, b, b.at);
      WordOutside(m, h, ns, b, b.at + 1);
      WordOutside(m, h, ns, b, b.Foot());
    }
  }

  lemma ReplacedMember(bs: seq<Block>, i: int, j: int, cs: seq<Block>, b: Block)
    requires 0 <= i <= j <= |bs|
    ensures b in Replaced(bs, i, j, cs) <==> b in bs[..i] || b in cs || b in bs[j..]
  {
  }

  /** Rewriting the words of the blocks i..j as the blocks cs keeps the shape. */
  lemma ShapeReplaced(m: Mem, m': Mem, h: Heap, i: int, j: int, cs: seq<Block>, free': seq<int>)
    requires Shape(m, h) && 0 <= i < j <= |h.blocks| && |m'| == |m|
    requires Tiles(cs, h.blocks[i].at, h.blocks[j - 1].End()) && AllTagged(m', h.region, cs)
    requires forall a :: 0 <= a < |m| && !(h.blocks[i].at <= a < h.blocks[j - 1].End()) ==> m'[a] == m[a]
    ensures Shape(m', h.(blocks := Replaced(h.blocks, i, j, cs), free := free'))
  {
    hide Tiles, AllTagged, Replaced;
    EndsAt(h, j);
    TilesBounds(h.blocks, h.Lo(), h.Hi());
    ReplacedTiles(h.blocks, h.Lo(), h.Hi(), i, j, cs);
    TagsReplaced(m, m', h, i, j, cs);
  }

  lemma TagsReplaced(m: Mem, m': Mem, h: Heap, i: int, j: int, cs: seq<Block>)
    requires Shape(m, h) && 0 <= i < j <= |h.blocks| && |m'| == |m| && AllTagged(m', h.region, cs)
    requires forall a :: 0 <= a < |m| && !(h.blocks[i].at <= a < h.blocks[j - 1].End()) ==> m'[a] == m[a]
    ensures AllTagged(m', h.region, Replaced(h.blocks, i, j, cs))
  {
    hide Tiles;
    var bs := Replaced(h.blocks, i, j, cs);
    forall k | 0 <= k < |bs| ensures Tagged(m', h.region, bs[k]) {
      if i <= k < i + |cs| {
        assert bs[k] == cs[k - i];
      } else {
        var k0 := if k < i then k else k - |cs| + (j - i);
        assert bs[k] == h.blocks[k0];
        OutsideRange(h, i, j, k0);
        assert Tagged(m, h.region, h.blocks[k0]);
      }
    }
  }

  lemma EndsAt(h: Heap, j: int)
    requires Tiles(h.blocks, h.Lo(), h.Hi()) && 0 < j <= |h.blocks|
    ensures At(h.blocks, j, h.Hi()) == h.blocks[j - 1].End()
  {
    TilesSplit(h.blocks, h.Lo(), h.Hi(), j - 1);
    var t := h.blocks[j - 1..];
    assert t[1..] == h.blocks[j..];
  }

  lemma OutsideRange(h: Heap, i: int, j: int, k: int)
    requires Tiles(h.blocks, h.Lo(), h.Hi()) && 0 <= i < j <= |h.blocks|
    requires 0 <= k < i || j <= k < |h.blocks|
    ensures h.blocks[k].End() <= h.blocks[i].at || h.blocks[j - 1].End() <= h.blocks[k].at
  {
    if k < i {
      TilesOrdered(h.blocks, h.Lo(), h.Hi(), k, i);
    } else {
      TilesOrdered(h.blocks, h.Lo(), h.Hi(), j - 1, k);
    }
  }

  // ---------------------------------------------------------------- free list and blocks

  lemma FreeBlockOf(h: Heap, k: int) returns (i: int)
    requires ListsFree(h) && 0 <= k < |h.free|
    ensures 0 <= i < |h.blocks| && h.blocks[i].free && h.blocks[i].Contents() == h.free[k]
  {
    assert h.free[k] in multiset(h.free);
    assert h.free[k] in multiset(FreeNodes(h.blocks));
    i := FreeNodesMember(h.blocks, h.free[k]);
  }

  lemma IndexOfFree(h: Heap, i: int) returns (k: int)
    requires ListsFree(h) && 0 <= i < |h.blocks| && h.blocks[i].free
    ensures 0 <= k < |h.free| && h.free[k] == h.blocks[i].Contents()
  {
    FreeNodesHas(h.blocks, i);
    assert h.blocks[i].Contents() in multiset(FreeNodes(h.blocks));
    assert h.blocks[i].Contents() in h.free;
    k :| 0 <= k < |h.free| && h.free[k] == h.blocks[i].Contents();
  }

  lemma FreeNodesIn(h: Heap)
    requires ListsFree(h)
    ensures NodesIn(h.free, h.blocks)
  {
    forall k | 0 <= k < |h.free| ensures h.free[k] in ContentsOf(h.blocks) {
      var i := FreeBlockOf(h, k);
      assert h.blocks[i] in h.blocks;
    }
  }

  /** A block in use is not on the free list. */
  lemma LiveNotListed(m: Mem, h: Heap, b: Block)
    requires Inv(m, h) && b in h.blocks && !b.free
    ensures b.Contents() !in h.free
  {
    if b.Contents() in h.free {
      var k :| 0 <= k < |h.free| && h.free[k] == b.Contents();
      var i := FreeBlockOf(h, k);
      BlocksApart(h, b, h.blocks[i]);
    }
  }
}
