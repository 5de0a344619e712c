/** Blocks of the boundary-tag heap and how they tile a region.

    Addresses and sizes are counted in 32-bit words: a header is 2 words (Region, Size), a footer 1
    word (FreeSize), a list node 4 words. A block at address `at` is header, `size` words of contents
    and footer; the free-list node of a free block is the start of its contents.
 */
module HeapLayout {
  const HEADER_WORDS := 2
  const FOOTER_WORDS := 1
  const MIN_CONTENTS := 4

  datatype Block = Block(at: int, size: int, free: bool) {
    function Contents(): int { at + 2 }
    function Foot(): int { at + 2 + size }
    function End(): int { at + 3 + size }
  }

  /** bs are adjacent blocks covering exactly the words lo..hi. */
  ghost predicate Tiles(bs: seq<Block>, lo: int, hi: int) {
    if bs == [] then lo == hi
    else bs[0].at == lo && bs[0].size >= MIN_CONTENTS && Tiles(bs[1..], bs[0].End(), hi)
  }

  ghost predicate NoFreeNeighbours(bs: seq<Block>) {
    forall i :: 0 < i < |bs| ==> !(bs[i - 1].free && bs[i].free)
  }

  /** Contents addresses of the free blocks, in address order. */
  ghost function FreeNodes(bs: seq<Block>): seq<int> {
    if bs == [] then []
    else (if bs[0].free then [bs[0].Contents()] else []) + FreeNodes(bs[1..])
  }

  ghost function FreeWords(bs: seq<Block>): int {
    if bs == [] then 0 else (if bs[0].free then bs[0].size else 0) + FreeWords(bs[1..])
  }

  ghost function LiveWords(bs: seq<Block>): int {
    if bs == [] then 0 else (if bs[0].free then 0 else bs[0].size) + LiveWords(bs[1..])
  }

  ghost function LiveCount(bs: seq<Block>): nat {
    if bs == [] then 0 else (if bs[0].free then 0 else 1) + LiveCount(bs[1..])
  }

  // ---------------------------------------------------------------- splitting and joining

  lemma {:induction false} TilesBounds(bs: seq<Block>, lo: int, hi: int)
    requires Tiles(bs, lo, hi)
    ensures lo <= hi
    ensures forall i :: 0 <= i < |bs| ==> lo <= bs[i].at && bs[i].End() <= hi && bs[i].size >= MIN_CONTENTS
  {
    if bs != [] {
      TilesBounds(bs[1..], bs[0].End(), hi);
      assert forall i :: 0 < i < |bs| ==> bs[i] == bs[1..][i - 1];
    }
  }

  lemma {:induction false} TilesConcat(ts: seq<Block>, bs: seq<Block>, lo: int, mid: int, hi: int)
    requires Tiles(ts, lo, mid) && Tiles(bs, mid, hi)
    ensures Tiles(ts + bs, lo, hi)
  {
    if ts == [] {
      assert ts + bs == bs;
    } else {
      assert (ts + bs)[1..] == ts[1..] + bs;
      TilesConcat(ts[1..], bs, ts[0].End(), mid, hi);
    }
  }

  ghost function At(bs: seq<Block>, k: int, hi: int): int
    requires 0 <= k <= |bs|
  {
    if k < |bs| then bs[k].at else hi
  }

  lemma {:induction false} TilesSplit(bs: seq<Block>, lo: int, hi: int, k: int)
    requires Tiles(bs, lo, hi) && 0 <= k <= |bs|
    ensures Tiles(bs[..k], lo, At(bs, k, hi)) && Tiles(bs[k..], At(bs, k, hi), hi)
  {
    if k == 0 {
      assert bs[0..] == bs;
    } else {
      TilesSplit(bs[1..], bs[0].End(), hi, k - 1);
      assert bs[1..][..k - 1] == bs[..k][1..];
      assert bs[1..][k - 1..] == bs[k..];
    }
  }

  /** Blocks do not overlap and follow each other in address order. */
  lemma TilesOrdered(bs: seq<Block>, lo: int, hi: int, i: int, j: int)
    requires Tiles(bs, lo, hi) && 0 <= i < j < |bs|
    ensures bs[i].End() <= bs[j].at
    ensures j == i + 1 ==> bs[i].End() == bs[j].at
  {
    TilesSplit(bs, lo, hi, i);
    var cs := bs[i..];
    TilesBounds(cs[1..], cs[0].End(), hi);
    assert cs[1..][j - i - 1] == bs[j];
  }

  lemma {:induction false} FreeNodesConcat(ts: seq<Block>, bs: seq<Block>)
    ensures FreeNodes(ts + bs) == FreeNodes(ts) + FreeNodes(bs)
  {
    if ts == [] {
      assert ts + bs == bs;
    } else {
      var hd := if ts[0].free then [ts[0].Contents()] else [];
      assert (ts + bs)[0] == ts[0] && (ts + bs)[1..] == ts[1..] + bs;
      FreeNodesConcat(ts[1..], bs);
      assert FreeNodes(ts) == hd + FreeNodes(ts[1..]);
      assert hd + (FreeNodes(ts[1..]) + FreeNodes(bs)) == hd + FreeNodes(ts[1..]) + FreeNodes(bs);
    }
  }

  lemma FreeNodesOne(b: Block)
    ensures FreeNodes([b]) == if b.free then [b.Contents()] else []
    ensures LiveCount([b]) == if b.free then 0 else 1
  {
    assert [b][1..] == [];
  }

  lemma {:induction false} FreeNodesMember(bs: seq<Block>, n: int) returns (i: int)
    requires n in FreeNodes(bs)
    ensures 0 <= i < |bs| && bs[i].free && bs[i].Contents() == n
  {
    if bs[0].free && bs[0].Contents() == n {
      i := 0;
    } else {
      i := FreeNodesMember(bs[1..], n);
      i := i + 1;
    }
  }

  lemma {:induction false} FreeNodesHas(bs: seq<Block>, i: int)
    requires 0 <= i < |bs| && bs[i].free
    ensures bs[i].Contents() in FreeNodes(bs)
  {
    if i > 0 {
      FreeNodesHas(bs[1..], i - 1);
    }
  }

  /** No address is listed twice. */
  lemma {:induction false} FreeNodesOnce(bs: seq<Block>, lo: int, hi: int, n: int)
    requires Tiles(bs, lo, hi)
    ensures multiset(FreeNodes(bs))[n] <= 1
    ensures n < lo + 2 ==> n !in FreeNodes(bs)
  {
    if bs != [] {
      FreeNodesOnce(bs[1..], bs[0].End(), hi, n);
    }
  }

  /** bs with the blocks i..j replaced by the blocks cs over the same words. */
  function Replaced(bs: seq<Block>, i: int, j: int, cs: seq<Block>): seq<Block>
    requires 0 <= i <= j <= |bs|
  {
    bs[..i] + cs + bs[j..]
  }

  lemma ReplacedTiles(bs: seq<Block>, lo: int, hi: int, i: int, j: int, cs: seq<Block>)
    requires Tiles(bs, lo, hi) && 0 <= i <= j <= |bs|
    requires Tiles(cs, At(bs, i, hi), At(bs, j, hi))
    ensures Tiles(Replaced(bs, i, j, cs), lo, hi)
  {
    TilesSplit(bs, lo, hi, i);
    TilesSplit(bs, lo, hi, j);
    TilesConcat(bs[..i], cs, lo, At(bs, i, hi), At(bs, j, hi));
    TilesConcat(bs[..i] + cs, bs[j..], lo, At(bs, j, hi), hi);
  }

  lemma ConcatThree(ts: seq<Block>, cs: seq<Block>, us: seq<Block>)
    ensures FreeNodes(ts + cs + us) == FreeNodes(ts) + FreeNodes(cs) + FreeNodes(us)
  {
    FreeNodesConcat(ts, cs);
    FreeNodesConcat(ts + cs, us);
  }

  lemma SwapMiddle<T>(x: seq<T>, mid: seq<T>, mid': seq<T>, y: seq<T>)
    ensures multiset(x + mid' + y) + multiset(mid) == multiset(x + mid + y) + multiset(mid')
  {
  }

  lemma SameRest<T>(s: multiset<T>, t: multiset<T>, s': multiset<T>, t': multiset<T>,
      gone: multiset<T>, come: multiset<T>)
    requires s == t && s' + gone == s + come && t' + gone == t + come
    ensures s' == t'
  {
    assert s' == s' + gone - gone;
    assert t' == t' + gone - gone;
  }

  /** If the free list changes by the same nodes as the free blocks do, it still lists exactly them. */
  lemma ReplacedFree(bs: seq<Block>, i: int, j: int, cs: seq<Block>, ns: seq<int>, ns': seq<int>)
    requires 0 <= i <= j <= |bs| && multiset(ns) == multiset(FreeNodes(bs))
    requires multiset(ns') + multiset(FreeNodes(bs[i..j])) == multiset(ns) + multiset(FreeNodes(cs))
    ensures multiset(ns') == multiset(FreeNodes(Replaced(bs, i, j, cs)))
  {
    assert bs == bs[..i] + bs[i..j] + bs[j..];
    ConcatThree(bs[..i], bs[i..j], bs[j..]);
    ConcatThree(bs[..i], cs, bs[j..]);
    SwapMiddle(FreeNodes(bs[..i]), FreeNodes(bs[i..j]), FreeNodes(cs), FreeNodes(bs[j..]));
    SameRest(multiset(ns), multiset(FreeNodes(bs)), multiset(ns'), multiset(FreeNodes(Replaced(bs, i, j, cs))),
             multiset(FreeNodes(bs[i..j])), multiset(FreeNodes(cs)));
  }

  // ---------------------------------------------------------------- conservation

  /** Free words, live words and three words of tags per block add up to the tiled span. */
  lemma {:induction false} Conservation(bs: seq<Block>, lo: int, hi: int)
    requires Tiles(bs, lo, hi)
    ensures FreeWords(bs) + LiveWords(bs) + 3 * |bs| == hi - lo
  {
    if bs != [] {
      Conservation(bs[1..], bs[0].End(), hi);
    }
  }

  lemma {:induction false} LiveExists(bs: seq<Block>)
    ensures LiveCount(bs) == 0 <==> forall i :: 0 <= i < |bs| ==> bs[i].free
  {
    if bs != [] {
      LiveExists(bs[1..]);
      assert forall i :: 0 < i < |bs| ==> bs[i] == bs[1..][i - 1];
    }
  }

  /** With nothing live, coalescing has left one free block over the whole span. */
  lemma NothingLive(bs: seq<Block>, lo: int, hi: int)
    requires Tiles(bs, lo, hi) && NoFreeNeighbours(bs) && lo < hi && LiveCount(bs) == 0
    ensures bs == [Block(lo, hi - lo - 3, true)]
  {
    LiveExists(bs);
    assert |bs| <= 1;
    assert bs[1..] == [];
  }
}
