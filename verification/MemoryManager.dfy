/** All memory regions of exos/kernel/memory.c: the list kept by priority and the search for a region that
    can serve a request. */
module MemoryManager {
  import opened SeqSets
  import opened IntrusiveList
  import opened HeapState
  import opened HeapRuns
  import opened Words
  import opened MemoryRegion

  const MEMF_REGION: bv32 := 3
  const MEMF_CLEAR: bv32 := 16

  /** The region has every region property the request asks for. */
  predicate Matches(region: bv32, flags: bv32) {
    region & flags == flags & MEMF_REGION
  }

  /** A region matches exactly when it is fit for DMA if the request asks for that, shared if the request asks for
      that, and has no flag of another kind in common with the request. */
  lemma MatchesBits(region: bv32, flags: bv32)
    ensures Matches(region, flags) <==>
            && (flags & 1 == 1 ==> region & 1 == 1)
            && (flags & 2 == 2 ==> region & 2 == 2)
            && region & flags & 0xFFFF_FFFC == 0
  {
  }

  /** The first region from i on that matches and has room, or |states|. */
  ghost function Serving(states: seq<State>, regionFlags: seq<bv32>, bytes: int, flags: bv32, i: int): (k: int)
    requires |states| == |regionFlags| && 0 <= i <= |states|
    requires forall j :: 0 <= j < |states| ==> Good(states[j])
    ensures i <= k <= |states|
    decreases |states| - i
  {
    hide Good;
    if i == |states| || Fits(states[i], regionFlags[i], bytes, flags) then i
    else Serving(states, regionFlags, bytes, flags, i + 1)
  }

  ghost predicate Fits(s: State, regionFlags: bv32, bytes: int, flags: bv32)
    requires Good(s)
  {
    Matches(regionFlags, flags) && AllocAddress(s, bytes) != NULL
  }

  /** A request fails exactly when it is empty or no matching region has a free block with room, and is
      otherwise served by the first region that can. */
  lemma {:induction false} ServingFirst(states: seq<State>, regionFlags: seq<bv32>, bytes: int, flags: bv32, i: int)
    requires |states| == |regionFlags| && 0 <= i <= |states|
    requires forall j :: 0 <= j < |states| ==> Good(states[j])
    ensures var k := Serving(states, regionFlags, bytes, flags, i);
            && (forall j :: i <= j < k && Matches(regionFlags[j], flags) ==>
                  bytes == 0 || forall b :: b in states[j].heap.blocks && b.free ==> b.size < RequestWords(bytes))
            && (k < |states| ==> Fits(states[k], regionFlags[k], bytes, flags))
    decreases |states| - i
  {
    hide Inv, AllocAddress, Matches, RequestWords;
    if i < |states| {
      AllocFails(states[i], bytes);
      if !Fits(states[i], regionFlags[i], bytes, flags) {
        ServingFirst(states, regionFlags, bytes, flags, i + 1);
      }
    }
  }

  /** A region that does not serve a request has nothing to cut for it. */
  lemma NoWrite(s: State, regionFlags: bv32, bytes: int, flags: bv32)
    requires Good(s) && 0 <= bytes < WORD && Matches(regionFlags, flags) && !Fits(s, regionFlags, bytes, flags)
    ensures !WritesNull(s.heap, bytes)
  {
    hide Inv, Matches;
    if WritesNull(s.heap, bytes) {
      NullStore(s, bytes);
      NodesArePositive(s.mem, s.heap);
    }
  }

  lemma ClearBit(flags: bv32)
    ensures flags & MEMF_CLEAR != 0 <==> flags & 16 == 16
    ensures flags & MEMF_CLEAR == 0 <==> flags & 16 == 0
  {
  }

  /** Regions and their memories are pairwise different objects. */
  ghost predicate AllApart(rs: seq<Region>) {
    forall i, j :: 0 <= i < j < |rs| ==> rs[i] != rs[j] && rs[i].mem != rs[j].mem
  }

  lemma ApartInserted(rs: seq<Region>, k: int, r: Region)
    requires AllApart(rs) && 0 <= k <= |rs| && forall s :: s in rs ==> s != r && s.mem != r.mem
    ensures AllApart(InsertedAt(rs, k, r))
    ensures forall s :: s in InsertedAt(rs, k, r) <==> s in rs || s == r
  {
    InsertedMembers(rs, k, r);
    var qs := InsertedAt(rs, k, r);
    forall i, j | 0 <= i < j < |qs| ensures qs[i] != qs[j] && qs[i].mem != qs[j].mem {
      var i0 := if i < k then i else i - 1;
      var j0 := if j < k then j else j - 1;
      assert i != k ==> qs[i] == rs[i0];
      assert j != k ==> qs[j] == rs[j0];
    }
  }

  class Manager {
    var regions: seq<Region>
    var regionFlags: seq<bv32>
    var priorities: seq<int>

    ghost function Memories(): set<object>
      reads this
    {
      set r | r in regions :: r.mem
    }

    ghost predicate Valid()
      reads this, regions, Memories()
    {
      && |regions| == |regionFlags| == |priorities| && AllApart(regions) && Descending(priorities)
      && forall i :: 0 <= i < |regions| ==> regions[i].Valid()
    }

    ghost function States(): (s: seq<State>)
      reads this, regions, Memories()
    {
      seq(|regions|, i requires 0 <= i < |regions| reads this, regions, Memories() => regions[i].St())
    }

    constructor ()
      ensures Valid() && regions == []
    {
      regions, regionFlags, priorities := [], [], [];
    }

    /** The end of exos_mem_add_region: the formatted region enters the list by priority, behind equals. */
    method Enlist(r: Region, pri: int, flags: bv32)
      requires Valid() && r.Valid() && forall s :: s in regions ==> s != r && s.mem != r.mem
      modifies this
      ensures Valid()
      ensures var k := EnqueuePos(old(priorities), pri);
              && regions == InsertedAt(old(regions), k, r)
              && regionFlags == InsertedAt(old(regionFlags), k, flags)
              && priorities == InsertedAt(old(priorities), k, pri)
    {
      EnqueueSorted(priorities, pri);
      var k := 0;
      while k < |priorities| && priorities[k] >= pri
        invariant 0 <= k <= EnqueuePos(priorities, pri)
      {
        k := k + 1;
      }
      ApartInserted(regions, k, r);
      hide AllApart, Descending, EnqueuePos;
      regions := regions[..k] + [r] + regions[k..];
      regionFlags := regionFlags[..k] + [flags] + regionFlags[k..];
      priorities := priorities[..k] + [pri] + priorities[k..];
      forall i | 0 <= i < |regions| ensures regions[i].Valid() {
        assert regions[i] in regions;
      }
    }

    /** One region's turn: no other region changes. */
    method AllocIn(i: int, bytes: int, clear: bool) returns (addr: int)
      requires Valid() && 0 <= i < |regions| && 0 <= bytes < WORD && !WritesNull(regions[i].heap, bytes)
      modifies regions[i], regions[i].mem
      ensures Valid() && addr == AllocAddress(old(States())[i], bytes)
      ensures States() == old(States())[i := AllocState(old(States())[i], bytes, clear)]
    {
      hide Inv, AllocAddress, AllocState, Descending;
      addr := regions[i].Alloc(bytes, clear);
    }

    /** exos_mem_alloc: the request is served by the first matching region with room; no other region
        changes. */
    method Alloc(bytes: int, flags: bv32) returns (index: int, addr: int)
      requires Valid() && 0 <= bytes < WORD
      requires var k := Serving(States(), regionFlags, bytes, flags, 0);
               k < |regions| ==> !WritesNull(States()[k].heap, bytes)
      modifies regions, Memories()
      ensures Valid() && index == Serving(old(States()), regionFlags, bytes, flags, 0)
      ensures index == |regions| ==> addr == NULL && States() == old(States())
      ensures index < |regions| ==>
                && addr == AllocAddress(old(States())[index], bytes) != NULL
                && States() == old(States())[index := AllocState(old(States())[index], bytes, flags & MEMF_CLEAR != 0)]
      ensures index < |regions| ==>
                var m, m', n := old(States())[index].mem, States()[index].mem, RequestWords(bytes);
                var size := AllocBlock(old(States())[index], bytes).size;
                && 0 < addr && 0 <= n <= size && addr + size <= |m| == |m'|
                && (flags & 16 == 16 ==> forall j :: addr <= j < addr + n ==> m'[j] == 0)
                && (flags & 16 == 0 ==> forall j :: addr + 2 <= j < addr + size ==> m'[j] == m[j])
    {
      hide Inv, AllocAddress, AllocState, Matches, Descending, AllApart;
      ghost var states := States();
      var clear := flags & MEMF_CLEAR != 0;
      index, addr := 0, NULL;
      while index < |regions|
        invariant 0 <= index <= |regions| && Valid() && States() == states && addr == NULL
        invariant Serving(states, regionFlags, bytes, flags, index) == Serving(states, regionFlags, bytes, flags, 0)
      {
        if Matches(regionFlags[index], flags) {
          if !Fits(states[index], regionFlags[index], bytes, flags) {
            NoWrite(states[index], regionFlags[index], bytes, flags);
          }
          AllocSpec(states[index], bytes, clear);
          addr := AllocIn(index, bytes, clear);
          if addr != NULL {
            AllocWords(states[index], bytes, clear);
            ClearBit(flags);
            return;
          }
        }
        index := index + 1;
      }
    }
  }
}
