/** The order of the block list: by address within a region, and the regions as they were grown. */
module HeapOrder {
  import opened Wrappers
  import opened HeapModel
  import opened HeapProofs
  import opened HeapRuns

  function Edge(r: Region): nat { r.start + r.len }

  /** The last byte of region `r` is in `b`. */
  predicate HasLastOf(b: Block, r: Region) { b.addr < Edge(r) <= End(b) }

  /** After the last byte of a region comes the region grown next: in the same block, or in the next one of the list. */
  ghost predicate FollowsAt(h: Heap, i: nat, r: nat)
    requires i < |h.blocks| && r < |h.regions|
  {
    HasLastOf(h.blocks[i], h.regions[r]) ==>
      if Edge(h.regions[r]) < End(h.blocks[i]) then
        r + 1 < |h.regions| && h.regions[r + 1].start == Edge(h.regions[r])
      else if r + 1 < |h.regions| then
        i + 1 < |h.blocks| && h.blocks[i + 1].addr == h.regions[r + 1].start
      else i + 1 == |h.blocks|
  }

  /** Elsewhere the next block of the list starts where this one ends. */
  ghost predicate NextAt(h: Heap, i: nat)
    requires i < |h.blocks|
  {
    || (i + 1 < |h.blocks| && h.blocks[i + 1].addr == End(h.blocks[i]))
    || exists r :: 0 <= r < |h.regions| && Edge(h.regions[r]) == End(h.blocks[i])
  }

  ghost predicate Linked(h: Heap) {
    && (forall i, r | 0 <= i < |h.blocks| && 0 <= r < |h.regions| :: FollowsAt(h, i, r))
    && (forall i | 0 <= i < |h.blocks| :: NextAt(h, i))
    && (forall r | 0 <= r < |h.regions| :: h.regions[r].len > 0)
  }

  // Every call keeps it.

  lemma MarkLinked(h: Heap, k: nat, free: bool)
    requires Linked(h) && k < |h.blocks|
    ensures Linked(h.(blocks := h.blocks[k := h.blocks[k].(free := free)]))
  {
    var h' := h.(blocks := h.blocks[k := h.blocks[k].(free := free)]);
    forall i, r | 0 <= i < |h'.blocks| && 0 <= r < |h'.regions| ensures FollowsAt(h', i, r) {
      assert FollowsAt(h, i, r);
    }
    forall i | 0 <= i < |h'.blocks| ensures NextAt(h', i) { assert NextAt(h, i); }
  }

  lemma SplitLinked(h: Heap, k: nat, size: nat)
    requires Linked(h) && k < |h.blocks|
    ensures Linked(h.(blocks := Split(h.blocks, k, size)))
  {
    var h' := h.(blocks := Split(h.blocks, k, size));
    if h.blocks[k].size >= size + HEADER + HEAP_ALIGN {
      forall i, r | 0 <= i < |h'.blocks| && 0 <= r < |h'.regions| ensures FollowsAt(h', i, r) {
        assert FollowsAt(h, if i <= k then i else i - 1, r);
      }
      forall i | 0 <= i < |h'.blocks| ensures NextAt(h', i) { assert NextAt(h, if i <= k then i else i - 1); }
    }
  }

  lemma ReleaseLinked(h: Heap, k: nat)
    requires Linked(h) && k < |h.blocks|
    ensures Linked(h.(blocks := Release(h.blocks, k)))
  {
    var h', b := h.(blocks := Release(h.blocks, k)), h.blocks[k];
    if k + 1 < |h.blocks| && h.blocks[k + 1].free && h.blocks[k + 1].addr == End(b) {
      forall i, r | 0 <= i < |h'.blocks| && 0 <= r < |h'.regions| ensures FollowsAt(h', i, r) {
        assert FollowsAt(h, if i <= k then i else i + 1, r);
        assert i == k ==> FollowsAt(h, k + 1, r);
      }
      forall i | 0 <= i < |h'.blocks| ensures NextAt(h', i) { assert NextAt(h, if i < k then i else i + 1); }
    } else {
      MarkLinked(h, k, true);
    }
  }

  lemma OwnedByRegion(regions: seq<Region>, r: nat, a: nat)
    requires r < |regions| && regions[r].start <= a < Edge(regions[r])
    ensures Owned(regions, a) >= 1
  {
    if r < |regions| - 1 { OwnedByRegion(regions[..|regions| - 1], r, a); }
  }

  lemma CoveredIsOwned(h: Heap, i: nat, a: nat)
    requires Tiled(h) && i < |h.blocks| && Spans(h.blocks[i], a)
    ensures Owned(h.regions, a) >= 1
  {
    assert TiledAt(h, a);
    CoversAround(h.blocks, i, 1, a);
    assert h.blocks[i..i + 1] == [h.blocks[i]];
    CoversOne(h.blocks[i], a);
  }

  /** A block on new pages has no region's last byte but its own, and no other block has that. */
  lemma NewIsApart(h: Heap, b: Block, reg: Region)
    requires Tiled(h) && Linked(h) && b.addr == reg.start && End(b) == Edge(reg)
    requires forall a: nat | reg.start <= a < Edge(reg) :: Owned(h.regions, a) == 0
    ensures forall r | 0 <= r < |h.regions| :: !HasLastOf(b, h.regions[r])
    ensures forall i | 0 <= i < |h.blocks| :: !HasLastOf(h.blocks[i], reg)
  {
    forall r | 0 <= r < |h.regions| ensures !HasLastOf(b, h.regions[r]) {
      if HasLastOf(b, h.regions[r]) { OwnedByRegion(h.regions, r, Edge(h.regions[r]) - 1); }
    }
    forall i | 0 <= i < |h.blocks| ensures !HasLastOf(h.blocks[i], reg) {
      if HasLastOf(h.blocks[i], reg) { CoveredIsOwned(h, i, Edge(reg) - 1); }
    }
  }

  lemma AppendLinked(h: Heap, b: Block, reg: Region)
    requires Tiled(h) && Linked(h) && b.addr == reg.start && End(b) == Edge(reg)
    requires forall a: nat | reg.start <= a < Edge(reg) :: Owned(h.regions, a) == 0
    ensures Linked(Heap(h.blocks + [b], h.regions + [reg]))
  {
    var h' := Heap(h.blocks + [b], h.regions + [reg]);
    NewIsApart(h, b, reg);
    forall i, r | 0 <= i < |h'.blocks| && 0 <= r < |h'.regions| ensures FollowsAt(h', i, r) {
      if i < |h.blocks| && r < |h.regions| { assert FollowsAt(h, i, r); }
    }
    forall i | 0 <= i < |h'.blocks| ensures NextAt(h', i) {
      if i < |h.blocks| {
        assert NextAt(h, i);
        NextStays(h, b, reg, i);
      } else {
        assert h'.regions[|h.regions|] == reg;
      }
    }
  }

  lemma NextStays(h: Heap, b: Block, reg: Region, i: nat)
    requires i < |h.blocks| && NextAt(h, i)
    ensures NextAt(Heap(h.blocks + [b], h.regions + [reg]), i)
  {
    if r :| 0 <= r < |h.regions| && Edge(h.regions[r]) == End(h.blocks[i]) {
      assert (h.regions + [reg])[r] == h.regions[r];
    }
  }

  lemma MallocLinked(h: Heap, request: nat, phys: Option<nat>)
    requires HeapOk(h) && Linked(h)
    requires phys.Some? ==> FreshPages(h, phys.value, PagesFor(RequestSize(request)) * PAGE_SIZE)
    ensures Linked(Malloc(h, request, phys).1)
  {
    var size := RequestSize(request);
    var i := Fitting(h.blocks, size);
    if i.Some? {
      TakeLinked(h, i.value, size);
    } else if phys.Some? {
      var len := PagesFor(size) * PAGE_SIZE;
      AppendLinked(h, Block(phys.value, len - HEADER, true), Region(phys.value, len));
      TakeLinked(Grow(h, size, phys.value), |h.blocks|, size);
    }
  }

  lemma TakeLinked(h: Heap, k: nat, size: nat)
    requires Linked(h) && k < |h.blocks|
    ensures Linked(h.(blocks := Take(h.blocks, k, size)))
  {
    SplitLinked(h, k, size);
    MarkLinked(h.(blocks := Split(h.blocks, k, size)), k, false);
  }

  /** In every run the list has that order. */
  lemma {:induction false} EveryRunIsLinked(es: seq<Step>)
    requires Legal(es)
    ensures Linked(After(es).heap)
  {
    if es != [] {
      var n := |es| - 1;
      LegalPrefix(es);
      EveryRunIsSafe(es[..n]);
      EveryRunIsLinked(es[..n]);
      var s := After(es[..n]);
      match es[n]
      case DoAlloc(size, align, phys) => MallocLinked(s.heap, MallocSize(size, align), phys);
      case DoDealloc(raw) =>
        var i := DeallocIs(s, raw);
        ReleaseLinked(s.heap, i);
    }
  }
}
