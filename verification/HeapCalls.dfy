/** What malloc and free do to the blocks, and what giving everything back leaves. */
module HeapCalls {
  import opened Wrappers
  import opened HeapModel
  import opened HeapProofs
  import opened HeapRuns
  import opened HeapOrder

  // malloc.

  /** A whole number of pages for a header and `size` bytes, and no page more. */
  ghost predicate JustEnough(len: nat, size: nat) {
    len % PAGE_SIZE == 0 && len < HEADER + size + PAGE_SIZE && HEADER + size <= len
  }

  lemma PagesAreJustEnough(size: nat)
    ensures JustEnough(PagesFor(size) * PAGE_SIZE, size)
  {
    MultipleMod(PagesFor(size), PAGE_SIZE);
  }

  /**
   * The block `b` made way for `c`, of `size` bytes, and for a free block of what is left unless that is too little.
   */
  ghost predicate Carved(was: seq<Block>, now: seq<Block>, b: Block, c: Block, size: nat) {
    && c in now && !c.free && c.addr == b.addr && b.free && b.size >= size
    && if b.size < size + HEADER + HEAP_ALIGN then c.size == b.size && Swapped(was, now, b, {c})
       else c.size == size && exists rest: Block :: rest.free && rest.addr == End(c) && End(rest) == End(b)
                                              && Swapped(was, now, b, {c, rest})
  }

  /** The same blocks but for `b`, in whose place `cs` are. */
  ghost predicate Swapped(was: seq<Block>, now: seq<Block>, b: Block, cs: set<Block>) {
    && (forall x | x in cs :: x in now)
    && (forall x | x in was && x != b :: x in now)
    && (forall x | x in now && x !in cs :: x in was && x != b)
  }

  lemma TakeCarves(h: Heap, i: nat, size: nat)
    requires Tiled(h) && i < |h.blocks| && h.blocks[i].free && h.blocks[i].size >= size
    ensures Carved(h.blocks, Take(h.blocks, i, size), h.blocks[i], Take(h.blocks, i, size)[i], size)
  {
    var bs, b := Take(h.blocks, i, size), h.blocks[i];
    var c := bs[i];
    assert h.blocks == h.blocks[..i] + [b] + h.blocks[i + 1..];
    OthersDiffer(h, i);
    if b.size < size + HEADER + HEAP_ALIGN {
      assert bs == h.blocks[..i] + [c] + h.blocks[i + 1..];
      assert Swapped(h.blocks, bs, b, {c});
    } else {
      var rest := Block(b.addr + HEADER + size, b.size - size - HEADER, true);
      assert bs == h.blocks[..i] + [c, rest] + h.blocks[i + 1..];
      assert Swapped(h.blocks, bs, b, {c, rest});
    }
  }

  lemma OthersDiffer(h: Heap, i: nat)
    requires Tiled(h) && i < |h.blocks|
    ensures h.blocks[i] !in h.blocks[..i] && h.blocks[i] !in h.blocks[i + 1..]
  {
    if h.blocks[i] in h.blocks[..i] || h.blocks[i] in h.blocks[i + 1..] {
      var j :| 0 <= j < |h.blocks| && j != i && h.blocks[j] == h.blocks[i];
      OneBlockEach(h, i, j, h.blocks[i].addr);
    }
  }

  /** A block of the heap made way. */
  ghost predicate TookOld(h: Heap, h': Heap, b: Block, c: Block, size: nat) {
    b in h.blocks && h'.regions == h.regions && Carved(h.blocks, h'.blocks, b, c, size)
  }

  /** A block of new pages did. */
  ghost predicate TookNew(h: Heap, h': Heap, b: Block, c: Block, size: nat) {
    && JustEnough(HEADER + b.size, size) && h'.regions == h.regions + [Region(b.addr, HEADER + b.size)]
    && Carved(h.blocks + [b], h'.blocks, b, c, size)
  }

  lemma TakesOld(h: Heap, size: nat, i: nat)
    requires HeapOk(h) && Fitting(h.blocks, size) == Some(i)
    ensures i < |h.blocks|
    ensures TookOld(h, h.(blocks := Take(h.blocks, i, size)), h.blocks[i], Take(h.blocks, i, size)[i], size)
  {
    TakeCarves(h, i, size);
  }

  lemma TakesNew(h: Heap, size: nat, phys: nat)
    requires HeapOk(h) && size % HEAP_ALIGN == 0 && size > 0 && FreshPages(h, phys, PagesFor(size) * PAGE_SIZE)
    ensures var h1, n := Grow(h, size, phys), |h.blocks|;
      TookNew(h, h1.(blocks := Take(h1.blocks, n, size)), h1.blocks[n], Take(h1.blocks, n, size)[n], size)
  {
    var h1 := Grow(h, size, phys);
    GrowOk(h, size, phys);
    PagesAreJustEnough(size);
    assert HEADER + h1.blocks[|h.blocks|].size == PagesFor(size) * PAGE_SIZE;
    TakeCarves(h1, |h.blocks|, size);
  }

  /**
   * A successful malloc carves exactly the size asked for, rounded up to the alignment, off the front of a block: one
   * of the heap's when one fits, else one that is the fewest new pages that do.
   */
  lemma MallocIs(h: Heap, request: nat, phys: Option<nat>) returns (b: Block, c: Block)
    requires HeapOk(h) && Malloc(h, request, phys).0.Some?
    requires phys.Some? ==> FreshPages(h, phys.value, PagesFor(RequestSize(request)) * PAGE_SIZE)
    ensures var (raw, h'), size := Malloc(h, request, phys), RequestSize(request);
      && raw == Some(c.addr + HEADER)
      && if exists x :: x in h.blocks && x.free && x.size >= size then TookOld(h, h', b, c, size)
         else phys == Some(b.addr) && TookNew(h, h', b, c, size)
  {
    var size := RequestSize(request);
    var i := Fitting(h.blocks, size);
    if i.Some? {
      TakesOld(h, size, i.value);
      b, c := h.blocks[i.value], Take(h.blocks, i.value, size)[i.value];
    } else {
      TakesNew(h, size, phys.value);
      var h1 := Grow(h, size, phys.value);
      b, c := h1.blocks[|h.blocks|], Take(h1.blocks, |h.blocks|, size)[|h.blocks|];
    }
  }

  // free.

  /** The list goes on past `b` to whatever starts where it ends: not so at the edge of a region grown elsewhere. */
  ghost predicate GoesOn(h: Heap, b: Block) {
    forall r | 0 <= r < |h.regions| && Edge(h.regions[r]) == End(b) ::
      r + 1 < |h.regions| && h.regions[r + 1].start == End(b)
  }

  lemma NextInList(h: Heap, i: nat, n: Block)
    requires Tiled(h) && Linked(h) && i < |h.blocks| && n in h.blocks && n.addr == End(h.blocks[i])
    ensures GoesOn(h, h.blocks[i]) <==> i + 1 < |h.blocks| && h.blocks[i + 1] == n
  {
    var b := h.blocks[i];
    assert NextAt(h, i);
    if r :| 0 <= r < |h.regions| && Edge(h.regions[r]) == End(b) {
      assert FollowsAt(h, i, r);
    }
    if i + 1 < |h.blocks| && h.blocks[i + 1].addr == End(b) { OneAddress(h, h.blocks[i + 1], n); }
    forall r | 0 <= r < |h.regions| && Edge(h.regions[r]) == End(b)
      ensures r + 1 < |h.regions| && i + 1 < |h.blocks| ==> h.blocks[i + 1].addr == h.regions[r + 1].start
      ensures r + 1 == |h.regions| ==> i + 1 == |h.blocks|
    {
      assert FollowsAt(h, i, r);
    }
  }

  lemma ReleaseIs(h: Heap, i: nat)
    requires Tiled(h) && Linked(h) && i < |h.blocks| && !h.blocks[i].free
    ensures var b, bs := h.blocks[i], Release(h.blocks, i);
      && i < |bs|
      && if i + 1 < |h.blocks| && h.blocks[i + 1].free && h.blocks[i + 1].addr == End(b) then
           Merged(h.blocks, bs, b, h.blocks[i + 1], bs[i])
         else bs[i] == b.(free := true) && Swapped(h.blocks, bs, b, {bs[i]})
  {
    var b, bs := h.blocks[i], Release(h.blocks, i);
    OthersDiffer(h, i);
    assert h.blocks == h.blocks[..i] + [b] + h.blocks[i + 1..];
    if i + 1 < |h.blocks| && h.blocks[i + 1].free && h.blocks[i + 1].addr == End(b) {
      var n := h.blocks[i + 1];
      OthersDiffer(h, i + 1);
      assert h.blocks[i + 1..] == [n] + h.blocks[i + 2..] && h.blocks[..i + 1] == h.blocks[..i] + [b];
      assert bs == h.blocks[..i] + [bs[i]] + h.blocks[i + 2..];
    } else {
      assert bs == h.blocks[..i] + [bs[i]] + h.blocks[i + 1..];
    }
  }

  /** `b` and `n` became the one free block `c`. */
  ghost predicate Merged(was: seq<Block>, now: seq<Block>, b: Block, n: Block, c: Block) {
    && c in now && c.free && c.addr == b.addr && End(c) == End(n) && n.addr == End(b)
    && (forall x | x in was && x != b && x != n :: x in now)
    && (forall x | x in now && x != c :: x in was && x != b && x != n)
  }

  /**
   * Freeing a block joins it with the free block that starts where it ends if and only if the list goes on that far;
   * otherwise only its flag changes. No other block changes.
   */
  lemma FreeIs(s: System, raw: nat) returns (b: Block, c: Block)
    requires Inv(s) && Linked(s.heap) && raw in s.live
    ensures InUse(s.heap.blocks, b) && b.addr + HEADER == raw
    ensures var bs := Dealloc(s, s.live[raw]).heap.blocks;
      && c in bs && c.free && c.addr == b.addr
      && (forall n | n in s.heap.blocks && n.free && n.addr == End(b) && GoesOn(s.heap, b) ::
            Merged(s.heap.blocks, bs, b, n, c))
      && (!GoesOn(s.heap, b) || (forall n | n in s.heap.blocks :: !n.free || n.addr != End(b)) ==>
            c == b.(free := true) && Swapped(s.heap.blocks, bs, b, {c}))
  {
    var h := s.heap;
    var i := DeallocIs(s, raw);
    b, c := h.blocks[i], Release(h.blocks, i)[i];
    ReleaseIs(h, i);
    forall n | n in h.blocks && n.addr == End(b)
      ensures GoesOn(h, b) <==> i + 1 < |h.blocks| && h.blocks[i + 1] == n
    {
      NextInList(h, i, n);
    }
    assert i + 1 < |h.blocks| ==> h.blocks[i + 1] in h.blocks;
  }

  // Giving everything back.

  /** Free blocks that are not the last: none of them will ever join the one after it. */
  ghost function Gaps(blocks: seq<Block>): nat {
    if |blocks| <= 1 then 0 else Gaps(blocks[1..]) + if blocks[0].free then 1 else 0
  }

  ghost predicate Contiguous(blocks: seq<Block>) {
    forall i | 0 <= i < |blocks| - 1 :: Touch(blocks, i)
  }

  ghost predicate Touch(blocks: seq<Block>, i: nat)
    requires i + 1 < |blocks|
  {
    blocks[i + 1].addr == End(blocks[i])
  }

  lemma {:induction false} AllFreeGaps(blocks: seq<Block>)
    requires blocks != [] && forall b | b in blocks :: b.free
    ensures Gaps(blocks) == |blocks| - 1
  {
    if |blocks| > 1 {
      assert blocks[0] in blocks;
      AllFreeGaps(blocks[1..]);
    }
  }

  lemma {:induction false} NoGaps(blocks: seq<Block>)
    ensures Gaps(blocks) == 0 <==> forall i | 0 <= i < |blocks| - 1 :: !blocks[i].free
  {
    if |blocks| > 1 {
      NoGaps(blocks[1..]);
      assert forall i | 0 < i < |blocks| - 1 :: blocks[i] == blocks[1..][i - 1];
      assert forall i | 0 <= i < |blocks[1..]| - 1 :: blocks[1..][i] == blocks[i + 1];
    }
  }

  /** Freeing the last block in use closes one gap for the one it makes. */
  lemma {:induction false} GapsStay(blocks: seq<Block>, i: nat)
    requires Contiguous(blocks) && i < |blocks| && !blocks[i].free && forall j | i < j < |blocks| :: blocks[j].free
    ensures Release(blocks, i) != [] && Gaps(Release(blocks, i)) == Gaps(blocks)
    decreases i
  {
    var bs := Release(blocks, i);
    if i > 0 {
      var rest := blocks[1..];
      forall j | 0 <= j < |rest| - 1 ensures Touch(rest, j) { assert Touch(blocks, j + 1); }
      GapsStay(rest, i - 1);
      assert bs == [blocks[0]] + Release(rest, i - 1);
      assert bs[1..] == Release(rest, i - 1);
    } else {
      if |blocks| > 1 {
        assert Touch(blocks, 0);
        AllFreeGaps(blocks[1..]);
      }
      AllFreeGaps(bs);
    }
  }

  lemma OneRegionTouches(h: Heap)
    requires Linked(h) && |h.regions| == 1
    ensures Contiguous(h.blocks)
  {
    forall i | 0 <= i < |h.blocks| - 1 ensures Touch(h.blocks, i) {
      assert NextAt(h, i) && FollowsAt(h, i, 0);
    }
  }

  lemma {:induction false} Ascending(blocks: seq<Block>, i: nat, j: nat)
    requires Contiguous(blocks) && i < j < |blocks|
    ensures blocks[i].addr < blocks[j].addr
    decreases j
  {
    assert Touch(blocks, j - 1);
    if i < j - 1 { Ascending(blocks, i, j - 1); }
  }

  ghost predicate Descending(ds: seq<nat>) { forall i, j | 0 <= i < j < |ds| :: ds[i] > ds[j] }

  function GiveBack(ds: seq<nat>): seq<Step> { seq(|ds|, i requires 0 <= i < |ds| => DoDealloc(ds[i])) }

  /** The highest grant's block is the last in use. */
  lemma HighestIsLast(s: System, raw: nat, i: nat)
    requires Inv(s) && Contiguous(s.heap.blocks) && raw in s.live && (forall r | r in s.live :: r <= raw)
    requires i < |s.heap.blocks| && s.heap.blocks[i].addr + HEADER == raw
    ensures forall j | i < j < |s.heap.blocks| :: s.heap.blocks[j].free
  {
    forall j | i < j < |s.heap.blocks| ensures s.heap.blocks[j].free {
      Ascending(s.heap.blocks, i, j);
      assert HeldBy(s, s.heap.blocks[j]);
    }
  }

  lemma LegalMore(es: seq<Step>, e: Step)
    requires Legal(es) && Allowed(After(es), e)
    ensures Legal(es + [e]) && After(es + [e]) == Apply(After(es), e)
  {
    var all := es + [e];
    assert all[..|es|] == es;
    forall k | 0 <= k < |all| ensures AllowedAt(all, k) {
      if k < |es| { assert AllowedAt(es, k) && all[..k] == es[..k]; }
    }
  }

  lemma GiveOneBack(es: seq<Step>, raw: nat)
    requires Legal(es) && |After(es).heap.regions| == 1 && raw in After(es).live
    requires forall r | r in After(es).live :: r <= raw
    ensures Legal(es + [DoDealloc(raw)])
    ensures var s, s' := After(es), After(es + [DoDealloc(raw)]);
      s'.heap.regions == s.heap.regions && s'.live == s.live - {raw} && Gaps(s'.heap.blocks) == Gaps(s.heap.blocks)
  {
    var s := After(es);
    LegalMore(es, DoDealloc(raw));
    EveryRunIsSafe(es);
    EveryRunIsLinked(es);
    OneRegionTouches(s.heap);
    var i := DeallocIs(s, raw);
    HighestIsLast(s, raw, i);
    GapsStay(s.heap.blocks, i);
  }

  lemma NotEmpty(h: Heap)
    requires HeapOk(h) && Linked(h) && |h.regions| == 1
    ensures h.blocks != []
  {
    assert h.regions == [h.regions[0]];
    RegionOne(h.regions[0], 0);
  }

  ghost predicate Lists(live: map<nat, Grant>, ds: seq<nat>) {
    Descending(ds) && forall raw :: raw in live <==> raw in ds
  }

  lemma ListsRest(live: map<nat, Grant>, ds: seq<nat>)
    requires Lists(live, ds) && ds != []
    ensures ds[0] in live && (forall r | r in live :: r <= ds[0]) && Lists(live - {ds[0]}, ds[1..])
  {
    assert ds == [ds[0]] + ds[1..];
  }

  lemma GiveBackOn(es: seq<Step>, ds: seq<nat>)
    requires ds != []
    ensures es + GiveBack(ds) == es + [DoDealloc(ds[0])] + GiveBack(ds[1..])
  {
  }

  lemma NoGrantsLeft(es: seq<Step>)
    requires Legal(es) && |After(es).heap.regions| == 1 && After(es).live == map[]
    ensures |After(es).heap.blocks| == 1 + Gaps(After(es).heap.blocks)
  {
    EveryRunIsSafe(es);
    EveryRunIsLinked(es);
    NotEmpty(After(es).heap);
    forall b | b in After(es).heap.blocks ensures b.free { NothingLeaks(es, b); }
    AllFreeGaps(After(es).heap.blocks);
  }

  /**
   * On one region, giving every grant back from the highest address down leaves one block more than there were free
   * blocks with another after them.
   */
  lemma {:induction false} GivingBackLeaves(es: seq<Step>, ds: seq<nat>)
    requires Legal(es) && |After(es).heap.regions| == 1 && Lists(After(es).live, ds)
    ensures Legal(es + GiveBack(ds)) && After(es + GiveBack(ds)).live == map[]
    ensures After(es + GiveBack(ds)).heap.regions == After(es).heap.regions
    ensures |After(es + GiveBack(ds)).heap.blocks| == 1 + Gaps(After(es).heap.blocks)
    decreases |ds|
  {
    if ds == [] {
      assert es + GiveBack(ds) == es;
      NoGrantsLeft(es);
    } else {
      ListsRest(After(es).live, ds);
      GiveOneBack(es, ds[0]);
      GivingBackLeaves(es + [DoDealloc(ds[0])], ds[1..]);
      GiveBackOn(es, ds);
    }
  }

  lemma OneBlockLeft(es: seq<Step>)
    requires Legal(es) && After(es).live == map[] && |After(es).heap.regions| == 1 && |After(es).heap.blocks| == 1
    ensures var r := After(es).heap.regions[0]; After(es).heap.blocks == [Block(r.start, Monus(r.len, HEADER), true)]
  {
    EveryRunIsSafe(es);
    NothingLeaks(es, After(es).heap.blocks[0]);
    OneBlockIsWhole(After(es).heap);
  }

  /** It leaves the one block the region was grown as, if and only if no block but the last was free. */
  lemma WholeAgainIff(es: seq<Step>, ds: seq<nat>)
    requires Legal(es) && |After(es).heap.regions| == 1 && Lists(After(es).live, ds)
    ensures var h, r := After(es).heap, After(es).heap.regions[0];
      After(es + GiveBack(ds)).heap.blocks == [Block(r.start, Monus(r.len, HEADER), true)]
      <==> forall i | 0 <= i < |h.blocks| - 1 :: !h.blocks[i].free
  {
    GivingBackLeaves(es, ds);
    NoGaps(After(es).heap.blocks);
    if Gaps(After(es).heap.blocks) == 0 { OneBlockLeft(es + GiveBack(ds)); }
  }

  lemma RegionOne(r: Region, a: nat)
    ensures Owned([r], a) == Once(r.start <= a < Edge(r)) && Grown([r]) == r.len
  {
    assert [r][..0] == [];
  }

  lemma OneBlockIsWhole(h: Heap)
    requires HeapOk(h) && |h.regions| == 1 && |h.blocks| == 1
    ensures h.blocks[0].addr == h.regions[0].start && HEADER + h.blocks[0].size == h.regions[0].len
  {
    var b, r := h.blocks[0], h.regions[0];
    assert h.blocks == [b] && h.regions == [r];
    TotalOne(b);
    RegionOne(r, b.addr);
    RegionOne(r, r.start);
    assert TiledAt(h, b.addr) && TiledAt(h, r.start);
    CoversOne(b, b.addr);
    CoversOne(b, r.start);
  }

  // A run that leaves free blocks touching.

  function PageGrant(page: nat): Grant { Grant(page + HEADER, 4064, 1) }

  lemma PageSizes()
    ensures RequestSize(MallocSize(4064, 1)) == 4064 && PagesFor(4064) == 1 && PowerOfTwo(1)
  {
  }

  /** An allocation that takes a new page whole. */
  lemma TakesPage(s: System, page: nat)
    requires forall b | b in s.heap.blocks :: !b.free
    ensures Alloc(s, 4064, 1, Some(page))
         == System(Heap(s.heap.blocks + [Block(page, 4064, false)], s.heap.regions + [Region(page, 4096)]), s.stash,
                   s.live[page + HEADER := PageGrant(page)])
  {
    PageSizes();
    var bs := s.heap.blocks;
    assert Fitting(bs, 4064) == None;
    var h := Grow(s.heap, 4064, page);
    assert h.blocks == bs + [Block(page, 4064, true)];
    assert Split(h.blocks, |bs|, 4064) == h.blocks;
    assert h.blocks[|bs| := Block(page, 4064, false)] == bs + [Block(page, 4064, false)];
  }

  /** Freeing a block whose next is not free, or not next to it. */
  lemma FreesAlone(s: System, i: nat)
    requires Inv(s) && i < |s.heap.blocks| && !s.heap.blocks[i].free
    requires var bs := s.heap.blocks; i + 1 < |bs| && bs[i + 1].free ==> bs[i + 1].addr != End(bs[i])
    ensures var b := s.heap.blocks[i];
      && b.addr + HEADER in s.live
      && Dealloc(s, s.live[b.addr + HEADER])
         == System(s.heap.(blocks := s.heap.blocks[i := b.(free := true)]), s.stash, s.live - {b.addr + HEADER})
  {
    var b := s.heap.blocks[i];
    assert HeldBy(s, b);
    var k := DeallocIs(s, b.addr + HEADER);
    OneBlockEach(s.heap, i, k, b.addr);
  }

  const UPPER := Block(0x2000, 4064, true)
  const LOWER := Block(0x1000, 4064, true)
  const PAGES := [Region(0x2000, 4096), Region(0x1000, 4096)]

  lemma PageIsAllowed(s: System, page: nat)
    requires FreshPages(s.heap, page, 4096)
    ensures Allowed(s, DoAlloc(4064, 1, Some(page)))
  {
    PageSizes();
  }

  lemma OnePage(es: seq<Step>, page: nat, s: System) returns (s': System)
    requires Legal(es) && After(es) == s && FreshPages(s.heap, page, 4096) && forall b | b in s.heap.blocks :: !b.free
    ensures s' == System(Heap(s.heap.blocks + [Block(page, 4064, false)], s.heap.regions + [Region(page, 4096)]),
                         s.stash, s.live[page + HEADER := PageGrant(page)])
    ensures Legal(es + [DoAlloc(4064, 1, Some(page))]) && After(es + [DoAlloc(4064, 1, Some(page))]) == s'
  {
    PageIsAllowed(s, page);
    LegalMore(es, DoAlloc(4064, 1, Some(page)));
    TakesPage(s, page);
    s' := Alloc(s, 4064, 1, Some(page));
  }

  /** Two pages got in the wrong order and used whole. */
  lemma TwoPages() returns (es: seq<Step>)
    ensures Legal(es) && After(es)
         == System(Heap([UPPER.(free := false), LOWER.(free := false)], PAGES), map[],
                   map[0x2020 := PageGrant(0x2000), 0x1020 := PageGrant(0x1000)])
  {
    var s := OnePage([], 0x2000, BOOT);
    es := [] + [DoAlloc(4064, 1, Some(0x2000))];
    assert s.heap.regions == [PAGES[0]] && s.heap.blocks == [UPPER.(free := false)];
    forall a: nat | 0x1000 <= a < 0x2000 ensures Owned(s.heap.regions, a) == 0 { RegionOne(PAGES[0], a); }
    var s' := OnePage(es, 0x1000, s);
    es := es + [DoAlloc(4064, 1, Some(0x1000))];
    assert s'.heap.regions == PAGES && s'.heap.blocks == [UPPER.(free := false), LOWER.(free := false)];
  }

  /**
   * ... and given back: two free blocks that touch, which nothing joins, and a request they could hold together fails.
   */
  lemma NeighboursStayApart() returns (es: seq<Step>)
    ensures Legal(es) && After(es) == System(Heap([UPPER, LOWER], PAGES), map[], map[])
    ensures End(LOWER) == UPPER.addr && Malloc(After(es).heap, 5000, None).0 == None
  {
    es := TwoPages();
    EveryRunIsSafe(es);
    FreesAlone(After(es), 0);
    LegalMore(es, DoDealloc(0x2020));
    es := es + [DoDealloc(0x2020)];
    var s := System(Heap([UPPER, LOWER.(free := false)], PAGES), map[], map[0x1020 := PageGrant(0x1000)]);
    assert After(es) == s;
    EveryRunIsSafe(es);
    FreesAlone(s, 1);
    LegalMore(es, DoDealloc(0x1020));
    es := es + [DoDealloc(0x1020)];
  }

  // A run that leaves a gap.

  const FIRST := Block(0x1000, 16, false)
  const SECOND := Block(0x1030, 16, false)
  const REST := Block(0x1060, 3968, true)

  lemma SmallSizes()
    ensures RequestSize(MallocSize(16, 1)) == 16 && PagesFor(16) == 1 && PowerOfTwo(1)
  {
  }

  lemma FirstSmall()
    ensures Alloc(BOOT, 16, 1, Some(0x1000))
         == System(Heap([FIRST, Block(0x1030, 4016, true)], [PAGES[1]]), map[], map[0x1020 := Grant(0x1020, 16, 1)])
  {
    SmallSizes();
    var h := Grow(BOOT.heap, 16, 0x1000);
    assert h == Heap([LOWER], [PAGES[1]]);
    assert Split([LOWER], 0, 16) == [LOWER.(size := 16), Block(0x1030, 4016, true)];
  }

  lemma FirstOf(blocks: seq<Block>, size: nat, i: nat)
    requires i < |blocks| && blocks[i].free && blocks[i].size >= size
    requires forall j | 0 <= j < i :: !blocks[j].free || blocks[j].size < size
    ensures Fitting(blocks, size) == Some(i)
  {
  }

  lemma SecondSmall()
    ensures Alloc(Alloc(BOOT, 16, 1, Some(0x1000)), 16, 1, None)
         == System(Heap([FIRST, SECOND, REST], [PAGES[1]]), map[],
                   map[0x1020 := Grant(0x1020, 16, 1), 0x1050 := Grant(0x1050, 16, 1)])
  {
    FirstSmall();
    SmallSizes();
    var bs := [FIRST, Block(0x1030, 4016, true)];
    FirstOf(bs, 16, 1);
    assert Split(bs, 1, 16) == [FIRST, SECOND.(free := true), REST];
  }

  lemma TwoSmall() returns (es: seq<Step>)
    ensures Legal(es) && After(es) == Alloc(Alloc(BOOT, 16, 1, Some(0x1000)), 16, 1, None)
  {
    SmallSizes();
    es := [] + [DoAlloc(16, 1, Some(0x1000))];
    LegalMore([], DoAlloc(16, 1, Some(0x1000)));
    LegalMore(es, DoAlloc(16, 1, None));
    es := es + [DoAlloc(16, 1, None)];
  }

  /** Freed from the lowest up, the first block stays apart for good: the page ends as two free blocks. */
  lemma AGapStays() returns (es: seq<Step>, ds: seq<nat>)
    ensures Legal(es) && |After(es).heap.regions| == 1 && Lists(After(es).live, ds)
    ensures |After(es + GiveBack(ds)).heap.blocks| == 2
  {
    es := TwoSmall();
    SecondSmall();
    EveryRunIsSafe(es);
    FreesAlone(After(es), 0);
    LegalMore(es, DoDealloc(0x1020));
    es, ds := es + [DoDealloc(0x1020)], [0x1050];
    var bs := [FIRST.(free := true), SECOND, REST];
    assert After(es).heap.blocks == bs;
    assert After(es).live == map[0x1050 := Grant(0x1050, 16, 1)];
    assert bs[1..] == [SECOND, REST] && bs[1..][1..] == [REST];
    GivingBackLeaves(es, ds);
  }
}
