/** Whole runs of the allocator: what callers hold never overlaps, is aligned, and can always be given back. */
module HeapRuns {
  import opened Wrappers
  import opened HeapModel
  import opened HeapProofs

  // Alignments.

  predicate PowerOfTwo(n: nat) { n == 1 || (n > 1 && n % 2 == 0 && PowerOfTwo(n / 2)) }

  lemma BigPower(n: nat)
    requires PowerOfTwo(n) && n > HEAP_ALIGN
    ensures n % HEAP_ALIGN == 0
  {
    assert PowerOfTwo(n / 2) && PowerOfTwo(n / 2 / 2) && PowerOfTwo(n / 2 / 2 / 2) && PowerOfTwo(n / 2 / 2 / 2 / 2);
  }

  lemma SmallPower(n: nat)
    requires PowerOfTwo(n) && n <= HEAP_ALIGN
    ensures n == 1 || n == 2 || n == 4 || n == 8 || n == 16
  {
    assert n > 1 ==> PowerOfTwo(n / 2);
    assert n / 2 > 1 ==> PowerOfTwo(n / 2 / 2);
    assert n / 2 / 2 > 1 ==> PowerOfTwo(n / 2 / 2 / 2);
  }

  lemma MultipleOfMultiple(p: nat, align: nat)
    requires align > 0 && align % HEAP_ALIGN == 0 && p % align == 0
    ensures p % HEAP_ALIGN == 0
  {
    var k, c := p / align, align / HEAP_ALIGN;
    assert p == align * k && align == HEAP_ALIGN * c;
    assert align * k == (c * k) * HEAP_ALIGN;
    MultipleMod(c * k, HEAP_ALIGN);
  }

  lemma SixteensApart(raw: nat, align: nat, p: nat)
    requires raw % HEAP_ALIGN == 0 && align % HEAP_ALIGN == 0 && p % HEAP_ALIGN == 0 && p < raw + 8 + align
    ensures p <= raw + align
  {
    var a, b, c := raw / HEAP_ALIGN, align / HEAP_ALIGN, p / HEAP_ALIGN;
    assert raw == HEAP_ALIGN * a && align == HEAP_ALIGN * b && p == HEAP_ALIGN * c;
  }

  /** The shift to an aligned address with eight bytes below it is at most the alignment, which it reaches. */
  lemma ShiftFits(raw: nat, align: nat)
    requires raw % HEAP_ALIGN == 0 && align % HEAP_ALIGN == 0 && align > HEAP_ALIGN
    ensures raw + 8 <= AlignUp(raw + 8, align) <= raw + align
    ensures raw % align == 0 ==> AlignUp(raw + 8, align) == raw + align
  {
    var p := AlignUp(raw + 8, align);
    MultipleOfMultiple(p, align);
    SixteensApart(raw, align, p);
    if raw % align == 0 { NextMultiple(raw, p, align); }
  }

  lemma NextMultiple(a: nat, b: nat, align: nat)
    requires align > 0 && a % align == 0 && b % align == 0 && a < b <= a + align
    ensures b == a + align
  {
    var i, j := a / align, b / align;
    assert a == align * i && b == align * j;
    if j <= i { Scaled(align, j, i); }
    if j >= i + 1 { Scaled(align, i + 1, j); }
    assert align * (i + 1) == align * i + align;
  }

  // What one call does to the blocks in use.

  ghost predicate InUse(blocks: seq<Block>, b: Block) { b in blocks && !b.free }

  lemma TakeUses(blocks: seq<Block>, i: nat, size: nat, b: Block)
    requires i < |blocks| && blocks[i].free
    ensures InUse(Take(blocks, i, size), b) <==> InUse(blocks, b) || b == Take(blocks, i, size)[i]
  {
    var bs := Take(blocks, i, size);
    if blocks[i].size < size + HEADER + HEAP_ALIGN {
      assert bs == blocks[i := blocks[i].(free := false)];
      AfterUpdate(blocks, i, bs[i], b);
    } else {
      var rest := Block(blocks[i].addr + HEADER + size, blocks[i].size - size - HEADER, true);
      assert bs == blocks[..i] + [bs[i], rest] + blocks[i + 1..];
      assert blocks == blocks[..i] + [blocks[i]] + blocks[i + 1..];
    }
  }

  lemma AfterUpdate(blocks: seq<Block>, i: nat, c: Block, b: Block)
    requires i < |blocks|
    ensures b in blocks[i := c] <==> b == c || b in blocks[..i] || b in blocks[i + 1..]
    ensures b in blocks <==> b == blocks[i] || b in blocks[..i] || b in blocks[i + 1..]
  {
    assert blocks[i := c] == blocks[..i] + [c] + blocks[i + 1..];
    assert blocks == blocks[..i] + [blocks[i]] + blocks[i + 1..];
  }

  lemma ReleaseUses(blocks: seq<Block>, i: nat, b: Block)
    requires i < |blocks| && !blocks[i].free
    ensures InUse(Release(blocks, i), b) ==> InUse(blocks, b) && (b in blocks[..i] || b in blocks[i + 1..])
    ensures InUse(blocks, b) && b != blocks[i] ==> InUse(Release(blocks, i), b)
  {
    AfterUpdate(blocks, i, blocks[i].(free := true), b);
    if i + 1 < |blocks| {
      assert blocks[i + 1..] == [blocks[i + 1]] + blocks[i + 2..];
    }
  }

  // The invariant.

  /** A grant lies in the payload of a block in use, and dealloc() will find that block. */
  ghost predicate Backed(s: System, raw: nat, b: Block)
    requires raw in s.live
  {
    var g := s.live[raw];
    && InUse(s.heap.blocks, b) && b.addr + HEADER == raw
    && raw <= g.ptr && g.ptr + g.size <= End(b)
    && RawOf(s, g) == Some(raw)
    && g.align > 0 && g.ptr % g.align == 0
    && (g.align > HEAP_ALIGN ==> raw + 8 <= g.ptr)
  }

  ghost predicate GrantOk(s: System, raw: nat) { raw in s.live ==> exists b :: Backed(s, raw, b) }

  ghost predicate HeldBy(s: System, b: Block) { InUse(s.heap.blocks, b) ==> b.addr + HEADER in s.live }

  ghost predicate Inv(s: System) {
    && HeapOk(s.heap)
    && (forall raw :: GrantOk(s, raw))
    && (forall b :: HeldBy(s, b))
  }

  /** Two blocks in use with one address are one block. */
  lemma OneAddress(h: Heap, b: Block, c: Block)
    requires Tiled(h) && b in h.blocks && c in h.blocks && b.addr == c.addr
    ensures b == c
  {
    var i :| 0 <= i < |h.blocks| && h.blocks[i] == b;
    var j :| 0 <= j < |h.blocks| && h.blocks[j] == c;
    OneBlockEach(h, i, j, b.addr);
  }

  lemma TakeGives(h: Heap, i: nat, size: nat) returns (b: Block)
    requires HeapOk(h) && i < |h.blocks| && h.blocks[i].free && h.blocks[i].size >= size
    ensures b == Take(h.blocks, i, size)[i] && b.addr == h.blocks[i].addr && b.size >= size
    ensures Gives(h, h.(blocks := Take(h.blocks, i, size)), b)
  {
    b := Take(h.blocks, i, size)[i];
    forall c
      ensures InUse(Take(h.blocks, i, size), c) <==> InUse(h.blocks, c) || c == b
    {
      TakeUses(h.blocks, i, size, c);
    }
    NotBefore(h, i, size, b);
  }

  lemma MallocGives(h: Heap, request: nat, phys: Option<nat>) returns (b: Block)
    requires HeapOk(h) && (phys.Some? ==> FreshPages(h, phys.value, PagesFor(RequestSize(request)) * PAGE_SIZE))
    requires Malloc(h, request, phys).0.Some?
    ensures Malloc(h, request, phys).0 == Some(b.addr + HEADER) && b.size >= request
            && Gives(h, Malloc(h, request, phys).1, b)
  {
    var size := RequestSize(request);
    var i := Fitting(h.blocks, size);
    if i.Some? {
      b := TakeGives(h, i.value, size);
    } else {
      GrowOk(h, size, phys.value);
      var h1 := Grow(h, size, phys.value);
      b := TakeGives(h1, |h.blocks|, size);
      forall c ensures InUse(h1.blocks, c) <==> InUse(h.blocks, c) {}
    }
  }

  /** One more block is in use, and none was there before. */
  ghost predicate Gives(h: Heap, h': Heap, b: Block) {
    && (forall c :: InUse(h'.blocks, c) <==> InUse(h.blocks, c) || c == b)
    && !b.free
    && forall c | InUse(h.blocks, c) :: c.addr != b.addr
  }

  lemma NotBefore(h: Heap, i: nat, size: nat, b: Block)
    requires HeapOk(h) && i < |h.blocks| && h.blocks[i].free && b == Take(h.blocks, i, size)[i]
    ensures forall c | InUse(h.blocks, c) :: c.addr != b.addr
  {
    forall c | InUse(h.blocks, c) ensures c.addr != b.addr {
      if c.addr == b.addr { OneAddress(h, c, h.blocks[i]); }
    }
  }

  // Every call keeps the invariant.

  datatype Step = DoAlloc(size: nat, align: nat, phys: Option<nat>) | DoDealloc(raw: nat)

  function MallocSize(size: nat, align: nat): nat { if align <= HEAP_ALIGN then size else size + align }

  /** A layout's alignment is a power of two, pages handed out are nobody else's, and only live grants are freed. */
  ghost predicate Allowed(s: System, e: Step) {
    match e
    case DoAlloc(size, align, phys) =>
      && PowerOfTwo(align)
      && (phys.Some? ==> FreshPages(s.heap, phys.value, PagesFor(RequestSize(MallocSize(size, align))) * PAGE_SIZE))
    case DoDealloc(raw) => raw in s.live
  }

  function Apply(s: System, e: Step): System {
    match e
    case DoAlloc(size, align, phys) => if align > 0 then Alloc(s, size, align, phys) else s
    case DoDealloc(raw) => if raw in s.live then Dealloc(s, s.live[raw]) else s
  }

  function After(es: seq<Step>): System {
    if es == [] then BOOT else Apply(After(es[..|es| - 1]), es[|es| - 1])
  }

  ghost predicate AllowedAt(es: seq<Step>, k: nat)
    requires k < |es|
  {
    Allowed(After(es[..k]), es[k])
  }

  ghost predicate Legal(es: seq<Step>) { forall k | 0 <= k < |es| :: AllowedAt(es, k) }

  ghost function Granted(raw: nat, size: nat, align: nat): Grant
    requires align > 0
  {
    if align <= HEAP_ALIGN then Grant(raw, size, align) else Grant(AlignUp(raw + 8, align), size, align)
  }

  lemma SmallDivides(raw: nat, align: nat)
    requires raw % HEAP_ALIGN == 0 && (align == 1 || align == 2 || align == 4 || align == 8 || align == 16)
    ensures raw % align == 0
  {
    var k := raw / HEAP_ALIGN;
    assert raw == 16 * k;
    if align == 2 { MultipleMod(8 * k, 2); }
    if align == 4 { MultipleMod(4 * k, 4); }
    if align == 8 { MultipleMod(2 * k, 8); }
  }

  lemma GrantFits(b: Block, size: nat, align: nat)
    requires b.addr % HEAP_ALIGN == 0 && PowerOfTwo(align) && b.size >= MallocSize(size, align)
    ensures var raw := b.addr + HEADER; var g := Granted(raw, size, align);
            && raw <= g.ptr && g.ptr + size <= End(b) && g.ptr % align == 0 && (align > HEAP_ALIGN ==> raw + 8 <= g.ptr)
  {
    var raw := b.addr + HEADER;
    if align <= HEAP_ALIGN {
      SmallPower(align);
      SmallDivides(raw, align);
    } else {
      BigPower(align);
      ShiftFits(raw, align);
    }
  }

  lemma UsedApart(h: Heap, b: Block, c: Block)
    requires Tiled(h) && b in h.blocks && c in h.blocks && b != c
    ensures End(b) <= c.addr || End(c) <= b.addr
  {
    var i :| 0 <= i < |h.blocks| && h.blocks[i] == b;
    var j :| 0 <= j < |h.blocks| && h.blocks[j] == c;
    BlocksApart(h, i, j);
  }

  /** The state after a grant `g` out of block `b`. */
  ghost function WithGrant(s: System, h: Heap, b: Block, g: Grant): System {
    var raw := b.addr + HEADER;
    System(h, if g.align <= HEAP_ALIGN then s.stash else s.stash[Monus(g.ptr, 8) := raw], s.live[raw := g])
  }

  /** A new grant's stash is in its own block, so it overwrites no other grant's. */
  lemma OldGrantKept(s: System, h: Heap, b: Block, g: Grant, raw: nat, c: Block)
    requires Tiled(h) && raw in s.live && Backed(s, raw, c) && Gives(s.heap, h, b)
    requires b.addr + HEADER <= g.ptr <= End(b) && (g.align > HEAP_ALIGN ==> b.addr + HEADER + 8 <= g.ptr)
    ensures raw != b.addr + HEADER && Backed(WithGrant(s, h, b, g), raw, c)
  {
    assert InUse(h.blocks, c) && InUse(h.blocks, b);
    UsedApart(h, b, c);
    assert WithGrant(s, h, b, g).live[raw] == s.live[raw];
  }

  lemma AllocForm(s: System, size: nat, align: nat, phys: Option<nat>, b: Block, h: Heap)
    requires align > 0 && Malloc(s.heap, MallocSize(size, align), phys) == (Some(b.addr + HEADER), h)
    ensures Alloc(s, size, align, phys) == WithGrant(s, h, b, Granted(b.addr + HEADER, size, align))
  {
  }

  lemma AllocIs(s: System, size: nat, align: nat, phys: Option<nat>) returns (b: Block, h: Heap)
    requires Inv(s) && Allowed(s, DoAlloc(size, align, phys)) && Malloc(s.heap, MallocSize(size, align), phys).0.Some?
    ensures HeapOk(h) && Gives(s.heap, h, b) && b.size >= MallocSize(size, align)
    ensures Alloc(s, size, align, phys) == WithGrant(s, h, b, Granted(b.addr + HEADER, size, align))
  {
    var request := MallocSize(size, align);
    b := MallocGives(s.heap, request, phys);
    h := Malloc(s.heap, request, phys).1;
    MallocOk(s.heap, request, phys);
    AllocForm(s, size, align, phys, b, h);
  }

  lemma GrantSafe(s: System, h: Heap, b: Block, size: nat, align: nat)
    requires Inv(s) && HeapOk(h) && Gives(s.heap, h, b) && PowerOfTwo(align) && b.size >= MallocSize(size, align)
    ensures Inv(WithGrant(s, h, b, Granted(b.addr + HEADER, size, align)))
  {
    var g := Granted(b.addr + HEADER, size, align);
    var s' := WithGrant(s, h, b, g);
    assert InUse(h.blocks, b) && BlockOk(b);
    GrantFits(b, size, align);
    assert Backed(s', b.addr + HEADER, b);
    forall raw ensures GrantOk(s', raw) {
      assert GrantOk(s, raw);
      if raw in s.live {
        var c :| Backed(s, raw, c);
        OldGrantKept(s, h, b, g, raw, c);
      }
    }
    forall c ensures HeldBy(s', c) { assert HeldBy(s, c); }
  }

  lemma AllocSafe(s: System, size: nat, align: nat, phys: Option<nat>)
    requires Inv(s) && Allowed(s, DoAlloc(size, align, phys))
    ensures Inv(Alloc(s, size, align, phys))
  {
    if Malloc(s.heap, MallocSize(size, align), phys).0.Some? {
      var b, h := AllocIs(s, size, align, phys);
      GrantSafe(s, h, b, size, align);
    }
  }

  lemma FoundAgain(s: System, raw: nat, b: Block) returns (i: nat)
    requires Tiled(s.heap) && raw in s.live && Backed(s, raw, b)
    ensures BlockOf(s.heap.blocks, raw) == Some(i) && i < |s.heap.blocks| && s.heap.blocks[i] == b
  {
    var k :| 0 <= k < |s.heap.blocks| && s.heap.blocks[k] == b;
    i := BlockOf(s.heap.blocks, raw).value;
    OneAddress(s.heap, s.heap.blocks[i], b);
  }

  lemma DeallocIs(s: System, raw: nat) returns (i: nat)
    requires Inv(s) && raw in s.live
    ensures i < |s.heap.blocks| && s.heap.blocks[i].addr + HEADER == raw && !s.heap.blocks[i].free
    ensures Dealloc(s, s.live[raw]) == System(s.heap.(blocks := Release(s.heap.blocks, i)), s.stash, s.live - {raw})
  {
    assert GrantOk(s, raw);
    var b :| Backed(s, raw, b);
    i := FoundAgain(s, raw, b);
  }

  lemma DeallocSafe(s: System, raw: nat)
    requires Inv(s) && raw in s.live
    ensures Inv(Dealloc(s, s.live[raw]))
  {
    var i := DeallocIs(s, raw);
    var s' := Dealloc(s, s.live[raw]);
    var blocks := s.heap.blocks;
    ReleaseOk(s.heap, i);
    forall r ensures GrantOk(s', r) {
      assert GrantOk(s, r);
      if r in s'.live {
        var c :| Backed(s, r, c);
        ReleaseUses(blocks, i, c);
        assert Backed(s', r, c);
      }
    }
    forall c ensures HeldBy(s', c) {
      assert HeldBy(s, c);
      ReleaseUses(blocks, i, c);
      if InUse(s'.heap.blocks, c) { ReleasedIsGone(s.heap, i, c); }
    }
  }

  lemma ReleasedIsGone(h: Heap, i: nat, c: Block)
    requires Tiled(h) && i < |h.blocks| && (c in h.blocks[..i] || c in h.blocks[i + 1..])
    ensures c.addr != h.blocks[i].addr
  {
    var j :| 0 <= j < |h.blocks| && j != i && h.blocks[j] == c;
    BlocksApart(h, i, j);
  }

  lemma BootSafe()
    ensures Inv(BOOT)
  {
    forall a ensures TiledAt(BOOT.heap, a) {}
  }

  lemma LegalPrefix(es: seq<Step>)
    requires Legal(es) && es != []
    ensures Legal(es[..|es| - 1]) && Allowed(After(es[..|es| - 1]), es[|es| - 1])
  {
    var n := |es| - 1;
    forall k | 0 <= k < n ensures AllowedAt(es[..n], k) {
      assert AllowedAt(es, k) && es[..n][..k] == es[..k];
    }
    assert AllowedAt(es, n);
  }

  /** In every run the blocks tile the grown regions and every grant is backed by a block of its own. */
  lemma {:induction false} EveryRunIsSafe(es: seq<Step>)
    requires Legal(es)
    ensures Inv(After(es))
  {
    if es == [] {
      BootSafe();
    } else {
      LegalPrefix(es);
      EveryRunIsSafe(es[..|es| - 1]);
      var s, e := After(es[..|es| - 1]), es[|es| - 1];
      match e
      case DoAlloc(size, align, phys) => AllocSafe(s, size, align, phys);
      case DoDealloc(raw) => DeallocSafe(s, raw);
    }
  }

  /** What two callers hold never overlaps, nor does a stash overlap what a caller may write. */
  lemma GrantsApart(es: seq<Step>, r: nat, q: nat)
    requires Legal(es) && r in After(es).live && q in After(es).live && r != q
    ensures var g, k := After(es).live[r], After(es).live[q];
            && (g.ptr + g.size <= k.ptr || k.ptr + k.size <= g.ptr)
            && (g.align > HEAP_ALIGN ==> g.ptr <= k.ptr || k.ptr + k.size <= g.ptr - 8)
            && g.align > 0 && g.ptr % g.align == 0
  {
    EveryRunIsSafe(es);
    var s := After(es);
    assert GrantOk(s, r) && GrantOk(s, q);
    var b :| Backed(s, r, b);
    var c :| Backed(s, q, c);
    UsedApart(s.heap, b, c);
  }

  /** Every byte the heap ever took is in exactly one block; the sizes add up to what was taken. */
  lemma BytesConserved(es: seq<Step>, a: nat)
    requires Legal(es)
    ensures Covers(After(es).heap.blocks, a) == Owned(After(es).heap.regions, a) <= 1
    ensures Total(After(es).heap.blocks) == Grown(After(es).heap.regions)
  {
    EveryRunIsSafe(es);
    assert TiledAt(After(es).heap, a);
  }

  /** Giving back the last grant leaves no block in use: nothing leaks. */
  lemma NothingLeaks(es: seq<Step>, b: Block)
    requires Legal(es) && After(es).live == map[] && b in After(es).heap.blocks
    ensures b.free
  {
    EveryRunIsSafe(es);
    assert HeldBy(After(es), b);
  }

  /**
   * malloc fails if and only if no free block is large enough and there are no pages; otherwise it uses the first that
   * is.
   */
  lemma FirstFit(h: Heap, request: nat, phys: Option<nat>)
    requires HeapOk(h) && (phys.Some? ==> FreshPages(h, phys.value, PagesFor(RequestSize(request)) * PAGE_SIZE))
    ensures var (raw, h') := Malloc(h, request, phys); var size := RequestSize(request);
            && (raw.None? <==> phys.None? && forall b | b in h.blocks :: !b.free || b.size < size)
            && (raw.None? ==> h' == h)
            && (raw.Some? ==> raw.value % HEAP_ALIGN == 0)
            && forall i | 0 <= i < |h.blocks| && h.blocks[i].free && h.blocks[i].size >= size ::
                 exists k :: 0 <= k <= i && h.blocks[k].free && h.blocks[k].size >= size
                           && raw == Some(h.blocks[k].addr + HEADER) && h'.regions == h.regions
  {
    var (raw, h') := Malloc(h, request, phys);
    if raw.Some? {
      var b := MallocGives(h, request, phys);
      MallocOk(h, request, phys);
      assert InUse(h'.blocks, b) && BlockOk(b);
    }
  }
}
