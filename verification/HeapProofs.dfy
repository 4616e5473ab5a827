/** What every sequence of allocations and valid frees keeps. */
module HeapProofs {
  import opened Wrappers
  import opened HeapModel

  // Tiling: every byte of every region is in exactly one block, and no other byte is in any.

  function End(b: Block): nat { b.addr + HEADER + b.size }

  ghost function Once(b: bool): nat { if b then 1 else 0 }

  /** How many blocks cover address `a`. */
  ghost function Covers(blocks: seq<Block>, a: nat): nat {
    if blocks == [] then 0 else Covers(blocks[..|blocks| - 1], a) + Once(Spans(blocks[|blocks| - 1], a))
  }

  ghost predicate Spans(b: Block, a: nat) { b.addr <= a < End(b) }

  ghost function Owned(regions: seq<Region>, a: nat): nat {
    if regions == [] then 0
    else
      var last := regions[|regions| - 1];
      Owned(regions[..|regions| - 1], a) + Once(last.start <= a < last.start + last.len)
  }

  lemma {:induction false} CoversParts(a: seq<Block>, b: seq<Block>, x: nat)
    ensures Covers(a + b, x) == Covers(a, x) + Covers(b, x)
    decreases |b|
  {
    if b == [] {
      assert a + b == a;
    } else {
      var n := |b| - 1;
      assert (a + b)[..|a + b| - 1] == a + b[..n];
      CoversParts(a, b[..n], x);
    }
  }

  lemma CoversOne(b: Block, x: nat)
    ensures Covers([b], x) == Once(Spans(b, x))
  {
    assert [b][..0] == [];
  }

  lemma CoversTwo(b: Block, c: Block, x: nat)
    ensures Covers([b, c], x) == Once(Spans(b, x)) + Once(Spans(c, x))
  {
    assert [b, c] == [b] + [c];
    CoversParts([b], [c], x);
    CoversOne(b, x);
    CoversOne(c, x);
  }

  /** The count around position `i`. */
  lemma CoversAround(blocks: seq<Block>, i: nat, n: nat, x: nat)
    requires i + n <= |blocks|
    ensures Covers(blocks, x) == Covers(blocks[..i], x) + Covers(blocks[i..i + n], x) + Covers(blocks[i + n..], x)
  {
    assert blocks == blocks[..i] + (blocks[i..i + n] + blocks[i + n..]);
    CoversParts(blocks[..i], blocks[i..i + n] + blocks[i + n..], x);
    CoversParts(blocks[i..i + n], blocks[i + n..], x);
  }

  /** Replacing some neighbouring blocks by others that cover the same bytes changes no count. */
  lemma CoversSwap(blocks: seq<Block>, i: nat, n: nat, mid: seq<Block>, x: nat)
    requires i + n <= |blocks| && Covers(mid, x) == Covers(blocks[i..i + n], x)
    ensures Covers(blocks[..i] + mid + blocks[i + n..], x) == Covers(blocks, x)
  {
    CoversAround(blocks, i, n, x);
    CoversParts(blocks[..i] + mid, blocks[i + n..], x);
    CoversParts(blocks[..i], mid, x);
  }

  lemma {:induction false} TwoCoversTwice(blocks: seq<Block>, i: nat, j: nat, x: nat)
    requires i < j < |blocks| && Spans(blocks[i], x) && Spans(blocks[j], x)
    ensures Covers(blocks, x) >= 2
  {
    CoversAround(blocks, i, 1, x);
    assert blocks[i..i + 1] == [blocks[i]];
    CoversOne(blocks[i], x);
    var rest := blocks[i + 1..];
    CoversAround(rest, j - i - 1, 1, x);
    assert rest[j - i - 1..j - i] == [blocks[j]];
    CoversOne(blocks[j], x);
  }

  ghost predicate TiledAt(h: Heap, a: nat) { Covers(h.blocks, a) == Owned(h.regions, a) <= 1 }

  ghost predicate BlockOk(b: Block) {
    b.addr % HEAP_ALIGN == 0 && b.size % HEAP_ALIGN == 0 && b.size >= HEAP_ALIGN
  }

  ghost predicate Tiled(h: Heap) {
    (forall a :: TiledAt(h, a)) && forall b | b in h.blocks :: BlockOk(b)
  }

  /** No byte is in two blocks. */
  lemma OneBlockEach(h: Heap, i: nat, j: nat, x: nat)
    requires Tiled(h) && i < |h.blocks| && j < |h.blocks| && Spans(h.blocks[i], x) && Spans(h.blocks[j], x)
    ensures i == j
  {
    assert TiledAt(h, x);
    if i < j { TwoCoversTwice(h.blocks, i, j, x); }
    if j < i { TwoCoversTwice(h.blocks, j, i, x); }
  }

  /** Different blocks share no byte. */
  lemma BlocksApart(h: Heap, i: nat, j: nat)
    requires Tiled(h) && i < |h.blocks| && j < |h.blocks| && i != j
    ensures End(h.blocks[i]) <= h.blocks[j].addr || End(h.blocks[j]) <= h.blocks[i].addr
  {
    var b, c := h.blocks[i], h.blocks[j];
    var x := if b.addr < c.addr then c.addr else b.addr;
    if Spans(b, x) && Spans(c, x) { OneBlockEach(h, i, j, x); }
  }

  // Bytes conserved.

  ghost function Total(blocks: seq<Block>): nat {
    if blocks == [] then 0 else Total(blocks[..|blocks| - 1]) + HEADER + blocks[|blocks| - 1].size
  }

  ghost function Grown(regions: seq<Region>): nat {
    if regions == [] then 0 else Grown(regions[..|regions| - 1]) + regions[|regions| - 1].len
  }

  lemma {:induction false} TotalParts(a: seq<Block>, b: seq<Block>)
    ensures Total(a + b) == Total(a) + Total(b)
    decreases |b|
  {
    if b == [] {
      assert a + b == a;
    } else {
      assert (a + b)[..|a + b| - 1] == a + b[..|b| - 1];
      TotalParts(a, b[..|b| - 1]);
    }
  }

  lemma TotalSwap(blocks: seq<Block>, i: nat, n: nat, mid: seq<Block>)
    requires i + n <= |blocks| && Total(mid) == Total(blocks[i..i + n])
    ensures Total(blocks[..i] + mid + blocks[i + n..]) == Total(blocks)
  {
    assert blocks == blocks[..i] + (blocks[i..i + n] + blocks[i + n..]);
    TotalParts(blocks[..i], blocks[i..i + n] + blocks[i + n..]);
    TotalParts(blocks[i..i + n], blocks[i + n..]);
    TotalParts(blocks[..i] + mid, blocks[i + n..]);
    TotalParts(blocks[..i], mid);
  }

  lemma TotalOne(b: Block)
    ensures Total([b]) == HEADER + b.size
  {
    assert [b][..0] == [];
  }

  lemma TotalTwo(b: Block, c: Block)
    ensures Total([b, c]) == HEADER + b.size + HEADER + c.size
  {
    assert [b, c][..1] == [b];
    TotalOne(b);
  }

  ghost predicate Conserved(h: Heap) { Total(h.blocks) == Grown(h.regions) }

  /** The heap as a whole: its blocks tile its regions, byte for byte. */
  ghost predicate HeapOk(h: Heap) { Tiled(h) && Conserved(h) }

  /** `mid` may stand for the `n` blocks from `i` on. */
  ghost predicate SameBytes(blocks: seq<Block>, i: nat, n: nat, mid: seq<Block>) {
    && i + n <= |blocks| && Total(mid) == Total(blocks[i..i + n]) && (forall b | b in mid :: BlockOk(b))
    && forall x: nat :: Covers(mid, x) == Covers(blocks[i..i + n], x)
  }

  lemma SwapOk(h: Heap, i: nat, n: nat, mid: seq<Block>)
    requires HeapOk(h) && SameBytes(h.blocks, i, n, mid)
    ensures HeapOk(h.(blocks := h.blocks[..i] + mid + h.blocks[i + n..]))
  {
    var h' := h.(blocks := h.blocks[..i] + mid + h.blocks[i + n..]);
    TotalSwap(h.blocks, i, n, mid);
    forall a ensures TiledAt(h', a) {
      assert TiledAt(h, a);
      CoversSwap(h.blocks, i, n, mid, a);
    }
  }

  // The operations.

  lemma PartsOk(b: Block, size: nat)
    requires BlockOk(b) && b.size >= size + HEADER + HEAP_ALIGN && size % HEAP_ALIGN == 0 && size > 0
    ensures BlockOk(b.(size := size)) && BlockOk(Block(b.addr + HEADER + size, b.size - size - HEADER, true))
  {
  }

  lemma SplitOk(h: Heap, i: nat, size: nat)
    requires HeapOk(h) && i < |h.blocks| && h.blocks[i].size >= size && size % HEAP_ALIGN == 0 && size > 0
    ensures HeapOk(h.(blocks := Split(h.blocks, i, size)))
  {
    var b := h.blocks[i];
    if b.size >= size + HEADER + HEAP_ALIGN {
      var front, rest := b.(size := size), Block(b.addr + HEADER + size, b.size - size - HEADER, true);
      assert h.blocks[i..i + 1] == [b];
      TotalOne(b);
      TotalTwo(front, rest);
      assert b in h.blocks;
      PartsOk(b, size);
      forall x: nat ensures Covers([front, rest], x) == Covers(h.blocks[i..i + 1], x) {
        CoversOne(b, x);
        CoversTwo(front, rest, x);
      }
      SwapOk(h, i, 1, [front, rest]);
    }
  }

  /** Marking a block free or used moves no byte. */
  lemma MarkOk(h: Heap, i: nat, free: bool)
    requires HeapOk(h) && i < |h.blocks|
    ensures HeapOk(h.(blocks := h.blocks[i := h.blocks[i].(free := free)]))
  {
    var b := h.blocks[i];
    var b' := b.(free := free);
    assert h.blocks[i..i + 1] == [b] && b in h.blocks;
    TotalOne(b);
    TotalOne(b');
    forall x: nat ensures Covers([b'], x) == Covers(h.blocks[i..i + 1], x) {
      CoversOne(b, x);
      CoversOne(b', x);
    }
    SwapOk(h, i, 1, [b']);
    assert h.blocks[i := b'] == h.blocks[..i] + [b'] + h.blocks[i + 1..];
  }

  lemma TakeOk(h: Heap, i: nat, size: nat)
    requires HeapOk(h) && i < |h.blocks| && h.blocks[i].size >= size && size % HEAP_ALIGN == 0 && size > 0
    ensures HeapOk(h.(blocks := Take(h.blocks, i, size)))
  {
    SplitOk(h, i, size);
    MarkOk(h.(blocks := Split(h.blocks, i, size)), i, false);
  }

  lemma ReleaseOk(h: Heap, i: nat)
    requires HeapOk(h) && i < |h.blocks|
    ensures HeapOk(h.(blocks := Release(h.blocks, i)))
  {
    var b := h.blocks[i].(free := true);
    assert h.blocks[i] in h.blocks;
    if i + 1 < |h.blocks| && h.blocks[i + 1].free && h.blocks[i + 1].addr == End(b) {
      var n := h.blocks[i + 1];
      assert n in h.blocks;
      var whole := b.(size := b.size + HEADER + n.size);
      assert h.blocks[i..i + 2] == [h.blocks[i], n];
      TotalTwo(h.blocks[i], n);
      TotalOne(whole);
      forall x: nat ensures Covers([whole], x) == Covers(h.blocks[i..i + 2], x) {
        CoversOne(whole, x);
        CoversTwo(h.blocks[i], n, x);
      }
      SwapOk(h, i, 2, [whole]);
    } else {
      MarkOk(h, i, true);
    }
  }

  /** What the page allocator promises: whole pages nobody has. */
  ghost predicate FreshPages(h: Heap, phys: nat, len: nat) {
    phys % PAGE_SIZE == 0 && forall a: nat | phys <= a < phys + len :: Owned(h.regions, a) == 0
  }

  lemma GrownBlockOk(min: nat, phys: nat)
    requires min % HEAP_ALIGN == 0 && min > 0 && phys % PAGE_SIZE == 0
    ensures PagesFor(min) * PAGE_SIZE >= HEADER + min && BlockOk(Block(phys, PagesFor(min) * PAGE_SIZE - HEADER, true))
  {
    var n, k := PagesFor(min), phys / PAGE_SIZE;
    assert n * PAGE_SIZE - HEADER == HEAP_ALIGN * (256 * n - 2) && phys == HEAP_ALIGN * (256 * k);
    Sixteens(256 * n - 2);
    Sixteens(256 * k);
  }

  lemma Sixteens(k: int)
    ensures HEAP_ALIGN * k % HEAP_ALIGN == 0
  {
  }

  lemma AppendOk(h: Heap, b: Block, r: Region)
    requires HeapOk(h) && BlockOk(b) && r.start == b.addr && r.len == HEADER + b.size
    requires forall a: nat | r.start <= a < r.start + r.len :: Owned(h.regions, a) == 0
    ensures HeapOk(Heap(h.blocks + [b], h.regions + [r]))
  {
    var h' := Heap(h.blocks + [b], h.regions + [r]);
    assert h'.blocks[..|h.blocks|] == h.blocks && h'.regions[..|h.regions|] == h.regions;
    forall a ensures TiledAt(h', a) { assert TiledAt(h, a); }
  }

  lemma GrowOk(h: Heap, min: nat, phys: nat)
    requires HeapOk(h) && min % HEAP_ALIGN == 0 && min > 0 && FreshPages(h, phys, PagesFor(min) * PAGE_SIZE)
    ensures HeapOk(Grow(h, min, phys)) && Grow(h, min, phys).blocks[|h.blocks|].size >= min
  {
    GrownBlockOk(min, phys);
    var len := PagesFor(min) * PAGE_SIZE;
    AppendOk(h, Block(phys, len - HEADER, true), Region(phys, len));
  }

  lemma MallocOk(h: Heap, request: nat, phys: Option<nat>)
    requires HeapOk(h) && (phys.Some? ==> FreshPages(h, phys.value, PagesFor(RequestSize(request)) * PAGE_SIZE))
    ensures HeapOk(Malloc(h, request, phys).1)
  {
    var size := RequestSize(request);
    var i := Fitting(h.blocks, size);
    if i.Some? {
      TakeOk(h, i.value, size);
    } else if phys.Some? {
      GrowOk(h, size, phys.value);
      TakeOk(Grow(h, size, phys.value), |h.blocks|, size);
    }
  }
}
