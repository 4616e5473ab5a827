/** The kernel heap (mm/heap.rs): a first-fit list of blocks with splitting and forward coalescing. */
module HeapModel {
  import opened Wrappers

  const HEADER := 32
  const HEAP_ALIGN := 16
  const PAGE_SIZE := 4096

  /** A block's header is at `addr`, its `size` payload bytes right after. */
  datatype Block = Block(addr: nat, size: nat, free: bool)

  /** Pages taken from the page allocator. */
  datatype Region = Region(start: nat, len: nat)

  datatype Heap = Heap(blocks: seq<Block>, regions: seq<Region>)

  /** The next multiple of `align`, a power of two: there, masking the low bits rounds down. */
  function AlignUp(n: nat, align: nat): (r: nat)
    requires align > 0
    ensures n <= r < n + align && r % align == 0
  {
    RoundsUp(n, align);
    if n % align == 0 then n else n + (align - n % align)
  }

  lemma RoundsUp(n: nat, align: nat)
    requires align > 0
    ensures (n + (align - n % align)) % align == 0
  {
    var q := n / align;
    assert n + (align - n % align) == (q + 1) * align;
    MultipleMod(q + 1, align);
  }

  lemma MultipleMod(q: nat, align: nat)
    requires align > 0
    ensures q * align % align == 0
  {
    var r := q * align;
    var d := q - r / align;
    assert align * d == align * q - align * (r / align) == r % align;
    if d >= 1 { Scaled(align, 1, d); }
    if d <= -1 { Scaled(align, d, -1); }
  }

  lemma Scaled(align: nat, x: int, y: int)
    requires x <= y
    ensures align * x <= align * y
  {
  }

  function RequestSize(size: nat): (r: nat)
    ensures r >= size && r > 0 && r % HEAP_ALIGN == 0 && r < (if size == 0 then 1 else size) + HEAP_ALIGN
  {
    AlignUp(if size == 0 then 1 else size, HEAP_ALIGN)
  }

  /** How many pages hold a header and `min` bytes. */
  function PagesFor(min: nat): (n: nat)
    ensures (n - 1) * PAGE_SIZE < HEADER + min <= n * PAGE_SIZE
  {
    (HEADER + min + PAGE_SIZE - 1) / PAGE_SIZE
  }

  function Fitting(blocks: seq<Block>, size: nat): (r: Option<nat>)
    ensures r.Some? ==> r.value < |blocks|
  {
    FirstFrom(blocks, 0, (b: Block) => b.free && b.size >= size)
  }

  /** `phys` is what the page allocator returned. */
  function Grow(h: Heap, min: nat, phys: nat): Heap {
    var len := PagesFor(min) * PAGE_SIZE;
    Heap(h.blocks + [Block(phys, Monus(len, HEADER), true)], h.regions + [Region(phys, len)])
  }

  function Split(blocks: seq<Block>, i: nat, size: nat): (r: seq<Block>)
    requires i < |blocks|
    ensures i < |r| && r[i].addr == blocks[i].addr
  {
    var b := blocks[i];
    if b.size < size + HEADER + HEAP_ALIGN then blocks
    else
      var rest := Block(b.addr + HEADER + size, b.size - size - HEADER, true);
      blocks[..i] + [b.(size := size), rest] + blocks[i + 1..]
  }

  function Take(blocks: seq<Block>, i: nat, size: nat): (r: seq<Block>)
    requires i < |blocks|
    ensures i < |r| && r[i].addr == blocks[i].addr
  {
    var bs := Split(blocks, i, size);
    bs[i := bs[i].(free := false)]
  }

  /** The payload's address, or None when nothing fits and no pages can be had. */
  function Malloc(h: Heap, request: nat, phys: Option<nat>): (r: (Option<nat>, Heap)) {
    var size := RequestSize(request);
    var i := Fitting(h.blocks, size);
    if i.None? && phys.None? then (None, h)
    else
      var h1 := if i.Some? then h else Grow(h, size, phys.value);
      var k := if i.Some? then i.value else |h.blocks|;
      (Some(h1.blocks[k].addr + HEADER), h1.(blocks := Take(h1.blocks, k, size)))
  }

  function BlockOf(blocks: seq<Block>, ptr: nat): (r: Option<nat>)
    ensures r.Some? ==> r.value < |blocks| && blocks[r.value].addr + HEADER == ptr
  {
    FirstFrom(blocks, 0, (b: Block) => b.addr + HEADER == ptr)
  }

  /** Marks a block free and swallows the next one if that is free and starts where this one ends. */
  function Release(blocks: seq<Block>, i: nat): seq<Block>
    requires i < |blocks|
  {
    var b := blocks[i].(free := true);
    if i + 1 < |blocks| && blocks[i + 1].free && blocks[i + 1].addr == b.addr + HEADER + b.size
    then blocks[..i] + [b.(size := b.size + HEADER + blocks[i + 1].size)] + blocks[i + 2..]
    else blocks[i := b]
  }

  // The global allocator on top.

  /** What the caller of alloc() was given: `ptr` for `size` bytes at `align`. */
  datatype Grant = Grant(ptr: nat, size: nat, align: nat)

  /** `stash` is what is written in the eight bytes at an address; `live` lists the grants by their block's payload. */
  datatype System = System(heap: Heap, stash: map<nat, nat>, live: map<nat, Grant>)

  const BOOT := System(Heap([], []), map[], map[])

  function Alloc(s: System, size: nat, align: nat, phys: Option<nat>): System
    requires align > 0
  {
    var (raw, h) := Malloc(s.heap, if align <= HEAP_ALIGN then size else size + align, phys);
    if raw.None? then s
    else if align <= HEAP_ALIGN then System(h, s.stash, s.live[raw.value := Grant(raw.value, size, align)])
    else
      var ptr := AlignUp(raw.value + 8, align);
      System(h, s.stash[Monus(ptr, 8) := raw.value], s.live[raw.value := Grant(ptr, size, align)])
  }

  /** The block's payload a grant was cut from, as dealloc() finds it. */
  function RawOf(s: System, g: Grant): Option<nat> {
    if g.align <= HEAP_ALIGN then Some(g.ptr)
    else if Monus(g.ptr, 8) in s.stash then Some(s.stash[Monus(g.ptr, 8)])
    else None
  }

  function Dealloc(s: System, g: Grant): System {
    var raw := RawOf(s, g);
    var i := if raw.Some? then BlockOf(s.heap.blocks, raw.value) else None;
    if i.None? then s
    else System(s.heap.(blocks := Release(s.heap.blocks, i.value)), s.stash, s.live - {raw.value})
  }
}
