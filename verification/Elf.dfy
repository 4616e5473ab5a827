/** Loading a program's segments (exec/elf.rs): page by page, later segments writing into pages earlier ones mapped. */
module ElfModel {
  import opened Wrappers

  const PAGE := 4096
  const MAX_LOAD_SEGMENTS := 16

  /** A PT_LOAD segment that passed its bounds checks: `file` bytes at `vaddr`, zeros up to `memsz`. */
  datatype Segment = Segment(vaddr: nat, memsz: nat, file: seq<Byte>)

  function First(s: Segment): nat { s.vaddr / PAGE }

  function Pages(s: Segment): nat { (s.vaddr + s.memsz - First(s) * PAGE + PAGE - 1) / PAGE }

  predicate On(s: Segment, v: nat) { First(s) <= v < First(s) + Pages(s) }

  predicate Covers(s: Segment, a: nat) { s.vaddr <= a < s.vaddr + s.memsz }

  function SegByte(s: Segment, a: nat): Byte
    requires Covers(s, a)
  {
    if a - s.vaddr < |s.file| then s.file[a - s.vaddr] else 0
  }

  function ZeroPage(): (r: seq<Byte>)
    ensures |r| == PAGE && forall o | 0 <= o < PAGE :: r[o] == 0
  {
    seq(PAGE, _ => 0)
  }

  function OverlayByte(page: seq<Byte>, s: Segment, v: nat, o: nat): Byte
    requires o < |page|
  {
    if Covers(s, v * PAGE + o) then SegByte(s, v * PAGE + o) else page[o]
  }

  /** A page after the segment's own bytes are written into it. */
  function Overlay(page: seq<Byte>, s: Segment, v: nat): (r: seq<Byte>)
    requires |page| == PAGE
    ensures |r| == PAGE && forall o | 0 <= o < PAGE :: r[o] == OverlayByte(page, s, v, o)
  {
    seq(PAGE, o requires 0 <= o < PAGE => OverlayByte(page, s, v, o))
  }

  /** A segment already loaded: its page numbers, and the first of its contiguous frames. */
  datatype Placed = Placed(first: nat, pages: nat, base: nat)

  /** `used` are the frames the page allocator has given out; `heapPage` is where the heap will start. */
  datatype Space = Space(mapped: map<nat, nat>, frames: map<nat, seq<Byte>>, used: set<nat>, loaded: seq<Placed>,
      heapPage: nat)

  /** The frame the first loaded segment on page `v` has for it. */
  function FindShared(loaded: seq<Placed>, v: nat): Option<nat> {
    if loaded == [] then None
    else if loaded[0].first <= v < loaded[0].first + loaded[0].pages then Some(loaded[0].base + (v - loaded[0].first))
    else FindShared(loaded[1..], v)
  }

  function Frames(base: nat, n: nat): (fs: set<nat>)
    ensures forall f :: f in fs <==> base <= f < base + n
  {
    if n == 0 then {} else Frames(base, n - 1) + {base + n - 1}
  }

  function PageAt(m: Space, f: nat): (page: seq<Byte>)
    ensures |page| == PAGE
  {
    if f in m.frames && |m.frames[f]| == PAGE then m.frames[f] else ZeroPage()
  }

  function LoadPage(m: Space, s: Segment, base: nat, p: nat): Space {
    var v, own := First(s) + p, base + p;
    match FindShared(m.loaded, v)
    case None => m.(mapped := m.mapped[v := own], frames := m.frames[own := Overlay(ZeroPage(), s, v)])
    case Some(f) => m.(frames := m.frames[f := Overlay(PageAt(m, f), s, v)], used := m.used - {own})
  }

  function LoadPages(m: Space, s: Segment, base: nat, n: nat): Space {
    if n == 0 then m else LoadPage(LoadPages(m, s, base, n - 1), s, base, n - 1)
  }

  function LoadSegment(m: Space, s: Segment, base: nat): Space {
    var n := Pages(s);
    var m1 := LoadPages(m.(used := m.used + Frames(base, n)), s, base, n);
    m1.(loaded := if |m.loaded| < MAX_LOAD_SEGMENTS then m.loaded + [Placed(First(s), n, base)] else m.loaded,
        heapPage := if First(s) + n > m.heapPage then First(s) + n else m.heapPage)
  }

  /** The segments in header order; `bases` is where the page allocator put each. */
  function Load(m: Space, segs: seq<Segment>, bases: seq<nat>): Space
    requires |segs| == |bases|
  {
    if segs == [] then m
    else
      var n := |segs| - 1;
      LoadSegment(Load(m, segs[..n], bases[..n]), segs[n], bases[n])
  }

  // The user stack: zeroed pages at the top of the user half.

  const STACK_PAGES := 16
  /** The first page of the stack, whose last ends at 0x7000_0000_0000. */
  const STACK_FIRST := 0x7_0000_0000 - STACK_PAGES

  predicate OnStack(v: nat) { STACK_FIRST <= v < STACK_FIRST + STACK_PAGES }

  /** The first `n` pages mapped, over whatever was there. */
  function MapStackPages(m: Space, base: nat, n: nat): Space {
    if n == 0 then m
    else
      var m1, p := MapStackPages(m, base, n - 1), n - 1;
      m1.(mapped := m1.mapped[STACK_FIRST + p := base + p], frames := m1.frames[base + p := ZeroPage()])
  }

  function MapStack(m: Space, base: nat): Space {
    MapStackPages(m.(used := m.used + Frames(base, STACK_PAGES)), base, STACK_PAGES)
  }

  /** The reference: the last segment covering an address decides its byte. */
  function ByteAt(segs: seq<Segment>, a: nat): Byte {
    if segs == [] then 0
    else
      var n := |segs| - 1;
      if Covers(segs[n], a) then SegByte(segs[n], a) else ByteAt(segs[..n], a)
  }

  predicate OnAny(segs: seq<Segment>, v: nat) { exists i | 0 <= i < |segs| :: On(segs[i], v) }
}
