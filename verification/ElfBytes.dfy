/** The loaded memory byte by byte, straight from the file, and where the heap starts. */
module ElfBytes {
  import opened Wrappers
  import opened ElfModel
  import opened ElfProofs

  /** What a load from address `a` gives; 0 where nothing is mapped. */
  function Peek(m: Space, a: nat): Byte {
    var v := a / PAGE;
    if v in m.mapped then PageAt(m, m.mapped[v])[a % PAGE] else 0
  }

  /** A segment's pages are those from the one it starts on that begin before its end. */
  lemma PagesAre(s: Segment, v: nat)
    ensures On(s, v) <==> s.vaddr / PAGE <= v && v * PAGE < s.vaddr + s.memsz
  {
  }

  lemma PageOf(s: Segment, i: nat)
    requires i < s.memsz
    ensures On(s, (s.vaddr + i) / PAGE)
  {
    PagesAre(s, (s.vaddr + i) / PAGE);
  }

  lemma {:induction false} LastDecides(segs: seq<Segment>, k: nat, i: nat)
    requires k < |segs| && i < segs[k].memsz
    requires forall j | k < j < |segs| :: !(segs[j].vaddr <= segs[k].vaddr + i < segs[j].vaddr + segs[j].memsz)
    ensures ByteAt(segs, segs[k].vaddr + i) == if i < |segs[k].file| then segs[k].file[i] else 0
  {
    var n := |segs| - 1;
    if k < n { LastDecides(segs[..n], k, i); }
  }

  lemma ImagePeek(m: Space, segs: seq<Segment>, others: set<nat>, a: nat, v: nat, o: nat)
    requires IsImage(m, segs, others) && OnAny(segs, v) && v == a / PAGE && o == a % PAGE
    ensures Peek(m, a) == ByteAt(segs, a)
  {
    assert ByteOk(m, segs, v, o);
    assert v * PAGE + o == a;
  }

  lemma {:induction false} NothingElsewhere(segs: seq<Segment>, a: nat)
    requires !OnAny(segs, a / PAGE)
    ensures ByteAt(segs, a) == 0
  {
    if segs != [] {
      var n := |segs| - 1;
      assert !On(segs[n], a / PAGE);
      if Covers(segs[n], a) { PageOf(segs[n], a - segs[n].vaddr); }
      assert forall i | 0 <= i < n :: segs[..n][i] == segs[i];
      NothingElsewhere(segs[..n], a);
    }
  }

  /** At every address the memory is what the reference says, 0 where no segment is. */
  ghost predicate Shows(m: Space, segs: seq<Segment>) { forall a: nat :: ShowsAt(m, segs, a) }

  ghost predicate ShowsAt(m: Space, segs: seq<Segment>, a: nat) { Peek(m, a) == ByteAt(segs, a) }

  lemma ImageShows(m: Space, segs: seq<Segment>, others: set<nat>)
    requires IsImage(m, segs, others)
    ensures Shows(m, segs)
  {
    forall a: nat ensures ShowsAt(m, segs, a) {
      if OnAny(segs, a / PAGE) {
        ImagePeek(m, segs, others, a, a / PAGE, a % PAGE);
      } else {
        NothingElsewhere(segs, a);
      }
    }
  }

  /** Segments that load right show at every address. */
  lemma LoadShows(segs: seq<Segment>, bases: seq<nat>, others: set<nat>)
    requires |segs| == |bases| && AllFresh(Empty(others), segs, bases) && AllTidy(segs)
    ensures Shows(Load(Empty(others), segs, bases), segs)
  {
    LoadedMemoryIsIff(segs, bases, others);
    ImageShows(Load(Empty(others), segs, bases), segs, others);
  }

  /**
   * Then the `i`th byte of the `k`th segment is in memory where it asked to be: the file's, or zero past the file's
   * bytes -- unless a later segment has that address.
   */
  lemma FileBytesArrive(m: Space, segs: seq<Segment>, k: nat, i: nat)
    requires Shows(m, segs) && k < |segs| && i < segs[k].memsz
    requires forall j | k < j < |segs| :: !(segs[j].vaddr <= segs[k].vaddr + i < segs[j].vaddr + segs[j].memsz)
    ensures Peek(m, segs[k].vaddr + i) == if i < |segs[k].file| then segs[k].file[i] else 0
  {
    assert ShowsAt(m, segs, segs[k].vaddr + i);
    LastDecides(segs, k, i);
  }

  // The heap.

  lemma {:induction false} PagesKeepHeap(m: Space, s: Segment, base: nat, n: nat)
    ensures LoadPages(m, s, base, n).heapPage == m.heapPage
  {
    if n > 0 { PagesKeepHeap(m, s, base, n - 1); }
  }

  function EndPage(s: Segment): nat { First(s) + Pages(s) }

  /** The heap starts on the first page past every segment, and not a page further. */
  lemma {:induction false} HeapStarts(m: Space, segs: seq<Segment>, bases: seq<nat>)
    requires |segs| == |bases|
    ensures var h := Load(m, segs, bases).heapPage;
      && m.heapPage <= h && (forall i | 0 <= i < |segs| :: EndPage(segs[i]) <= h)
      && (h == m.heapPage || exists i :: 0 <= i < |segs| && EndPage(segs[i]) == h)
  {
    if segs != [] {
      var n := |segs| - 1;
      var m1 := Load(m, segs[..n], bases[..n]);
      HeapStarts(m, segs[..n], bases[..n]);
      PagesKeepHeap(m1.(used := m1.used + Frames(bases[n], Pages(segs[n]))), segs[n], bases[n], Pages(segs[n]));
      var h := Load(m, segs, bases).heapPage;
      if h != EndPage(segs[n]) && h != m.heapPage {
        var i :| 0 <= i < n && EndPage(segs[..n][i]) == h;
        assert EndPage(segs[i]) == h;
      }
    }
  }
}
