/** The loader as it runs: page loops over the segments, copying in place. */
module ElfLoader {
  import opened Wrappers
  import opened ElfModel
  import opened ElfProofs

  class Loader {
    var mapped: map<nat, nat>
    var frames: map<nat, seq<Byte>>
    var used: set<nat>
    var loaded: seq<Placed>
    var heapPage: nat

    /** Nothing loaded; `others` are the frames in use elsewhere. */
    constructor (others: set<nat>)
      ensures View() == Empty(others)
    {
      mapped, frames, used, loaded, heapPage := map[], map[], others, [], 0;
    }

    ghost function View(): Space
      reads this
    {
      Space(mapped, frames, used, loaded, heapPage)
    }

    /** The frame of the first loaded segment on the page. */
    method Shared(v: nat) returns (f: Option<nat>)
      ensures f == FindShared(loaded, v)
    {
      var i := 0;
      assert loaded[0..] == loaded;
      while i < |loaded|
        invariant 0 <= i <= |loaded| && FindShared(loaded[i..], v) == FindShared(loaded, v)
      {
        assert loaded[i..][1..] == loaded[i + 1..];
        var l := loaded[i];
        if l.first <= v < l.first + l.pages { return Some(l.base + (v - l.first)); }
        i := i + 1;
      }
      f := None;
    }

    /** A zeroed page with the segment's file bytes copied in. */
    static method OwnPage(s: Segment, v: nat) returns (page: seq<Byte>)
      requires |s.file| <= s.memsz
      ensures page == Overlay(ZeroPage(), s, v)
    {
      page := ZeroPage();
      ghost var whole := Overlay(page, s, v);
      var o := 0;
      while o < PAGE
        invariant 0 <= o <= PAGE && |page| == PAGE
        invariant forall k | 0 <= k < PAGE :: page[k] == if k < o then whole[k] else 0
      {
        var a := v * PAGE + o;
        assert whole[o] == OverlayByte(ZeroPage(), s, v, o);
        if s.vaddr <= a < s.vaddr + |s.file| { page := page[o := s.file[a - s.vaddr]]; }
        o := o + 1;
      }
      assert page == whole;
    }

    /** Copies the segment's own bytes, file and zero tail alike, out of its page into a shared one. */
    static method CopyInto(page: seq<Byte>, own: seq<Byte>, s: Segment, v: nat) returns (r: seq<Byte>)
      requires |page| == PAGE && own == Overlay(ZeroPage(), s, v) && On(s, v)
      ensures r == Overlay(page, s, v)
    {
      var from := if s.vaddr > v * PAGE then s.vaddr - v * PAGE else 0;
      var end := s.vaddr + s.memsz;
      var to := if end < v * PAGE + PAGE then end - v * PAGE else PAGE;
      InPage(s, v, from, to);
      r := page[..from] + own[from..to] + page[to..];
      ghost var whole := Overlay(page, s, v);
      forall o | 0 <= o < PAGE ensures r[o] == whole[o] {
        assert whole[o] == OverlayByte(page, s, v, o) && own[o] == OverlayByte(ZeroPage(), s, v, o);
        assert Covers(s, v * PAGE + o) <==> from <= o < to;
      }
      assert r == whole;
    }

    method Page(s: Segment, base: nat, p: nat)
      requires |s.file| <= s.memsz && p < Pages(s)
      modifies this
      ensures View() == LoadPage(old(View()), s, base, p)
    {
      var v, own := First(s) + p, base + p;
      var bytes := OwnPage(s, v);
      var f := Shared(v);
      if f.None? {
        mapped := mapped[v := own];
        frames := frames[own := bytes];
        return;
      }
      var page := if f.value in frames && |frames[f.value]| == PAGE then frames[f.value] else ZeroPage();
      var both := CopyInto(page, bytes, s, v);
      frames := frames[f.value := both];
      used := used - {own};
    }

    method Segment(s: ElfModel.Segment, base: nat)
      requires |s.file| <= s.memsz
      modifies this
      ensures View() == LoadSegment(old(View()), s, base)
    {
      var n := Pages(s);
      used := used + Frames(base, n);
      ghost var start := View();
      var p := 0;
      while p < n
        invariant 0 <= p <= n && Done(start, s, base, p, View())
      {
        ghost var before := View();
        Page(s, base, p);
        DoneNext(start, s, base, p, before);
        p := p + 1;
      }
      assert View() == LoadPages(start, s, base, n);
      KeepsPlaces(start, s, base, n);
      if |loaded| < MAX_LOAD_SEGMENTS { loaded := loaded + [Placed(First(s), n, base)]; }
      if First(s) + n > heapPage { heapPage := First(s) + n; }
    }

    /** The loop over the program headers; `bases` is where the page allocator put each segment. */
    method Segments(segs: seq<ElfModel.Segment>, bases: seq<nat>)
      requires |segs| == |bases| && forall i | 0 <= i < |segs| :: |segs[i].file| <= segs[i].memsz
      modifies this
      ensures View() == Load(old(View()), segs, bases)
    {
      for i := 0 to |segs|
        invariant View() == Load(old(View()), segs[..i], bases[..i])
      {
        Segment(segs[i], bases[i]);
        assert segs[..i + 1][..i] == segs[..i] && bases[..i + 1][..i] == bases[..i];
      }
      assert segs[..|segs|] == segs && bases[..|bases|] == bases;
    }

    /** Sixteen zeroed pages, mapped below the top of the user half. */
    method Stack(base: nat)
      modifies this
      ensures View() == MapStack(old(View()), base)
    {
      used := used + Frames(base, STACK_PAGES);
      ghost var start := View();
      for p := 0 to STACK_PAGES
        invariant StackDone(start, base, p, View())
      {
        assert MapStackPages(start, base, p) == View();
        mapped := mapped[STACK_FIRST + p := base + p];
        frames := frames[base + p := ZeroPage()];
      }
      assert View() == MapStackPages(start, base, STACK_PAGES);
    }
  }

  /** Over a range of one value, so that the recursion is not unfolded at every use. */
  ghost predicate StackDone(m: Space, base: nat, n: nat, m': Space) {
    forall k: nat | n <= k <= n :: MapStackPages(m, base, k) == m'
  }

  /** Where the segment begins and ends within a page it is on. */
  lemma InPage(s: Segment, v: nat, from: nat, to: int)
    requires On(s, v)
    requires from == if s.vaddr > v * PAGE then s.vaddr - v * PAGE else 0
    requires to == if s.vaddr + s.memsz < v * PAGE + PAGE then s.vaddr + s.memsz - v * PAGE else PAGE
    ensures from <= to <= PAGE
  {
  }

  /** Over a range of one value, like StackDone. */
  ghost predicate Done(m: Space, s: ElfModel.Segment, base: nat, n: nat, m': Space) {
    forall k: nat | n <= k <= n :: LoadPages(m, s, base, k) == m'
  }

  lemma DoneNext(m: Space, s: ElfModel.Segment, base: nat, n: nat, m1: Space)
    requires Done(m, s, base, n, m1)
    ensures Done(m, s, base, n + 1, LoadPage(m1, s, base, n))
  {
    assert LoadPages(m, s, base, n) == m1;
  }

  lemma {:induction false} KeepsPlaces(m: Space, s: ElfModel.Segment, base: nat, n: nat)
    ensures LoadPages(m, s, base, n).loaded == m.loaded && LoadPages(m, s, base, n).heapPage == m.heapPage
  {
    if n > 0 { KeepsPlaces(m, s, base, n - 1); }
  }
}
