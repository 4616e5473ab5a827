/** What the loaded memory is. */
module ElfProofs {
  import opened Wrappers
  import opened ElfModel

  lemma {:induction false} SharedMore(loaded: seq<Placed>, p: Placed, v: nat)
    ensures FindShared(loaded + [p], v)
         == if FindShared(loaded, v).Some? then FindShared(loaded, v)
            else if p.first <= v < p.first + p.pages then Some(p.base + (v - p.first)) else None
  {
    if loaded == [] {
      assert loaded + [p] == [p] && [p][1..] == [];
    } else {
      assert (loaded + [p])[1..] == loaded[1..] + [p];
      SharedMore(loaded[1..], p, v);
    }
  }

  /** The space before any segment is loaded, where `others` are frames that belong to someone else. */
  function Empty(others: set<nat>): Space { Space(map[], map[], others, [], 0) }

  /** The segments whose pages the loader remembers. */
  function Tracked(segs: seq<Segment>): seq<Segment> {
    if |segs| <= MAX_LOAD_SEGMENTS then segs else segs[..MAX_LOAD_SEGMENTS]
  }

  ghost predicate PageOk(m: Space, segs: seq<Segment>, others: set<nat>, v: nat) {
    && (v in m.mapped <==> OnAny(segs, v))
    && (OnAny(Tracked(segs), v) ==> v in m.mapped)
    && FindShared(m.loaded, v) == (if OnAny(Tracked(segs), v) then Some(m.mapped[v]) else None)
    && (v in m.mapped ==>
          && m.mapped[v] in m.used && m.mapped[v] !in others && m.mapped[v] in m.frames
             && |m.frames[m.mapped[v]]| == PAGE
          && v < m.heapPage)
  }

  /** Byte `o` of page `v`, where that is mapped, is what the reference says. */
  ghost predicate ByteOk(m: Space, segs: seq<Segment>, v: nat, o: nat) {
    v in m.mapped && o < PAGE ==> PageAt(m, m.mapped[v])[o] == ByteAt(segs, v * PAGE + o)
  }

  ghost predicate OneFrameEach(m: Space, v: nat, w: nat) {
    v in m.mapped && w in m.mapped && m.mapped[v] == m.mapped[w] ==> v == w
  }

  ghost predicate FrameOwned(m: Space, others: set<nat>, f: nat) {
    f in m.used ==> f in others || exists v :: v in m.mapped && m.mapped[v] == f
  }

  /** The mapped pages are the segments' pages, on frames of their own, holding what the reference says. */
  ghost predicate Inv(m: Space, segs: seq<Segment>, others: set<nat>) {
    && |m.loaded| == |Tracked(segs)| && others <= m.used
    && (forall v :: PageOk(m, segs, others, v))
    && (forall v, o :: ByteOk(m, segs, v, o))
    && (forall v, w :: OneFrameEach(m, v, w))
    && (forall f :: FrameOwned(m, others, f))
  }

  // One segment, page by page.

  /** How page `v` looks after the first `n` pages of `s` are done. */
  ghost predicate PageDone(m: Space, m': Space, s: Segment, base: nat, n: nat, v: nat) {
    if First(s) <= v < First(s) + n then
      && v in m'.mapped
      && m'.mapped[v] == (if v in m.mapped then m.mapped[v] else base + (v - First(s)))
      && m'.mapped[v] in m'.frames
      && m'.frames[m'.mapped[v]] == Overlay(if v in m.mapped then PageAt(m, m.mapped[v]) else ZeroPage(), s, v)
    else
      && (v in m'.mapped <==> v in m.mapped)
      && (v in m.mapped ==> m'.mapped[v] == m.mapped[v] && PageAt(m', m.mapped[v]) == PageAt(m, m.mapped[v])
                            && (m.mapped[v] in m.frames
                                ==> m.mapped[v] in m'.frames && m'.frames[m.mapped[v]] == m.frames[m.mapped[v]]))
  }

  ghost predicate FrameDone(m: Space, m': Space, s: Segment, base: nat, n: nat, f: nat) {
    f in m'.used <==>
      if base <= f < base + Pages(s) then !(f < base + n && First(s) + (f - base) in m.mapped) else f in m.used
  }

  ghost predicate Partly(m: Space, m': Space, s: Segment, base: nat, n: nat) {
    && m'.loaded == m.loaded && m'.heapPage == m.heapPage
    && (forall v :: PageDone(m, m', s, base, n, v))
    && (forall f :: FrameDone(m, m', s, base, n, f))
  }

  /** Where the segment shares a page, it is one the loader remembers. */
  ghost predicate Tidy(segs: seq<Segment>, s: Segment) {
    forall v | On(s, v) && OnAny(segs, v) :: OnAny(Tracked(segs), v)
  }

  /** The frames are new: nobody uses them. */
  ghost predicate FreshFrames(m: Space, base: nat, n: nat) { forall f | base <= f < base + n :: f !in m.used }

  lemma PartlyNext(m: Space, m1: Space, s: Segment, base: nat, n: nat, segs: seq<Segment>, others: set<nat>)
    requires Inv(m, segs, others) && Tidy(segs, s) && FreshFrames(m, base, Pages(s)) && n < Pages(s)
             && Partly(m, m1, s, base, n)
    ensures Partly(m, LoadPage(m1, s, base, n), s, base, n + 1)
  {
    var m' := LoadPage(m1, s, base, n);
    var v, own, k := First(s) + n, base + n, n + 1;
    assert PageOk(m, segs, others, v) && On(s, v);
    assert PageDone(m, m1, s, base, n, v);
    forall w ensures PageDone(m, m', s, base, k, w) {
      assert PageDone(m, m1, s, base, n, w) && PageOk(m, segs, others, w) && OneFrameEach(m, v, w);
    }
    forall f ensures FrameDone(m, m', s, base, k, f) { assert FrameDone(m, m1, s, base, n, f); }
  }

  lemma {:induction false} PartlyAll(m: Space, s: Segment, base: nat, n: nat, segs: seq<Segment>, others: set<nat>)
    requires Inv(m, segs, others) && Tidy(segs, s) && FreshFrames(m, base, Pages(s)) && n <= Pages(s)
    ensures Partly(m, LoadPages(m.(used := m.used + Frames(base, Pages(s))), s, base, n), s, base, n)
  {
    var m0 := m.(used := m.used + Frames(base, Pages(s)));
    if n == 0 {
      forall v ensures PageDone(m, m0, s, base, 0, v) {}
      forall f ensures FrameDone(m, m0, s, base, 0, f) {}
    } else {
      PartlyAll(m, s, base, n - 1, segs, others);
      PartlyNext(m, LoadPages(m0, s, base, n - 1), s, base, n - 1, segs, others);
    }
  }

  // A whole segment.

  lemma CoversOn(s: Segment, v: nat, o: nat)
    requires o < PAGE && Covers(s, v * PAGE + o)
    ensures On(s, v)
  {
  }

  lemma OnAnyMore(segs: seq<Segment>, s: Segment, v: nat)
    ensures OnAny(segs + [s], v) <==> OnAny(segs, v) || On(s, v)
  {
    var all := segs + [s];
    if OnAny(segs, v) {
      var i :| 0 <= i < |segs| && On(segs[i], v);
      assert On(all[i], v);
    }
    if On(s, v) { assert On(all[|segs|], v); }
  }

  lemma {:induction false} OffPageIsZero(segs: seq<Segment>, v: nat, o: nat)
    requires o < PAGE && !OnAny(segs, v)
    ensures ByteAt(segs, v * PAGE + o) == 0
  {
    if segs != [] {
      var n := |segs| - 1;
      OnAnyMore(segs[..n], segs[n], v);
      assert segs == segs[..n] + [segs[n]];
      if Covers(segs[n], v * PAGE + o) { CoversOn(segs[n], v, o); }
      OffPageIsZero(segs[..n], v, o);
    }
  }

  lemma TrackedMore(segs: seq<Segment>, s: Segment)
    ensures Tracked(segs + [s]) == if |segs| < MAX_LOAD_SEGMENTS then segs + [s] else Tracked(segs)
  {
  }

  lemma SegmentPage(m: Space, s: Segment, base: nat, segs: seq<Segment>, others: set<nat>, v: nat)
    requires Inv(m, segs, others) && FreshFrames(m, base, Pages(s))
    requires var m1 := LoadSegment(m, s, base); PageDone(m, m1, s, base, Pages(s), v)
    requires var m1 := LoadSegment(m, s, base); forall f :: FrameDone(m, m1, s, base, Pages(s), f)
    requires LoadSegment(m, s, base).loaded
          == if |m.loaded| < MAX_LOAD_SEGMENTS then m.loaded + [Placed(First(s), Pages(s), base)] else m.loaded
    ensures PageOk(LoadSegment(m, s, base), segs + [s], others, v)
  {
    var m1 := LoadSegment(m, s, base);
    assert PageOk(m, segs, others, v);
    OnAnyMore(segs, s, v);
    TrackedMore(segs, s);
    SharedMore(m.loaded, Placed(First(s), Pages(s), base), v);
    if v in m1.mapped { assert FrameDone(m, m1, s, base, Pages(s), m1.mapped[v]); }
  }

  lemma SegmentByte(m: Space, m1: Space, s: Segment, base: nat, segs: seq<Segment>, others: set<nat>, v: nat, o: nat)
    requires Inv(m, segs, others) && PageDone(m, m1, s, base, Pages(s), v)
    ensures ByteOk(m1, segs + [s], v, o)
  {
    assert PageOk(m, segs, others, v) && ByteOk(m, segs, v, o);
    assert (segs + [s])[..|segs|] == segs;
    if v in m1.mapped && o < PAGE {
      if Covers(s, v * PAGE + o) { CoversOn(s, v, o); }
      if !OnAny(segs, v) { OffPageIsZero(segs, v, o); }
    }
  }

  lemma SegmentFrames(m: Space, m1: Space, s: Segment, base: nat, segs: seq<Segment>, others: set<nat>)
    requires Inv(m, segs, others) && FreshFrames(m, base, Pages(s))
    requires (forall v :: PageDone(m, m1, s, base, Pages(s), v)) && (forall f :: FrameDone(m, m1, s, base, Pages(s), f))
    ensures (forall v, w :: OneFrameEach(m1, v, w)) && (forall f :: FrameOwned(m1, others, f)) && others <= m1.used
  {
    forall v, w ensures OneFrameEach(m1, v, w) {
      assert PageDone(m, m1, s, base, Pages(s), v) && PageDone(m, m1, s, base, Pages(s), w);
      assert OneFrameEach(m, v, w) && PageOk(m, segs, others, v) && PageOk(m, segs, others, w);
    }
    forall f: nat ensures FrameOwned(m1, others, f) {
      assert FrameDone(m, m1, s, base, Pages(s), f) && FrameOwned(m, others, f);
      if f in m1.used && f !in others {
        if base <= f < base + Pages(s) {
          assert PageDone(m, m1, s, base, Pages(s), First(s) + (f - base));
          assert m1.mapped[First(s) + (f - base)] == f;
        } else {
          var v :| v in m.mapped && m.mapped[v] == f;
          assert PageDone(m, m1, s, base, Pages(s), v);
        }
      }
    }
    forall f | f in others ensures f in m1.used { assert FrameDone(m, m1, s, base, Pages(s), f); }
  }

  lemma SegmentSafe(m: Space, s: Segment, base: nat, segs: seq<Segment>, others: set<nat>)
    requires Inv(m, segs, others) && FreshFrames(m, base, Pages(s)) && Tidy(segs, s)
    ensures Inv(LoadSegment(m, s, base), segs + [s], others)
  {
    TrackedMore(segs, s);
    PartlyAll(m, s, base, Pages(s), segs, others);
    var m1 := LoadSegment(m, s, base);
    var part := LoadPages(m.(used := m.used + Frames(base, Pages(s))), s, base, Pages(s));
    forall v ensures PageDone(m, m1, s, base, Pages(s), v) { assert PageDone(m, part, s, base, Pages(s), v); }
    forall f ensures FrameDone(m, m1, s, base, Pages(s), f) { assert FrameDone(m, part, s, base, Pages(s), f); }
    SegmentFrames(m, m1, s, base, segs, others);
    forall v ensures PageOk(m1, segs + [s], others, v) { SegmentPage(m, s, base, segs, others, v); }
    forall v, o ensures ByteOk(m1, segs + [s], v, o) { SegmentByte(m, m1, s, base, segs, others, v, o); }
  }

  // A whole program.

  /** The `i`th segment's frames were free when the page allocator gave them out. */
  ghost predicate FreshAt(m: Space, segs: seq<Segment>, bases: seq<nat>, i: nat)
    requires |segs| == |bases| && i < |segs|
  {
    FreshFrames(Load(m, segs[..i], bases[..i]), bases[i], Pages(segs[i]))
  }

  ghost predicate AllFresh(m: Space, segs: seq<Segment>, bases: seq<nat>)
    requires |segs| == |bases|
  {
    forall i | 0 <= i < |segs| :: FreshAt(m, segs, bases, i)
  }

  lemma FreshPrefix(m: Space, segs: seq<Segment>, bases: seq<nat>)
    requires |segs| == |bases| > 0 && AllFresh(m, segs, bases)
    ensures AllFresh(m, segs[..|segs| - 1], bases[..|segs| - 1]) && FreshAt(m, segs, bases, |segs| - 1)
  {
    var n := |segs| - 1;
    forall i | 0 <= i < n ensures FreshAt(m, segs[..n], bases[..n], i) {
      assert FreshAt(m, segs, bases, i) && segs[..n][..i] == segs[..i] && bases[..n][..i] == bases[..i];
    }
  }

  lemma EmptyInv(others: set<nat>)
    ensures Inv(Empty(others), [], others)
  {
  }

  /** No segment shares a page with earlier ones that the loader has all forgotten. */
  ghost predicate AllTidy(segs: seq<Segment>) { forall i | 0 <= i < |segs| :: Tidy(segs[..i], segs[i]) }

  lemma TidyPrefix(segs: seq<Segment>, n: nat)
    requires n <= |segs| && forall i | 0 <= i < n :: Tidy(segs[..i], segs[i])
    ensures AllTidy(segs[..n])
  {
    forall i | 0 <= i < n ensures Tidy(segs[..n][..i], segs[..n][i]) { assert segs[..n][..i] == segs[..i]; }
  }

  lemma {:induction false} LoadSafe(segs: seq<Segment>, bases: seq<nat>, others: set<nat>) returns (m: Space)
    requires |segs| == |bases| && AllTidy(segs) && AllFresh(Empty(others), segs, bases)
    ensures m == Load(Empty(others), segs, bases) && Inv(m, segs, others)
  {
    if segs == [] {
      EmptyInv(others);
      m := Empty(others);
    } else {
      var n := |segs| - 1;
      FreshPrefix(Empty(others), segs, bases);
      TidyPrefix(segs, n);
      var before := LoadSafe(segs[..n], bases[..n], others);
      assert segs == segs[..n] + [segs[n]];
      SegmentSafe(before, segs[n], bases[n], segs[..n], others);
      m := LoadSegment(before, segs[n], bases[n]);
    }
  }

  /** What loading promises of the memory. */
  ghost predicate IsImage(m: Space, segs: seq<Segment>, others: set<nat>) {
    && (forall v: nat :: v in m.mapped <==> OnAny(segs, v))
    && (forall v: nat | v in m.mapped :: m.mapped[v] in m.frames && |m.frames[m.mapped[v]]| == PAGE)
    && (forall v, o :: ByteOk(m, segs, v, o))
    && (forall v: nat, w: nat | v in m.mapped && w in m.mapped && v != w :: m.mapped[v] != m.mapped[w])
    && (forall f: nat :: f in m.used <==> f in others || exists v: nat :: v in m.mapped && m.mapped[v] == f)
    && (forall v: nat | v in m.mapped :: m.mapped[v] !in others && v < m.heapPage)
  }

  lemma InvIsImage(m: Space, segs: seq<Segment>, others: set<nat>)
    requires Inv(m, segs, others)
    ensures IsImage(m, segs, others)
  {
    forall v: nat ensures v in m.mapped <==> OnAny(segs, v) { assert PageOk(m, segs, others, v); }
    forall v: nat | v in m.mapped
      ensures m.mapped[v] in m.frames && |m.frames[m.mapped[v]]| == PAGE
    {
      assert PageOk(m, segs, others, v);
    }
    forall v: nat, w: nat | v in m.mapped && w in m.mapped && v != w
      ensures m.mapped[v] != m.mapped[w]
    {
      assert OneFrameEach(m, v, w);
    }
    forall f: nat ensures f in m.used <==> f in others || exists v: nat :: v in m.mapped && m.mapped[v] == f {
      assert FrameOwned(m, others, f);
      if v: nat :| v in m.mapped && m.mapped[v] == f { assert PageOk(m, segs, others, v); }
    }
    forall v: nat | v in m.mapped
      ensures m.mapped[v] !in others && v < m.heapPage
    {
      assert PageOk(m, segs, others, v);
    }
  }

  // What goes wrong otherwise: a page is mapped over, and its first frame is never given back.

  /** Frame `f` is taken, and no page but perhaps `v` is on it. */
  ghost predicate OnlyAt(m: Space, f: nat, v: nat) {
    f in m.used && forall w | w in m.mapped && w != v :: m.mapped[w] != f
  }

  ghost predicate Leaked(m: Space, f: nat) { f in m.used && forall w | w in m.mapped :: m.mapped[w] != f }

  lemma {:induction false} PagesLeak(m: Space, s: Segment, base: nat, n: nat, f: nat, v: nat)
    requires On(s, v) && n <= Pages(s) && !(base <= f < base + Pages(s)) && FindShared(m.loaded, v).None?
             && OnlyAt(m, f, v)
    ensures var m1 := LoadPages(m, s, base, n);
            m1.loaded == m.loaded && OnlyAt(m1, f, v) && (First(s) + n > v ==> Leaked(m1, f))
  {
    if n > 0 {
      PagesLeak(m, s, base, n - 1, f, v);
      PageLeaks(LoadPages(m, s, base, n - 1), s, base, n - 1, f, v);
    }
  }

  lemma PageLeaks(m: Space, s: Segment, base: nat, p: nat, f: nat, v: nat)
    requires f != base + p && FindShared(m.loaded, v).None? && OnlyAt(m, f, v)
    ensures var m1 := LoadPage(m, s, base, p);
            m1.loaded == m.loaded && OnlyAt(m1, f, v) && (First(s) + p == v || Leaked(m, f) ==> Leaked(m1, f))
  {
  }

  lemma {:induction false} PagesStayLeaked(m: Space, s: Segment, base: nat, n: nat, f: nat)
    requires n <= Pages(s) && !(base <= f < base + Pages(s)) && Leaked(m, f)
    ensures Leaked(LoadPages(m, s, base, n), f)
  {
    if n > 0 { PagesStayLeaked(m, s, base, n - 1, f); }
  }

  lemma SegmentLeaks(m: Space, s: Segment, base: nat, segs: seq<Segment>, others: set<nat>) returns (f: nat)
    requires Inv(m, segs, others) && FreshFrames(m, base, Pages(s)) && !Tidy(segs, s)
    ensures Leaked(LoadSegment(m, s, base), f) && f !in others
  {
    var v: nat :| On(s, v) && OnAny(segs, v) && !OnAny(Tracked(segs), v);
    assert PageOk(m, segs, others, v);
    f := m.mapped[v];
    forall w | w in m.mapped && w != v ensures m.mapped[w] != f { assert OneFrameEach(m, v, w); }
    PagesLeak(m.(used := m.used + Frames(base, Pages(s))), s, base, Pages(s), f, v);
  }

  lemma {:induction false} StaysLeaked(segs: seq<Segment>, bases: seq<nat>, others: set<nat>, j: nat, f: nat)
    requires |segs| == |bases| && j <= |segs| && AllFresh(Empty(others), segs, bases)
    requires Leaked(Load(Empty(others), segs[..j], bases[..j]), f)
    ensures Leaked(Load(Empty(others), segs, bases), f)
    decreases |segs|
  {
    if j == |segs| {
      assert segs[..j] == segs && bases[..j] == bases;
    } else {
      var n := |segs| - 1;
      FreshPrefix(Empty(others), segs, bases);
      assert segs[..n][..j] == segs[..j] && bases[..n][..j] == bases[..j];
      StaysLeaked(segs[..n], bases[..n], others, j, f);
      SegmentStaysLeaked(Load(Empty(others), segs[..n], bases[..n]), segs[n], bases[n], f);
    }
  }

  lemma SegmentStaysLeaked(m: Space, s: Segment, base: nat, f: nat)
    requires FreshFrames(m, base, Pages(s)) && Leaked(m, f)
    ensures Leaked(LoadSegment(m, s, base), f)
  {
    PagesStayLeaked(m.(used := m.used + Frames(base, Pages(s))), s, base, Pages(s), f);
  }

  lemma {:induction false} FirstUntidy(segs: seq<Segment>, j: nat) returns (i: nat)
    requires j < |segs| && !Tidy(segs[..j], segs[j])
    ensures i < |segs| && !Tidy(segs[..i], segs[i]) && forall h | 0 <= h < i :: Tidy(segs[..h], segs[h])
  {
    if h: nat :| h < j && !Tidy(segs[..h], segs[h]) { i := FirstUntidy(segs, h); } else { i := j; }
  }

  lemma FreshUpTo(m: Space, segs: seq<Segment>, bases: seq<nat>, n: nat)
    requires |segs| == |bases| && n <= |segs| && AllFresh(m, segs, bases)
    ensures AllFresh(m, segs[..n], bases[..n])
  {
    forall i | 0 <= i < n ensures FreshAt(m, segs[..n], bases[..n], i) {
      assert FreshAt(m, segs, bases, i) && segs[..n][..i] == segs[..i] && bases[..n][..i] == bases[..i];
    }
  }

  lemma LeakAt(segs: seq<Segment>, bases: seq<nat>, others: set<nat>, i: nat, n: nat) returns (f: nat)
    requires |segs| == |bases| && i < |segs| && n == i + 1 && AllFresh(Empty(others), segs, bases)
    requires !Tidy(segs[..i], segs[i]) && forall h | 0 <= h < i :: Tidy(segs[..h], segs[h])
    ensures Leaked(Load(Empty(others), segs[..n], bases[..n]), f) && f !in others
  {
    TidyPrefix(segs, i);
    FreshUpTo(Empty(others), segs, bases, i);
    var before := LoadSafe(segs[..i], bases[..i], others);
    assert FreshAt(Empty(others), segs, bases, i);
    f := SegmentLeaks(before, segs[i], bases[i], segs[..i], others);
    assert segs[..n][..i] == segs[..i] && bases[..n][..i] == bases[..i];
    assert Load(Empty(others), segs[..n], bases[..n]) == LoadSegment(before, segs[i], bases[i]);
  }

  lemma LeakedIsNoImage(m: Space, segs: seq<Segment>, others: set<nat>, f: nat)
    requires Leaked(m, f) && f !in others
    ensures !IsImage(m, segs, others)
  {
  }

  /** A page mapped over leaves its first frame taken, and on no page, to the end of the loading. */
  lemma UntidyLeaks(segs: seq<Segment>, bases: seq<nat>, others: set<nat>) returns (f: nat)
    requires |segs| == |bases| && !AllTidy(segs) && AllFresh(Empty(others), segs, bases)
    ensures Leaked(Load(Empty(others), segs, bases), f) && f !in others
  {
    var j: nat :| j < |segs| && !Tidy(segs[..j], segs[j]);
    var i := FirstUntidy(segs, j);
    f := LeakAt(segs, bases, others, i, i + 1);
    StaysLeaked(segs, bases, others, i + 1, f);
  }

  /**
   * For any number of segments, if and only if none shares a page with earlier ones that the loader has all
   * forgotten: the pages mapped are exactly the segments' pages, each on a frame of its own, every byte of them is
   * what the last segment covering it says (zero if none does), every other frame taken was given back, and the
   * heap starts above them all.
   */
  lemma LoadedMemoryIsIff(segs: seq<Segment>, bases: seq<nat>, others: set<nat>)
    requires |segs| == |bases| && AllFresh(Empty(others), segs, bases)
    ensures IsImage(Load(Empty(others), segs, bases), segs, others) <==> AllTidy(segs)
  {
    if AllTidy(segs) {
      var m := LoadSafe(segs, bases, others);
      InvIsImage(m, segs, others);
    } else {
      var f := UntidyLeaks(segs, bases, others);
      LeakedIsNoImage(Load(Empty(others), segs, bases), segs, others, f);
    }
  }

  /** Up to 17 segments there is nothing the loader could have forgotten in time. */
  lemma FewAreTidy(segs: seq<Segment>)
    requires |segs| <= MAX_LOAD_SEGMENTS + 1
    ensures AllTidy(segs)
  {
  }
}
