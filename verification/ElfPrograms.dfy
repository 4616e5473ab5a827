/** Whole programs: one the loader gets wrong, and the user stack mapped after the segments. */
module ElfPrograms {
  import opened Wrappers
  import opened ElfModel
  import opened ElfProofs

  // Eighteen segments of one page, the last two on the same page, on frames 1 to 18.

  function Small(i: nat): Segment {
    if i < 16 then Segment(i * PAGE, 1, [1]) else Segment(100 * PAGE + 8 * (i - 16), 1, [1])
  }

  function Smalls(n: nat): (segs: seq<Segment>)
    ensures |segs| == n && forall i | 0 <= i < n :: segs[i] == Small(i)
  {
    if n == 0 then [] else Smalls(n - 1) + [Small(n - 1)]
  }

  function UpFromOne(n: nat): (bases: seq<nat>)
    ensures |bases| == n && forall i | 0 <= i < n :: bases[i] == i + 1
  {
    if n == 0 then [] else UpFromOne(n - 1) + [n]
  }

  lemma SmallIsOnePage(i: nat)
    requires i < 18
    ensures Pages(Small(i)) == 1 && First(Small(i)) == if i < 16 then i else 100
  {
  }

  lemma {:induction false} PagesTakeNothing(m: Space, s: Segment, base: nat, n: nat)
    ensures LoadPages(m, s, base, n).used <= m.used
  {
    if n > 0 { PagesTakeNothing(m, s, base, n - 1); }
  }

  lemma {:induction false} UsedUpTo(n: nat)
    requires n <= 18
    ensures forall f | f in Load(Empty({}), Smalls(n), UpFromOne(n)).used :: f <= n
  {
    if n > 0 {
      UsedUpTo(n - 1);
      SmallIsOnePage(n - 1);
      assert Smalls(n)[..n - 1] == Smalls(n - 1) && UpFromOne(n)[..n - 1] == UpFromOne(n - 1);
      var m := Load(Empty({}), Smalls(n - 1), UpFromOne(n - 1));
      PagesTakeNothing(m.(used := m.used + Frames(n, 1)), Small(n - 1), n, 1);
    }
  }

  lemma SmallsPrefix(n: nat, i: nat)
    requires i <= n
    ensures Smalls(n)[..i] == Smalls(i) && UpFromOne(n)[..i] == UpFromOne(i)
  {
  }

  lemma SmallsAreFresh(n: nat)
    requires n <= 18
    ensures AllFresh(Empty({}), Smalls(n), UpFromOne(n))
  {
    forall i | 0 <= i < n ensures FreshAt(Empty({}), Smalls(n), UpFromOne(n), i) {
      SmallsPrefix(n, i);
      UsedUpTo(i);
      SmallIsOnePage(i);
    }
  }

  lemma SmallsAreUntidy(n: nat)
    requires n == 18
    ensures !AllTidy(Smalls(n))
  {
    var segs := Smalls(n);
    SmallIsOnePage(16);
    SmallIsOnePage(17);
    assert On(segs[17], 100) && On(segs[..17][16], 100);
    assert Tracked(segs[..17]) == segs[..16];
    forall i | 0 <= i < 16 ensures !On(segs[..16][i], 100) { SmallIsOnePage(i); }
    assert !Tidy(segs[..17], segs[17]);
  }

  /** They do not load right: one of their frames is on no page, and never given back. */
  lemma EighteenCanFail() returns (segs: seq<Segment>, bases: seq<nat>, f: nat)
    ensures |segs| == |bases| == 18 && AllFresh(Empty({}), segs, bases)
    ensures Leaked(Load(Empty({}), segs, bases), f) && !IsImage(Load(Empty({}), segs, bases), segs, {})
  {
    var n := 18;
    segs, bases := Smalls(n), UpFromOne(n);
    SmallsAreFresh(n);
    SmallsAreUntidy(n);
    f := UntidyLeaks(segs, bases, {});
    LeakedIsNoImage(Load(Empty({}), segs, bases), segs, {}, f);
  }

  // The user stack, mapped last.

  /** A page of the program: a segment's holds what the reference says, a stack's is zeroed, on its own frame. */
  ghost predicate ProgramPage(m: Space, segs: seq<Segment>, base: nat, v: nat) {
    && (v in m.mapped <==> OnAny(segs, v) || OnStack(v))
    && (v in m.mapped && OnStack(v) ==>
          m.mapped[v] == base + (v - STACK_FIRST) && PageAt(m, m.mapped[v]) == ZeroPage())
  }

  ghost predicate ProgramByte(m: Space, segs: seq<Segment>, v: nat, o: nat) {
    v in m.mapped && OnAny(segs, v) && o < PAGE ==> PageAt(m, m.mapped[v])[o] == ByteAt(segs, v * PAGE + o)
  }

  ghost predicate FrameIsSomebodys(m: Space, others: set<nat>, f: nat) {
    f in m.used <==> f in others || exists v: nat :: v in m.mapped && m.mapped[v] == f
  }

  /** What the whole program's memory should be: the image, and a zeroed stack on frames `base` on. */
  ghost predicate IsProgram(m: Space, segs: seq<Segment>, base: nat, others: set<nat>) {
    && (forall v: nat :: ProgramPage(m, segs, base, v))
    && (forall v: nat, o: nat :: ProgramByte(m, segs, v, o))
    && (forall v: nat, w: nat :: OneFrameEach(m, v, w))
    && (forall f: nat :: FrameIsSomebodys(m, others, f))
  }

  /** How page `v` looks when the first `n` pages of the stack are mapped. */
  ghost predicate StackAt(m: Space, m': Space, base: nat, n: nat, v: nat) {
    if STACK_FIRST <= v < STACK_FIRST + n then
      v in m'.mapped && m'.mapped[v] == base + (v - STACK_FIRST) && PageAt(m', m'.mapped[v]) == ZeroPage()
    else
      && (v in m'.mapped <==> v in m.mapped)
      && (v in m.mapped ==> m'.mapped[v] == m.mapped[v] && PageAt(m', m.mapped[v]) == PageAt(m, m.mapped[v]))
  }

  ghost function WithFrames(m: Space, base: nat): Space { m.(used := m.used + Frames(base, STACK_PAGES)) }

  lemma {:induction false} StackPagesAre(m: Space, base: nat, n: nat, segs: seq<Segment>, others: set<nat>, v: nat)
    requires Inv(m, segs, others) && FreshFrames(m, base, STACK_PAGES) && n <= STACK_PAGES
    ensures StackAt(m, MapStackPages(WithFrames(m, base), base, n), base, n, v)
    ensures MapStackPages(WithFrames(m, base), base, n).used == WithFrames(m, base).used
  {
    if n > 0 {
      StackPagesAre(m, base, n - 1, segs, others, v);
      assert PageOk(m, segs, others, v);
    }
  }

  lemma StackLeaks(m: Space, base: nat, segs: seq<Segment>, others: set<nat>, v: nat)
    requires Inv(m, segs, others) && FreshFrames(m, base, STACK_PAGES) && OnAny(segs, v) && OnStack(v)
    ensures v in m.mapped && m.mapped[v] !in others && Leaked(MapStack(m, base), m.mapped[v])
  {
    assert PageOk(m, segs, others, v);
    var f, m' := m.mapped[v], MapStack(m, base);
    StackPagesAre(m, base, STACK_PAGES, segs, others, v);
    forall w: nat | w in m'.mapped ensures m'.mapped[w] != f {
      StackPagesAre(m, base, STACK_PAGES, segs, others, w);
      assert OneFrameEach(m, v, w);
    }
  }

  lemma {:induction false} StackKeepsLeaks(m: Space, base: nat, n: nat, f: nat)
    requires Leaked(m, f) && n <= STACK_PAGES && !(base <= f < base + STACK_PAGES)
    ensures Leaked(MapStackPages(m, base, n), f)
  {
    if n > 0 { StackKeepsLeaks(m, base, n - 1, f); }
  }

  lemma LeakedIsNoProgram(m: Space, segs: seq<Segment>, base: nat, others: set<nat>, f: nat)
    requires Leaked(m, f) && f !in others
    ensures !IsProgram(m, segs, base, others)
  {
    assert !FrameIsSomebodys(m, others, f);
  }

  lemma StackPageOk(m: Space, base: nat, segs: seq<Segment>, others: set<nat>, v: nat)
    requires Inv(m, segs, others) && FreshFrames(m, base, STACK_PAGES)
    ensures PageOk(m, segs, others, v) && StackAt(m, MapStack(m, base), base, STACK_PAGES, v)
  {
    StackPagesAre(m, base, STACK_PAGES, segs, others, v);
  }

  lemma StackFrame(m: Space, base: nat, segs: seq<Segment>, others: set<nat>, f: nat)
    requires Inv(m, segs, others) && FreshFrames(m, base, STACK_PAGES) && forall v: nat | OnStack(v) :: !OnAny(segs, v)
    ensures FrameIsSomebodys(MapStack(m, base), others, f)
  {
    var m' := MapStack(m, base);
    StackPagesAre(m, base, STACK_PAGES, segs, others, 0);
    if base <= f < base + STACK_PAGES {
      StackPageOk(m, base, segs, others, STACK_FIRST + (f - base));
      assert m'.mapped[STACK_FIRST + (f - base)] == f;
    } else {
      assert FrameOwned(m, others, f);
      if v: nat :| v in m.mapped && m.mapped[v] == f {
        StackPageOk(m, base, segs, others, v);
        assert m'.mapped[v] == f;
      }
      if v: nat :| v in m'.mapped && m'.mapped[v] == f { StackPageOk(m, base, segs, others, v); }
    }
  }

  lemma StackIsApart(m: Space, base: nat, segs: seq<Segment>, others: set<nat>)
    requires Inv(m, segs, others) && FreshFrames(m, base, STACK_PAGES) && forall v: nat | OnStack(v) :: !OnAny(segs, v)
    ensures IsProgram(MapStack(m, base), segs, base, others)
  {
    var m' := MapStack(m, base);
    forall v: nat ensures ProgramPage(m', segs, base, v) { StackPageOk(m, base, segs, others, v); }
    forall v: nat, o: nat ensures ProgramByte(m', segs, v, o) {
      StackPageOk(m, base, segs, others, v);
      assert ByteOk(m, segs, v, o);
    }
    forall v: nat, w: nat ensures OneFrameEach(m', v, w) {
      StackPageOk(m, base, segs, others, v);
      StackPageOk(m, base, segs, others, w);
      assert OneFrameEach(m, v, w);
    }
    forall f: nat ensures FrameIsSomebodys(m', others, f) { StackFrame(m, base, segs, others, f); }
  }

  /**
   * The whole program's memory is right -- the image, a zeroed stack, a frame each, nothing else taken -- if and only
   * if the image is and no segment is on a page of the stack.
   */
  lemma ProgramMemoryIsIff(segs: seq<Segment>, bases: seq<nat>, base: nat, others: set<nat>)
    requires |segs| == |bases| && AllFresh(Empty(others), segs, bases)
    requires FreshFrames(Load(Empty(others), segs, bases), base, STACK_PAGES)
    ensures IsProgram(MapStack(Load(Empty(others), segs, bases), base), segs, base, others)
       <==> AllTidy(segs) && forall v: nat | OnStack(v) :: !OnAny(segs, v)
  {
    if !AllTidy(segs) {
      var f := UntidyLeaks(segs, bases, others);
      var m := Load(Empty(others), segs, bases);
      StackKeepsLeaks(m.(used := m.used + Frames(base, STACK_PAGES)), base, STACK_PAGES, f);
      LeakedIsNoProgram(MapStack(m, base), segs, base, others, f);
    } else {
      var m := LoadSafe(segs, bases, others);
      if v: nat :| OnStack(v) && OnAny(segs, v) {
        StackLeaks(m, base, segs, others, v);
        LeakedIsNoProgram(MapStack(m, base), segs, base, others, m.mapped[v]);
      } else {
        StackIsApart(m, base, segs, others);
      }
    }
  }

  /** A program whose one page is the first of the stack: the stack is mapped over it. */
  lemma StackCanCoverASegment() returns (segs: seq<Segment>, bases: seq<nat>, base: nat)
    ensures |segs| == |bases| == 1 && AllFresh(Empty({}), segs, bases)
    ensures FreshFrames(Load(Empty({}), segs, bases), base, STACK_PAGES)
    ensures IsImage(Load(Empty({}), segs, bases), segs, {})
    ensures !IsProgram(MapStack(Load(Empty({}), segs, bases), base), segs, base, {})
  {
    var s := Segment(STACK_FIRST * PAGE, 1, [1]);
    segs, bases, base := [s], [1], 2;
    assert First(s) == STACK_FIRST && Pages(s) == 1;
    assert segs[..0] == [] && bases[..0] == [];
    assert FreshAt(Empty({}), segs, bases, 0);
    PagesTakeNothing(Empty({}).(used := {} + Frames(1, 1)), s, 1, 1);
    FewAreTidy(segs);
    LoadedMemoryIsIff(segs, bases, {});
    assert On(segs[0], STACK_FIRST) && OnStack(STACK_FIRST) && OnAny(segs, STACK_FIRST);
    ProgramMemoryIsIff(segs, bases, base, {});
  }
}
