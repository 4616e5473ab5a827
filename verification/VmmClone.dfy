/** Cloning and freeing: the same pages on other frames, and every frame given back once. */
module VmmClone {
  import opened Wrappers
  import opened VmmModel
  import opened VmmProofs

  // Freeing calls the page allocator once for every frame under the root.

  lemma DisjointBags(a: set<nat>, b: set<nat>)
    requires a !! b
    ensures multiset(a + b) == multiset(a) + multiset(b)
  {
  }

  lemma {:induction false} EntryApart(m: Mem, t: nat, level: nat, n: nat)
    requires level > 0 && Tree(m, t, level) && n < Span(m, level)
    ensures UnderEntries(m, t, level, n) !! UnderEntry(m, t, level, n)
  {
    forall f | f in UnderEntries(m, t, level, n) ensures f !in UnderEntry(m, t, level, n) {
      var i := UnderSome(m, t, level, n, f);
      assert UnderEntry(m, t, level, i) !! UnderEntry(m, t, level, n);
    }
  }

  lemma {:induction false} FreesOnce(m: Mem, t: nat, level: nat)
    requires Tree(m, t, level)
    ensures multiset(FreeCalls(m, t, level)) == multiset(Under(m, t, level))
    decreases level, ENTRIES + 1
  {
    if level > 0 {
      FreesEntriesOnce(m, t, level, Span(m, level));
      DisjointBags(UnderEntries(m, t, level, Span(m, level)), {t});
    }
  }

  lemma AddUp(a: seq<nat>, b: seq<nat>, x: set<nat>, y: set<nat>)
    requires multiset(a) == multiset(x) && multiset(b) == multiset(y) && x !! y
    ensures multiset(a + b) == multiset(x + y)
  {
    DisjointBags(x, y);
  }

  lemma {:induction false} FreesEntriesOnce(m: Mem, t: nat, level: nat, n: nat)
    requires level > 0 && Tree(m, t, level) && n <= Span(m, level)
    ensures multiset(FreeEntryCalls(m, t, level, n)) == multiset(UnderEntries(m, t, level, n))
    decreases level, n
  {
    if n > 0 {
      FreesEntriesOnce(m, t, level, n - 1);
      EntryApart(m, t, level, n - 1);
      var e := Entry(m, t, n - 1);
      if e.Present? { FreesOnce(m, e.frame, level - 1); }
      AddUp(FreeEntryCalls(m, t, level, n - 1), if e.Absent? then [] else FreeCalls(m, e.frame, level - 1),
            UnderEntries(m, t, level, n - 1), UnderEntry(m, t, level, n - 1));
    }
  }

  /** Freeing an address space frees each of its frames exactly once, none of them free already, and no other. */
  lemma FreesExactly(m: Mem, root: nat)
    requires Tree(m, root, LEVELS) && m.top == USER_ENTRIES
    ensures multiset(FreeCalls(m, root, LEVELS)) == multiset(Under(m, root, LEVELS))
    ensures Under(m, root, LEVELS) !! m.free && FreeUserPages(m, root).free == m.free + Under(m, root, LEVELS)
  {
    FreesOnce(m, root, LEVELS);
    TreeNotFree(m, root, LEVELS);
    forall f ensures f in FreeCalls(m, root, LEVELS) <==> f in Under(m, root, LEVELS) {
      assert f in multiset(FreeCalls(m, root, LEVELS)) <==> f in multiset(Under(m, root, LEVELS));
    }
  }

  // The leaves the walk visits.

  lemma {:induction false} LeafIsMapped(m: Mem, t: nat, level: nat, n: nat, leaf: Leaf)
    requires level > 0 && n <= Span(m, level) && leaf in EntryLeaves(m, t, level, n)
    ensures PathOk(m, leaf.path, level) && leaf.path[0] < n && leaf.pte.Present? && Lookup(m, t, leaf.path) == leaf.pte
    decreases level, n
  {
    if leaf in EntryLeaves(m, t, level, n - 1) {
      LeafIsMapped(m, t, level, n - 1, leaf);
    } else {
      LeafOfEntry(m, t, level, n - 1, leaf);
    }
  }

  lemma {:induction false} LeafOfEntry(m: Mem, t: nat, level: nat, i: nat, leaf: Leaf)
    requires level > 0 && i < Span(m, level) && leaf in LeavesOf(m, t, level, i)
    ensures PathOk(m, leaf.path, level) && leaf.path[0] == i && leaf.pte.Present? && Lookup(m, t, leaf.path) == leaf.pte
    decreases level, 0
  {
    var e := Entry(m, t, i);
    if level > 1 {
      var below := Leaves(m, e.frame, level - 1);
      var k :| 0 <= k < |below| && leaf == Leaf([i] + below[k].path, below[k].pte);
      LeafIsMapped(m, e.frame, level - 1, Span(m, level - 1), below[k]);
      assert leaf.path[1..] == below[k].path;
    }
  }

  lemma {:induction false} MappedIsLeaf(m: Mem, t: nat, level: nat, n: nat, path: Path)
    requires level > 0 && PathOk(m, path, level) && path[0] < n <= Span(m, level) && Lookup(m, t, path).Present?
    ensures Leaf(path, Lookup(m, t, path)) in EntryLeaves(m, t, level, n)
    decreases level, n
  {
    if path[0] < n - 1 {
      MappedIsLeaf(m, t, level, n - 1, path);
    } else if level == 1 {
      assert path == [path[0]];
    } else {
      var e := Entry(m, t, path[0]);
      assert PathOk(m, path[1..], level - 1);
      MappedIsLeaf(m, e.frame, level - 1, Span(m, level - 1), path[1..]);
      var below := Leaves(m, e.frame, level - 1);
      var k :| 0 <= k < |below| && below[k] == Leaf(path[1..], Lookup(m, e.frame, path[1..]));
      assert path == [path[0]] + path[1..];
      assert Prefixed(path[0], below)[k] == Leaf(path, Lookup(m, t, path));
    }
  }

  ghost predicate PathsDiffer(leaves: seq<Leaf>) {
    forall i, j | 0 <= i < j < |leaves| :: leaves[i].path != leaves[j].path
  }

  lemma {:induction false} LeavesDiffer(m: Mem, t: nat, level: nat, n: nat)
    requires level > 0 && n <= Span(m, level)
    ensures PathsDiffer(EntryLeaves(m, t, level, n))
    decreases level, n
  {
    if n > 0 {
      LeavesDiffer(m, t, level, n - 1);
      LeavesOfDiffer(m, t, level, n - 1);
      var a, b := EntryLeaves(m, t, level, n - 1), LeavesOf(m, t, level, n - 1);
      forall i, j | 0 <= i < |a| && 0 <= j < |b| ensures a[i].path != b[j].path {
        LeafIsMapped(m, t, level, n - 1, a[i]);
        LeafOfEntry(m, t, level, n - 1, b[j]);
      }
    }
  }

  lemma {:induction false} LeavesOfDiffer(m: Mem, t: nat, level: nat, i: nat)
    requires level > 0 && i < Span(m, level)
    ensures PathsDiffer(LeavesOf(m, t, level, i))
    decreases level, 0
  {
    var e := Entry(m, t, i);
    if e.Present? && level > 1 {
      LeavesDiffer(m, e.frame, level - 1, Span(m, level - 1));
      var below := Leaves(m, e.frame, level - 1);
      var all := Prefixed(i, below);
      forall j, k | 0 <= j < k < |all| ensures all[j].path != all[k].path {
        assert all[j].path[1..] == below[j].path && all[k].path[1..] == below[k].path;
      }
    }
  }

  // Cloning, leaf by leaf.

  lemma {:induction false} LeafUnder(m: Mem, t: nat, level: nat, path: Path)
    requires level > 0 && PathOk(m, path, level) && Lookup(m, t, path).Present?
    ensures Lookup(m, t, path).frame in Under(m, t, level)
    decreases level
  {
    var e := Entry(m, t, path[0]);
    EntryIsUnder(m, t, level, Span(m, level), path[0]);
    if level > 1 {
      assert PathOk(m, path[1..], level - 1);
      LeafUnder(m, e.frame, level - 1, path[1..]);
    }
  }

  /** `p'` is a page like `p`: the same low flags, the same bytes. */
  ghost predicate IsCopy(m0: Mem, m: Mem, p: Pte, p': Pte) {
    p.Present? && p'.Present? && p'.low == p.low && p'.high == 0 && PageData(m, p'.frame) == PageData(m0, p.frame)
  }

  ghost predicate Copied(m0: Mem, m: Mem, dst: nat, leaf: Leaf) {
    PathOk(m, leaf.path, LEVELS) && IsCopy(m0, m, leaf.pte, Lookup(m, dst, leaf.path))
  }

  ghost predicate NotCopied(m: Mem, dst: nat, leaves: seq<Leaf>, k: nat, q: Path)
    requires k <= |leaves|
  {
    PathOk(m, q, LEVELS) && (forall j | 0 <= j < k :: leaves[j].path != q) ==> Lookup(m, dst, q).Absent?
  }

  /** Outside the new space and the frames that were free, nothing changed. */
  ghost predicate RestKept(m0: Mem, m: Mem, dst: nat) {
    && m.free <= m0.free && m.top == m0.top
    && (forall f | f != dst && f !in m0.free ::
          (f in m0.tables <==> f in m.tables) && (f in m0.tables ==> m.tables[f] == m0.tables[f]))
    && forall f | f !in m0.free :: PageData(m, f) == PageData(m0, f)
  }

  /** The first `k` leaves are cloned. */
  ghost predicate Cloned(m0: Mem, m: Mem, dst: nat, leaves: seq<Leaf>, k: nat) {
    && k <= |leaves| && Tree(m, dst, LEVELS) && RestKept(m0, m, dst)
    && Under(m, dst, LEVELS) == {dst} + (m0.free - m.free)
    && (forall j | 0 <= j < k :: Copied(m0, m, dst, leaves[j]))
    && (forall q :: NotCopied(m, dst, leaves, k, q))
    && forall i: nat | Span(m0, LEVELS) <= i :: Entry(m, dst, i) == Entry(m0, dst, i)
  }

  /** The leaves of a source space that shares nothing with the new one. */
  ghost predicate Source(m0: Mem, src: nat, leaves: seq<Leaf>) {
    Tree(m0, src, LEVELS) && leaves == Leaves(m0, src, LEVELS)
  }

  lemma SourceLeaf(m0: Mem, src: nat, leaves: seq<Leaf>, k: nat)
    requires Source(m0, src, leaves) && k < |leaves|
    ensures PathOk(m0, leaves[k].path, LEVELS) && leaves[k].pte.Present? && leaves[k].pte.frame !in m0.free
    ensures forall j | 0 <= j < k :: leaves[j].path != leaves[k].path
  {
    LeafIsMapped(m0, src, LEVELS, Span(m0, LEVELS), leaves[k]);
    LeafUnder(m0, src, LEVELS, leaves[k].path);
    TreeNotFree(m0, src, LEVELS);
    LeavesDiffer(m0, src, LEVELS, Span(m0, LEVELS));
  }

  /** Taking a frame for the copy changes nothing the tables say. */
  lemma TakeFrame(m: Mem, dst: nat, f: nat, bytes: seq<Byte>) returns (m1: Mem)
    requires Tree(m, dst, LEVELS) && f in m.free
    ensures m1 == m.(free := m.free - {f}, data := m.data[f := bytes])
    ensures Tree(m1, dst, LEVELS) && Under(m1, dst, LEVELS) == Under(m, dst, LEVELS) && f !in Under(m1, dst, LEVELS)
    ensures |m1.free| == |m.free| - 1 && forall q | PathOk(m, q, LEVELS) :: Lookup(m1, dst, q) == Lookup(m, dst, q)
    ensures forall q | PathOk(m, q, LEVELS) :: PathOk(m1, q, LEVELS) && Missing(m1, dst, q) == Missing(m, dst, q)
  {
    m1 := m.(free := m.free - {f}, data := m.data[f := bytes]);
    TreeNotFree(m, dst, LEVELS);
    UnderKept(m, m1, dst, LEVELS);
    TreeKept(m, m1, dst, LEVELS);
    forall q | PathOk(m, q, LEVELS)
      ensures Lookup(m1, dst, q) == Lookup(m, dst, q)
    {
      LookupKept(m, m1, dst, LEVELS, q);
    }
    forall q | PathOk(m, q, LEVELS) ensures Missing(m1, dst, q) == Missing(m, dst, q) { MissingSame(m, m1, dst, q); }
  }

  lemma {:induction false} MissingSame(m: Mem, m1: Mem, t: nat, path: Path)
    requires |path| > 0 && m1.tables == m.tables
    ensures Missing(m1, t, path) == Missing(m, t, path)
    decreases |path|
  {
    var e := Entry(m, t, path[0]);
    if |path| > 1 && e.Present? { MissingSame(m, m1, e.frame, path[1..]); }
  }

  /** What cloning one leaf does: frame `f` holds the copy, and the new page is the only one that appears. */
  ghost predicate Stepped(m: Mem, m': Mem, dst: nat, leaf: Leaf, f: nat) {
    && leaf.pte.Present? && PathOk(m, leaf.path, LEVELS) && f in m.free
    && Tree(m', dst, LEVELS) && Touches(WithCopy(m, leaf.pte.frame, f), m', Under(m, dst, LEVELS))
    && Under(m', dst, LEVELS) == Under(m, dst, LEVELS) + (m.free - {f} - m'.free) + {f}
    && (forall q :: StepAt(m, m', dst, leaf, f, q))
    && forall i: nat | Span(m, LEVELS) <= i :: Entry(m', dst, i) == Entry(m, dst, i)
  }

  ghost predicate StepAt(m: Mem, m': Mem, dst: nat, leaf: Leaf, f: nat, q: Path) {
    PathOk(m, q, LEVELS) && leaf.pte.Present? ==>
      Lookup(m', dst, q) == if q == leaf.path then Present(f, leaf.pte.low, 0) else Lookup(m, dst, q)
  }

  /** `m'` is what cloning the leaf may leave, on whichever free frames the page allocator returns. */
  ghost predicate CloneGives(m: Mem, dst: nat, leaf: Leaf, m': Mem) {
    leaf.pte.Present? && |leaf.path| == LEVELS && exists f :: ClonesOnto(m, dst, leaf, f, m')
  }

  lemma CloneLeafIs(m: Mem, dst: nat, leaf: Leaf, m': Mem) returns (f: nat)
    requires Tree(m, dst, LEVELS) && PathOk(m, leaf.path, LEVELS) && Lookup(m, dst, leaf.path).Absent?
             && CloneGives(m, dst, leaf, m')
    ensures Stepped(m, m', dst, leaf, f)
  {
    f :| ClonesOnto(m, dst, leaf, f, m');
    var m1 := TakeFrame(m, dst, f, PageData(m, leaf.pte.frame));
    var e := Present(f, leaf.pte.low, 0);
    MapSafe(m1, dst, LEVELS, leaf.path, e, m');
    forall q ensures StepAt(m, m', dst, leaf, f, q) {
      if PathOk(m, q, LEVELS) { MapTranslates(m1, dst, LEVELS, leaf.path, e, q, m'); }
    }
    forall i: nat | Span(m, LEVELS) <= i ensures Entry(m', dst, i) == Entry(m, dst, i) {
      MapKeepsRest(m1, dst, LEVELS, leaf.path, e, m', i);
    }
  }

  /** A page can be cloned if and only if there is a free frame for it and for each table missing on the way to it. */
  lemma CloneStepIff(m: Mem, dst: nat, leaf: Leaf)
    requires Tree(m, dst, LEVELS) && leaf.pte.Present? && PathOk(m, leaf.path, LEVELS)
    ensures (exists m' :: CloneGives(m, dst, leaf, m')) <==> 1 + Missing(m, dst, leaf.path) <= |m.free|
    ensures forall m' | CloneGives(m, dst, leaf, m') :: |m'.free| == |m.free| - 1 - Missing(m, dst, leaf.path)
  {
    forall m' | CloneGives(m, dst, leaf, m')
      ensures 1 + Missing(m, dst, leaf.path) <= |m.free| && |m'.free| == |m.free| - 1 - Missing(m, dst, leaf.path)
    {
      var f :| ClonesOnto(m, dst, leaf, f, m');
      var m1 := TakeFrame(m, dst, f, PageData(m, leaf.pte.frame));
      MapTakes(m1, dst, LEVELS, leaf.path, Present(f, leaf.pte.low, 0), m');
    }
    if 1 + Missing(m, dst, leaf.path) <= |m.free| {
      var f :| f in m.free;
      var m1 := TakeFrame(m, dst, f, PageData(m, leaf.pte.frame));
      var m' := CanMap(m1, dst, LEVELS, leaf.path, Present(f, leaf.pte.low, 0));
      assert ClonesOnto(m, dst, leaf, f, m');
      assert CloneGives(m, dst, leaf, m');
    }
  }

  lemma SetsAddUp(dst: nat, free0: set<nat>, free: set<nat>, f: nat, free': set<nat>)
    requires free <= free0 && f in free && free' <= free - {f}
    ensures {dst} + (free0 - free) + (free - {f} - free') + {f} == {dst} + (free0 - free')
  {
  }

  lemma StepRest(m0: Mem, m: Mem, m': Mem, dst: nat, page: nat, f: nat, under: set<nat>)
    requires f in m.free && Touches(WithCopy(m, page, f), m', under) && RestKept(m0, m, dst)
             && under == {dst} + (m0.free - m.free)
    ensures RestKept(m0, m', dst)
  {
  }

  lemma StepCopies(m0: Mem, m: Mem, m': Mem, dst: nat, leaf: Leaf, f: nat, done: Leaf)
    requires Tree(m, dst, LEVELS) && Stepped(m, m', dst, leaf, f) && Copied(m0, m, dst, done) && done.path != leaf.path
    ensures Copied(m0, m', dst, done)
  {
    LeafUnder(m, dst, LEVELS, done.path);
    TreeNotFree(m, dst, LEVELS);
    assert StepAt(m, m', dst, leaf, f, done.path);
  }

  lemma NewCopy(m0: Mem, m: Mem, m': Mem, dst: nat, leaf: Leaf, f: nat)
    requires Stepped(m, m', dst, leaf, f) && RestKept(m0, m, dst) && leaf.pte.frame !in m0.free
    ensures Copied(m0, m', dst, leaf)
  {
    assert StepAt(m, m', dst, leaf, f, leaf.path);
  }

  lemma StillNotCopied(m: Mem, m': Mem, dst: nat, leaves: seq<Leaf>, k: nat, f: nat, n: nat, q: Path)
    requires k < |leaves| && n == k + 1 && Stepped(m, m', dst, leaves[k], f) && NotCopied(m, dst, leaves, k, q)
    ensures NotCopied(m', dst, leaves, n, q)
  {
    assert StepAt(m, m', dst, leaves[k], f, q);
  }

  lemma StepCopiesAll(m0: Mem, m: Mem, m': Mem, dst: nat, leaves: seq<Leaf>, k: nat, f: nat)
    requires k < |leaves| && Tree(m, dst, LEVELS) && RestKept(m0, m, dst) && Stepped(m, m', dst, leaves[k], f)
    requires forall j | 0 <= j < k :: Copied(m0, m, dst, leaves[j]) && leaves[j].path != leaves[k].path
    requires leaves[k].pte.frame !in m0.free
    ensures forall j | 0 <= j <= k :: Copied(m0, m', dst, leaves[j])
  {
    NewCopy(m0, m, m', dst, leaves[k], f);
    forall j | 0 <= j < k
      ensures Copied(m0, m', dst, leaves[j])
    {
      StepCopies(m0, m, m', dst, leaves[k], f, leaves[j]);
    }
  }

  lemma CloneStep(m0: Mem, m: Mem, src: nat, dst: nat, leaves: seq<Leaf>, k: nat, m': Mem)
    requires Source(m0, src, leaves) && Cloned(m0, m, dst, leaves, k) && k < |leaves|
             && CloneGives(m, dst, leaves[k], m')
    ensures Cloned(m0, m', dst, leaves, k + 1)
  {
    SourceLeaf(m0, src, leaves, k);
    var leaf, n := leaves[k], k + 1;
    assert NotCopied(m, dst, leaves, k, leaf.path);
    var f := CloneLeafIs(m, dst, leaf, m');
    StepRest(m0, m, m', dst, leaf.pte.frame, f, Under(m, dst, LEVELS));
    SetsAddUp(dst, m0.free, m.free, f, m'.free);
    StepCopiesAll(m0, m, m', dst, leaves, k, f);
    forall q ensures NotCopied(m', dst, leaves, n, q) { StillNotCopied(m, m', dst, leaves, k, f, n, q); }
  }

  // The whole clone.

  /** The memories a clone goes through, page by page, as far as it gets. */
  ghost predicate Clones(m0: Mem, dst: nat, leaves: seq<Leaf>, ms: seq<Mem>) {
    && 0 < |ms| <= |leaves| + 1 && ms[0] == m0
    && forall k | 0 <= k < |ms| - 1 :: CloneAt(dst, leaves, ms, k)
  }

  ghost predicate CloneAt(dst: nat, leaves: seq<Leaf>, ms: seq<Mem>, k: nat)
    requires k + 1 < |ms| <= |leaves| + 1
  {
    CloneGives(ms[k], dst, leaves[k], ms[k + 1])
  }

  lemma {:induction false} EmptyHalf(m: Mem, t: nat, n: nat)
    requires t in m.tables && forall i | 0 <= i < n :: Entry(m, t, i).Absent?
    ensures UnderEntries(m, t, LEVELS, n) == {}
  {
    if n > 0 { EmptyHalf(m, t, n - 1); }
  }

  /** A fresh top-level table whose user half is empty. */
  ghost predicate FreshSpace(m: Mem, m0: Mem, dst: nat) {
    && dst in m.free && m0.free == m.free - {dst} && m0.top == USER_ENTRIES
    && Tree(m0, dst, LEVELS) && Under(m0, dst, LEVELS) == {dst}
       && forall i | 0 <= i < Span(m0, LEVELS) :: Entry(m0, dst, i).Absent?
  }

  lemma NewSpaceIs(m: Mem, kernelHalf: seq<Pte>, m0: Mem, dst: nat)
    requires dst in m.free && m.top == USER_ENTRIES && |kernelHalf| == USER_ENTRIES
             && m0 == NewSpace(m, kernelHalf, dst)
    ensures FreshSpace(m, m0, dst)
  {
    EmptyHalf(m0, dst, Span(m0, LEVELS));
  }

  lemma StartCloned(m0: Mem, dst: nat, leaves: seq<Leaf>)
    requires Tree(m0, dst, LEVELS) && Under(m0, dst, LEVELS) == {dst}
             && forall i | 0 <= i < Span(m0, LEVELS) :: Entry(m0, dst, i).Absent?
    ensures Reached(m0, m0, dst, leaves, 0)
  {
    forall q ensures NotCopied(m0, dst, leaves, 0, q) {
      if PathOk(m0, q, LEVELS) { assert q[0] < Span(m0, LEVELS); }
    }
  }

  /**
   * `m` is the state after `k` leaves are cloned. Over a range of one value, so that it is not unfolded at every use.
   */
  ghost predicate Reached(m0: Mem, m: Mem, dst: nat, leaves: seq<Leaf>, k: nat) {
    forall n: nat | k <= n <= k :: Cloned(m0, m, dst, leaves, n)
  }

  lemma ReachedNext(m0: Mem, src: nat, dst: nat, leaves: seq<Leaf>, ms: seq<Mem>, k: nat)
    requires Source(m0, src, leaves) && k + 1 < |ms| <= |leaves| + 1 && CloneAt(dst, leaves, ms, k)
             && Reached(m0, ms[k], dst, leaves, k)
    ensures Reached(m0, ms[k + 1], dst, leaves, k + 1)
  {
    assert Cloned(m0, ms[k], dst, leaves, k);
    CloneStep(m0, ms[k], src, dst, leaves, k, ms[k + 1]);
  }

  lemma {:induction false} ClonedAll(m0: Mem, src: nat, dst: nat, leaves: seq<Leaf>, ms: seq<Mem>, k: nat)
    requires Source(m0, src, leaves) && Reached(m0, m0, dst, leaves, 0) && Clones(m0, dst, leaves, ms) && k < |ms|
    ensures Reached(m0, ms[k], dst, leaves, k)
  {
    if k > 0 {
      ClonedAll(m0, src, dst, leaves, ms, k - 1);
      ReachedNext(m0, src, dst, leaves, ms, k - 1);
    }
  }

  /** The source tree is still there after the new top-level table is made. */
  lemma SourceKept(m: Mem, src: nat, kernelHalf: seq<Pte>, m0: Mem, dst: nat)
    requires dst in m.free && m.top == USER_ENTRIES && |kernelHalf| == USER_ENTRIES
             && m0 == NewSpace(m, kernelHalf, dst)
    requires Tree(m, src, LEVELS)
    ensures Tree(m0, src, LEVELS) && Under(m0, src, LEVELS) == Under(m, src, LEVELS)
  {
    TreeNotFree(m, src, LEVELS);
    UnderKept(m, m0, src, LEVELS);
    TreeKept(m, m0, src, LEVELS);
  }

  lemma ClonedFrom(m: Mem, src: nat, kernelHalf: seq<Pte>, m0: Mem, dst: nat, ms: seq<Mem>)
    requires dst in m.free && m.top == USER_ENTRIES && |kernelHalf| == USER_ENTRIES
             && m0 == NewSpace(m, kernelHalf, dst)
    requires Tree(m, src, LEVELS)
    requires Clones(m0, dst, Leaves(m0, src, LEVELS), ms)
    ensures FreshSpace(m, m0, dst) && Source(m0, src, Leaves(m0, src, LEVELS))
    ensures Reached(m0, ms[|ms| - 1], dst, Leaves(m0, src, LEVELS), |ms| - 1)
  {
    NewSpaceIs(m, kernelHalf, m0, dst);
    SourceKept(m, src, kernelHalf, m0, dst);
    var leaves := Leaves(m0, src, LEVELS);
    StartCloned(m0, dst, leaves);
    ClonedAll(m0, src, dst, leaves, ms, |ms| - 1);
  }

  /** How a page of the clone relates to the source's. */
  ghost predicate SamePage(m0: Mem, src: nat, m: Mem, dst: nat, q: Path) {
    PathOk(m, q, LEVELS) ==>
      if Lookup(m0, src, q).Absent? then Lookup(m, dst, q).Absent?
      else IsCopy(m0, m, Lookup(m0, src, q), Lookup(m, dst, q))
  }

  lemma CloneIsSame(m0: Mem, src: nat, m: Mem, dst: nat, leaves: seq<Leaf>, q: Path)
    requires Source(m0, src, leaves) && Cloned(m0, m, dst, leaves, |leaves|)
    ensures SamePage(m0, src, m, dst, q)
  {
    if PathOk(m, q, LEVELS) {
      var p := Lookup(m0, src, q);
      if p.Present? {
        MappedIsLeaf(m0, src, LEVELS, Span(m0, LEVELS), q);
        var j :| 0 <= j < |leaves| && leaves[j] == Leaf(q, p);
        assert Copied(m0, m, dst, leaves[j]);
      } else {
        forall j | 0 <= j < |leaves|
          ensures leaves[j].path != q
        {
          LeafIsMapped(m0, src, LEVELS, Span(m0, LEVELS), leaves[j]);
        }
        assert NotCopied(m, dst, leaves, |leaves|, q);
      }
    }
  }

  /**
   * A clone translates exactly the pages its source does, with the same low flags and bytes, on frames disjoint
   * from everything that was not free; the source and all other frames are untouched.
   */
  lemma CloneIsFaithful(m: Mem, src: nat, kernelHalf: seq<Pte>, m0: Mem, dst: nat, ms: seq<Mem>)
    requires dst in m.free && m.top == USER_ENTRIES && |kernelHalf| == USER_ENTRIES
             && m0 == NewSpace(m, kernelHalf, dst)
    requires Tree(m, src, LEVELS)
    requires Clones(m0, dst, Leaves(m0, src, LEVELS), ms) && |ms| == |Leaves(m0, src, LEVELS)| + 1
    ensures var last := ms[|ms| - 1];
            && (forall q :: SamePage(m0, src, last, dst, q))
            && Tree(last, dst, LEVELS) && Under(last, dst, LEVELS) <= m.free && RestKept(m0, last, dst)
            && forall i | 0 <= i < USER_ENTRIES :: Entry(last, dst, USER_ENTRIES + i) == kernelHalf[i]
  {
    ClonedFrom(m, src, kernelHalf, m0, dst, ms);
    var last := ms[|ms| - 1];
    assert Cloned(m0, last, dst, Leaves(m0, src, LEVELS), |ms| - 1);
    forall q ensures SamePage(m0, src, last, dst, q) { CloneIsSame(m0, src, last, dst, Leaves(m0, src, LEVELS), q); }
    forall i | 0 <= i < USER_ENTRIES ensures Entry(last, dst, USER_ENTRIES + i) == kernelHalf[i] {
      assert Entry(last, dst, USER_ENTRIES + i) == Entry(m0, dst, USER_ENTRIES + i);
    }
  }

  /**
   * Freeing a clone, finished or abandoned after any number of pages -- when there is no frame left for the next, say
   * -- restores exactly the free frames there were before it.
   */
  lemma CloneThenFree(m: Mem, src: nat, kernelHalf: seq<Pte>, m0: Mem, dst: nat, ms: seq<Mem>)
    requires dst in m.free && m.top == USER_ENTRIES && |kernelHalf| == USER_ENTRIES
             && m0 == NewSpace(m, kernelHalf, dst)
    requires Tree(m, src, LEVELS)
    requires Clones(m0, dst, Leaves(m0, src, LEVELS), ms)
    ensures ms[|ms| - 1].top == USER_ENTRIES && FreeUserPages(ms[|ms| - 1], dst).free == m.free
  {
    ClonedFrom(m, src, kernelHalf, m0, dst, ms);
    var last := ms[|ms| - 1];
    assert Cloned(m0, last, dst, Leaves(m0, src, LEVELS), |ms| - 1);
    FreesExactly(last, dst);
    AllBack(dst, m.free, m0.free, last.free);
  }

  lemma AllBack(dst: nat, before: set<nat>, free0: set<nat>, free: set<nat>)
    requires dst in before && free0 == before - {dst} && free <= free0
    ensures free + ({dst} + (free0 - free)) == before
  {
  }
}
