/** How many frames a clone takes: known from the paths alone, before it starts. */
module VmmFrames {
  import opened Wrappers
  import opened VmmModel
  import opened VmmProofs
  import opened VmmClone

  // What one mapping leaves missing.

  /** The tables on the way to `q` that are not also on the way to `path`. */
  function Apart(path: Path, q: Path): (n: nat)
    ensures n <= Monus(|q|, 1)
    decreases |q|
  {
    if |q| <= 1 then 0 else if path == [] || path[0] != q[0] then |q| - 1 else Apart(path[1..], q[1..])
  }

  lemma {:induction false} MissingKept(m: Mem, m': Mem, t: nat, level: nat, q: Path)
    requires level > 0 && PathOk(m, q, level) && SameTables(m, m', Under(m, t, level))
    ensures Missing(m', t, q) == Missing(m, t, q)
    decreases level
  {
    EntryKept(m, m', t, level, q[0]);
    var e := Entry(m, t, q[0]);
    if level > 1 && e.Present? {
      EntryIsUnder(m, t, level, Span(m, level), q[0]);
      assert PathOk(m, q[1..], level - 1);
      MissingKept(m, m', e.frame, level - 1, q[1..]);
    }
  }

  lemma OpenLeaves(m: Mem, t: nat, level: nat, i: nat, q: Path, m1: Mem)
    requires level > 1 && Tree(m, t, level) && i < Span(m, level) && PathOk(m, q, level) && Opens(m, t, i, m1)
    ensures Missing(m1, t, q) == if Entry(m, t, i).Absent? && q[0] == i then |q| - 2 else Missing(m, t, q)
  {
    assert PathOk(m, q[1..], level - 1);
    if Entry(m, t, i).Absent? {
      var f :| f in m.free && m1 == WithTable(m, t, i, f);
      NewTable(m, t, level, i, f);
      if q[0] == i {
        NewMissing(m, t, i, f, q[1..]);
      } else {
        AttachOther(m, m1, t, level, i, Present(f, TABLE_FLAGS, 0), q[0]);
        if Entry(m, t, q[0]).Present? { MissingKept(m, m1, Entry(m, t, q[0]).frame, level - 1, q[1..]); }
      }
    }
  }

  /** After a page is mapped, what is missing for another is what was, or what the two do not share. */
  lemma {:induction false} MapLeaves(m: Mem, t: nat, level: nat, path: Path, e: Pte, q: Path, m': Mem)
    requires level > 0 && Tree(m, t, level) && PathOk(m, path, level) && PathOk(m, q, level) && Maps(m, t, path, e, m')
    ensures Missing(m', t, q) == Min(Missing(m, t, q), Apart(path, q))
    decreases level, 1
  {
    MissingBound(m, t, q);
    if level > 1 {
      var m1 := MapsDown(m, t, level, path, e, m');
      OpenLeaves(m, t, level, path[0], q, m1);
      BelowLeaves(m1, t, level, path, e, q, m');
    }
  }

  lemma {:induction false} BelowLeaves(m: Mem, t: nat, level: nat, path: Path, e: Pte, q: Path, m': Mem)
    requires level > 1 && Tree(m, t, level) && PathOk(m, path, level) && PathOk(m, q, level)
    requires Entry(m, t, path[0]).Present? && Maps(m, Entry(m, t, path[0]).frame, path[1..], e, m')
    ensures Missing(m', t, q) == if q[0] == path[0] then Min(Missing(m, t, q), Apart(path[1..], q[1..]))
            else Missing(m, t, q)
    decreases level, 0
  {
    var c := Entry(m, t, path[0]).frame;
    assert PathOk(m, path[1..], level - 1) && PathOk(m, q[1..], level - 1);
    TouchesBelow(m, t, level, path, e, m');
    if q[0] == path[0] {
      SameTop(m, m', t, level, path[0]);
      MapLeaves(m, c, level - 1, path[1..], e, q[1..], m');
    } else {
      OthersKept(m, m', t, level, path[0], q[0]);
      if Entry(m, t, q[0]).Present? { MissingKept(m, m', Entry(m, t, q[0]).frame, level - 1, q[1..]); }
    }
  }

  lemma CloneLeaves(m: Mem, dst: nat, leaf: Leaf, q: Path, m': Mem)
    requires Tree(m, dst, LEVELS) && PathOk(m, leaf.path, LEVELS) && PathOk(m, q, LEVELS)
             && CloneGives(m, dst, leaf, m')
    ensures Missing(m', dst, q) == Min(Missing(m, dst, q), Apart(leaf.path, q))
  {
    var f :| ClonesOnto(m, dst, leaf, f, m');
    var m1 := TakeFrame(m, dst, f, PageData(m, leaf.pte.frame));
    MapLeaves(m1, dst, LEVELS, leaf.path, Present(f, leaf.pte.low, 0), q, m');
  }

  // The count.

  /** The tables missing on the way to `q` once the first `k` leaves are mapped. */
  function Lack(leaves: seq<Leaf>, k: nat, q: Path): (n: nat)
    requires k <= |leaves|
    ensures n <= Monus(|q|, 1)
  {
    if k == 0 then Monus(|q|, 1) else Min(Lack(leaves, k - 1, q), Apart(leaves[k - 1].path, q))
  }

  /** The frames the first `k` pages take: one each, and one for each table missing on the way. */
  function Cost(leaves: seq<Leaf>, k: nat): nat
    requires k <= |leaves|
  {
    if k == 0 then 0 else Cost(leaves, k - 1) + 1 + Lack(leaves, k - 1, leaves[k - 1].path)
  }

  lemma {:induction false} ApartIs(path: Path, q: Path, d: nat)
    requires 1 <= d < |q| == |path|
    ensures |q| - Apart(path, q) <= d <==> path[..d] != q[..d]
    decreases |q|
  {
    if path[0] == q[0] {
      assert path[..d] == [path[0]] + path[1..][..d - 1] && q[..d] == [q[0]] + q[1..][..d - 1];
      if d > 1 { ApartIs(path[1..], q[1..], d - 1); }
    } else {
      assert path[..d][0] != q[..d][0];
    }
  }

  /** The count without the recursion: the table `d` levels down is missing when no earlier path has the same start. */
  lemma {:induction false} LackIs(leaves: seq<Leaf>, k: nat, q: Path, d: nat)
    requires k <= |leaves| && 1 <= d < |q| && forall j | 0 <= j < k :: |leaves[j].path| == |q|
    ensures |q| - Lack(leaves, k, q) <= d <==> forall j | 0 <= j < k :: leaves[j].path[..d] != q[..d]
  {
    if k > 0 {
      LackIs(leaves, k - 1, q, d);
      ApartIs(leaves[k - 1].path, q, d);
    }
  }

  lemma NothingThereYet(m0: Mem, dst: nat, leaves: seq<Leaf>, q: Path)
    requires Reached(m0, m0, dst, leaves, 0) && PathOk(m0, q, LEVELS)
    ensures Missing(m0, dst, q) == |q| - 1
  {
    assert Cloned(m0, m0, dst, leaves, 0);
    assert m0.free - m0.free == {};
    EntryIsUnder(m0, dst, LEVELS, Span(m0, LEVELS), q[0]);
    if Entry(m0, dst, q[0]).Present? { TopIsUnder(m0, Entry(m0, dst, q[0]).frame, LEVELS - 1); }
  }

  /** `m0` with an empty space `dst` in it, and the leaves of another. */
  ghost predicate Ready(m0: Mem, src: nat, dst: nat, leaves: seq<Leaf>) {
    Source(m0, src, leaves) && Reached(m0, m0, dst, leaves, 0)
  }

  lemma {:induction false} MissingIsLack(m0: Mem, src: nat, dst: nat, leaves: seq<Leaf>, ms: seq<Mem>, k: nat, q: Path)
    requires Ready(m0, src, dst, leaves) && Clones(m0, dst, leaves, ms) && k < |ms| && PathOk(m0, q, LEVELS)
    ensures Missing(ms[k], dst, q) == Lack(leaves, k, q)
  {
    if k == 0 {
      NothingThereYet(m0, dst, leaves, q);
    } else {
      MissingIsLack(m0, src, dst, leaves, ms, k - 1, q);
      ClonedAll(m0, src, dst, leaves, ms, k - 1);
      SourceLeaf(m0, src, leaves, k - 1);
      assert CloneAt(dst, leaves, ms, k - 1) && Cloned(m0, ms[k - 1], dst, leaves, k - 1);
      CloneLeaves(ms[k - 1], dst, leaves[k - 1], q, ms[k]);
    }
  }

  /** The next page takes its share, if it is there. */
  lemma NextTakes(m0: Mem, src: nat, dst: nat, leaves: seq<Leaf>, ms: seq<Mem>, k: nat)
    requires Ready(m0, src, dst, leaves) && Clones(m0, dst, leaves, ms) && k < |ms| && k < |leaves|
    ensures |leaves[k].path| == LEVELS
    ensures (exists m' :: CloneGives(ms[k], dst, leaves[k], m'))
            <==> 1 + Lack(leaves, k, leaves[k].path) <= |ms[k].free|
    ensures forall m' | CloneGives(ms[k], dst, leaves[k], m') ::
            |m'.free| == |ms[k].free| - 1 - Lack(leaves, k, leaves[k].path)
  {
    ClonedAll(m0, src, dst, leaves, ms, k);
    SourceLeaf(m0, src, leaves, k);
    MissingIsLack(m0, src, dst, leaves, ms, k, leaves[k].path);
    CopyNext(m0, ms[k], dst, leaves, k);
  }

  lemma CopyNext(m0: Mem, m: Mem, dst: nat, leaves: seq<Leaf>, k: nat)
    requires Reached(m0, m, dst, leaves, k) && k < |leaves| && leaves[k].pte.Present?
             && PathOk(m0, leaves[k].path, LEVELS)
    ensures var lack := Missing(m, dst, leaves[k].path);
            && ((exists m' :: CloneGives(m, dst, leaves[k], m')) <==> 1 + lack <= |m.free|)
            && forall m' | CloneGives(m, dst, leaves[k], m') :: |m'.free| == |m.free| - 1 - lack
  {
    assert Cloned(m0, m, dst, leaves, k);
    CloneStepIff(m, dst, leaves[k]);
  }

  /** Every clone has taken the same number of frames after `k` pages, whichever frames the page allocator gave it. */
  lemma {:induction false} TakenIsCost(m0: Mem, src: nat, dst: nat, leaves: seq<Leaf>, ms: seq<Mem>, k: nat)
    requires Ready(m0, src, dst, leaves) && Clones(m0, dst, leaves, ms) && k < |ms|
    ensures |ms[k].free| == |m0.free| - Cost(leaves, k)
  {
    if k > 0 {
      TakenIsCost(m0, src, dst, leaves, ms, k - 1);
      NextTakes(m0, src, dst, leaves, ms, k - 1);
      assert CloneAt(dst, leaves, ms, k - 1);
    }
  }

  lemma {:induction false} CostGrows(leaves: seq<Leaf>, j: nat, k: nat)
    requires j <= k <= |leaves|
    ensures Cost(leaves, j) + (k - j) <= Cost(leaves, k)
  {
    if j < k { CostGrows(leaves, j, k - 1); }
  }

  lemma OneMore(m0: Mem, src: nat, dst: nat, leaves: seq<Leaf>, ms: seq<Mem>) returns (m': Mem)
    requires Ready(m0, src, dst, leaves) && Clones(m0, dst, leaves, ms) && |ms| <= |leaves|
    requires Cost(leaves, |ms|) <= |m0.free|
    ensures Clones(m0, dst, leaves, ms + [m'])
  {
    var k := |ms| - 1;
    TakenIsCost(m0, src, dst, leaves, ms, k);
    NextTakes(m0, src, dst, leaves, ms, k);
    m' :| CloneGives(ms[k], dst, leaves[k], m');
    Extended(m0, dst, leaves, ms, m');
  }

  lemma Extended(m0: Mem, dst: nat, leaves: seq<Leaf>, ms: seq<Mem>, m': Mem)
    requires Clones(m0, dst, leaves, ms) && |ms| <= |leaves| && CloneGives(ms[|ms| - 1], dst, leaves[|ms| - 1], m')
    ensures Clones(m0, dst, leaves, ms + [m'])
  {
    var all := ms + [m'];
    forall j | 0 <= j < |all| - 1 ensures CloneAt(dst, leaves, all, j) {
      if j < |ms| - 1 { assert CloneAt(dst, leaves, ms, j); }
    }
  }

  lemma {:induction false} CanReach(m0: Mem, src: nat, dst: nat, leaves: seq<Leaf>, k: nat) returns (ms: seq<Mem>)
    requires Ready(m0, src, dst, leaves) && k <= |leaves| && Cost(leaves, k) <= |m0.free|
    ensures Clones(m0, dst, leaves, ms) && |ms| == k + 1
  {
    if k == 0 {
      ms := [m0];
    } else {
      CostGrows(leaves, k - 1, k);
      var less := CanReach(m0, src, dst, leaves, k - 1);
      var m' := OneMore(m0, src, dst, leaves, less);
      ms := less + [m'];
    }
  }

  /** A clone can be completed if and only if there are as many free frames as it costs. */
  lemma CompletesIff(m0: Mem, src: nat, dst: nat, leaves: seq<Leaf>)
    requires Ready(m0, src, dst, leaves)
    ensures (exists ms :: Clones(m0, dst, leaves, ms) && |ms| == |leaves| + 1) <==> Cost(leaves, |leaves|) <= |m0.free|
  {
    if ms :| Clones(m0, dst, leaves, ms) && |ms| == |leaves| + 1 { TakenIsCost(m0, src, dst, leaves, ms, |leaves|); }
    if Cost(leaves, |leaves|) <= |m0.free| { var ms := CanReach(m0, src, dst, leaves, |leaves|); }
  }

  // The one failure the code has no path for.

  /** A clone that has a frame for the next page, and none for a table missing on the way to it. */
  ghost predicate TablesRunDry(dst: nat, leaves: seq<Leaf>, ms: seq<Mem>) {
    && 0 < |ms| <= |leaves| && |leaves[|ms| - 1].path| > 0
    && 0 < |ms[|ms| - 1].free| <= Missing(ms[|ms| - 1], dst, leaves[|ms| - 1].path)
  }

  /** So many free frames run out inside one page's share. */
  ghost predicate Dry(leaves: seq<Leaf>, free: nat) {
    exists k :: 0 <= k < |leaves| && DryAt(leaves, free, k)
  }

  ghost predicate DryAt(leaves: seq<Leaf>, free: nat, k: nat)
    requires k < |leaves|
  {
    Cost(leaves, k) < free <= Cost(leaves, k) + Lack(leaves, k, leaves[k].path)
  }

  lemma DryHere(m0: Mem, src: nat, dst: nat, leaves: seq<Leaf>, ms: seq<Mem>)
    requires Ready(m0, src, dst, leaves) && Clones(m0, dst, leaves, ms) && |ms| <= |leaves|
    ensures TablesRunDry(dst, leaves, ms) <==> DryAt(leaves, |m0.free|, |ms| - 1)
  {
    var k := |ms| - 1;
    SourceLeaf(m0, src, leaves, k);
    TakenIsCost(m0, src, dst, leaves, ms, k);
    MissingIsLack(m0, src, dst, leaves, ms, k, leaves[k].path);
  }

  /** Some clone runs out of tables if and only if the free frames run out inside one page's share. */
  lemma RunsDryIff(m0: Mem, src: nat, dst: nat, leaves: seq<Leaf>)
    requires Ready(m0, src, dst, leaves)
    ensures (exists ms :: Clones(m0, dst, leaves, ms) && TablesRunDry(dst, leaves, ms)) <==> Dry(leaves, |m0.free|)
  {
    if ms :| Clones(m0, dst, leaves, ms) && TablesRunDry(dst, leaves, ms) { DryHere(m0, src, dst, leaves, ms); }
    if Dry(leaves, |m0.free|) {
      var k: nat :| k < |leaves| && DryAt(leaves, |m0.free|, k);
      var ms := CanReach(m0, src, dst, leaves, k);
      DryHere(m0, src, dst, leaves, ms);
    }
  }

  /** A single page costs four frames, so one to three are never enough for it and never none at all. */
  lemma OnePageIsDryIff(leaves: seq<Leaf>, free: nat)
    requires |leaves| == 1 && |leaves[0].path| == LEVELS
    ensures Cost(leaves, 1) == LEVELS && (Dry(leaves, free) <==> 0 < free < LEVELS)
  {
    assert Cost(leaves, 0) == 0 && Lack(leaves, 0, leaves[0].path) == LEVELS - 1;
    assert DryAt(leaves, free, 0) <==> 0 < free < LEVELS;
  }

  // A memory in which that happens.

  const NO_KERNEL: seq<Pte> := EmptyTable()[..USER_ENTRIES]
  const PAGE_ZERO: Path := [0, 0, 0, 0]

  /** A space with one page mapped has one leaf. */
  lemma OneLeaf(m: Mem, src: nat, path: Path)
    requires PathOk(m, path, LEVELS) && Lookup(m, src, path).Present?
    requires forall q | PathOk(m, q, LEVELS) && q != path :: Lookup(m, src, q).Absent?
    ensures |Leaves(m, src, LEVELS)| == 1
  {
    var leaves := Leaves(m, src, LEVELS);
    MappedIsLeaf(m, src, LEVELS, Span(m, LEVELS), path);
    assert Leaf(path, Lookup(m, src, path)) in leaves;
    LeavesDiffer(m, src, LEVELS, Span(m, LEVELS));
    if |leaves| > 1 { TwoDiffer(leaves, path); }
    forall i | 0 <= i < |leaves| ensures leaves[i].path == path {
      LeafIsMapped(m, src, LEVELS, Span(m, LEVELS), leaves[i]);
    }
  }

  lemma TwoDiffer(leaves: seq<Leaf>, path: Path)
    requires PathsDiffer(leaves) && |leaves| > 1
    ensures exists i :: 0 <= i < |leaves| && leaves[i].path != path
  {
    assert leaves[0].path != leaves[1].path;
  }

  /** Mapping one page in an empty space. */
  lemma MapInEmpty(m: Mem, t: nat, path: Path, e: Pte) returns (m': Mem)
    requires Tree(m, t, LEVELS) && PathOk(m, path, LEVELS) && Under(m, t, LEVELS) == {t} && |m.free| >= LEVELS - 1
    requires e.Present? && e.frame != t && e.frame !in m.free
             && forall i | 0 <= i < Span(m, LEVELS) :: Entry(m, t, i).Absent?
    ensures Tree(m', t, LEVELS) && m'.top == m.top && m'.free <= m.free && |m'.free| == |m.free| - (LEVELS - 1)
    ensures Lookup(m', t, path) == e && forall q | PathOk(m, q, LEVELS) && q != path :: Lookup(m', t, q).Absent?
  {
    assert Entry(m, t, path[0]).Absent?;
    m' := CanMap(m, t, LEVELS, path, e);
    MapSafe(m, t, LEVELS, path, e, m');
    MapTakes(m, t, LEVELS, path, e, m');
    MapTranslates(m, t, LEVELS, path, e, path, m');
    forall q | PathOk(m, q, LEVELS) && q != path ensures Lookup(m', t, q).Absent? {
      MapTranslates(m, t, LEVELS, path, e, q, m');
      assert Entry(m, t, q[0]).Absent?;
    }
  }

  /** One page at address 0, mapped in space 0 with three frames to spare. */
  lemma OnePageSpace() returns (m': Mem)
    ensures Tree(m', 0, LEVELS) && m'.top == USER_ENTRIES && |m'.free| == 3 && PathOk(m', PAGE_ZERO, LEVELS)
    ensures Lookup(m', 0, PAGE_ZERO).Present?
    ensures forall q | PathOk(m', q, LEVELS) && q != PAGE_ZERO :: Lookup(m', 0, q).Absent?
  {
    var before := Mem(map[], map[], {0, 1, 2, 3, 5, 6, 7}, USER_ENTRIES);
    var m := NewSpace(before, NO_KERNEL, 0);
    NewSpaceIs(before, NO_KERNEL, m, 0);
    assert m.free == {1, 2, 3, 5, 6, 7};
    assert PathOk(m, PAGE_ZERO, LEVELS);
    m' := MapInEmpty(m, 0, PAGE_ZERO, Present(4, TABLE_FLAGS, 0));
    assert forall q | PathOk(m', q, LEVELS) :: PathOk(m, q, LEVELS);
  }

  lemma SameLookups(m: Mem, m0: Mem, dst: nat)
    requires Tree(m, 0, LEVELS) && dst in m.free && m0 == NewSpace(m, NO_KERNEL, dst)
    ensures forall q | PathOk(m, q, LEVELS) :: Lookup(m0, 0, q) == Lookup(m, 0, q)
  {
    TreeNotFree(m, 0, LEVELS);
    forall q | PathOk(m, q, LEVELS) ensures Lookup(m0, 0, q) == Lookup(m, 0, q) { LookupKept(m, m0, 0, LEVELS, q); }
  }

  /** A source of one page, an empty space, and two free frames: a frame for the page, and not enough for its tables. */
  lemma OnePageRunsDry() returns (m0: Mem, dst: nat, leaves: seq<Leaf>)
    ensures |m0.free| == 2 && |leaves| == 1 && Ready(m0, 0, dst, leaves) && TablesRunDry(dst, leaves, [m0])
    ensures Clones(m0, dst, leaves, [m0])
  {
    var m := OnePageSpace();
    dst :| dst in m.free;
    m0 := NewSpace(m, NO_KERNEL, dst);
    leaves := Leaves(m0, 0, LEVELS);
    NewSpaceIs(m, NO_KERNEL, m0, dst);
    SourceKept(m, 0, NO_KERNEL, m0, dst);
    StartCloned(m0, dst, leaves);
    SameLookups(m, m0, dst);
    assert forall q | PathOk(m0, q, LEVELS) :: PathOk(m, q, LEVELS);
    OneLeaf(m0, 0, PAGE_ZERO);
    SourceLeaf(m0, 0, leaves, 0);
    OnePageIsDryIff(leaves, 2);
    DryHere(m0, 0, dst, leaves, [m0]);
    assert DryAt(leaves, 2, 0);
  }
}
