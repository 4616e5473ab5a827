/** The tables as the kernel keeps them: entries written in place, frames taken from the page allocator. */
module VmmTables {
  import opened Wrappers
  import opened VmmModel
  import opened VmmProofs
  import opened VmmClone
  import opened VmmFrames
  import opened VmmWalk

  class PageTables {
    var tables: map<nat, seq<Pte>>
    var data: map<nat, seq<Byte>>
    var free: set<nat>
    /** How many entries of a top-level table are looked at. */
    const top: nat

    ghost function Now(): Mem
      reads this
    {
      Mem(tables, data, free, top)
    }

    /** The boot loader's one top-level table, empty in the user half. */
    constructor (root: nat, kernelHalf: seq<Pte>, free: set<nat>)
      requires root !in free && |kernelHalf| == USER_ENTRIES
      ensures this.free == free && top == USER_ENTRIES
              && tables == map[root := EmptyTable()[..USER_ENTRIES] + kernelHalf]
      ensures Tree(Now(), root, LEVELS) && Under(Now(), root, LEVELS) == {root}
    {
      tables := map[root := EmptyTable()[..USER_ENTRIES] + kernelHalf];
      data := map[];
      this.free := free;
      top := USER_ENTRIES;
      new;
      ghost var before := Mem(map[], map[], free + {root}, USER_ENTRIES);
      assert before.free - {root} == free;
      assert Now() == NewSpace(before, kernelHalf, root);
      NewSpaceIs(before, kernelHalf, Now(), root);
    }

    /** Any free frame: which one depends on the page allocator's cursor. */
    method AllocPage() returns (f: nat)
      requires free != {}
      modifies this`free
      ensures f in old(free) && free == old(free) - {f}
    {
      f :| f in free;
      free := free - {f};
    }

    /** The table an entry points at; an absent entry gets a fresh, zeroed one. */
    method GetOrCreate(parent: nat, index: nat) returns (next: nat)
      requires parent in tables && index < |tables[parent]| && (tables[parent][index].Absent? ==> free != {})
               && parent !in free
      modifies this`tables, this`free
      ensures Opens(old(Now()), parent, index, Now())
      ensures Entry(Now(), parent, index).Present? && Entry(Now(), parent, index).frame == next
    {
      if tables[parent][index].Absent? {
        var f := AllocPage();
        tables := tables[f := EmptyTable()];
        tables := tables[parent := tables[parent][index := Present(f, TABLE_FLAGS, 0)]];
        assert Now() == WithTable(old(Now()), parent, index, f);
      }
      next := tables[parent][index].frame;
    }

    /** The last-level table for a page, made on the way down if need be. */
    method WalkCreate(t: nat, level: nat, path: Path) returns (pt: nat)
      requires level > 0 && Tree(Now(), t, level) && PathOk(Now(), path, level) && Missing(Now(), t, path) <= |free|
      modifies this`tables, this`free
      ensures pt in tables && path[level - 1] < |tables[pt]|
      ensures GoesOn(old(Now()), t, path, Now(), pt, path[level - 1..])
    {
      pt := t;
      var l, rest := level, path;
      while l > 1
        invariant 1 <= l <= level && rest == path[level - l..] && PathOk(Now(), rest, l) && Tree(Now(), pt, l)
        invariant Missing(Now(), pt, rest) <= |free|
        invariant GoesOn(old(Now()), t, path, Now(), pt, rest)
      {
        ghost var m := Now();
        var next := GetOrCreate(pt, rest[0]);
        StepDown(old(Now()), t, path, m, pt, l, rest, Now());
        pt, rest, l := next, rest[1..], l - 1;
      }
    }

    method MapPage(t: nat, level: nat, path: Path, e: Pte)
      requires level > 0 && Tree(Now(), t, level) && PathOk(Now(), path, level) && Missing(Now(), t, path) <= |free|
      modifies this`tables, this`free
      ensures Maps(old(Now()), t, path, e, Now())
    {
      var pt := WalkCreate(t, level, path);
      ghost var m := Now();
      tables := tables[pt := tables[pt][path[level - 1] := e]];
      assert Maps(m, pt, path[level - 1..], e, Now());
    }

    /** A fresh top-level table: the user half zeroed, the kernel half copied. */
    method NewAddressSpace(kernelHalf: seq<Pte>) returns (root: nat)
      requires free != {} && |kernelHalf| == USER_ENTRIES
      modifies this`tables, this`free
      ensures root in old(free) && Now() == NewSpace(old(Now()), kernelHalf, root)
    {
      root := AllocPage();
      tables := tables[root := EmptyTable()[..USER_ENTRIES] + kernelHalf];
    }

    /** Copies one page onto a fresh frame and maps it in `dst`. */
    method ClonePage(dst: nat, leaf: Leaf, level: nat)
      requires level == LEVELS && Tree(Now(), dst, level) && leaf.pte.Present? && PathOk(Now(), leaf.path, level)
      requires Missing(Now(), dst, leaf.path) < |free|
      modifies this
      ensures CloneGives(old(Now()), dst, leaf, Now())
    {
      ghost var m := Now();
      var copy := AllocPage();
      data := data[copy := if leaf.pte.frame in data then data[leaf.pte.frame] else []];
      ghost var m1 := Now();
      TakenKeepsTree(m, m1, dst, level);
      MissingSame(m, m1, dst, leaf.path);
      MapPage(dst, level, leaf.path, Present(copy, leaf.pte.low, 0));
      assert ClonesOnto(m, dst, leaf, copy, Now());
    }

    /**
     * Copies every page of the user half of `src`, or gives up when no frame is left; `ms` are the memories it goes
     * through.
     */
    method CloneUserPages(dst: nat, src: nat, level: nat) returns (ok: bool, ghost ms: seq<Mem>)
      requires level == LEVELS && Tree(Now(), src, level) && Reached(Now(), Now(), dst, Leaves(Now(), src, level), 0)
      requires !Dry(Leaves(Now(), src, level), |free|)
      modifies this
      ensures Clones(old(Now()), dst, Leaves(old(Now()), src, level), ms) && Now() == ms[|ms| - 1]
      ensures ok <==> |ms| == |Leaves(old(Now()), src, level)| + 1
      ensures ok <==> Cost(Leaves(old(Now()), src, level), |Leaves(old(Now()), src, level)|) <= |old(free)|
      ensures !ok ==> free == {}
    {
      ghost var m0 := Now();
      var leaves := UserLeaves(Mem(tables, data, free, top), src, level);
      ms := [m0];
      for k := 0 to |leaves|
        invariant |ms| == k + 1 && Now() == ms[k] && Clones(m0, dst, leaves, ms) && Reached(m0, Now(), dst, leaves, k)
      {
        if free == {} {
          GivesUp(m0, src, dst, leaves, ms, k);
          return false, ms;
        }
        SourceLeaf(m0, src, leaves, k);
        DryHere(m0, src, dst, leaves, ms);
        assert Cloned(m0, Now(), dst, leaves, k);
        ClonePage(dst, leaves[k], level);
        ms := ms + [Now()];
        OneMoreClone(m0, dst, leaves, ms, k);
        ReachedNext(m0, src, dst, leaves, ms, k);
      }
      TakenIsCost(m0, src, dst, leaves, ms, |leaves|);
      ok := true;
    }

    /** Gives back every leaf page and table of the user half, then the top-level table. */
    method FreeSpace(root: nat)
      requires top == USER_ENTRIES
      modifies this`free
      ensures Now() == FreeUserPages(old(Now()), root)
    {
      var calls := FreeTables(Mem(tables, data, free, top), root, LEVELS);
      for i := 0 to |calls|
        invariant free == old(free) + set f | f in calls[..i]
      {
        free := free + {calls[i]};
        assert calls[..i + 1] == calls[..i] + [calls[i]];
      }
      assert calls[..|calls|] == calls;
    }
  }

  /** Mapping from `pt` on completes the mapping begun at `t`. */
  ghost predicate GoesOn(m: Mem, t: nat, path: Path, m1: Mem, pt: nat, rest: Path)
    requires |path| > 0 && |rest| > 0
  {
    forall e, m' :: Maps(m1, pt, rest, e, m') ==> Maps(m, t, path, e, m')
  }

  lemma StepDown(m: Mem, t: nat, path: Path, m1: Mem, pt: nat, l: nat, rest: Path, m2: Mem)
    requires |path| > 0 && l > 1 && Tree(m1, pt, l) && PathOk(m1, rest, l) && Missing(m1, pt, rest) <= |m1.free|
    requires GoesOn(m, t, path, m1, pt, rest) && Opens(m1, pt, rest[0], m2)
    ensures Entry(m2, pt, rest[0]).Present? && PathOk(m2, rest[1..], l - 1)
            && Tree(m2, Entry(m2, pt, rest[0]).frame, l - 1)
    ensures Missing(m2, Entry(m2, pt, rest[0]).frame, rest[1..]) <= |m2.free|
    ensures GoesOn(m, t, path, m2, Entry(m2, pt, rest[0]).frame, rest[1..])
  {
    var next := OpenStep(m1, pt, l, rest, m2);
    GoesDown(m, t, path, m1, pt, rest, m2, next, rest[1..]);
  }

  lemma GoesDown(m: Mem, t: nat, path: Path, m1: Mem, pt: nat, rest: Path, m2: Mem, next: nat, less: Path)
    requires |path| > 0 && |rest| > 1 && less == rest[1..] && GoesOn(m, t, path, m1, pt, rest)
             && Opens(m1, pt, rest[0], m2)
    requires Entry(m2, pt, rest[0]).Present? && Entry(m2, pt, rest[0]).frame == next
    ensures GoesOn(m, t, path, m2, next, less)
  {
    forall e, m' | Maps(m2, next, less, e, m') ensures Maps(m, t, path, e, m') { MapsUp(m1, pt, rest, e, m2, m'); }
  }

  /** A clone that stops with a page left could not have been completed. */
  lemma GivesUp(m0: Mem, src: nat, dst: nat, leaves: seq<Leaf>, ms: seq<Mem>, k: nat)
    requires Ready(m0, src, dst, leaves) && Clones(m0, dst, leaves, ms) && |ms| == k + 1 <= |leaves| && ms[k].free == {}
    ensures Cost(leaves, |leaves|) > |m0.free|
  {
    TakenIsCost(m0, src, dst, leaves, ms, k);
    CostGrows(leaves, k, |leaves|);
  }

  lemma OneMoreClone(m0: Mem, dst: nat, leaves: seq<Leaf>, ms: seq<Mem>, k: nat)
    requires k + 1 < |ms| == k + 2 <= |leaves| + 1 && Clones(m0, dst, leaves, ms[..k + 1])
             && CloneAt(dst, leaves, ms, k)
    ensures Clones(m0, dst, leaves, ms)
  {
    forall j | 0 <= j < |ms| - 1 ensures CloneAt(dst, leaves, ms, j) {
      if j < k { assert CloneAt(dst, leaves, ms[..k + 1], j); }
    }
  }

  lemma TakenKeepsTree(m: Mem, m1: Mem, t: nat, level: nat)
    requires Tree(m, t, level) && m1.tables == m.tables && m1.free <= m.free && m1.top == m.top
    ensures Tree(m1, t, level)
  {
    TreeNotFree(m, t, level);
    UnderKept(m, m1, t, level);
    TreeKept(m, m1, t, level);
  }
}
