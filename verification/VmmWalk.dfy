/** The table walks as loops: the calls that free an address space, and the leaves that fork copies. */
module VmmWalk {
  import opened Wrappers
  import opened VmmModel

  /** The page allocator is called for everything under each present entry, then for the table itself. */
  method FreeTables(m: Mem, t: nat, level: nat) returns (calls: seq<nat>)
    ensures calls == FreeCalls(m, t, level)
    decreases level
  {
    if level == 0 { return [t]; }
    calls := [];
    var i := 0;
    while i < Span(m, level)
      invariant 0 <= i <= Span(m, level) && calls == FreeEntryCalls(m, t, level, i)
    {
      var e := Entry(m, t, i);
      if e.Present? {
        var below := FreeTables(m, e.frame, level - 1);
        calls := calls + below;
      }
      i := i + 1;
    }
    calls := calls + [t];
  }

  /** Every present leaf of the user half, in index order at each level. */
  method UserLeaves(m: Mem, t: nat, level: nat) returns (leaves: seq<Leaf>)
    requires level > 0
    ensures leaves == Leaves(m, t, level)
    decreases level
  {
    leaves := [];
    var i := 0;
    while i < Span(m, level)
      invariant 0 <= i <= Span(m, level) && leaves == EntryLeaves(m, t, level, i)
    {
      var e := Entry(m, t, i);
      if e.Present? {
        if level == 1 {
          leaves := leaves + [Leaf([i], e)];
        } else {
          var below := UserLeaves(m, e.frame, level - 1);
          leaves := leaves + Prefixed(i, below);
        }
      }
      i := i + 1;
    }
  }
}
