/** Four-level page tables (mm/vmm.rs): mapping, cloning and freeing the user half of an address space. */
module VmmModel {
  import opened Wrappers

  const ENTRIES := 512
  const LEVELS := 4

  /** An entry: the frame it points at, its low twelve flag bits, and the bits above the address. */
  datatype Pte = Absent | Present(frame: nat, low: nat, high: nat)

  /** present | writable | user, what every intermediate entry has. */
  const TABLE_FLAGS := 7

  /** Only the first half of a top-level table is the user's. */
  const USER_ENTRIES := ENTRIES / 2

  /**
   * Frames that are tables, frames that are pages of data, the page allocator's free frames, and how many entries
   * of a top-level table are looked at: the user's, or all of them.
   */
  datatype Mem = Mem(tables: map<nat, seq<Pte>>, data: map<nat, seq<Byte>>, free: set<nat>, top: nat)

  function Span(m: Mem, level: nat): (n: nat)
    ensures n <= ENTRIES
  {
    if level < LEVELS || m.top > ENTRIES then ENTRIES else m.top
  }

  function Entry(m: Mem, t: nat, i: nat): Pte {
    if t in m.tables && i < |m.tables[t]| then m.tables[t][i] else Absent
  }

  /** A virtual page: its index at each level, top first. */
  type Path = seq<nat>

  ghost predicate PathOk(m: Mem, path: Path, level: nat) {
    |path| == level && forall i | 0 <= i < level :: path[i] < Span(m, level - i)
  }

  /** The leaf entry the processor finds, or Absent. */
  function Lookup(m: Mem, t: nat, path: Path): Pte
    requires |path| > 0
    decreases |path|
  {
    var e := Entry(m, t, path[0]);
    if |path| == 1 || e.Absent? then e else Lookup(m, e.frame, path[1..])
  }

  function EmptyTable(): (t: seq<Pte>)
    ensures |t| == ENTRIES && forall i | 0 <= i < ENTRIES :: t[i] == Absent
  {
    seq(ENTRIES, _ => Absent)
  }

  function SetEntry(m: Mem, t: nat, i: nat, e: Pte): Mem {
    if t in m.tables && i < |m.tables[t]| then m.(tables := m.tables[t := m.tables[t][i := e]]) else m
  }

  /** An absent entry gets frame `f` as a fresh, empty table. */
  function WithTable(m: Mem, t: nat, i: nat, f: nat): Mem {
    SetEntry(m.(tables := m.tables[f := EmptyTable()], free := m.free - {f}), t, i, Present(f, TABLE_FLAGS, 0))
  }

  /** get_or_create: nothing, or a table on whichever free frame the page allocator returns. */
  ghost predicate Opens(m: Mem, t: nat, i: nat, m1: Mem) {
    if Entry(m, t, i).Present? then m1 == m else exists f :: f in m.free && m1 == WithTable(m, t, i, f)
  }

  /** `m'` is what mapping a page may leave. Without a free frame for a missing table there is no such memory. */
  ghost predicate Maps(m: Mem, t: nat, path: Path, e: Pte, m': Mem)
    requires |path| > 0
    decreases |path|
  {
    if |path| == 1 then m' == SetEntry(m, t, path[0], e)
    else
      exists m1 ::
        Opens(m, t, path[0], m1) && Entry(m1, t, path[0]).Present?
            && Maps(m1, Entry(m1, t, path[0]).frame, path[1..], e, m')
  }

  /** How many tables are missing on the way to a page. */
  function Missing(m: Mem, t: nat, path: Path): nat
    requires |path| > 0
    decreases |path|
  {
    if |path| == 1 then 0
    else
      var e := Entry(m, t, path[0]);
      if e.Absent? then |path| - 1 else Missing(m, e.frame, path[1..])
  }

  // The frames under a table.

  ghost function Under(m: Mem, t: nat, level: nat): set<nat>
    decreases level, ENTRIES + 1, t
  {
    if level == 0 then {t} else {t} + UnderEntries(m, t, level, Span(m, level))
  }

  ghost function UnderEntries(m: Mem, t: nat, level: nat, n: nat): set<nat>
    requires level > 0
    decreases level, n, t
  {
    if n == 0 then {} else UnderEntries(m, t, level, n - 1) + UnderEntry(m, t, level, n - 1)
  }

  ghost function UnderEntry(m: Mem, t: nat, level: nat, i: nat): set<nat>
    requires level > 0
    decreases level, 0, t
  {
    var e := Entry(m, t, i);
    if e.Absent? then {} else Under(m, e.frame, level - 1)
  }

  /** A proper tree of tables: nothing is reached twice, and nothing reached is free. */
  ghost predicate Tree(m: Mem, t: nat, level: nat)
    decreases level, t
  {
    && t !in m.free
    && (level > 0 ==>
          && t in m.tables && |m.tables[t]| == ENTRIES
          && t !in UnderEntries(m, t, level, Span(m, level))
          && (forall i | 0 <= i < Span(m, level) && Entry(m, t, i).Present? :: Tree(m, Entry(m, t, i).frame, level - 1))
          && forall i, j | 0 <= i < j < Span(m, level) :: UnderEntry(m, t, level, i) !! UnderEntry(m, t, level, j))
  }

  // Freeing: the calls to the page allocator, in order.

  ghost function FreeCalls(m: Mem, t: nat, level: nat): seq<nat>
    decreases level, ENTRIES + 1, t
  {
    if level == 0 then [t] else FreeEntryCalls(m, t, level, Span(m, level)) + [t]
  }

  ghost function FreeEntryCalls(m: Mem, t: nat, level: nat, n: nat): seq<nat>
    requires level > 0
    decreases level, n, t
  {
    if n == 0 then []
    else
      var e := Entry(m, t, n - 1);
      FreeEntryCalls(m, t, level, n - 1) + if e.Absent? then [] else FreeCalls(m, e.frame, level - 1)
  }

  ghost function FreeUserPages(m: Mem, root: nat): Mem
    requires m.top == USER_ENTRIES
  {
    m.(free := m.free + set f | f in FreeCalls(m, root, LEVELS))
  }

  // Cloning.

  datatype Leaf = Leaf(path: Path, pte: Pte)

  /** Every present leaf, in the order the walk meets them. */
  ghost function Leaves(m: Mem, t: nat, level: nat): seq<Leaf>
    requires level > 0
    decreases level, ENTRIES + 1, t
  {
    EntryLeaves(m, t, level, Span(m, level))
  }

  ghost function EntryLeaves(m: Mem, t: nat, level: nat, n: nat): seq<Leaf>
    requires level > 0
    decreases level, n, t
  {
    if n == 0 then [] else EntryLeaves(m, t, level, n - 1) + LeavesOf(m, t, level, n - 1)
  }

  ghost function LeavesOf(m: Mem, t: nat, level: nat, i: nat): seq<Leaf>
    requires level > 0
    decreases level, 0, t
  {
    var e := Entry(m, t, i);
    if e.Absent? then [] else if level == 1 then [Leaf([i], e)] else Prefixed(i, Leaves(m, e.frame, level - 1))
  }

  function Prefixed(i: nat, leaves: seq<Leaf>): (r: seq<Leaf>)
    ensures |r| == |leaves| && forall k | 0 <= k < |r| :: r[k] == Leaf([i] + leaves[k].path, leaves[k].pte)
  {
    seq(|leaves|, k requires 0 <= k < |leaves| => Leaf([i] + leaves[k].path, leaves[k].pte))
  }

  function PageData(m: Mem, f: nat): seq<Byte> { if f in m.data then m.data[f] else [] }

  /** Frame `f` taken and filled with a page's bytes. */
  ghost function WithCopy(m: Mem, page: nat, f: nat): Mem {
    m.(free := m.free - {f}, data := m.data[f := PageData(m, page)])
  }

  /** One page copied onto free frame `f` and mapped under the same low flags. */
  ghost predicate ClonesOnto(m: Mem, dst: nat, leaf: Leaf, f: nat, m': Mem)
    requires leaf.pte.Present? && |leaf.path| == LEVELS
  {
    f in m.free && Maps(WithCopy(m, leaf.pte.frame, f), dst, leaf.path, Present(f, leaf.pte.low, 0), m')
  }

  /** A fresh top-level table on frame `f`: the user half empty, the kernel half shared. */
  function NewSpace(m: Mem, kernelHalf: seq<Pte>, f: nat): Mem {
    m.(free := m.free - {f}, tables := m.tables[f := EmptyTable()[..USER_ENTRIES] + kernelHalf])
  }
}
