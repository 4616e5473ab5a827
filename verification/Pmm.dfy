/** The physical page allocator (mm/pmm.rs): a bitmap of pages in use, a free count and a search cursor. */
module PmmModel {
  import opened Wrappers

  const PAGE_SIZE := 4096

  /** `bits[p]` is whether page `p` is in use. */
  datatype Pmm = Pmm(bits: seq<bool>, free: nat, cursor: nat)

  function Clear(bits: seq<bool>): nat {
    if bits == [] then 0 else Clear(bits[..|bits| - 1]) + if bits[|bits| - 1] then 0 else 1
  }

  lemma {:induction false} ClearAfter(bits: seq<bool>, p: nat, b: bool)
    requires p < |bits|
    ensures Clear(bits[p := b]) + (if bits[p] then 0 else 1) == Clear(bits) + if b then 0 else 1
  {
    var n := |bits| - 1;
    if p == n {
      assert bits[p := b][..n] == bits[..n];
    } else {
      ClearAfter(bits[..n], p, b);
      assert bits[p := b][..n] == bits[..n][p := b];
    }
  }

  lemma {:induction false} ClearMeans(bits: seq<bool>)
    ensures Clear(bits) == 0 <==> forall p | 0 <= p < |bits| :: bits[p]
  {
    if bits != [] { ClearMeans(bits[..|bits| - 1]); }
  }

  function FirstClear(bits: seq<bool>, start: nat, end: nat): (r: Option<nat>)
    requires end <= |bits|
    ensures r.Some? ==> start <= r.value < end && !bits[r.value] && forall p | start <= p < r.value :: bits[p]
    ensures r.None? ==> forall p | start <= p < end :: bits[p]
    decreases Monus(end, start)
  {
    if start >= end then None else if !bits[start] then Some(start) else FirstClear(bits, start + 1, end)
  }

  ghost predicate Ok(m: Pmm) {
    && |m.bits| > 0 && m.bits[0]
    && m.free == Clear(m.bits)
    && m.cursor <= |m.bits|
  }

  /** From the cursor on, then from the start up to it. */
  function NextPage(m: Pmm): (r: Option<nat>)
    requires m.cursor <= |m.bits|
  {
    var p := FirstClear(m.bits, m.cursor, |m.bits|);
    if p.Some? then p else FirstClear(m.bits, 0, m.cursor)
  }

  function AllocPage(m: Pmm): (r: (nat, Pmm))
    requires m.cursor <= |m.bits|
  {
    match NextPage(m)
    case None => (0, m)
    case Some(p) => (p * PAGE_SIZE, Pmm(m.bits[p := true], Monus(m.free, 1), p + 1))
  }

  function FreePage(m: Pmm, phys: nat): Pmm {
    var p := phys / PAGE_SIZE;
    if p >= |m.bits| || !m.bits[p] then m else m.(bits := m.bits[p := false], free := m.free + 1)
  }

  predicate Run(bits: seq<bool>, start: nat, count: nat) {
    start + count <= |bits| && forall p | start <= p < start + count :: !bits[p]
  }

  /** The first `count` clear pages in a row at or after `from`. */
  function LowestRun(bits: seq<bool>, count: nat, from: nat): (r: Option<nat>)
    ensures r.Some? ==> from <= r.value && Run(bits, r.value, count)
    ensures r.Some? ==> forall s | from <= s < r.value :: !Run(bits, s, count)
    ensures r.None? ==> forall s | from <= s :: !Run(bits, s, count)
    decreases Monus(|bits|, from)
  {
    if Run(bits, from, count) then Some(from)
    else if from >= |bits| then None
    else LowestRun(bits, count, from + 1)
  }

  function SetRun(bits: seq<bool>, start: nat, count: nat): (r: seq<bool>)
    ensures |r| == |bits| && forall p | 0 <= p < |bits| :: r[p] == (bits[p] || start <= p < start + count)
  {
    seq(|bits|, p requires 0 <= p < |bits| => bits[p] || start <= p < start + count)
  }

  function AllocPages(m: Pmm, count: nat): (r: (nat, Pmm)) {
    var s := if count == 0 then None else LowestRun(m.bits, count, 0);
    if s.None? then (0, m)
    else (s.value * PAGE_SIZE, m.(bits := SetRun(m.bits, s.value, count), free := Monus(m.free, count)))
  }

  // What they promise.

  /**
   * alloc_page fails if and only if no page is free, wherever the cursor is; otherwise exactly one free page is taken.
   */
  lemma AllocPageIs(m: Pmm)
    requires Ok(m)
    ensures var (addr, m') := AllocPage(m); var p := addr / PAGE_SIZE;
            && Ok(m')
            && (addr == 0 <==> m.free == 0) && (addr == 0 <==> forall q | 0 <= q < |m.bits| :: m.bits[q])
            && (addr == 0 ==> m' == m)
            && (addr != 0 ==> addr == p * PAGE_SIZE && 0 < p < |m.bits| && !m.bits[p])
            && (addr != 0 ==> m'.bits == m.bits[p := true] && m'.free == m.free - 1)
  {
    ClearMeans(m.bits);
    var p := NextPage(m);
    if p.Some? { ClearAfter(m.bits, p.value, true); }
  }

  /** It takes the first free page after the one last taken, going around at the end. */
  lemma AllocPageGoesAround(m: Pmm, q: nat)
    requires Ok(m) && AllocPage(m).0 != 0 && q < |m.bits| && !m.bits[q]
    ensures var (addr, m') := AllocPage(m); var p := addr / PAGE_SIZE;
            && m'.cursor == p + 1
            && (m.cursor <= q ==> m.cursor <= p <= q)
            && (q < m.cursor ==> m.cursor <= p || p <= q)
  {
  }

  /** A page in use becomes free; anything else is ignored. */
  lemma FreePageIs(m: Pmm, p: nat)
    requires Ok(m) && p != 0
    ensures var m' := FreePage(m, p * PAGE_SIZE);
            && Ok(m')
            && (if p < |m.bits| && m.bits[p] then m'.bits == m.bits[p := false] && m'.free == m.free + 1 else m' == m)
  {
    assert p * PAGE_SIZE / PAGE_SIZE == p;
    if p < |m.bits| && m.bits[p] { ClearAfter(m.bits, p, false); }
  }

  lemma {:induction false} ClearAfterRun(bits: seq<bool>, start: nat, count: nat)
    requires Run(bits, start, count)
    ensures Clear(SetRun(bits, start, count)) + count == Clear(bits)
    decreases count
  {
    if count == 0 {
      assert SetRun(bits, start, 0) == bits;
    } else {
      ClearAfterRun(bits, start, count - 1);
      var most := SetRun(bits, start, count - 1);
      ClearAfter(most, start + count - 1, true);
      assert SetRun(bits, start, count) == most[start + count - 1 := true];
    }
  }

  /** alloc_pages takes the lowest run of free pages long enough, and fails if and only if there is none. */
  lemma AllocPagesIs(m: Pmm, count: nat)
    requires Ok(m)
    ensures var (addr, m') := AllocPages(m, count); var s := addr / PAGE_SIZE;
            && Ok(m')
            && (addr == 0 <==> count == 0 || forall r: nat :: !Run(m.bits, r, count))
            && (addr == 0 ==> m' == m)
            && (addr != 0 ==>
                  && addr == s * PAGE_SIZE && s > 0 && Run(m.bits, s, count)
                     && (forall r: nat | r < s :: !Run(m.bits, r, count))
                  && m'.bits == SetRun(m.bits, s, count) && m'.free == m.free - count)
  {
    var s := if count == 0 then None else LowestRun(m.bits, count, 0);
    if s.Some? {
      assert s.value != 0;
      ClearAfterRun(m.bits, s.value, count);
      assert s.value * PAGE_SIZE / PAGE_SIZE == s.value;
    }
  }

  // Runs: who holds what.

  /** `held` are the pages callers were given and have not freed; the others in use are nobody's to free. */
  datatype System = System(pmm: Pmm, held: set<nat>, reserved: set<nat>)

  datatype Step = Single | Several(count: nat) | Free(page: nat)

  function Pages(start: nat, count: nat): (ps: set<nat>)
    ensures forall p :: p in ps <==> start <= p < start + count
  {
    if count == 0 then {} else Pages(start, count - 1) + {start + count - 1}
  }

  ghost predicate Inv(s: System) {
    && Ok(s.pmm) && 0 in s.reserved && s.held !! s.reserved
    && forall p: nat :: p in s.held + s.reserved <==> p < |s.pmm.bits| && s.pmm.bits[p]
  }

  /** The pages a call hands out. */
  function Handed(s: System, e: Step): set<nat>
    requires s.pmm.cursor <= |s.pmm.bits|
  {
    match e
    case Single => var addr := AllocPage(s.pmm).0; if addr == 0 then {} else {addr / PAGE_SIZE}
    case Several(count) => var addr := AllocPages(s.pmm, count).0;
    if addr == 0 then {} else Pages(addr / PAGE_SIZE, count)
    case Free(_) => {}
  }

  /** Callers free only what they hold. */
  function Apply(s: System, e: Step): System
    requires s.pmm.cursor <= |s.pmm.bits|
  {
    match e
    case Single => s.(pmm := AllocPage(s.pmm).1, held := s.held + Handed(s, e))
    case Several(count) => s.(pmm := AllocPages(s.pmm, count).1, held := s.held + Handed(s, e))
    case Free(p) => if p in s.held then s.(pmm := FreePage(s.pmm, p * PAGE_SIZE), held := s.held - {p}) else s
  }

  /** What a call hands out was held by nobody, and is not reserved. */
  lemma StepSafe(s: System, e: Step)
    requires Inv(s)
    ensures Inv(Apply(s, e))
    ensures Handed(s, e) !! s.held && Handed(s, e) !! s.reserved && forall p | p in Handed(s, e) :: p < |s.pmm.bits|
  {
    match e
    case Single => AllocPageIs(s.pmm);
    case Several(count) => AllocPagesIs(s.pmm, count);
    case Free(p) => if p in s.held { FreePageIs(s.pmm, p); }
  }

  ghost function After(s: System, es: seq<Step>): (s': System)
    requires Inv(s)
    ensures Inv(s') && s'.reserved == s.reserved && |s'.pmm.bits| == |s.pmm.bits|
  {
    if es == [] then s
    else
      var before := After(s, es[..|es| - 1]);
      StepSafe(before, es[|es| - 1]);
      Apply(before, es[|es| - 1])
  }
}
