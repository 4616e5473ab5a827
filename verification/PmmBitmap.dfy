/** The bitmap as it is kept: eight pages to a byte, searched and updated in place. */
module PmmBitmap {
  import opened Wrappers
  import opened PmmModel

  function Mask(i: nat): bv8
    requires i < 8
  {
    match i
    case 0 => 0x01
    case 1 => 0x02
    case 2 => 0x04
    case 3 => 0x08
    case 4 => 0x10
    case 5 => 0x20
    case 6 => 0x40
    case 7 => 0x80
  }

  predicate Bit(b: bv8, i: nat)
    requires i < 8
  {
    b & Mask(i) != 0
  }

  lemma SetBit(b: bv8, i: nat, j: nat)
    requires i < 8 && j < 8
    ensures Bit(b | Mask(i), j) == (i == j || Bit(b, j))
  {
  }

  lemma ClearBit(b: bv8, i: nat, j: nat)
    requires i < 8 && j < 8
    ensures Bit(b & !Mask(i), j) == (i != j && Bit(b, j))
  {
  }

  /** The pages `total` of them, one bit each. */
  ghost function Bits(bytes: seq<bv8>, total: nat): (bits: seq<bool>)
    requires total <= 8 * |bytes|
    ensures |bits| == total && forall p | 0 <= p < total :: bits[p] == Bit(bytes[p / 8], p % 8)
  {
    seq(total, p requires 0 <= p < total => Bit(bytes[p / 8], p % 8))
  }

  lemma OneBitChanges(bytes: seq<bv8>, total: nat, p: nat, b: bv8, v: bool)
    requires p < total <= 8 * |bytes|
    requires forall j | 0 <= j < 8 :: Bit(b, j) == if j == p % 8 then v else Bit(bytes[p / 8], j)
    ensures Bits(bytes[p / 8 := b], total) == Bits(bytes, total)[p := v]
  {
    var after, before := Bits(bytes[p / 8 := b], total), Bits(bytes, total)[p := v];
    forall q | 0 <= q < total ensures after[q] == before[q] {
      if q / 8 == p / 8 && q != p { assert q % 8 != p % 8; }
    }
  }

  /** Usable memory, in whole pages. */
  datatype Region = Region(start: nat, count: nat)

  class PageBitmap {
    const bitmap: array<bv8>
    const total: nat
    var freePages: nat
    var cursor: nat

    ghost predicate Sized()
      reads this
    {
      total <= 8 * bitmap.Length && total > 0
    }

    ghost function View(): Pmm
      requires Sized()
      reads this, bitmap
    {
      Pmm(Bits(bitmap[..], total), freePages, cursor)
    }

    constructor (total: nat)
      requires total > 0
      ensures Sized() && fresh(bitmap) && this.total == total && View() == Pmm(seq(total, _ => true), 0, 0)
    {
      bitmap := new bv8[(total + 7) / 8](_ => 0xFF);
      this.total, freePages, cursor := total, 0, 0;
      new;
      forall p | 0 <= p < total ensures Bits(bitmap[..], total)[p] { AllSet(p % 8); }
      assert Bits(bitmap[..], total) == seq(total, _ => true);
    }

    method FreeRegion(regions: seq<Region>, n: nat)
      requires Sized() && n < |regions| && RegionsOk(regions, total) && FreeIn(View(), regions, n)
      modifies this`freePages, bitmap
      ensures FreeIn(View(), regions, n + 1)
    {
      var r := regions[n];
      assert r in regions;
      ghost var bits := View().bits;
      forall p: nat | InRegion(r, p) ensures bits[p] { NotYet(regions, n, p); }
      var p := r.start;
      while p < r.start + r.count
        invariant r.start <= p <= r.start + r.count && cursor == 0 && freePages == PmmModel.Clear(View().bits)
        invariant forall q | 0 <= q < total :: View().bits[q] == if r.start <= q < p then false else bits[q]
      {
        ClearAfter(View().bits, p, false);
        Clear(p);
        freePages := freePages + 1;
        p := p + 1;
      }
      forall q: nat | q < total ensures View().bits[q] <==> !InAny(regions[..n + 1], q) { InOneMore(regions, n, q); }
    }

    method ClawOne(p: nat)
      requires Sized() && p < total && freePages == PmmModel.Clear(View().bits)
      modifies this`freePages, bitmap
      ensures freePages == PmmModel.Clear(View().bits) && View().bits == old(View()).bits[p := true]
    {
      ClearAfter(View().bits, p, true);
      var used := Test(p);
      if !used {
        Set(p);
        freePages := freePages - 1;
      }
    }

    /** Marks pages used that are not yet, keeping the count. */
    method ClawBack(own: Region)
      requires Sized() && own.start + own.count <= total && freePages == PmmModel.Clear(View().bits)
      modifies this`freePages, bitmap
      ensures freePages == PmmModel.Clear(View().bits) && View().bits == SetRun(old(View()).bits, own.start, own.count)
    {
      ghost var bits := View().bits;
      assert SetRun(bits, own.start, 0) == bits;
      var i := 0;
      while i < own.count
        invariant 0 <= i <= own.count && freePages == PmmModel.Clear(View().bits)
                  && View().bits == SetRun(bits, own.start, i)
      {
        SetRunNext(bits, own.start, i);
        ClawOne(own.start + i);
        i := i + 1;
      }
    }

    /** `own` are the pages the bitmap itself is parked in. */
    method Init(regions: seq<Region>, own: Region)
      requires Sized() && RegionsOk(regions, total) && own.start + own.count <= total
      requires View() == Pmm(seq(total, _ => true), 0, 0)
      modifies this`freePages, bitmap
      ensures Started(View(), regions, own)
    {
      NothingClear(View().bits);
      assert regions[..0] == [];
      var n := 0;
      while n < |regions|
        invariant 0 <= n <= |regions| && FreeIn(View(), regions, n)
      {
        FreeRegion(regions, n);
        n := n + 1;
      }
      assert regions[..n] == regions;
      ClawBack(own);
      ClawBack(Region(0, 1));
    }

    method Test(p: nat) returns (b: bool)
      requires Sized() && p < total
      ensures b == View().bits[p]
    {
      b := Bit(bitmap[p / 8], p % 8);
    }

    method Set(p: nat)
      requires Sized() && p < total
      modifies bitmap
      ensures View() == old(View()).(bits := old(View().bits)[p := true])
    {
      ghost var was := bitmap[..];
      var b := bitmap[p / 8] | Mask(p % 8);
      forall j | 0 <= j < 8
        ensures Bit(b, j) == if j == p % 8 then true else Bit(was[p / 8], j)
      {
        SetBit(was[p / 8], p % 8, j);
      }
      OneBitChanges(was, total, p, b, true);
      bitmap[p / 8] := b;
      assert bitmap[..] == was[p / 8 := b];
    }

    method Clear(p: nat)
      requires Sized() && p < total
      modifies bitmap
      ensures View() == old(View()).(bits := old(View().bits)[p := false])
    {
      ghost var was := bitmap[..];
      var b := bitmap[p / 8] & !Mask(p % 8);
      forall j | 0 <= j < 8
        ensures Bit(b, j) == if j == p % 8 then false else Bit(was[p / 8], j)
      {
        ClearBit(was[p / 8], p % 8, j);
      }
      OneBitChanges(was, total, p, b, false);
      bitmap[p / 8] := b;
      assert bitmap[..] == was[p / 8 := b];
    }

    method TakePage(p: nat)
      requires Sized() && p < total
      modifies this`freePages, this`cursor, bitmap
      ensures View() == Pmm(old(View()).bits[p := true], Monus(old(freePages), 1), p + 1)
    {
      Set(p);
      freePages := if freePages > 0 then freePages - 1 else 0;
      cursor := p + 1;
    }

    /** The first free page in a range, taken. */
    method TryAllocFrom(start: nat, end: nat) returns (addr: nat)
      requires Sized() && end <= total
      modifies this`freePages, this`cursor, bitmap
      ensures var p := FirstClear(old(View()).bits, start, end);
              if p.None? then addr == 0 && View() == old(View())
              else
                && addr == p.value * PAGE_SIZE
                && View() == Pmm(old(View()).bits[p.value := true], Monus(old(freePages), 1), p.value + 1)
    {
      var p := FindClear(start, end);
      if p.None? { return 0; }
      TakePage(p.value);
      addr := p.value * PAGE_SIZE;
    }

    method FindClear(start: nat, end: nat) returns (found: Option<nat>)
      requires Sized() && end <= total
      ensures found == FirstClear(View().bits, start, end)
    {
      ghost var bits := View().bits;
      var p := start;
      while p < end
        invariant start <= p && FirstClear(bits, p, end) == FirstClear(bits, start, end)
        decreases Monus(end, p)
      {
        var used := Test(p);
        if !used { return Some(p); }
        p := p + 1;
      }
      found := None;
    }

    method AllocPage() returns (addr: nat)
      requires Sized() && Ok(View())
      modifies this`freePages, this`cursor, bitmap
      ensures (addr, View()) == PmmModel.AllocPage(old(View()))
    {
      addr := TryAllocFrom(cursor, total);
      if addr != 0 || cursor == 0 { return; }
      addr := TryAllocFrom(0, cursor);
    }

    method FreePage(phys: nat)
      requires Sized()
      modifies this`freePages, bitmap
      ensures View() == PmmModel.FreePage(old(View()), phys)
    {
      var p := phys / PAGE_SIZE;
      if p >= total { return; }
      var used := Test(p);
      if !used { return; }
      Clear(p);
      freePages := freePages + 1;
    }

    /** Takes a run of pages, one bit at a time. */
    method SetAll(start: nat, count: nat)
      requires Sized() && start + count <= total
      modifies bitmap
      ensures View() == old(View()).(bits := SetRun(old(View()).bits, start, count))
    {
      ghost var m := View();
      assert SetRun(m.bits, start, 0) == m.bits;
      var i := 0;
      while i < count
        invariant 0 <= i <= count && View() == m.(bits := SetRun(m.bits, start, i))
      {
        Set(start + i);
        assert SetRun(m.bits, start, i + 1) == SetRun(m.bits, start, i)[start + i := true];
        i := i + 1;
      }
    }

    /** The run of free pages that ends with page `p`. */
    method CountPage(count: nat, p: nat, run: nat) returns (more: nat)
      requires Sized() && p < total && run < count && run <= p && Counted(View().bits, count, p, run)
      ensures more <= count && more <= p + 1 && (more < count ==> Counted(View().bits, count, p + 1, more))
      ensures more == count ==> LowestRun(View().bits, count, 0) == Some(p + 1 - count)
    {
      var used := Test(p);
      CountOne(View().bits, count, p, run);
      more := if used then 0 else run + 1;
    }

    /** The end of the first run of `count` free pages, counting as it goes. */
    method FindRun(count: nat) returns (start: Option<nat>)
      requires Sized() && count > 0
      ensures start == LowestRun(View().bits, count, 0)
    {
      ghost var bits := View().bits;
      var run: nat, p: nat := 0, 0;
      while p < total
        invariant 0 <= p <= total && run < count && run <= p && Counted(bits, count, p, run)
      {
        run := CountPage(count, p, run);
        p := p + 1;
        if run == count { return Some(p - count); }
      }
      NoRun(bits, count, run);
      start := None;
    }

    method AllocPages(count: nat) returns (addr: nat)
      requires Sized()
      modifies this`freePages, bitmap
      ensures (addr, View()) == PmmModel.AllocPages(old(View()), count)
    {
      if count == 0 { return 0; }
      if count > total { NoneSoLong(View().bits, count); return 0; }
      var start := FindRun(count);
      if start.None? { return 0; }
      SetAll(start.value, count);
      freePages := if freePages >= count then freePages - count else 0;
      addr := start.value * PAGE_SIZE;
    }
  }

  ghost predicate InRegion(r: Region, p: nat) { r.start <= p < r.start + r.count }

  ghost predicate InAny(regions: seq<Region>, p: nat) { exists i | 0 <= i < |regions| :: InRegion(regions[i], p) }

  /** What the boot loader promises: usable regions are in range and do not overlap. */
  ghost predicate RegionsOk(regions: seq<Region>, total: nat) {
    && (forall r | r in regions :: r.start + r.count <= total)
    && forall i, j, p: nat | 0 <= i < j < |regions| && InRegion(regions[i], p) :: !InRegion(regions[j], p)
  }

  /** Pages are free exactly in the first `n` regions. */
  ghost predicate FreeIn(m: Pmm, regions: seq<Region>, n: nat)
    requires n <= |regions|
  {
    m.free == PmmModel.Clear(m.bits) && m.cursor == 0
        && forall p: nat | p < |m.bits| :: m.bits[p] <==> !InAny(regions[..n], p)
  }

  /** After start-up: free are the usable pages, but for the bitmap's own and page 0. */
  ghost predicate Started(m: Pmm, regions: seq<Region>, own: Region) {
    Ok(m) && forall p: nat | p < |m.bits| :: !m.bits[p] <==> InAny(regions, p) && !InRegion(own, p) && p != 0
  }

  lemma AllSet(i: nat)
    requires i < 8
    ensures Bit(0xFF, i)
  {
  }

  lemma SetRunNext(bits: seq<bool>, start: nat, i: nat)
    requires start + i < |bits|
    ensures SetRun(bits, start, i + 1) == SetRun(bits, start, i)[start + i := true]
  {
  }

  lemma NothingClear(bits: seq<bool>)
    requires forall p | 0 <= p < |bits| :: bits[p]
    ensures PmmModel.Clear(bits) == 0
  {
    ClearMeans(bits);
  }

  lemma NotYet(regions: seq<Region>, n: nat, p: nat)
    requires n < |regions| && InRegion(regions[n], p)
    requires forall i, j, p: nat | 0 <= i < j < |regions| && InRegion(regions[i], p) :: !InRegion(regions[j], p)
    ensures !InAny(regions[..n], p)
  {
  }

  lemma InOneMore(regions: seq<Region>, n: nat, p: nat)
    requires n < |regions|
    ensures InAny(regions[..n + 1], p) <==> InAny(regions[..n], p) || InRegion(regions[n], p)
  {
    var more, less := regions[..n + 1], regions[..n];
    if InAny(less, p) {
      var i :| 0 <= i < |less| && InRegion(less[i], p);
      assert InRegion(more[i], p);
    }
    if InRegion(regions[n], p) { assert InRegion(more[n], p); }
    if InAny(more, p) {
      var i :| 0 <= i < |more| && InRegion(more[i], p);
      if i < n { assert InRegion(less[i], p); }
    }
  }

  /** The last `run` pages before `p` are free, the one before them is not, and no long enough run ended yet. */
  ghost predicate Counted(bits: seq<bool>, count: nat, p: nat, run: nat)
    requires run <= p <= |bits|
  {
    && (forall q | p - run <= q < p :: !bits[q])
    && (run < p ==> bits[p - run - 1])
    && forall s: nat | s + count <= p :: !Run(bits, s, count)
  }

  lemma CountedNext(bits: seq<bool>, count: nat, p: nat, run: nat)
    requires p < |bits| && run < count && run <= p && Counted(bits, count, p, run)
    ensures bits[p] ==> Counted(bits, count, p + 1, 0)
    ensures !bits[p] && run + 1 < count ==> Counted(bits, count, p + 1, run + 1)
    ensures !bits[p] && run + 1 == count
            ==> Run(bits, p + 1 - count, count) && forall s: nat | s < p + 1 - count :: !Run(bits, s, count)
  {
    forall s: nat | s + count == p + 1 && (bits[p] || run + 1 < count) ensures !Run(bits, s, count) {
      if !bits[p] { assert bits[p - run - 1]; }
    }
  }

  lemma LowestIs(bits: seq<bool>, count: nat, start: nat)
    requires Run(bits, start, count) && forall s: nat | s < start :: !Run(bits, s, count)
    ensures LowestRun(bits, count, 0) == Some(start)
  {
  }

  /** One more page counted: the run goes on, starts over, or is the lowest there is. */
  lemma CountOne(bits: seq<bool>, count: nat, p: nat, run: nat)
    requires p < |bits| && run < count && run <= p && Counted(bits, count, p, run)
    ensures bits[p] ==> Counted(bits, count, p + 1, 0)
    ensures !bits[p] && run + 1 < count ==> Counted(bits, count, p + 1, run + 1)
    ensures !bits[p] && run + 1 == count ==> LowestRun(bits, count, 0) == Some(p + 1 - count)
  {
    CountedNext(bits, count, p, run);
    if !bits[p] && run + 1 == count { LowestIs(bits, count, p + 1 - count); }
  }

  lemma NoRun(bits: seq<bool>, count: nat, run: nat)
    requires run < count && run <= |bits| && Counted(bits, count, |bits|, run)
    ensures LowestRun(bits, count, 0) == None
  {
  }

  lemma NoneSoLong(bits: seq<bool>, count: nat)
    requires count > |bits|
    ensures LowestRun(bits, count, 0) == None
  {
  }

  // From start-up on.

  /** Start-up leaves a state in which everything in use is reserved and nothing is held. */
  ghost function Booted(m: Pmm): System { System(m, {}, set p: nat | p < |m.bits| && m.bits[p]) }

  lemma StartedIsInv(m: Pmm, regions: seq<Region>, own: Region)
    requires Started(m, regions, own)
    ensures Inv(Booted(m))
  {
  }

  /**
   * In every run from start-up: the free count is the number of clear bits, what callers hold are usable pages,
   * never page 0 nor the bitmap's own, and the next call hands out nothing that anybody holds.
   */
  lemma EveryRunCountsRight(m: Pmm, regions: seq<Region>, own: Region, es: seq<Step>, e: Step)
    requires Started(m, regions, own)
    ensures Inv(Booted(m))
    ensures var s := After(Booted(m), es);
            && s.pmm.free == PmmModel.Clear(s.pmm.bits) && Handed(s, e) !! s.held
            && forall p | p in s.held + Handed(s, e) :: p < |m.bits| && InAny(regions, p) && !InRegion(own, p) && p != 0
  {
    StartedIsInv(m, regions, own);
    var s := After(Booted(m), es);
    StepSafe(s, e);
    forall p | p in s.held + Handed(s, e) ensures p < |m.bits| && InAny(regions, p) && !InRegion(own, p) && p != 0 {
      assert p !in s.reserved;
    }
  }

  // The boot loader's memory map.

  datatype Kind = Usable | Reclaimable | Other

  datatype MapEntry = MapEntry(kind: Kind, region: Region)

  function End(r: Region): nat { r.start + r.count }

  predicate Counts(e: MapEntry) { e.kind.Usable? || e.kind.Reclaimable? }

  function Usables(entries: seq<MapEntry>): (rs: seq<Region>)
    ensures forall r :: r in rs <==> MapEntry(Usable, r) in entries
  {
    if entries == [] then []
    else
      var e := entries[|entries| - 1];
      Usables(entries[..|entries| - 1]) + if e.kind.Usable? then [e.region] else []
  }

  /** The boot loader's promise: page-aligned regions, not empty, the usable ones apart. */
  ghost predicate MapOk(entries: seq<MapEntry>) {
    && (forall i | 0 <= i < |entries| :: entries[i].region.count > 0)
    && forall i, j, p: nat | 0 <= i < j < |Usables(entries)| && InRegion(Usables(entries)[i], p) ::
       !InRegion(Usables(entries)[j], p)
  }

  /** How many pages there are: up to the end of the highest region that is or will be memory. */
  function TotalPages(entries: seq<MapEntry>): (total: nat)
    ensures forall i | 0 <= i < |entries| && Counts(entries[i]) :: End(entries[i].region) <= total
    ensures total == 0 || exists i :: 0 <= i < |entries| && Counts(entries[i]) && End(entries[i].region) == total
  {
    if entries == [] then 0
    else
      var e, below := entries[|entries| - 1], TotalPages(entries[..|entries| - 1]);
      if Counts(e) && End(e.region) > below then End(e.region) else below
  }

  method CountPages(entries: seq<MapEntry>) returns (total: nat)
    ensures total == TotalPages(entries)
  {
    total := 0;
    for n := 0 to |entries|
      invariant total == TotalPages(entries[..n])
    {
      assert entries[..n + 1][..n] == entries[..n];
      if Counts(entries[n]) && End(entries[n].region) > total { total := End(entries[n].region); }
    }
    assert entries[..|entries|] == entries;
  }

  function Bytes(total: nat): nat { (total + 7) / 8 }

  /** The pages the bitmap takes at the start of a region. */
  function Parked(r: Region, total: nat): Region { Region(r.start, (Bytes(total) + PAGE_SIZE - 1) / PAGE_SIZE) }

  predicate Holds(e: MapEntry, total: nat) { e.kind.Usable? && e.region.count * PAGE_SIZE >= Bytes(total) }

  /** The first usable region that can hold the bitmap. */
  method FindPlace(entries: seq<MapEntry>, total: nat) returns (place: Option<Region>)
    ensures place.None? <==> forall i | 0 <= i < |entries| :: !Holds(entries[i], total)
    ensures place.Some?
            ==> exists n :: 0 <= n < |entries| && Holds(entries[n], total) && entries[n].region == place.value
                                     && forall i | 0 <= i < n :: !Holds(entries[i], total)
  {
    for n := 0 to |entries|
      invariant forall i | 0 <= i < n :: !Holds(entries[i], total)
    {
      if Holds(entries[n], total) { return Some(entries[n].region); }
    }
    place := None;
  }

  lemma ParkedFits(r: Region, total: nat)
    requires r.count * PAGE_SIZE >= Bytes(total)
    ensures Parked(r, total).count <= r.count
  {
  }

  lemma UsablesOk(entries: seq<MapEntry>, total: nat)
    requires MapOk(entries) && forall i | 0 <= i < |entries| && Counts(entries[i]) :: End(entries[i].region) <= total
    ensures RegionsOk(Usables(entries), total)
  {
    forall r | r in Usables(entries) ensures r.start + r.count <= total {
      var i :| 0 <= i < |entries| && entries[i] == MapEntry(Usable, r);
      assert Counts(entries[i]);
    }
  }

  /**
   * init(): no allocator when there is nowhere to put the bitmap, else one with exactly the usable pages free, less its
   * own and page 0.
   */
  method Boot(entries: seq<MapEntry>) returns (b: PageBitmap?, own: Region)
    requires MapOk(entries)
    ensures b != null ==>
              && fresh(b) && fresh(b.bitmap) && b.Sized() && Started(b.View(), Usables(entries), own)
              && exists n ::
                   && 0 <= n < |entries| && Holds(entries[n], b.total) && own == Parked(entries[n].region, b.total)
                   && own.count <= entries[n].region.count && forall i | 0 <= i < n :: !Holds(entries[i], b.total)
    ensures b != null ==> b.total == TotalPages(entries)
    ensures b == null <==> forall i | 0 <= i < |entries| :: !Holds(entries[i], TotalPages(entries))
  {
    b, own := null, Region(0, 0);
    var total := CountPages(entries);
    var place := FindPlace(entries, total);
    if place.None? { return; }
    ghost var n :| 0 <= n < |entries| && Holds(entries[n], total) && entries[n].region == place.value
                && forall i | 0 <= i < n :: !Holds(entries[i], total);
    assert Counts(entries[n]);
    own := Parked(place.value, total);
    ParkedFits(place.value, total);
    UsablesOk(entries, total);
    b := new PageBitmap(total);
    b.Init(Usables(entries), own);
  }
}
