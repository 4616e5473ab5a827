/** Which page an address is on, and who may use it: the processor takes the user and write bits of every level. */
module VmmAccess {
  import opened Wrappers
  import opened VmmModel
  import opened VmmProofs
  import opened VmmClone

  // Rights.

  const WRITABLE := 2
  const USER := 4

  predicate Bit(low: nat, bit: nat)
    requires bit > 0
  {
    low / bit % 2 == 1
  }

  /** Every entry on the way to the page, the leaf included, has the bit. */
  predicate Allowed(m: Mem, t: nat, path: Path, bit: nat)
    requires |path| > 0 && bit > 0
    decreases |path|
  {
    var e := Entry(m, t, path[0]);
    e.Present? && Bit(e.low, bit) && (|path| == 1 || Allowed(m, e.frame, path[1..], bit))
  }

  /** Every table there is on the way has the bit. */
  predicate Open(m: Mem, t: nat, path: Path, bit: nat)
    requires |path| > 0 && bit > 0
    decreases |path|
  {
    var e := Entry(m, t, path[0]);
    |path| == 1 || e.Absent? || (Bit(e.low, bit) && Open(m, e.frame, path[1..], bit))
  }

  /** Through open tables the leaf's own bit decides. */
  lemma {:induction false} LeafDecides(m: Mem, t: nat, path: Path, bit: nat)
    requires |path| > 0 && bit > 0 && Open(m, t, path, bit)
    ensures Allowed(m, t, path, bit) <==> Lookup(m, t, path).Present? && Bit(Lookup(m, t, path).low, bit)
    decreases |path|
  {
    var e := Entry(m, t, path[0]);
    if |path| > 1 && e.Present? { LeafDecides(m, e.frame, path[1..], bit); }
  }

  // Mapping keeps tables open.

  lemma {:induction false} OpenKept(m: Mem, m': Mem, t: nat, level: nat, path: Path, bit: nat)
    requires level > 0 && PathOk(m, path, level) && SameTables(m, m', Under(m, t, level)) && bit > 0
    ensures Open(m', t, path, bit) <==> Open(m, t, path, bit)
    decreases level
  {
    EntryKept(m, m', t, level, path[0]);
    var e := Entry(m, t, path[0]);
    if level > 1 && e.Present? {
      EntryIsUnder(m, t, level, Span(m, level), path[0]);
      assert PathOk(m, path[1..], level - 1);
      OpenKept(m, m', e.frame, level - 1, path[1..], bit);
    }
  }

  lemma OpenStays(m: Mem, t: nat, level: nat, i: nat, q: Path, m1: Mem, bit: nat)
    requires level > 1 && Tree(m, t, level) && i < Span(m, level) && PathOk(m, q, level) && Opens(m, t, i, m1)
    requires (bit == USER || bit == WRITABLE) && Open(m, t, q, bit)
    ensures Open(m1, t, q, bit)
  {
    assert PathOk(m, q[1..], level - 1);
    if Entry(m, t, i).Absent? {
      var f :| f in m.free && m1 == WithTable(m, t, i, f);
      NewTable(m, t, level, i, f);
      if q[0] != i {
        AttachOther(m, m1, t, level, i, Present(f, TABLE_FLAGS, 0), q[0]);
        if Entry(m, t, q[0]).Present? { OpenKept(m, m1, Entry(m, t, q[0]).frame, level - 1, q[1..], bit); }
      }
    }
  }

  lemma {:induction false} MapKeepsOpen(m: Mem, t: nat, level: nat, path: Path, e: Pte, q: Path, m': Mem, bit: nat)
    requires level > 0 && Tree(m, t, level) && PathOk(m, path, level) && PathOk(m, q, level) && Maps(m, t, path, e, m')
    requires (bit == USER || bit == WRITABLE) && Open(m, t, q, bit)
    ensures Open(m', t, q, bit)
    decreases level, 1
  {
    if level > 1 {
      var m1 := MapsDown(m, t, level, path, e, m');
      OpenStays(m, t, level, path[0], q, m1, bit);
      OpenBelow(m1, t, level, path, e, q, m', bit);
    }
  }

  lemma {:induction false} OpenBelow(m: Mem, t: nat, level: nat, path: Path, e: Pte, q: Path, m': Mem, bit: nat)
    requires level > 1 && Tree(m, t, level) && PathOk(m, path, level) && PathOk(m, q, level)
    requires Entry(m, t, path[0]).Present? && Maps(m, Entry(m, t, path[0]).frame, path[1..], e, m')
    requires (bit == USER || bit == WRITABLE) && Open(m, t, q, bit)
    ensures Open(m', t, q, bit)
    decreases level, 0
  {
    var c := Entry(m, t, path[0]).frame;
    assert PathOk(m, path[1..], level - 1) && PathOk(m, q[1..], level - 1);
    TouchesBelow(m, t, level, path, e, m');
    if q[0] == path[0] {
      SameTop(m, m', t, level, path[0]);
      MapKeepsOpen(m, c, level - 1, path[1..], e, q[1..], m', bit);
    } else {
      OthersKept(m, m', t, level, path[0], q[0]);
      if Entry(m, t, q[0]).Present? { OpenKept(m, m', Entry(m, t, q[0]).frame, level - 1, q[1..], bit); }
    }
  }

  /**
   * In a tree of open tables a page just mapped may be used, and written, from ring 3 if and only if the flags it was
   * mapped with say so; for any other page nothing changes.
   */
  lemma MapGrants(m: Mem, t: nat, path: Path, e: Pte, q: Path, m': Mem, bit: nat)
    requires Tree(m, t, LEVELS) && PathOk(m, path, LEVELS) && PathOk(m, q, LEVELS) && Maps(m, t, path, e, m')
    requires (bit == USER || bit == WRITABLE) && Open(m, t, q, bit)
    ensures Open(m', t, q, bit)
    ensures Allowed(m', t, q, bit) <==> if q == path then e.Present? && Bit(e.low, bit) else Allowed(m, t, q, bit)
  {
    MapKeepsOpen(m, t, LEVELS, path, e, q, m', bit);
    MapTranslates(m, t, LEVELS, path, e, q, m');
    LeafDecides(m, t, q, bit);
    LeafDecides(m', t, q, bit);
  }

  /** A new address space has open tables in its user half: it has none. */
  lemma NewIsOpen(m: Mem, kernelHalf: seq<Pte>, f: nat, q: Path, bit: nat)
    requires f in m.free && m.top == USER_ENTRIES && |kernelHalf| == USER_ENTRIES && bit > 0
    requires PathOk(NewSpace(m, kernelHalf, f), q, LEVELS)
    ensures Open(NewSpace(m, kernelHalf, f), f, q, bit) && !Allowed(NewSpace(m, kernelHalf, f), f, q, bit)
  {
    assert q[0] < USER_ENTRIES;
  }

  // Cloning.

  lemma {:induction false} SameTablesOpen(m: Mem, m1: Mem, t: nat, q: Path, bit: nat)
    requires m1.tables == m.tables && |q| > 0 && bit > 0
    ensures Open(m1, t, q, bit) <==> Open(m, t, q, bit)
    decreases |q|
  {
    var e := Entry(m, t, q[0]);
    if |q| > 1 && e.Present? { SameTablesOpen(m, m1, e.frame, q[1..], bit); }
  }

  lemma CloneStepOpen(m: Mem, dst: nat, leaf: Leaf, q: Path, m': Mem, bit: nat)
    requires Tree(m, dst, LEVELS) && PathOk(m, leaf.path, LEVELS) && PathOk(m, q, LEVELS)
             && CloneGives(m, dst, leaf, m')
    requires (bit == USER || bit == WRITABLE) && Open(m, dst, q, bit)
    ensures Open(m', dst, q, bit)
  {
    var f :| ClonesOnto(m, dst, leaf, f, m');
    var m1 := TakeFrame(m, dst, f, PageData(m, leaf.pte.frame));
    SameTablesOpen(m, m1, dst, q, bit);
    MapKeepsOpen(m1, dst, LEVELS, leaf.path, Present(f, leaf.pte.low, 0), q, m', bit);
  }

  lemma {:induction false} CloneKeepsOpen(m0: Mem, src: nat, dst: nat, leaves: seq<Leaf>, ms: seq<Mem>, k: nat, q: Path,
      bit: nat)
    requires Source(m0, src, leaves) && Reached(m0, m0, dst, leaves, 0) && Clones(m0, dst, leaves, ms) && k < |ms|
    requires PathOk(m0, q, LEVELS) && (bit == USER || bit == WRITABLE) && Open(m0, dst, q, bit)
    ensures Reached(m0, ms[k], dst, leaves, k) && Open(ms[k], dst, q, bit)
  {
    if k > 0 {
      CloneKeepsOpen(m0, src, dst, leaves, ms, k - 1, q, bit);
      assert CloneAt(dst, leaves, ms, k - 1);
      ReachedNext(m0, src, dst, leaves, ms, k - 1);
      assert Cloned(m0, ms[k - 1], dst, leaves, k - 1);
      SourceLeaf(m0, src, leaves, k - 1);
      CloneStepOpen(ms[k - 1], dst, leaves[k - 1], q, ms[k], bit);
    }
  }

  lemma CloneIsOpen(m: Mem, src: nat, kernelHalf: seq<Pte>, m0: Mem, dst: nat, ms: seq<Mem>, q: Path, bit: nat)
    requires dst in m.free && m.top == USER_ENTRIES && |kernelHalf| == USER_ENTRIES
    requires m0 == NewSpace(m, kernelHalf, dst) && Tree(m, src, LEVELS) && PathOk(m0, q, LEVELS)
    requires Clones(m0, dst, Leaves(m0, src, LEVELS), ms) && (bit == USER || bit == WRITABLE)
    ensures Open(ms[|ms| - 1], dst, q, bit)
  {
    var leaves := Leaves(m0, src, LEVELS);
    NewIsOpen(m, kernelHalf, dst, q, bit);
    NewSpaceIs(m, kernelHalf, m0, dst);
    SourceKept(m, src, kernelHalf, m0, dst);
    StartCloned(m0, dst, leaves);
    CloneKeepsOpen(m0, src, dst, leaves, ms, |ms| - 1, q, bit);
  }

  lemma SameRights(m0: Mem, src: nat, last: Mem, dst: nat, q: Path, bit: nat)
    requires PathOk(last, q, LEVELS) && bit > 0 && SamePage(m0, src, last, dst, q)
    requires Open(m0, src, q, bit) && Open(last, dst, q, bit)
    ensures Allowed(last, dst, q, bit) <==> Allowed(m0, src, q, bit)
  {
    LeafDecides(m0, src, q, bit);
    LeafDecides(last, dst, q, bit);
  }

  /** A finished clone of a space with open tables: ring 3 may use and write exactly the pages it may in the source. */
  lemma CloneGrants(m: Mem, src: nat, kernelHalf: seq<Pte>, m0: Mem, dst: nat, ms: seq<Mem>, q: Path, bit: nat)
    requires dst in m.free && m.top == USER_ENTRIES && |kernelHalf| == USER_ENTRIES
    requires m0 == NewSpace(m, kernelHalf, dst) && Tree(m, src, LEVELS) && PathOk(m0, q, LEVELS)
    requires Clones(m0, dst, Leaves(m0, src, LEVELS), ms) && |ms| == |Leaves(m0, src, LEVELS)| + 1
    requires (bit == USER || bit == WRITABLE) && Open(m0, src, q, bit)
    ensures Allowed(ms[|ms| - 1], dst, q, bit) <==> Allowed(m0, src, q, bit)
  {
    CloneIsFaithful(m, src, kernelHalf, m0, dst, ms);
    CloneIsOpen(m, src, kernelHalf, m0, dst, ms, q, bit);
    SameRights(m0, src, ms[|ms| - 1], dst, q, bit);
  }

  // Addresses.

  /** What walk_create() takes apart: nine bits a level, over twelve for the place in the page. */
  function PathOf(virt: nat): (path: Path)
    ensures |path| == LEVELS && forall i | 0 <= i < LEVELS :: path[i] < ENTRIES
  {
    [virt / 0x80_0000_0000 % ENTRIES, virt / 0x4000_0000 % ENTRIES, virt / 0x20_0000 % ENTRIES, virt / 0x1000 % ENTRIES]
  }

  /** What user_leaves() puts together. */
  function AddressOf(path: Path): nat
    requires |path| == LEVELS
  {
    path[0] * 0x80_0000_0000 + path[1] * 0x4000_0000 + path[2] * 0x20_0000 + path[3] * 0x1000
  }

  lemma Digits(a: nat, b: nat, c: nat, d: nat)
    requires a < ENTRIES && b < ENTRIES && c < ENTRIES && d < ENTRIES
    ensures var v := a * 0x800_0000 + b * 0x4_0000 + c * 0x200 + d;
      v / 0x800_0000 == a && v / 0x4_0000 % ENTRIES == b && v / 0x200 % ENTRIES == c && v % ENTRIES == d
  {
    var v := a * 0x800_0000 + b * 0x4_0000 + c * 0x200 + d;
    assert v / 0x200 == a * 0x4_0000 + b * 0x200 + c;
    assert v / 0x4_0000 == a * 0x200 + b;
  }

  lemma Pages(virt: nat, n: nat)
    requires n > 0
    ensures virt / (0x1000 * n) == virt / 0x1000 / n
  {
    var q, r := virt / 0x1000, virt % 0x1000;
    var a, b := q / n, q % n;
    assert virt == 0x1000 * (n * a + b) + r == (0x1000 * n) * a + (0x1000 * b + r);
    assert 0 <= 0x1000 * b + r < 0x1000 * n;
    Quotient(virt, 0x1000 * n, a, 0x1000 * b + r);
  }

  lemma Quotient(v: nat, d: nat, a: nat, r: nat)
    requires d > 0 && v == d * a + r && r < d
    ensures v / d == a
  {
    var k := v / d - a;
    assert d * k == r - v % d;
    Scaled(d, k);
  }

  lemma Scaled(d: int, k: int)
    requires d > 0
    ensures k >= 1 ==> d * k >= d
    ensures k <= -1 ==> d * k <= -d
  {
  }

  /** The address of a path leads back to it. */
  lemma PathLeadsBack(path: Path)
    requires |path| == LEVELS && forall i | 0 <= i < LEVELS :: path[i] < ENTRIES
    ensures PathOf(AddressOf(path)) == path
  {
    var v := path[0] * 0x800_0000 + path[1] * 0x4_0000 + path[2] * 0x200 + path[3];
    assert AddressOf(path) == 0x1000 * v && AddressOf(path) / 0x1000 == v;
    Parts(AddressOf(path));
    Digits(path[0], path[1], path[2], path[3]);
  }

  lemma Composed(p: nat)
    requires p < 0x10_0000_0000
    ensures p == (p / 0x800_0000 % ENTRIES) * 0x800_0000 + (p / 0x4_0000 % ENTRIES) * 0x4_0000
                 + (p / 0x200 % ENTRIES) * 0x200 + p % ENTRIES
  {
    var a, b := p / 0x200, p / 0x4_0000;
    assert p == 0x200 * a + p % 0x200;
    assert b == a / 0x200 && a == 0x200 * b + a % 0x200;
    assert b / 0x200 == p / 0x800_0000 && b == 0x200 * (b / 0x200) + b % 0x200;
  }

  /** And an address of 48 bits leads, by its path, to the start of its page. */
  lemma AddressLeadsBack(virt: nat)
    requires virt < 0x1_0000_0000_0000
    ensures AddressOf(PathOf(virt)) == virt - virt % 0x1000
  {
    Parts(virt);
    Composed(virt / 0x1000);
  }

  lemma Parts(virt: nat)
    ensures PathOf(virt) == var p := virt / 0x1000;
      [p / 0x800_0000 % ENTRIES, p / 0x4_0000 % ENTRIES, p / 0x200 % ENTRIES, p % ENTRIES]
  {
    Pages(virt, 0x800_0000);
    Pages(virt, 0x4_0000);
    Pages(virt, 0x200);
  }
}
