/** Mapping a page changes exactly one translation. */
module VmmProofs {
  import opened Wrappers
  import opened VmmModel

  lemma {:induction false} EntryIsUnder(m: Mem, t: nat, level: nat, n: nat, i: nat)
    requires level > 0 && i < n
    ensures UnderEntry(m, t, level, i) <= UnderEntries(m, t, level, n)
  {
    if i < n - 1 { EntryIsUnder(m, t, level, n - 1, i); }
  }

  lemma {:induction false} UnderSome(m: Mem, t: nat, level: nat, n: nat, f: nat) returns (i: nat)
    requires level > 0 && f in UnderEntries(m, t, level, n)
    ensures i < n && f in UnderEntry(m, t, level, i)
  {
    if f in UnderEntry(m, t, level, n - 1) { i := n - 1; } else { i := UnderSome(m, t, level, n - 1, f); }
  }

  lemma TopIsUnder(m: Mem, t: nat, level: nat)
    ensures t in Under(m, t, level)
  {
  }

  /** The tables of a tree are the same in another memory. */
  ghost predicate SameTables(m: Mem, m': Mem, fs: set<nat>) {
    m'.top == m.top && forall f | f in fs ::
        (f in m.tables <==> f in m'.tables) && (f in m.tables ==> m'.tables[f] == m.tables[f])
  }

  lemma EntryKept(m: Mem, m': Mem, t: nat, level: nat, i: nat)
    requires SameTables(m, m', Under(m, t, level))
    ensures Entry(m', t, i) == Entry(m, t, i)
  {
    TopIsUnder(m, t, level);
  }

  lemma {:induction false} UnderKept(m: Mem, m': Mem, t: nat, level: nat)
    requires SameTables(m, m', Under(m, t, level))
    ensures Under(m', t, level) == Under(m, t, level)
    decreases level, ENTRIES + 1
  {
    if level > 0 { UnderEntriesKept(m, m', t, level, Span(m, level)); }
  }

  lemma {:induction false} UnderEntriesKept(m: Mem, m': Mem, t: nat, level: nat, n: nat)
    requires level > 0 && n <= Span(m, level) && SameTables(m, m', Under(m, t, level))
    ensures UnderEntries(m', t, level, n) == UnderEntries(m, t, level, n)
    decreases level, n
  {
    if n > 0 {
      UnderEntriesKept(m, m', t, level, n - 1);
      UnderEntryKept(m, m', t, level, n - 1);
    }
  }

  lemma {:induction false} UnderEntryKept(m: Mem, m': Mem, t: nat, level: nat, i: nat)
    requires level > 0 && i < Span(m, level) && SameTables(m, m', Under(m, t, level))
    ensures UnderEntry(m', t, level, i) == UnderEntry(m, t, level, i)
    decreases level, 0
  {
    EntryKept(m, m', t, level, i);
    EntryIsUnder(m, t, level, Span(m, level), i);
    var e := Entry(m, t, i);
    if e.Present? { UnderKept(m, m', e.frame, level - 1); }
  }

  lemma {:induction false} TreeKept(m: Mem, m': Mem, t: nat, level: nat)
    requires Tree(m, t, level) && SameTables(m, m', Under(m, t, level)) && Under(m, t, level) !! m'.free
    ensures Tree(m', t, level)
    decreases level
  {
    TopIsUnder(m, t, level);
    if level > 0 {
      UnderEntriesKept(m, m', t, level, Span(m, level));
      forall i | 0 <= i < Span(m, level)
        ensures Entry(m', t, i) == Entry(m, t, i) && UnderEntry(m', t, level, i) == UnderEntry(m, t, level, i)
      {
        EntryKept(m, m', t, level, i);
        UnderEntryKept(m, m', t, level, i);
      }
      forall i | 0 <= i < Span(m, level) && Entry(m', t, i).Present?
        ensures Tree(m', Entry(m', t, i).frame, level - 1)
      {
        EntryIsUnder(m, t, level, Span(m, level), i);
        TreeKept(m, m', Entry(m, t, i).frame, level - 1);
      }
    }
  }

  lemma {:induction false} LookupKept(m: Mem, m': Mem, t: nat, level: nat, path: Path)
    requires level > 0 && PathOk(m, path, level) && SameTables(m, m', Under(m, t, level))
    ensures Lookup(m', t, path) == Lookup(m, t, path)
    decreases level
  {
    EntryKept(m, m', t, level, path[0]);
    var e := Entry(m, t, path[0]);
    if level > 1 && e.Present? {
      EntryIsUnder(m, t, level, Span(m, level), path[0]);
      assert PathOk(m, path[1..], level - 1);
      LookupKept(m, m', e.frame, level - 1, path[1..]);
    }
  }

  lemma {:induction false} TreeNotFree(m: Mem, t: nat, level: nat)
    requires Tree(m, t, level)
    ensures Under(m, t, level) !! m.free
    decreases level
  {
    if level > 0 {
      forall f | f in UnderEntries(m, t, level, Span(m, level)) ensures f !in m.free {
        var i := UnderSome(m, t, level, Span(m, level), f);
        TreeNotFree(m, Entry(m, t, i).frame, level - 1);
      }
    }
  }

  /** Nothing changed but these frames, and some free ones that were taken. */
  ghost predicate Touches(m: Mem, m': Mem, fs: set<nat>) {
    && m'.free <= m.free && m'.data == m.data && m'.top == m.top
    && forall f | f !in fs && f !in m.free ::
       (f in m.tables <==> f in m'.tables) && (f in m.tables ==> m'.tables[f] == m.tables[f])
  }

  /** The frames under `t` are what they were, the frames taken, and `extra`. */
  ghost predicate Gains(m: Mem, m': Mem, t: nat, level: nat, extra: set<nat>) {
    Under(m', t, level) == Under(m, t, level) + (m.free - m'.free) + extra
  }

  lemma OthersKept(m: Mem, m': Mem, t: nat, level: nat, i: nat, j: nat)
    requires level > 0 && Tree(m, t, level) && i < Span(m, level) && j < Span(m, level) && i != j
             && Entry(m, t, i).Present?
    requires Touches(m, m', Under(m, Entry(m, t, i).frame, level - 1))
    ensures Entry(m', t, j) == Entry(m, t, j) && Entry(m', t, i) == Entry(m, t, i)
    ensures UnderEntry(m', t, level, j) == UnderEntry(m, t, level, j)
    ensures Entry(m, t, j).Present? ==> SameTables(m, m', Under(m, Entry(m, t, j).frame, level - 1))
  {
    EntryIsUnder(m, t, level, Span(m, level), i);
    var e := Entry(m, t, j);
    if e.Present? {
      TreeNotFree(m, e.frame, level - 1);
      assert UnderEntry(m, t, level, i) !! UnderEntry(m, t, level, j);
      UnderKept(m, m', e.frame, level - 1);
    }
  }

  lemma GainsHere(m: Mem, m': Mem, t: nat, level: nat, i: nat, extra: set<nat>, f: nat)
    requires level > 0 && Tree(m, t, level) && i < Span(m, level) && Entry(m, t, i).Present?
    requires Touches(m, m', Under(m, Entry(m, t, i).frame, level - 1))
             && Gains(m, m', Entry(m, t, i).frame, level - 1, extra)
    ensures f in UnderEntry(m', t, level, i) <==> f in UnderEntry(m, t, level, i) || f in m.free - m'.free || f in extra
  {
    EntryIsUnder(m, t, level, Span(m, level), i);
    assert Entry(m', t, i) == Entry(m, t, i);
  }

  lemma GainsAt(m: Mem, m': Mem, t: nat, level: nat, i: nat, extra: set<nat>, f: nat)
    requires level > 0 && Tree(m, t, level) && i < Span(m, level) && Entry(m, t, i).Present?
    requires Touches(m, m', Under(m, Entry(m, t, i).frame, level - 1))
             && Gains(m, m', Entry(m, t, i).frame, level - 1, extra)
    ensures f in UnderEntries(m', t, level, Span(m, level))
       <==> f in UnderEntries(m, t, level, Span(m, level)) || f in m.free - m'.free || f in extra
  {
    var n := Span(m, level);
    GainsHere(m, m', t, level, i, extra, f);
    EntryIsUnder(m, t, level, n, i);
    EntryIsUnder(m', t, level, n, i);
    if f in UnderEntries(m', t, level, n) {
      var j := UnderSome(m', t, level, n, f);
      if j != i { OthersKept(m, m', t, level, i, j); EntryIsUnder(m, t, level, n, j); }
    }
    if f in UnderEntries(m, t, level, n) {
      var j := UnderSome(m, t, level, n, f);
      if j != i { OthersKept(m, m', t, level, i, j); EntryIsUnder(m', t, level, n, j); }
    }
  }

  lemma GainsEntries(m: Mem, m': Mem, t: nat, level: nat, i: nat, extra: set<nat>)
    requires level > 0 && Tree(m, t, level) && i < Span(m, level) && Entry(m, t, i).Present?
    requires Touches(m, m', Under(m, Entry(m, t, i).frame, level - 1))
             && Gains(m, m', Entry(m, t, i).frame, level - 1, extra)
    ensures UnderEntries(m', t, level, Span(m, level))
            == UnderEntries(m, t, level, Span(m, level)) + (m.free - m'.free) + extra
  {
    var now, was := UnderEntries(m', t, level, Span(m, level)),
        UnderEntries(m, t, level, Span(m, level)) + (m.free - m'.free) + extra;
    forall f ensures f in now <==> f in was { GainsAt(m, m', t, level, i, extra, f); }
  }

  /** A change inside one child's tree is a change inside the whole tree. */
  lemma ChildChanged(m: Mem, m': Mem, t: nat, level: nat, i: nat, extra: set<nat>)
    requires level > 0 && Tree(m, t, level) && i < Span(m, level) && Entry(m, t, i).Present?
    requires var c := Entry(m, t, i).frame;
             Touches(m, m', Under(m, c, level - 1)) && Tree(m', c, level - 1) && Gains(m, m', c, level - 1, extra)
    requires extra !! Under(m, t, level) && extra !! m.free
    ensures Tree(m', t, level) && Touches(m, m', Under(m, t, level)) && Gains(m, m', t, level, extra)
  {
    TreeNotFree(m, t, level);
    EntryIsUnder(m, t, level, Span(m, level), i);
    GainsEntries(m, m', t, level, i, extra);
    forall j | 0 <= j < Span(m, level) && Entry(m', t, j).Present? ensures Tree(m', Entry(m', t, j).frame, level - 1) {
      if j != i {
        OthersKept(m, m', t, level, i, j);
        EntryIsUnder(m, t, level, Span(m, level), j);
        TreeKept(m, m', Entry(m, t, j).frame, level - 1);
      }
    }
    forall j, k | 0 <= j < k < Span(m, level) ensures UnderEntry(m', t, level, j) !! UnderEntry(m', t, level, k) {
      ApartStill(m, m', t, level, i, extra, j, k);
    }
  }

  lemma ApartStill(m: Mem, m': Mem, t: nat, level: nat, i: nat, extra: set<nat>, j: nat, k: nat)
    requires level > 0 && Tree(m, t, level) && i < Span(m, level) && Entry(m, t, i).Present? && j < k < Span(m, level)
    requires var c := Entry(m, t, i).frame; Touches(m, m', Under(m, c, level - 1)) && Gains(m, m', c, level - 1, extra)
    requires extra !! Under(m, t, level)
    ensures UnderEntry(m', t, level, j) !! UnderEntry(m', t, level, k)
  {
    TreeNotFree(m, t, level);
    EntryIsUnder(m, t, level, Span(m, level), j);
    EntryIsUnder(m, t, level, Span(m, level), k);
    if j != i { OthersKept(m, m', t, level, i, j); }
    if k != i { OthersKept(m, m', t, level, i, k); }
    assert UnderEntry(m, t, level, j) !! UnderEntry(m, t, level, k);
  }

  // Putting something under an absent entry.

  lemma {:induction false} EmptyUnder(m: Mem, f: nat, level: nat, n: nat)
    requires level > 0 && n <= Span(m, level) && f in m.tables && m.tables[f] == EmptyTable()
    ensures UnderEntries(m, f, level, n) == {}
  {
    if n > 0 { EmptyUnder(m, f, level, n - 1); }
  }

  lemma EmptyTree(m: Mem, f: nat, level: nat)
    requires f in m.tables && m.tables[f] == EmptyTable() && f !in m.free
    ensures Tree(m, f, level) && Under(m, f, level) == {f}
  {
    if level > 0 { EmptyUnder(m, f, level, Span(m, level)); }
  }

  ghost predicate Attaches(m: Mem, m': Mem, t: nat, level: nat, i: nat, e: Pte) {
    && level > 0 && Tree(m, t, level) && i < Span(m, level) && Entry(m, t, i).Absent? && e.Present?
    && Touches(m, m', {t}) && t in m'.tables && m'.tables[t] == m.tables[t][i := e]
    && Tree(m', e.frame, level - 1) && Under(m', e.frame, level - 1) == {e.frame} && e.frame !in Under(m, t, level)
  }

  lemma AttachOther(m: Mem, m': Mem, t: nat, level: nat, i: nat, e: Pte, j: nat)
    requires Attaches(m, m', t, level, i, e) && j < Span(m, level) && j != i
    ensures Entry(m', t, j) == Entry(m, t, j) && UnderEntry(m', t, level, j) == UnderEntry(m, t, level, j)
    ensures Entry(m, t, j).Present? ==> SameTables(m, m', Under(m, Entry(m, t, j).frame, level - 1))
    ensures UnderEntry(m, t, level, j) <= Under(m, t, level)
  {
    EntryIsUnder(m, t, level, Span(m, level), j);
    var d := Entry(m, t, j);
    if d.Present? {
      TreeNotFree(m, d.frame, level - 1);
      UnderKept(m, m', d.frame, level - 1);
    }
  }

  lemma AttachAt(m: Mem, m': Mem, t: nat, level: nat, i: nat, e: Pte, f: nat)
    requires Attaches(m, m', t, level, i, e)
    ensures f in UnderEntries(m', t, level, Span(m, level))
            <==> f in UnderEntries(m, t, level, Span(m, level)) || f == e.frame
  {
    var n := Span(m, level);
    AttachHere(m, m', t, level, i, e);
    EntryIsUnder(m', t, level, n, i);
    if f in UnderEntries(m', t, level, n) {
      var j := UnderSome(m', t, level, n, f);
      if j != i { AttachOther(m, m', t, level, i, e, j); EntryIsUnder(m, t, level, n, j); }
    }
    if f in UnderEntries(m, t, level, n) {
      var j := UnderSome(m, t, level, n, f);
      if j != i { AttachOther(m, m', t, level, i, e, j); EntryIsUnder(m', t, level, n, j); }
    }
  }

  lemma AttachEntries(m: Mem, m': Mem, t: nat, level: nat, i: nat, e: Pte)
    requires Attaches(m, m', t, level, i, e)
    ensures UnderEntries(m', t, level, Span(m, level)) == UnderEntries(m, t, level, Span(m, level)) + {e.frame}
  {
    var now, was := UnderEntries(m', t, level, Span(m, level)), UnderEntries(m, t, level, Span(m, level)) + {e.frame};
    forall f ensures f in now <==> f in was { AttachAt(m, m', t, level, i, e, f); }
  }

  lemma AttachHere(m: Mem, m': Mem, t: nat, level: nat, i: nat, e: Pte)
    requires Attaches(m, m', t, level, i, e)
    ensures UnderEntry(m, t, level, i) == {} && UnderEntry(m', t, level, i) == {e.frame} && Entry(m', t, i) == e
  {
  }

  lemma AttachSafe(m: Mem, m': Mem, t: nat, level: nat, i: nat, e: Pte)
    requires Attaches(m, m', t, level, i, e)
    ensures Tree(m', t, level) && Under(m', t, level) == Under(m, t, level) + {e.frame}
  {
    AttachEntries(m, m', t, level, i, e);
    TopIsUnder(m, t, level);
    forall j | 0 <= j < Span(m, level) && Entry(m', t, j).Present? ensures Tree(m', Entry(m', t, j).frame, level - 1) {
      if j != i {
        AttachOther(m, m', t, level, i, e, j);
        TreeNotFree(m, Entry(m, t, j).frame, level - 1);
        TreeKept(m, m', Entry(m, t, j).frame, level - 1);
      }
    }
    forall j, k | 0 <= j < k < Span(m, level) ensures UnderEntry(m', t, level, j) !! UnderEntry(m', t, level, k) {
      if j != i { AttachOther(m, m', t, level, i, e, j); }
      if k != i { AttachOther(m, m', t, level, i, e, k); }
      assert UnderEntry(m, t, level, j) !! UnderEntry(m, t, level, k);
    }
  }

  lemma NewTable(m: Mem, t: nat, level: nat, i: nat, f: nat)
    requires level > 0 && Tree(m, t, level) && i < Span(m, level) && f in m.free && Entry(m, t, i).Absent?
    ensures WithTable(m, t, i, f).free == m.free - {f}
    ensures Attaches(m, WithTable(m, t, i, f), t, level, i, Present(f, TABLE_FLAGS, 0))
  {
    TreeNotFree(m, t, level);
    TopIsUnder(m, t, level);
    EmptyTree(WithTable(m, t, i, f), f, level - 1);
  }

  lemma TakenGains(m: Mem, m1: Mem, t: nat, level: nat, f: nat)
    requires f in m.free && m1.free == m.free - {f} && Under(m1, t, level) == Under(m, t, level) + {f}
    ensures Gains(m, m1, t, level, {}) && |m1.free| == |m.free| - 1
  {
    assert m.free - m1.free == {f};
  }

  lemma NoGain(m: Mem, t: nat, level: nat)
    ensures Touches(m, m, Under(m, t, level)) && Gains(m, m, t, level, {})
  {
    assert m.free - m.free == {};
  }

  lemma WiderTouch(m: Mem, m': Mem, fs: set<nat>, more: set<nat>)
    requires Touches(m, m', fs) && fs <= more
    ensures Touches(m, m', more)
  {
  }

  lemma NewTableSafe(m: Mem, t: nat, level: nat, i: nat, f: nat)
    requires level > 0 && Tree(m, t, level) && i < Span(m, level) && f in m.free && Entry(m, t, i).Absent?
    ensures var m1 := WithTable(m, t, i, f);
            && Tree(m1, t, level) && Entry(m1, t, i).Present? && Touches(m, m1, Under(m, t, level))
               && Gains(m, m1, t, level, {})
  {
    var m1 := WithTable(m, t, i, f);
    NewTable(m, t, level, i, f);
    AttachSafe(m, m1, t, level, i, Present(f, TABLE_FLAGS, 0));
    TakenGains(m, m1, t, level, f);
    TopIsUnder(m, t, level);
    WiderTouch(m, m1, {t}, Under(m, t, level));
  }

  lemma OpenSafe(m: Mem, t: nat, level: nat, i: nat, m1: Mem)
    requires level > 0 && Tree(m, t, level) && i < Span(m, level) && Opens(m, t, i, m1)
    ensures Tree(m1, t, level) && Entry(m1, t, i).Present? && Touches(m, m1, Under(m, t, level))
            && Gains(m, m1, t, level, {})
  {
    if Entry(m, t, i).Absent? {
      var f :| f in m.free && m1 == WithTable(m, t, i, f);
      NewTableSafe(m, t, level, i, f);
    } else {
      NoGain(m, t, level);
    }
  }

  lemma GainsOn(m: Mem, m1: Mem, m2: Mem, t: nat, level: nat, extra: set<nat>)
    requires Touches(m, m1, Under(m, t, level)) && Gains(m, m1, t, level, {})
    requires Touches(m1, m2, Under(m1, t, level)) && Gains(m1, m2, t, level, extra)
    ensures Touches(m, m2, Under(m, t, level)) && Gains(m, m2, t, level, extra)
  {
  }

  lemma LeafSafe(m: Mem, t: nat, i: nat, e: Pte)
    requires Tree(m, t, 1) && i < Span(m, 1) && Entry(m, t, i).Absent? && e.Present? && e.frame !in Under(m, t, 1)
             && e.frame !in m.free
    ensures var m' := SetEntry(m, t, i, e);
            Tree(m', t, 1) && Touches(m, m', Under(m, t, 1)) && Gains(m, m', t, 1, {e.frame})
  {
    TopIsUnder(m, t, 1);
    AttachSafe(m, SetEntry(m, t, i, e), t, 1, i, e);
  }

  /** The first step of a walk: the memory after it, and the rest of the walk from there. */
  lemma MapsDown(m: Mem, t: nat, level: nat, path: Path, e: Pte, m': Mem) returns (m1: Mem)
    requires level > 1 && Tree(m, t, level) && PathOk(m, path, level) && Maps(m, t, path, e, m')
    ensures Opens(m, t, path[0], m1) && Entry(m1, t, path[0]).Present?
            && Maps(m1, Entry(m1, t, path[0]).frame, path[1..], e, m')
    ensures Tree(m1, t, level) && Touches(m, m1, Under(m, t, level)) && Gains(m, m1, t, level, {})
    ensures PathOk(m1, path, level) && PathOk(m1, path[1..], level - 1)
  {
    m1 :| Opens(m, t, path[0], m1) && Entry(m1, t, path[0]).Present?
        && Maps(m1, Entry(m1, t, path[0]).frame, path[1..], e, m');
    OpenSafe(m, t, level, path[0], m1);
  }

  /** A page mapped where none was keeps a proper tree and takes just the tables it lacked. */
  lemma {:induction false} MapSafe(m: Mem, t: nat, level: nat, path: Path, e: Pte, m': Mem)
    requires level > 0 && Tree(m, t, level) && PathOk(m, path, level) && Lookup(m, t, path).Absent?
             && Maps(m, t, path, e, m')
    requires e.Present? && e.frame !in Under(m, t, level) && e.frame !in m.free
    ensures Tree(m', t, level) && Touches(m, m', Under(m, t, level)) && Gains(m, m', t, level, {e.frame})
    decreases level, 1
  {
    if level == 1 {
      LeafSafe(m, t, path[0], e);
    } else {
      var m1 := MapsDown(m, t, level, path, e, m');
      StillAbsent(m, t, level, path, m1);
      MapBelow(m1, t, level, path, e, m');
      GainsOn(m, m1, m', t, level, {e.frame});
    }
  }

  lemma {:induction false} MapBelow(m: Mem, t: nat, level: nat, path: Path, e: Pte, m': Mem)
    requires level > 1 && Tree(m, t, level) && PathOk(m, path, level) && Entry(m, t, path[0]).Present?
    requires Lookup(m, Entry(m, t, path[0]).frame, path[1..]).Absent?
             && Maps(m, Entry(m, t, path[0]).frame, path[1..], e, m')
    requires e.Present? && e.frame !in Under(m, t, level) && e.frame !in m.free
    ensures Tree(m', t, level) && Touches(m, m', Under(m, t, level)) && Gains(m, m', t, level, {e.frame})
    decreases level, 0
  {
    var c := Entry(m, t, path[0]).frame;
    EntryIsUnder(m, t, level, Span(m, level), path[0]);
    assert PathOk(m, path[1..], level - 1);
    MapSafe(m, c, level - 1, path[1..], e, m');
    ChildChanged(m, m', t, level, path[0], {e.frame});
  }

  lemma StillAbsent(m: Mem, t: nat, level: nat, path: Path, m1: Mem)
    requires level > 1 && Tree(m, t, level) && PathOk(m, path, level) && Opens(m, t, path[0], m1)
             && Lookup(m, t, path).Absent?
    ensures Entry(m1, t, path[0]).Present? && Lookup(m1, Entry(m1, t, path[0]).frame, path[1..]).Absent?
  {
    assert PathOk(m, path[1..], level - 1);
  }

  // How many frames mapping takes, and when it can go through.

  lemma {:induction false} MissingBound(m: Mem, t: nat, path: Path)
    requires |path| > 0
    ensures Missing(m, t, path) <= |path| - 1
    decreases |path|
  {
    var e := Entry(m, t, path[0]);
    if |path| > 1 && e.Present? { MissingBound(m, e.frame, path[1..]); }
  }

  lemma EmptyMissing(m: Mem, f: nat, path: Path)
    requires f in m.tables && m.tables[f] == EmptyTable() && |path| > 0
    ensures Missing(m, f, path) == |path| - 1
  {
    assert Entry(m, f, path[0]).Absent?;
  }

  lemma NewMissing(m: Mem, t: nat, i: nat, f: nat, rest: Path)
    requires t in m.tables && i < |m.tables[t]| && t !in m.free && f in m.free && |rest| > 0
    ensures var m1 := WithTable(m, t, i, f);
            Entry(m1, t, i) == Present(f, TABLE_FLAGS, 0) && |m1.free| == |m.free| - 1
                && Missing(m1, f, rest) == |rest| - 1
  {
    EmptyMissing(WithTable(m, t, i, f), f, rest);
  }

  lemma OpenMissing(m: Mem, t: nat, level: nat, path: Path, m1: Mem)
    requires level > 1 && Tree(m, t, level) && PathOk(m, path, level) && Opens(m, t, path[0], m1)
    ensures Entry(m1, t, path[0]).Present?
    ensures |m.free| - Missing(m, t, path) == |m1.free| - Missing(m1, Entry(m1, t, path[0]).frame, path[1..])
  {
    if Entry(m, t, path[0]).Absent? {
      var f :| f in m.free && m1 == WithTable(m, t, path[0], f);
      NewMissing(m, t, path[0], f, path[1..]);
    }
  }

  lemma MapsUp(m: Mem, t: nat, path: Path, e: Pte, m1: Mem, m': Mem)
    requires |path| > 1 && Opens(m, t, path[0], m1) && Entry(m1, t, path[0]).Present?
    requires Maps(m1, Entry(m1, t, path[0]).frame, path[1..], e, m')
    ensures Maps(m, t, path, e, m')
  {
  }

  /** Exactly as many frames as tables were missing. */
  lemma {:induction false} MapTakes(m: Mem, t: nat, level: nat, path: Path, e: Pte, m': Mem)
    requires level > 0 && Tree(m, t, level) && PathOk(m, path, level) && Maps(m, t, path, e, m')
    ensures Missing(m, t, path) <= |m.free| && |m'.free| == |m.free| - Missing(m, t, path)
    decreases level
  {
    if level > 1 {
      var m1 := MapsDown(m, t, level, path, e, m');
      OpenMissing(m, t, level, path, m1);
      MapTakes(m1, Entry(m1, t, path[0]).frame, level - 1, path[1..], e, m');
    }
  }

  lemma {:induction false} CanMap(m: Mem, t: nat, level: nat, path: Path, e: Pte) returns (m': Mem)
    requires level > 0 && Tree(m, t, level) && PathOk(m, path, level) && Missing(m, t, path) <= |m.free|
    ensures Maps(m, t, path, e, m')
    decreases level
  {
    if level == 1 {
      m' := SetEntry(m, t, path[0], e);
    } else {
      var m1, c := CanStep(m, t, level, path);
      m' := CanMap(m1, c, level - 1, path[1..], e);
      MapsUp(m, t, path, e, m1, m');
    }
  }

  lemma CanStep(m: Mem, t: nat, level: nat, path: Path) returns (m1: Mem, c: nat)
    requires level > 1 && Tree(m, t, level) && PathOk(m, path, level) && Missing(m, t, path) <= |m.free|
    ensures Opens(m, t, path[0], m1) && Entry(m1, t, path[0]).Present? && c == Entry(m1, t, path[0]).frame
    ensures Tree(m1, c, level - 1) && PathOk(m1, path[1..], level - 1) && Missing(m1, c, path[1..]) <= |m1.free|
  {
    m1 := CanOpen(m, t, level, path);
    c := OpenStep(m, t, level, path, m1);
  }

  lemma OpenStep(m: Mem, t: nat, level: nat, path: Path, m1: Mem) returns (c: nat)
    requires level > 1 && Tree(m, t, level) && PathOk(m, path, level) && Missing(m, t, path) <= |m.free|
             && Opens(m, t, path[0], m1)
    ensures Entry(m1, t, path[0]).Present? && c == Entry(m1, t, path[0]).frame
    ensures Tree(m1, c, level - 1) && PathOk(m1, path[1..], level - 1) && Missing(m1, c, path[1..]) <= |m1.free|
  {
    OpenSafe(m, t, level, path[0], m1);
    OpenMissing(m, t, level, path, m1);
    PathRest(m, m1, path, level);
    c := Entry(m1, t, path[0]).frame;
    assert path[0] < Span(m1, level);
  }

  lemma PathRest(m: Mem, m1: Mem, path: Path, level: nat)
    requires level > 1 && PathOk(m, path, level) && m1.top == m.top
    ensures PathOk(m1, path, level) && PathOk(m1, path[1..], level - 1)
  {
  }

  lemma CanOpen(m: Mem, t: nat, level: nat, path: Path) returns (m1: Mem)
    requires level > 1 && |path| == level && Missing(m, t, path) <= |m.free|
    ensures Opens(m, t, path[0], m1)
  {
    if Entry(m, t, path[0]).Present? {
      m1 := m;
    } else {
      var f :| f in m.free;
      m1 := WithTable(m, t, path[0], f);
    }
  }

  /** Mapping goes through if and only if there is a free frame for each missing table. */
  lemma MapsIff(m: Mem, t: nat, level: nat, path: Path, e: Pte)
    requires level > 0 && Tree(m, t, level) && PathOk(m, path, level)
    ensures (exists m' :: Maps(m, t, path, e, m')) <==> Missing(m, t, path) <= |m.free|
  {
    if m' :| Maps(m, t, path, e, m') { MapTakes(m, t, level, path, e, m'); }
    if Missing(m, t, path) <= |m.free| {
      var m' := CanMap(m, t, level, path, e);
      assert Maps(m, t, path, e, m');
    }
  }

  // Translations.

  /** A fresh intermediate table translates nothing. */
  lemma OpenLookup(m: Mem, t: nat, level: nat, i: nat, q: Path, m1: Mem)
    requires level > 1 && Tree(m, t, level) && i < Span(m, level) && PathOk(m, q, level) && Opens(m, t, i, m1)
    ensures Lookup(m1, t, q) == Lookup(m, t, q)
  {
    assert PathOk(m, q[1..], level - 1);
    if Entry(m, t, i).Absent? {
      var f :| f in m.free && m1 == WithTable(m, t, i, f);
      NewTable(m, t, level, i, f);
      if q[0] != i {
        AttachOther(m, m1, t, level, i, Present(f, TABLE_FLAGS, 0), q[0]);
        if Entry(m, t, q[0]).Present? { LookupKept(m, m1, Entry(m, t, q[0]).frame, level - 1, q[1..]); }
      }
    }
  }

  /** What mapping may write: the tables under `t`, and free frames. */
  lemma {:induction false} MapTouches(m: Mem, t: nat, level: nat, path: Path, e: Pte, m': Mem)
    requires level > 0 && Tree(m, t, level) && PathOk(m, path, level) && Maps(m, t, path, e, m')
    ensures Touches(m, m', Under(m, t, level))
    decreases level, 1
  {
    TopIsUnder(m, t, level);
    if level > 1 {
      var m1 := MapsDown(m, t, level, path, e, m');
      TouchesBelow(m1, t, level, path, e, m');
      TouchesOn(m, m1, m', t, level);
    }
  }

  lemma {:induction false} TouchesBelow(m: Mem, t: nat, level: nat, path: Path, e: Pte, m': Mem)
    requires level > 1 && Tree(m, t, level) && PathOk(m, path, level) && Entry(m, t, path[0]).Present?
    requires Maps(m, Entry(m, t, path[0]).frame, path[1..], e, m')
    ensures Touches(m, m', Under(m, Entry(m, t, path[0]).frame, level - 1)) && Touches(m, m', Under(m, t, level))
    decreases level, 0
  {
    var c := Entry(m, t, path[0]).frame;
    EntryIsUnder(m, t, level, Span(m, level), path[0]);
    assert PathOk(m, path[1..], level - 1);
    MapTouches(m, c, level - 1, path[1..], e, m');
    WiderTouch(m, m', Under(m, c, level - 1), Under(m, t, level));
  }

  lemma TouchesOn(m: Mem, m1: Mem, m2: Mem, t: nat, level: nat)
    requires Touches(m, m1, Under(m, t, level)) && Gains(m, m1, t, level, {}) && Touches(m1, m2, Under(m1, t, level))
    ensures Touches(m, m2, Under(m, t, level))
  {
  }

  lemma LeafTranslates(m: Mem, t: nat, path: Path, e: Pte, q: Path, m': Mem)
    requires Tree(m, t, 1) && PathOk(m, path, 1) && PathOk(m, q, 1) && Maps(m, t, path, e, m')
    ensures Lookup(m', t, q) == if q == path then e else Lookup(m, t, q)
  {
    assert q == path <==> q[0] == path[0];
  }

  /** Mapping a page changes the translation of exactly that page, whatever frames the tables it lacked were put on. */
  lemma {:induction false} MapTranslates(m: Mem, t: nat, level: nat, path: Path, e: Pte, q: Path, m': Mem)
    requires level > 0 && Tree(m, t, level) && PathOk(m, path, level) && PathOk(m, q, level) && Maps(m, t, path, e, m')
    ensures Lookup(m', t, q) == if q == path then e else Lookup(m, t, q)
    decreases level, 1
  {
    if level == 1 {
      LeafTranslates(m, t, path, e, q, m');
    } else {
      var m1 := MapsDown(m, t, level, path, e, m');
      OpenLookup(m, t, level, path[0], q, m1);
      TranslatesBelow(m1, t, level, path, e, q, m');
    }
  }

  lemma {:induction false} TranslatesBelow(m: Mem, t: nat, level: nat, path: Path, e: Pte, q: Path, m': Mem)
    requires level > 1 && Tree(m, t, level) && PathOk(m, path, level) && PathOk(m, q, level)
             && Entry(m, t, path[0]).Present?
    requires Maps(m, Entry(m, t, path[0]).frame, path[1..], e, m')
    ensures Lookup(m', t, q) == if q == path then e else Lookup(m, t, q)
    decreases level, 0
  {
    var c := Entry(m, t, path[0]).frame;
    assert PathOk(m, path[1..], level - 1) && PathOk(m, q[1..], level - 1);
    TouchesBelow(m, t, level, path, e, m');
    assert q == [q[0]] + q[1..] && path == [path[0]] + path[1..];
    if q[0] == path[0] {
      SameTop(m, m', t, level, path[0]);
      MapTranslates(m, c, level - 1, path[1..], e, q[1..], m');
    } else {
      OthersKept(m, m', t, level, path[0], q[0]);
      if Entry(m, t, q[0]).Present? { LookupKept(m, m', Entry(m, t, q[0]).frame, level - 1, q[1..]); }
    }
  }

  lemma SameTop(m: Mem, m': Mem, t: nat, level: nat, i: nat)
    requires level > 0 && Tree(m, t, level) && i < Span(m, level) && Entry(m, t, i).Present?
    requires Touches(m, m', Under(m, Entry(m, t, i).frame, level - 1))
    ensures Entry(m', t, i) == Entry(m, t, i)
  {
    EntryIsUnder(m, t, level, Span(m, level), i);
  }

  /**
   * Of the table the walk starts at, one entry changes at most: in particular no user mapping touches the kernel half.
   */
  lemma MapKeepsRest(m: Mem, t: nat, level: nat, path: Path, e: Pte, m': Mem, i: nat)
    requires level > 0 && Tree(m, t, level) && PathOk(m, path, level) && Maps(m, t, path, e, m') && i != path[0]
    ensures Entry(m', t, i) == Entry(m, t, i)
  {
    if level > 1 {
      var m1 := MapsDown(m, t, level, path, e, m');
      TouchesBelow(m1, t, level, path, e, m');
      EntryIsUnder(m1, t, level, Span(m1, level), path[0]);
    }
  }
}
