/**
 * Mapping anywhere in a top-level table, kernel half included. There, pages are mapped that the page allocator also
 * counts as free, or twice, so only the tables are asked to form a tree: a walk of four levels is one of three
 * levels of tables, and the entry it ends at.
 */
module VmmKernel {
  import opened Wrappers
  import opened VmmModel
  import opened VmmProofs

  ghost predicate Indexes(path: Path) { forall i | 0 <= i < |path| :: path[i] < ENTRIES }

  /** Every table down to `depth` more levels is there, with all its entries. */
  ghost predicate Full(m: Mem, t: nat, depth: nat)
    decreases depth, t
  {
    && t in m.tables && |m.tables[t]| == ENTRIES
    && (depth > 0 ==> forall i | 0 <= i < ENTRIES && Entry(m, t, i).Present? ::
          Full(m, Entry(m, t, i).frame, depth - 1))
  }

  /** Tables only: none is reached twice, none is free. */
  ghost predicate Tables(m: Mem, t: nat, depth: nat) { depth < LEVELS && Tree(m, t, depth) && Full(m, t, depth) }

  lemma {:induction false} FullKept(m: Mem, m': Mem, t: nat, depth: nat)
    requires depth < LEVELS && Full(m, t, depth) && SameTables(m, m', Under(m, t, depth))
    ensures Full(m', t, depth)
    decreases depth
  {
    TopIsUnder(m, t, depth);
    if depth > 0 {
      forall i | 0 <= i < ENTRIES && Entry(m', t, i).Present? ensures Full(m', Entry(m', t, i).frame, depth - 1) {
        EntryKept(m, m', t, depth, i);
        EntryIsUnder(m, t, depth, Span(m, depth), i);
        FullKept(m, m', Entry(m, t, i).frame, depth - 1);
      }
    }
  }

  lemma {:induction false} LookupSame(m: Mem, m': Mem, t: nat, depth: nat, path: Path)
    requires depth < LEVELS && |path| == depth + 1 && Indexes(path) && SameTables(m, m', Under(m, t, depth))
    ensures Lookup(m', t, path) == Lookup(m, t, path)
    decreases depth
  {
    EntryKept(m, m', t, depth, path[0]);
    var e := Entry(m, t, path[0]);
    if depth > 0 && e.Present? {
      EntryIsUnder(m, t, depth, Span(m, depth), path[0]);
      LookupSame(m, m', e.frame, depth - 1, path[1..]);
    }
  }

  lemma ChildTables(m: Mem, t: nat, depth: nat, i: nat)
    requires 0 < depth && Tables(m, t, depth) && i < ENTRIES && Entry(m, t, i).Present?
    ensures Tables(m, Entry(m, t, i).frame, depth - 1)
  {
  }

  lemma NewTableFull(m: Mem, t: nat, depth: nat, i: nat, f: nat)
    requires 0 < depth && Tables(m, t, depth) && i < ENTRIES && f in m.free && Entry(m, t, i).Absent?
    ensures Full(WithTable(m, t, i, f), t, depth)
  {
    var m1 := WithTable(m, t, i, f);
    NewTable(m, t, depth, i, f);
    forall j | 0 <= j < ENTRIES && Entry(m1, t, j).Present? ensures Full(m1, Entry(m1, t, j).frame, depth - 1) {
      if j == i {
        EmptyIsFull(m1, f, depth - 1);
      } else {
        AttachOther(m, m1, t, depth, i, Present(f, TABLE_FLAGS, 0), j);
        FullKept(m, m1, Entry(m, t, j).frame, depth - 1);
      }
    }
  }

  /** A table made on the way is empty. */
  lemma OpenTables(m: Mem, t: nat, depth: nat, i: nat, m1: Mem)
    requires 0 < depth && Tables(m, t, depth) && i < ENTRIES && Opens(m, t, i, m1)
    ensures Entry(m1, t, i).Present? && Tables(m1, t, depth) && Touches(m, m1, Under(m, t, depth))
            && Gains(m, m1, t, depth, {})
  {
    OpenSafe(m, t, depth, i, m1);
    assert Full(m1, t, depth) by {
      if Entry(m, t, i).Absent? {
        var f :| f in m.free && m1 == WithTable(m, t, i, f);
        NewTableFull(m, t, depth, i, f);
      }
    }
  }

  lemma EmptyIsFull(m: Mem, f: nat, depth: nat)
    requires f in m.tables && m.tables[f] == EmptyTable()
    ensures Full(m, f, depth)
  {
  }

  lemma OpenTranslates(m: Mem, t: nat, depth: nat, i: nat, q: Path, m1: Mem)
    requires 0 < depth && Tables(m, t, depth) && i < ENTRIES && Opens(m, t, i, m1) && |q| == depth + 1 && Indexes(q)
    ensures Lookup(m1, t, q) == Lookup(m, t, q)
  {
    if Entry(m, t, i).Absent? {
      var f :| f in m.free && m1 == WithTable(m, t, i, f);
      NewTable(m, t, depth, i, f);
      if q[0] != i {
        AttachOther(m, m1, t, depth, i, Present(f, TABLE_FLAGS, 0), q[0]);
        if Entry(m, t, q[0]).Present? { LookupSame(m, m1, Entry(m, t, q[0]).frame, depth - 1, q[1..]); }
      }
    }
  }

  lemma WalkDown(m: Mem, t: nat, depth: nat, path: Path, e: Pte, m': Mem) returns (m1: Mem, c: nat)
    requires 0 < depth && Tables(m, t, depth) && |path| == depth + 1 && Indexes(path) && Maps(m, t, path, e, m')
    ensures Opens(m, t, path[0], m1) && Entry(m1, t, path[0]).Present? && c == Entry(m1, t, path[0]).frame
    ensures Maps(m1, c, path[1..], e, m') && Tables(m1, t, depth) && Tables(m1, c, depth - 1)
    ensures Touches(m, m1, Under(m, t, depth)) && Gains(m, m1, t, depth, {})
            && Under(m1, c, depth - 1) <= Under(m1, t, depth)
  {
    m1 :| Opens(m, t, path[0], m1) && Entry(m1, t, path[0]).Present?
        && Maps(m1, Entry(m1, t, path[0]).frame, path[1..], e, m');
    c := Entry(m1, t, path[0]).frame;
    OpenTables(m, t, depth, path[0], m1);
    EntryIsUnder(m1, t, depth, Span(m1, depth), path[0]);
    ChildTables(m1, t, depth, path[0]);
  }

  lemma {:induction false} WritesTablesOnly(m: Mem, t: nat, depth: nat, path: Path, e: Pte, m': Mem)
    requires Tables(m, t, depth) && |path| == depth + 1 && Indexes(path) && Maps(m, t, path, e, m')
    ensures Touches(m, m', Under(m, t, depth))
    decreases depth
  {
    TopIsUnder(m, t, depth);
    if depth > 0 {
      var m1, c := WalkDown(m, t, depth, path, e, m');
      WritesTablesOnly(m1, c, depth - 1, path[1..], e, m');
      WiderTouch(m1, m', Under(m1, c, depth - 1), Under(m1, t, depth));
      TouchesOn(m, m1, m', t, depth);
    }
  }

  /**
   * Mapping changes the translation of exactly one page, wherever in the table it is and whatever frames pages are on.
   */
  lemma {:induction false} MapTranslatesAnywhere(m: Mem, t: nat, depth: nat, path: Path, e: Pte, q: Path, m': Mem)
    requires Tables(m, t, depth) && |path| == |q| == depth + 1 && Indexes(path) && Indexes(q) && Maps(m, t, path, e, m')
    ensures Lookup(m', t, q) == if q == path then e else Lookup(m, t, q)
    decreases depth, 1
  {
    if depth == 0 {
      assert q == path <==> q[0] == path[0];
    } else {
      var m1, c := WalkDown(m, t, depth, path, e, m');
      OpenTranslates(m, t, depth, path[0], q, m1);
      AnywhereBelow(m1, t, depth, path, e, q, m');
    }
  }

  lemma {:induction false} AnywhereBelow(m: Mem, t: nat, depth: nat, path: Path, e: Pte, q: Path, m': Mem)
    requires 0 < depth && Tables(m, t, depth) && |path| == |q| == depth + 1 && Indexes(path) && Indexes(q)
    requires Entry(m, t, path[0]).Present? && Maps(m, Entry(m, t, path[0]).frame, path[1..], e, m')
    ensures Lookup(m', t, q) == if q == path then e else Lookup(m, t, q)
    decreases depth, 0
  {
    var c := Entry(m, t, path[0]).frame;
    ChildTables(m, t, depth, path[0]);
    WritesTablesOnly(m, c, depth - 1, path[1..], e, m');
    assert q == [q[0]] + q[1..] && path == [path[0]] + path[1..];
    if q[0] == path[0] {
      SameTop(m, m', t, depth, path[0]);
      MapTranslatesAnywhere(m, c, depth - 1, path[1..], e, q[1..], m');
    } else {
      OthersKept(m, m', t, depth, path[0], q[0]);
      if Entry(m, t, q[0]).Present? { LookupSame(m, m', Entry(m, t, q[0]).frame, depth - 1, q[1..]); }
    }
  }
}
