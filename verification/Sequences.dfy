/** What each control sequence does to the cursor and to every cell, whole sequences at a time. */
module TerminalSequences {
  import opened Wrappers
  import opened Terminal
  import V = VtModel
  import C = ConsoleModel
  import opened TerminalAgreement
  import opened BackendModel
  import opened BackendRoundTrip

  /** "ESC [ n f". */
  function Sequence(n: nat, fin: Byte): seq<Byte> { [ESC, 0x5B] + Decimal(n) + [fin] }

  function CellAt(v: V.Vt, x: nat, y: nat): Cell
    requires V.Ok(v) && x < v.cols && y < v.rows
  {
    RowsAhead(y, v.rows, v.cols);
    v.cells[RowStart(y, v.cols) + x]
  }

  lemma SequenceRead(v: V.Vt, n: nat, fin: Byte)
    requires Ground(v) && n <= V.U16_MAX && 0x40 <= fin < 0x7F
    ensures Reads(v, Sequence(n, fin), V.CsiFinal(CsiWith(v, [n]), fin).(state := Normal))
  {
    FirstParamRead(v, n);
    ReadsNext(v, [ESC, 0x5B] + Decimal(n), CsiWith(v, [n]), fin);
  }

  /** Whatever the pane reads in the domain, a console that agrees with it reads alike. */
  lemma OnConsole(v: V.Vt, c: C.Console, bs: seq<Byte>, w: V.Vt)
    requires Agree(v, c) && Reads(v, bs, w)
    ensures Agree(w, C.Write(c, bs))
  {
    StreamsAgree(v, c, bs);
  }

  // Cursor movement.

  /** The position nearest to `at` of the `size` there are. */
  function Clamp(at: int, size: nat): (r: nat)
    requires size > 0
    ensures r < size
  {
    if at < 0 then 0 else if at >= size then size - 1 else at
  }

  function Right(fin: Byte, n: int): int { if fin == 0x43 then n else if fin == 0x44 then -n else 0 }

  function Down(fin: Byte, n: int): int { if fin == 0x42 then n else if fin == 0x41 then -n else 0 }

  /** Up, down, right and left by `n`, stopping at the edge; nothing else changes. */
  lemma MoveRead(v: V.Vt, n: nat, fin: Byte)
    requires Ground(v) && 1 <= n <= V.U16_MAX && 0x41 <= fin <= 0x44
    ensures Reads(v, Sequence(n, fin), After(v, [n]).(cx := Clamp(v.cx + Right(fin, n), v.cols),
                                                      cy := Clamp(v.cy + Down(fin, n), v.rows)))
  {
    SequenceRead(v, n, fin);
  }

  /** Without a number, or with 0, by one. */
  lemma MoveByOne(v: V.Vt, fin: Byte)
    requires Ground(v) && 0x41 <= fin <= 0x44
    ensures Reads(v, [ESC, 0x5B, fin], After(v, []).(cx := Clamp(v.cx + Right(fin, 1), v.cols),
                                                     cy := Clamp(v.cy + Down(fin, 1), v.rows)))
    ensures Reads(v, Sequence(0, fin), After(v, [0]).(cx := Clamp(v.cx + Right(fin, 1), v.cols),
                                                      cy := Clamp(v.cy + Down(fin, 1), v.rows)))
  {
    CsiOpens(v);
    ReadsNext(v, [ESC, 0x5B], CsiWith(v, []), fin);
    assert [ESC, 0x5B] + [fin] == [ESC, 0x5B, fin];
    SequenceRead(v, 0, fin);
  }

  lemma TwoParamsRead(v: V.Vt, m: nat, n: nat)
    requires Ground(v) && m <= V.U16_MAX && n <= V.U16_MAX
    ensures Reads(v, [ESC, 0x5B] + Decimal(m) + ([0x3B] + Decimal(n)), CsiWith(v, [m, n]))
  {
    FirstParamRead(v, m);
    ParamRead(v, [m], n);
    assert [m] + [n] == [m, n];
    ReadsThen(v, [ESC, 0x5B] + Decimal(m), CsiWith(v, [m]), [0x3B] + Decimal(n), CsiWith(v, [m, n]));
  }

  lemma CupEnds(v: V.Vt, x: nat, y: nat)
    requires Ground(v) && x < V.U16_MAX && y < V.U16_MAX
    ensures var w := CsiWith(v, [y + 1, x + 1]);
      && InDomain(w, 0x48)
      && V.Step(w, 0x48) == After(v, [y + 1, x + 1]).(cx := Clamp(x, v.cols), cy := Clamp(y, v.rows))
  {
  }

  /** A cursor address past the edge is the edge. */
  lemma CupClamps(v: V.Vt, x: nat, y: nat)
    requires Ground(v) && x < V.U16_MAX && y < V.U16_MAX
    ensures Reads(v, Cup(x, y), After(v, [y + 1, x + 1]).(cx := Clamp(x, v.cols), cy := Clamp(y, v.rows)))
  {
    var bs := [ESC, 0x5B] + Decimal(y + 1) + ([0x3B] + Decimal(x + 1));
    TwoParamsRead(v, y + 1, x + 1);
    assert Cup(x, y) == bs + [0x48];
    CupEnds(v, x, y);
    ReadsNext(v, bs, CsiWith(v, [y + 1, x + 1]), 0x48);
  }

  // Erasing.

  /** Reading order. */
  predicate Before(x: nat, y: nat, x': nat, y': nat) { y < y' || (y == y' && x < x') }

  lemma OrderIs(cols: nat, x: nat, y: nat, x': nat, y': nat)
    requires x < cols && x' < cols
    ensures RowStart(y, cols) + x < RowStart(y', cols) + x' <==> Before(x, y, x', y')
  {
    if y < y' { RowsAhead(y, y', cols); }
    if y' < y { RowsAhead(y', y, cols); }
  }

  lemma RowIs(cols: nat, rows: nat, x: nat, y: nat, from: nat)
    requires x < cols
    ensures RowStart(from, cols) <= RowStart(y, cols) + x <==> from <= y
  {
    if y < from { RowsAhead(y, from, cols); }
    if from < y { RowsAhead(from, y, cols); }
  }

  /** What erasing in display and in line blanks, from the cursor at (x, y): onward, up to it, or all. */
  predicate Erased(mode: nat, cx: nat, cy: nat, x: nat, y: nat) {
    if mode == 2 then true else if mode == 1 then !Before(cx, cy, x, y) else !Before(x, y, cx, cy)
  }

  lemma DisplayCell(v: V.Vt, mode: nat, x: nat, y: nat)
    requires V.Ok(v) && x < v.cols && y < v.rows
    ensures CellAt(V.EraseDisplay(v, mode), x, y) == if Erased(mode, v.cx, v.cy, x, y) then BLANK else CellAt(v, x, y)
  {
    RowsAhead(y, v.rows, v.cols);
    RowsAhead(v.cy, v.rows, v.cols);
    OrderIs(v.cols, x, y, v.cx, v.cy);
    OrderIs(v.cols, v.cx, v.cy, x, y);
    RowIs(v.cols, v.rows, x, y, v.cy);
    RowIs(v.cols, v.rows, x, y, v.cy + 1);
  }

  lemma LineCell(v: V.Vt, mode: nat, x: nat, y: nat)
    requires V.Ok(v) && x < v.cols && y < v.rows
    ensures CellAt(V.EraseLine(v, mode), x, y)
         == if y == v.cy && Erased(mode, v.cx, v.cy, x, y) then BLANK else CellAt(v, x, y)
  {
    RowsAhead(y, v.rows, v.cols);
    RowsAhead(v.cy, v.rows, v.cols);
    OrderIs(v.cols, x, y, v.cx, v.cy);
    OrderIs(v.cols, v.cx, v.cy, x, y);
    RowIs(v.cols, v.rows, x, y, v.cy);
    RowIs(v.cols, v.rows, x, y, v.cy + 1);
  }

  /** From `v` to `w` only cells changed: exactly those `Erased` says, on every row or on the cursor's. */
  ghost predicate Wiped(v: V.Vt, w: V.Vt, mode: nat, line: bool)
    requires V.Ok(v)
  {
    && Ground(w) && V.Keeps(v, w) && w.cx == v.cx && w.cy == v.cy && w.attr == v.attr && w.visible == v.visible
    && forall x: nat, y: nat | x < v.cols && y < v.rows :: WipedAt(v, w, mode, line, x, y)
  }

  ghost predicate WipedAt(v: V.Vt, w: V.Vt, mode: nat, line: bool, x: nat, y: nat)
    requires V.Ok(v) && V.Keeps(v, w) && x < v.cols && y < v.rows
  {
    CellAt(w, x, y) == if (line ==> y == v.cy) && Erased(mode, v.cx, v.cy, x, y) then BLANK else CellAt(v, x, y)
  }

  /** `v` with other cells, after a sequence with one parameter. */
  function With(v: V.Vt, n: nat, cells: seq<Cell>): (w: V.Vt)
    requires V.Ok(v) && n <= V.U16_MAX && |cells| == |v.cells|
    ensures V.Keeps(v, w)
  {
    After(v, [n]).(cells := cells)
  }

  lemma DisplayEnds(v: V.Vt, mode: nat)
    requires Ground(v) && mode <= V.U16_MAX
    ensures V.CsiFinal(CsiWith(v, [mode]), 0x4A).(state := Normal) == With(v, mode, V.EraseDisplay(v, mode).cells)
  {
    assert V.Mode(CsiWith(v, [mode])) == mode;
  }

  lemma LineEnds(v: V.Vt, mode: nat)
    requires Ground(v) && mode <= V.U16_MAX
    ensures V.CsiFinal(CsiWith(v, [mode]), 0x4B).(state := Normal) == With(v, mode, V.EraseLine(v, mode).cells)
  {
    assert V.Mode(CsiWith(v, [mode])) == mode;
  }

  lemma DisplayWiped(v: V.Vt, mode: nat)
    requires Ground(v) && mode <= V.U16_MAX
    ensures Wiped(v, With(v, mode, V.EraseDisplay(v, mode).cells), mode, false)
  {
    forall x: nat, y: nat | x < v.cols && y < v.rows
      ensures WipedAt(v, With(v, mode, V.EraseDisplay(v, mode).cells), mode, false, x, y)
    {
      DisplayCell(v, mode, x, y);
    }
  }

  lemma LineWiped(v: V.Vt, mode: nat)
    requires Ground(v) && mode <= V.U16_MAX
    ensures Wiped(v, With(v, mode, V.EraseLine(v, mode).cells), mode, true)
  {
    forall x: nat, y: nat | x < v.cols && y < v.rows
      ensures WipedAt(v, With(v, mode, V.EraseLine(v, mode).cells), mode, true, x, y)
    {
      LineCell(v, mode, x, y);
    }
  }

  /** Erase in display: from the cursor on, up to and with it, or everything, by the parameter. */
  lemma EraseDisplayRead(v: V.Vt, mode: nat) returns (w: V.Vt)
    requires Ground(v) && mode <= V.U16_MAX
    ensures Reads(v, Sequence(mode, 0x4A), w) && Wiped(v, w, mode, false)
  {
    SequenceRead(v, mode, 0x4A);
    DisplayEnds(v, mode);
    DisplayWiped(v, mode);
    w := With(v, mode, V.EraseDisplay(v, mode).cells);
  }

  /** Erase in line, likewise, on the cursor's row. */
  lemma EraseLineRead(v: V.Vt, mode: nat) returns (w: V.Vt)
    requires Ground(v) && mode <= V.U16_MAX
    ensures Reads(v, Sequence(mode, 0x4B), w) && Wiped(v, w, mode, true)
  {
    SequenceRead(v, mode, 0x4B);
    LineEnds(v, mode);
    LineWiped(v, mode);
    w := With(v, mode, V.EraseLine(v, mode).cells);
  }

  // Line ends and backspace.

  ghost predicate ScrolledAt(v: V.Vt, w: V.Vt, x: nat, y: nat)
    requires V.Ok(v) && V.Keeps(v, w) && x < v.cols && y < v.rows
  {
    CellAt(w, x, y) == if y + 1 < v.rows then CellAt(v, x, y + 1) else BLANK
  }

  lemma ScrollCell(v: V.Vt, x: nat, y: nat)
    requires V.Ok(v) && x < v.cols && y < v.rows
    ensures ScrolledAt(v, V.ScrollUp(v), x, y)
  {
    RowsAhead(0, v.rows, v.cols);
    RowsAhead(y, v.rows, v.cols);
    if y + 1 < v.rows { RowsAhead(y + 1, v.rows, v.cols); }
  }

  /** A line feed goes to the start of the next row; on the last, every row moves up one and a blank one comes in. */
  lemma LineFeedRead(v: V.Vt) returns (w: V.Vt)
    requires Ground(v)
    ensures Reads(v, [LF], w) && Ground(w) && V.Keeps(v, w) && w.cx == 0 && w.attr == v.attr
    ensures if v.cy + 1 < v.rows then w.cy == v.cy + 1 && w.cells == v.cells
            else w.cy == v.cy && forall x: nat, y: nat | x < v.cols && y < v.rows :: ScrolledAt(v, w, x, y)
  {
    ReadsOne(v, LF);
    w := V.Step(v, LF);
    if v.cy + 1 >= v.rows {
      forall x: nat, y: nat | x < v.cols && y < v.rows ensures ScrolledAt(v, w, x, y) { ScrollCell(v, x, y); }
    }
  }

  lemma CarriageReturnRead(v: V.Vt)
    requires Ground(v)
    ensures Reads(v, [CR], v.(cx := 0))
  {
    ReadsOne(v, CR);
  }

  /**
   * A backspace puts a space of the current attributes left of the cursor and goes there; at the edge it does nothing.
   */
  lemma BackspaceRead(v: V.Vt) returns (w: V.Vt)
    requires Ground(v)
    ensures Reads(v, [BS], w) && Ground(w) && V.Keeps(v, w)
    ensures if v.cx == 0 then w == v
            else
              && w == v.(cx := v.cx - 1, cells := w.cells)
              && forall x: nat, y: nat | x < v.cols && y < v.rows :: RubbedAt(v, w, x, y)
  {
    ReadsOne(v, BS);
    w := V.Step(v, BS);
    if v.cx > 0 {
      RowsAhead(v.cy, v.rows, v.cols);
      forall x: nat, y: nat | x < v.cols && y < v.rows ensures RubbedAt(v, w, x, y) {
        RowsAhead(y, v.rows, v.cols);
        OrderIs(v.cols, x, y, v.cx - 1, v.cy);
        OrderIs(v.cols, v.cx - 1, v.cy, x, y);
      }
    }
  }

  ghost predicate RubbedAt(v: V.Vt, w: V.Vt, x: nat, y: nat)
    requires V.Ok(v) && V.Keeps(v, w) && x < v.cols && y < v.rows
  {
    CellAt(w, x, y) == if x + 1 == v.cx && y == v.cy then Cell(SPACE, v.attr) else CellAt(v, x, y)
  }

  // Cursor visibility.

  lemma PrivateOpens(v: V.Vt)
    requires Ground(v)
    ensures Reads(v, [ESC, 0x5B, 0x3F], CsiWith(v, []).(priv := true))
  {
    CsiOpens(v);
    ReadsNext(v, [ESC, 0x5B], CsiWith(v, []), 0x3F);
    assert [ESC, 0x5B] + [0x3F] == [ESC, 0x5B, 0x3F];
  }

  lemma TwoStep(v: V.Vt)
    requires Ground(v)
    ensures var w := CsiWith(v, []).(priv := true);
      InDomain(w, 0x32) && V.Step(w, 0x32) == CsiWith(v, [2]).(priv := true)
  {
    assert Pad([])[0 := 2] == Pad([2]);
  }

  lemma FiveStep(v: V.Vt)
    requires Ground(v)
    ensures var w := CsiWith(v, [2]).(priv := true);
      InDomain(w, 0x35) && V.Step(w, 0x35) == CsiWith(v, [25]).(priv := true)
  {
    assert Pad([2])[0 := 25] == Pad([25]);
  }

  lemma TwentyFiveRead(v: V.Vt)
    requires Ground(v)
    ensures Reads(v, [ESC, 0x5B, 0x3F] + [0x32] + [0x35], CsiWith(v, [25]).(priv := true))
  {
    PrivateOpens(v);
    TwoStep(v);
    FiveStep(v);
    ReadsNext(v, [ESC, 0x5B, 0x3F], CsiWith(v, []).(priv := true), 0x32);
    ReadsNext(v, [ESC, 0x5B, 0x3F] + [0x32], CsiWith(v, [2]).(priv := true), 0x35);
  }

  /** "ESC[?25h" shows the cursor, "ESC[?25l" hides it, and neither changes anything else on the screen. */
  lemma CursorRead(v: V.Vt, show: bool)
    requires Ground(v)
    ensures Reads(v, [ESC, 0x5B, 0x3F, 0x32, 0x35] + [if show then 0x68 else 0x6C],
                  After(v, [25]).(priv := true, visible := show))
  {
    TwentyFiveRead(v);
    assert [ESC, 0x5B, 0x3F] + [0x32] + [0x35] == [ESC, 0x5B, 0x3F, 0x32, 0x35];
    ReadsNext(v, [ESC, 0x5B, 0x3F, 0x32, 0x35], CsiWith(v, [25]).(priv := true), if show then 0x68 else 0x6C);
  }

  // Attributes.

  /** A rendition code changes the one attribute it is about, and has a code that takes it back. */
  lemma SgrTakesBack(a: Attr, n: nat)
    requires n < 8
    ensures V.SgrOne(V.SgrOne(a, 1), 22) == a.(bold := false, dim := false) == V.SgrOne(V.SgrOne(a, 2), 22)
    ensures V.SgrOne(a, 1) == a.(bold := true) && V.SgrOne(a, 2) == a.(dim := true)
    ensures V.SgrOne(a, 7) == a.(rev := true) && V.SgrOne(V.SgrOne(a, 7), 27) == a.(rev := false)
    ensures V.SgrOne(a, 30 + n).fg == Some(n) && V.SgrOne(a, 90 + n).fg == Some(8 + n)
    ensures V.SgrOne(a, 40 + n).bg == Some(n) && V.SgrOne(a, 100 + n).bg == Some(8 + n)
    ensures V.SgrOne(V.SgrOne(a, 30 + n), 39) == a.(fg := None) == V.SgrOne(V.SgrOne(a, 90 + n), 39)
    ensures V.SgrOne(V.SgrOne(a, 40 + n), 49) == a.(bg := None) == V.SgrOne(V.SgrOne(a, 100 + n), 49)
    ensures V.SgrOne(a, 0) == PLAIN
  {
  }

  lemma SgrEnds(v: V.Vt, n: nat)
    requires Ground(v) && n <= V.U16_MAX
    ensures V.CsiFinal(CsiWith(v, [n]), 0x6D).(state := Normal) == After(v, [n]).(attr := V.SgrOne(v.attr, n))
  {
    assert Pad([n])[..1] == [n] && [n][..0] == [];
    assert V.Sgr(v.attr, [n]) == V.SgrOne(V.Sgr(v.attr, [n][..0]), n);
  }

  /** A sequence of one code sets the pen by it. */
  lemma SgrSequenceRead(v: V.Vt, n: nat)
    requires Ground(v) && n <= V.U16_MAX
    ensures Reads(v, Sequence(n, 0x6D), After(v, [n]).(attr := V.SgrOne(v.attr, n)))
  {
    SequenceRead(v, n, 0x6D);
    SgrEnds(v, n);
  }

  /** Without a code the pen is plain again. */
  lemma EmptySgrRead(v: V.Vt)
    requires Ground(v)
    ensures Reads(v, [ESC, 0x5B] + [0x6D], After(v, []).(attr := PLAIN))
  {
    CsiOpens(v);
    ReadsNext(v, [ESC, 0x5B], CsiWith(v, []), 0x6D);
  }
}
