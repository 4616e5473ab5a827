/**
 * tile's terminal is documented to behave like the kernel console. It does, byte
 * for byte, exactly on the streams described by `InDomain`.
 */
module TerminalAgreement {
  import opened Wrappers
  import opened Terminal
  import V = VtModel
  import C = ConsoleModel

  /** The same cells as the console would show them: each character as the glyph it is drawn with. */
  function Glyphs(cells: seq<Cell>): (r: seq<Cell>)
    ensures |r| == |cells|
  {
    seq(|cells|, i requires 0 <= i < |cells| => Cell(C.Glyph(cells[i].ch), cells[i].attr))
  }

  /** The console that looks like `v`; `cp` is whatever its UTF-8 accumulator was left at. */
  function Seen(v: V.Vt, cp: nat): C.Console {
    C.Console(v.cols, v.rows, Glyphs(v.cells), v.cx, v.cy,
              v.attr, v.state, v.params, v.nparams, v.priv, cp, v.need)
  }

  /** Same grid up to glyphs, cursor, attributes and parser state. */
  ghost predicate Agree(v: V.Vt, c: C.Console) {
    && V.Ok(v) && C.Ok(c)
    && c == Seen(v, c.cp)
    && (v.need > 0 ==> c.cp == v.acc && v.state == Normal)
  }

  // --- Each operation commutes with looking ---

  lemma DrawAgrees(v: V.Vt, x: nat, y: nat, ch: nat, g: nat, cp: nat)
    requires V.Ok(v) && C.Glyph(ch) == C.Glyph(g) && x < v.cols && y < v.rows
    ensures C.DrawGlyph(Seen(v, cp), x, y, g) == Seen(V.Set(v, x, y, Cell(ch, v.attr)), cp)
  {
    RowsAhead(y, v.rows, v.cols);
    var v1 := V.Set(v, x, y, Cell(ch, v.attr));
    assert Glyphs(v1.cells) == Glyphs(v.cells)[RowStart(y, v.cols) + x := Cell(C.Glyph(ch), v.attr)];
  }

  lemma PutAgrees(v: V.Vt, ch: nat, g: nat, cp: nat)
    requires V.Ok(v) && C.Glyph(ch) == C.Glyph(g)
    ensures C.PutGlyph(Seen(v, cp), g) == Seen(V.Put(v, ch), cp)
  {
    DrawAgrees(v, v.cx, v.cy, ch, g, cp);
    var v1 := V.Set(v, v.cx, v.cy, Cell(ch, v.attr));
    NextRowAgrees(v1.(cx := 0), cp);
    assert C.Newline(Seen(v1, cp)) == C.Newline(Seen(v1.(cx := 0), cp));
  }

  lemma NextRowAgrees(v: V.Vt, cp: nat)
    requires V.Ok(v) && v.cx == 0
    ensures C.Newline(Seen(v, cp)) == Seen(V.NextRow(v), cp)
  {
    RowsAhead(0, v.rows, v.cols);
    assert Glyphs(V.ScrollUp(v).cells) == Glyphs(v.cells)[v.cols..] + Blanks(v.cols);
  }

  lemma BlankedAgrees(cells: seq<Cell>, lo: nat, hi: nat)
    ensures Glyphs(Blanked(cells, lo, hi)) == Blanked(Glyphs(cells), lo, hi)
  {
  }

  lemma EraseAgrees(v: V.Vt, x: nat, y: nat, count: nat, cp: nat)
    requires V.Ok(v)
    ensures C.EraseCells(Seen(v, cp), x, y, count) == Seen(V.Erase(v, x, y, count), cp)
  {
    var lo, hi := RowStart(y, v.cols) + x, RowStart(y, v.cols) + Min(x + count, v.cols);
    BlankedAgrees(v.cells, lo, hi);
    if x >= v.cols || count == 0 {
      assert Blanked(v.cells, lo, hi) == v.cells;
    }
  }

  lemma {:induction false} EraseLinesIs(c: C.Console, from: nat, to: nat)
    requires C.Ok(c) && from <= to
    ensures C.EraseLines(c, from, to) == c.(grid := Blanked(c.grid, RowStart(from, c.cols), RowStart(to, c.cols)))
    decreases Monus(to, from)
  {
    if from == to {
      assert Blanked(c.grid, RowStart(from, c.cols), RowStart(to, c.cols)) == c.grid;
    } else {
      var c1 := C.EraseCells(c, 0, from, c.cols);
      EraseLinesIs(c1, from + 1, to);
      RowsAhead(from, to, c.cols);
      var mid := RowStart(from, c.cols) + c.cols;
      assert c1.grid == Blanked(c.grid, RowStart(from, c.cols), mid);
      BlankTwice(c.grid, RowStart(from, c.cols), mid, RowStart(to, c.cols));
    }
  }

  lemma EraseRowsAgrees(v: V.Vt, from: nat, to: nat, cp: nat)
    requires V.Ok(v) && from <= to
    ensures C.EraseLines(Seen(v, cp), from, to) == Seen(V.EraseRows(v, from, to), cp)
  {
    EraseLinesIs(Seen(v, cp), from, to);
    BlankedAgrees(v.cells, RowStart(from, v.cols), RowStart(to, v.cols));
  }

  lemma {:induction false} SgrAgrees(a: Attr, ps: seq<nat>)
    ensures C.Sgr(a, ps) == V.Sgr(a, ps)
  {
    if ps != [] { SgrAgrees(a, ps[..|ps| - 1]); }
  }

  lemma EraseAboveAgrees(v: V.Vt, cp: nat)
    requires V.Ok(v)
    ensures C.EraseDisplay(Seen(v, cp), 1) == Seen(V.EraseDisplay(v, 1), cp)
  {
    EraseRowsAgrees(v, 0, v.cy, cp);
    EraseAgrees(V.EraseRows(v, 0, v.cy), 0, v.cy, v.cx + 1, cp);
  }

  lemma EraseBelowAgrees(v: V.Vt, cp: nat)
    requires V.Ok(v)
    ensures C.EraseDisplay(Seen(v, cp), 0) == Seen(V.EraseDisplay(v, 0), cp)
  {
    EraseAgrees(v, v.cx, v.cy, v.cols - v.cx, cp);
    EraseRowsAgrees(V.Erase(v, v.cx, v.cy, v.cols - v.cx), v.cy + 1, v.rows, cp);
  }

  lemma EraseDisplayAgrees(v: V.Vt, mode: nat, cp: nat)
    requires V.Ok(v)
    ensures C.EraseDisplay(Seen(v, cp), mode) == Seen(V.EraseDisplay(v, mode), cp)
  {
    if mode == 2 {
      EraseRowsAgrees(v, 0, v.rows, cp);
    } else if mode == 1 {
      EraseAboveAgrees(v, cp);
    } else {
      EraseBelowAgrees(v, cp);
      assert C.EraseDisplay(Seen(v, cp), mode) == C.EraseDisplay(Seen(v, cp), 0);
      assert V.EraseDisplay(v, mode) == V.EraseDisplay(v, 0);
    }
  }

  lemma EraseLineAgrees(v: V.Vt, mode: nat, cp: nat)
    requires V.Ok(v)
    ensures C.EraseLine(Seen(v, cp), mode) == Seen(V.EraseLine(v, mode), cp)
  {
    EraseAgrees(v, 0, v.cy, v.cols, cp);
    EraseAgrees(v, 0, v.cy, v.cx + 1, cp);
    EraseAgrees(v, v.cx, v.cy, v.cols - v.cx, cp);
  }

  lemma NoWrap(a: nat, b: nat)
    requires a + b < C.U32
    ensures C.WrapAdd(a, b) == a + b
  {
  }

  lemma CupAgrees(v: V.Vt, fin: Byte, cp: nat)
    requires V.Ok(v) && (fin == 0x48 || fin == 0x66)
    ensures C.HandleCsi(Seen(v, cp), fin) == Seen(V.CsiFinal(v, fin), cp)
  {
  }

  lemma MovesAgree(v: V.Vt, fin: Byte, cp: nat)
    requires V.Ok(v) && fin !in {0x48, 0x66, 0x4A, 0x4B, 0x6D}
    ensures C.HandleCsi(Seen(v, cp), fin) == Seen(V.CsiFinal(v, fin), cp)
  {
    var p := V.ParamOr(v, 0, 1);
    assert C.ParamOr(Seen(v, cp), 0, 1) == p;
    NoWrap(v.cx, p);
    NoWrap(v.cy, p);
  }

  lemma CsiAgrees(v: V.Vt, fin: Byte, cp: nat)
    requires V.Ok(v)
    ensures C.HandleCsi(Seen(v, cp), fin) == Seen(V.CsiFinal(v, fin), cp)
  {
    if fin == 0x4A {
      EraseDisplayAgrees(v, V.Mode(v), cp);
    } else if fin == 0x4B {
      EraseLineAgrees(v, V.Mode(v), cp);
    } else if fin == 0x6D {
      SgrAgrees(if v.nparams == 0 then PLAIN else v.attr, v.params[..v.nparams]);
    } else if fin == 0x48 || fin == 0x66 {
      CupAgrees(v, fin, cp);
    } else {
      MovesAgree(v, fin, cp);
    }
  }

  // --- The domain ---

  /** The bytes on which the two are meant to agree, given where the parser is. */
  predicate InDomain(v: V.Vt, b: Byte)
    requires V.Ok(v)
  {
    match v.state
    case Normal => b >= 0x80 || 0x20 <= b <= 0x7E || b in {ESC, LF, CR, BS}
    case Esc => b < 0x80
    case Csi =>
      && b < 0x80
      && (0x30 <= b <= 0x39 ==>
            var n := if v.nparams == 0 then 1 else v.nparams;
            v.params[n - 1] * 10 + (b - 0x30) <= V.U16_MAX)
  }

  lemma DigitAgrees(v: V.Vt, b: Byte, cp: nat)
    requires V.Ok(v) && v.state == Csi && InDomain(v, b) && 0x30 <= b <= 0x39
    ensures C.InCsi(Seen(v, cp), b) == Seen(V.InCsi(v, b), cp)
  {
    var n := if v.nparams == 0 then 1 else v.nparams;
    NoWrap(v.params[n - 1] * 10, b - 0x30);
  }

  lemma InCsiAgrees(v: V.Vt, b: Byte, cp: nat)
    requires V.Ok(v) && v.state == Csi && InDomain(v, b)
    ensures C.InCsi(Seen(v, cp), b) == Seen(V.InCsi(v, b), cp)
  {
    if 0x30 <= b <= 0x39 {
      DigitAgrees(v, b, cp);
    } else if !(b == 0x3F && v.nparams == 0) && b != 0x3B {
      CsiAgrees(v, b, cp);
    }
  }

  lemma PlainAgrees(v: V.Vt, b: Byte, cp: nat)
    requires V.Ok(v) && v.state == Normal && b < 0x80 && InDomain(v, b)
    ensures C.Plain(Seen(v, cp), b) == Seen(V.Plain(v, b), cp)
  {
    if b == LF {
      NextRowAgrees(v.(cx := 0), cp);
    } else if b == BS && v.cx > 0 {
      DrawAgrees(v.(cx := v.cx - 1), v.cx - 1, v.cy, SPACE, SPACE, cp);
    } else if 0x20 <= b <= 0x7E {
      PutAgrees(v, b, b, cp);
    }
  }

  lemma ScalarGlyph(cp: nat)
    ensures C.Glyph(V.Scalar(cp)) == C.Glyph(cp)
  {
  }

  lemma FinishAgrees(v: V.Vt, acc: nat)
    requires V.Ok(v) && v.state == Normal && v.need == 0 && v.acc == acc
    ensures C.PutGlyph(Seen(v, acc), acc) == Seen(V.Put(v, V.Scalar(acc)), acc)
  {
    ScalarGlyph(acc);
    PutAgrees(v, V.Scalar(acc), acc, acc);
  }

  lemma ContinueAgrees(v: V.Vt, c: C.Console, b: Byte)
    requires Agree(v, c) && v.need > 0 && 0x80 <= b < 0xC0
    ensures Agree(V.Step(v, b), C.Putc(c, b))
  {
    ContinuationBits(b);
    var v1 := v.(acc := v.acc * 64 + b % 64, need := v.need - 1);
    var c1 := c.(cp := c.cp * 64 + b % 64, need := c.need - 1);
    assert c1 == Seen(v1, v1.acc);
    assert C.Putc(c, b) == if c1.need == 0 then C.PutGlyph(c1, c1.cp) else c1;
    if v1.need == 0 { FinishAgrees(v1, v1.acc); }
  }

  lemma ContinuationBits(b: Byte)
    ensures 0x80 <= b < 0xC0 <==> b / 0x40 == 2
  {
  }

  lemma LeadBits(b: Byte)
    requires b >= 0x80
    ensures 0xC0 <= b <= 0xDF <==> b / 0x20 == 6
    ensures 0xE0 <= b <= 0xEF <==> b / 0x10 == 14
    ensures 0xF0 <= b <= 0xF7 <==> b / 0x08 == 30
  {
  }

  lemma StrayAgrees(v: V.Vt, cp: nat)
    requires V.Ok(v)
    ensures C.PutGlyph(Seen(v, cp), QUESTION) == Seen(V.Put(v, QUESTION), cp)
  {
    PutAgrees(v, QUESTION, QUESTION, cp);
  }

  lemma LeadAgrees(v: V.Vt, cp: nat, b: Byte)
    requires V.Ok(v) && v.state == Normal && v.need == 0 && b >= 0x80
    ensures C.Ok(Seen(v, cp)) && Agree(V.Lead(v, b), C.Lead(Seen(v, cp), b))
  {
    LeadBits(b);
    if !(0xC0 <= b <= 0xF7) {
      StrayAgrees(v, cp);
    }
  }

  lemma StartAgrees(v: V.Vt, cp: nat, b: Byte)
    requires V.Ok(v) && v.state == Normal && v.need == 0 && InDomain(v, b)
    ensures Agree(V.Step(v, b), C.Putc(Seen(v, cp), b))
  {
    if b >= 0x80 { LeadAgrees(v, cp, b); } else { PlainAgrees(v, b, cp); }
  }

  /** A sequence cut short: both draw '?' and take the byte afresh. */
  lemma BrokenSequence(v: V.Vt, c: C.Console, b: Byte)
    requires Agree(v, c) && v.need > 0 && !(0x80 <= b < 0xC0)
    ensures var v1 := V.Put(v.(need := 0), QUESTION);
      && V.Step(v, b) == V.Step(v1, b) && v1.need == 0 && v1.state == Normal
      && C.Ok(Seen(v1, c.cp)) && C.Putc(c, b) == C.Putc(Seen(v1, c.cp), b)
  {
    PutAgrees(v.(need := 0), QUESTION, QUESTION, c.cp);
  }

  /** One byte inside the domain keeps the two in agreement. */
  lemma StepAgrees(v: V.Vt, c: C.Console, b: Byte)
    requires Agree(v, c) && InDomain(v, b)
    ensures Agree(V.Step(v, b), C.Putc(c, b))
  {
    match v.state
    case Esc =>
    case Csi => InCsiAgrees(v, b, c.cp);
    case Normal =>
      if v.need == 0 {
        StartAgrees(v, c.cp, b);
      } else if 0x80 <= b < 0xC0 {
        ContinueAgrees(v, c, b);
      } else {
        BrokenSequence(v, c, b);
        StartAgrees(V.Put(v.(need := 0), QUESTION), c.cp, b);
      }
  }

  // --- Outside the domain ---

  /**
   * The one way the console can draw a character unseen: in the only column of the last row, with a scroll that
   * leaves the grid as it was.
   */
  predicate DrawsUnseen(v: V.Vt, b: Byte)
    requires V.Ok(v)
  {
    RowsAhead(v.cy, v.rows, v.cols);
    var grid := Glyphs(v.cells);
    && v.cols == 1 && v.cy + 1 == v.rows
    && grid[RowStart(v.cy, v.cols) := Cell(C.Glyph(b), v.attr)][1..] + Blanks(1) == grid
  }

  /** A control byte the console draws and the pane ignores. */
  lemma ControlAgreesIff(v: V.Vt, cp: nat, b: Byte)
    requires V.Ok(v) && v.state == Normal && v.need == 0 && !InDomain(v, b)
    ensures C.Ok(Seen(v, cp)) && (Agree(V.Step(v, b), C.Putc(Seen(v, cp), b)) <==> DrawsUnseen(v, b))
  {
    RowsAhead(v.cy, v.rows, v.cols);
    var c := Seen(v, cp);
    assert V.Step(v, b) == v && C.Putc(c, b) == C.PutGlyph(c, b);
  }

  lemma EscapedDisagrees(v: V.Vt, c: C.Console, b: Byte)
    requires Agree(v, c) && v.state != Normal && !InDomain(v, b)
    ensures !Agree(V.Step(v, b), C.Putc(c, b))
  {
    if b >= 0x80 {
      assert V.Step(v, b).state == v.state;
    } else {
      var n := if v.nparams == 0 then 1 else v.nparams;
      NoWrap(v.params[n - 1] * 10, b - 0x30);
      assert C.Putc(c, b).params[n - 1] != V.Step(v, b).params[n - 1];
    }
  }

  /** The pane once a sequence cut short by `b` has been dealt with. */
  function Begun(v: V.Vt): (w: V.Vt)
    requires V.Ok(v)
    ensures V.Ok(w)
  {
    if v.need > 0 then V.Put(v.(need := 0), QUESTION) else v
  }

  /** In the domain, or drawn unseen. */
  predicate Agreeable(v: V.Vt, b: Byte)
    requires V.Ok(v)
  {
    InDomain(v, b) || (v.state == Normal && DrawsUnseen(Begun(v), b))
  }

  /** One byte keeps the two in agreement exactly when it is agreeable. */
  lemma StepAgreesIff(v: V.Vt, c: C.Console, b: Byte)
    requires Agree(v, c)
    ensures Agree(V.Step(v, b), C.Putc(c, b)) <==> Agreeable(v, b)
  {
    if InDomain(v, b) {
      StepAgrees(v, c, b);
    } else if v.state != Normal {
      EscapedDisagrees(v, c, b);
    } else if v.need == 0 {
      ControlAgreesIff(v, c.cp, b);
    } else {
      BrokenSequence(v, c, b);
      ControlAgreesIff(V.Put(v.(need := 0), QUESTION), c.cp, b);
    }
  }

  /** On a screen two or more columns wide nothing is drawn unseen: the domain is all there is. */
  lemma WideIsInDomain(v: V.Vt, b: Byte)
    requires V.Ok(v) && v.cols >= 2
    ensures Agreeable(v, b) <==> InDomain(v, b)
  {
  }

  // --- Streams ---

  predicate InDomainAll(v: V.Vt, bs: seq<Byte>)
    requires V.Ok(v)
  {
    bs == [] || (InDomainAll(v, bs[..|bs| - 1]) && InDomain(V.Feed(v, bs[..|bs| - 1]), bs[|bs| - 1]))
  }

  predicate AgreeableAll(v: V.Vt, bs: seq<Byte>)
    requires V.Ok(v)
  {
    bs == [] || (AgreeableAll(v, bs[..|bs| - 1]) && Agreeable(V.Feed(v, bs[..|bs| - 1]), bs[|bs| - 1]))
  }

  lemma {:induction false} WideIsInDomainAll(v: V.Vt, bs: seq<Byte>)
    requires V.Ok(v) && v.cols >= 2
    ensures AgreeableAll(v, bs) <==> InDomainAll(v, bs)
  {
    if bs != [] {
      var n := |bs| - 1;
      WideIsInDomainAll(v, bs[..n]);
      WideIsInDomain(V.Feed(v, bs[..n]), bs[n]);
    }
  }

  /** The kernel console and tile's terminal stay in agreement on every stream in the domain. */
  lemma {:induction false} StreamsAgree(v: V.Vt, c: C.Console, bs: seq<Byte>)
    requires Agree(v, c) && InDomainAll(v, bs)
    ensures Agree(V.Feed(v, bs), C.Write(c, bs))
  {
    if bs != [] {
      var n := |bs| - 1;
      StreamsAgree(v, c, bs[..n]);
      StepAgrees(V.Feed(v, bs[..n]), C.Write(c, bs[..n]), bs[n]);
    }
  }

  ghost predicate AgreeThroughout(v: V.Vt, c: C.Console, bs: seq<Byte>)
    requires V.Ok(v) && C.Ok(c)
  {
    && Agree(V.Feed(v, bs), C.Write(c, bs))
    && (bs != [] ==> AgreeThroughout(v, c, bs[..|bs| - 1]))
  }

  /**
   * They agree after every byte of a stream if and only if all of it is agreeable: in the domain, on two or more
   * columns.
   */
  lemma {:induction false} AgreeThroughoutIff(v: V.Vt, c: C.Console, bs: seq<Byte>)
    requires Agree(v, c)
    ensures AgreeThroughout(v, c, bs) <==> AgreeableAll(v, bs)
    ensures v.cols >= 2 ==> (AgreeThroughout(v, c, bs) <==> InDomainAll(v, bs))
  {
    if bs != [] {
      var n := |bs| - 1;
      AgreeThroughoutIff(v, c, bs[..n]);
      if AgreeableAll(v, bs[..n]) { StepAgreesIff(V.Feed(v, bs[..n]), C.Write(c, bs[..n]), bs[n]); }
    }
    if v.cols >= 2 { WideIsInDomainAll(v, bs); }
  }

  /** The documented "exactly what the real console understands" fails, for one, on a bell. */
  lemma BellDisagrees()
    ensures var v := V.New(80, 24); Agree(v, Seen(v, 0)) && !Agree(V.Feed(v, [7]), C.Write(Seen(v, 0), [7]))
  {
    var v := V.New(80, 24);
    StepAgreesIff(v, Seen(v, 0), 7);
    WideIsInDomain(v, 7);
    var bell: seq<Byte> := [7];
    assert bell[..0] == [];
    assert V.Feed(v, bell) == V.Step(V.Feed(v, bell[..0]), 7);
    assert C.Write(Seen(v, 0), bell) == C.Putc(C.Write(Seen(v, 0), bell[..0]), 7);
  }
}
