/**
 * The two terminals and the backend as they run: fields updated per byte or per cell,
 * with the loops the kernel and tile have. Each method is proved to do what the specification
 * functions say.
 */
module Screens {
  import opened Wrappers
  import opened Terminal
  import V = VtModel
  import C = ConsoleModel
  import B = BackendModel

  /** Blanking one more cell of a run. */
  lemma BlankedOneMore(cells: seq<Cell>, lo: nat, i: nat)
    requires lo <= i < |cells|
    ensures Blanked(cells, lo, i)[i := BLANK] == Blanked(cells, lo, i + 1)
  {
  }

  /** tile's per-pane terminal. */
  class VtScreen {
    const cols: nat
    const rows: nat
    var cells: seq<Cell>
    var cx: nat
    var cy: nat
    var attr: Attr
    var visible: bool
    var state: Parse
    var acc: nat
    var need: nat
    const params: array<nat>
    var nparams: nat
    var priv: bool

    ghost function View(): V.Vt
      reads this, params
    {
      V.Vt(cols, rows, cells, cx, cy, attr, visible, state, acc, need, params[..], nparams, priv)
    }

    ghost predicate Valid()
      reads this, params
    {
      params.Length == MAX_PARAMS && V.Ok(View())
    }

    constructor (width: nat, height: nat)
      requires width <= V.U16_MAX && height <= V.U16_MAX
      ensures Valid() && fresh(params) && View() == V.New(width, height)
    {
      cols := if width < 1 then 1 else width;
      rows := if height < 1 then 1 else height;
      cells := Blanks(RowStart(if height < 1 then 1 else height, if width < 1 then 1 else width));
      cx, cy, attr, visible := 0, 0, PLAIN, true;
      state, acc, need := Normal, 0, 0;
      params := new nat[MAX_PARAMS](_ => 0);
      nparams, priv := 0, false;
      new;
      assert params[..] == NO_PARAMS;
    }

    method SetCell(x: nat, y: nat, c: Cell)
      requires Valid() && x < cols && y < rows
      modifies this`cells
      ensures Valid() && View() == V.Set(old(View()), x, y, c)
    {
      RowsAhead(y, rows, cols);
      RowStartIsProduct(y, cols);
      cells := cells[y * cols + x := c];
    }

    method Erase(x: nat, y: nat, count: nat)
      requires Valid() && x < cols && y < rows
      modifies this`cells
      ensures Valid() && View() == V.Erase(old(View()), x, y, count)
    {
      var end := Min(x + count, cols);
      var i := x;
      ghost var at := RowStart(y, cols);
      RowsAhead(y, rows, cols);
      assert Blanked(cells, at + x, at + x) == cells;
      while i < end
        invariant x <= i && (i <= end || i == x) && Valid()
        invariant View() == old(View()).(cells := Blanked(old(cells), at + x, at + i))
      {
        BlankedOneMore(old(cells), at + x, at + i);
        SetCell(i, y, BLANK);
        i := i + 1;
      }
      assert Blanked(old(cells), at + x, at + i) == Blanked(old(cells), at + x, at + end);
    }

    method EraseRows(from: nat, to: nat)
      requires Valid() && from <= to <= rows
      modifies this`cells
      ensures Valid() && View() == V.EraseRows(old(View()), from, to)
    {
      var y := from;
      assert Blanked(cells, RowStart(from, cols), RowStart(from, cols)) == cells;
      while y < to
        invariant from <= y <= to && Valid()
        invariant View() == old(View()).(cells := Blanked(old(cells), RowStart(from, cols), RowStart(y, cols)))
      {
        if from < y { RowsAhead(from, y, cols); }
        BlankTwice(old(cells), RowStart(from, cols), RowStart(y, cols), RowStart(y, cols) + cols);
        Erase(0, y, cols);
        y := y + 1;
      }
    }

    method ScrollUp()
      requires Valid()
      modifies this`cells
      ensures Valid() && View() == V.ScrollUp(old(View()))
    {
      RowsAhead(0, rows, cols);
      cells := cells[cols..];
      var i := 0;
      while i < cols
        invariant 0 <= i <= cols && cells == old(cells)[cols..] + Blanks(i)
      {
        cells := cells + [BLANK];
        assert Blanks(i) + [BLANK] == Blanks(i + 1);
        i := i + 1;
      }
    }

    method NextRow()
      requires Valid()
      modifies this`cells, this`cy
      ensures Valid() && View() == V.NextRow(old(View()))
    {
      if cy + 1 >= rows {
        ScrollUp();
        cy := rows - 1;
      } else {
        cy := cy + 1;
      }
    }

    method Put(ch: nat)
      requires Valid()
      modifies this`cells, this`cx, this`cy
      ensures Valid() && View() == V.Put(old(View()), ch)
    {
      SetCell(cx, cy, Cell(ch, attr));
      if cx + 1 >= cols {
        cx := 0;
        NextRow();
      } else {
        cx := cx + 1;
      }
    }

    /** The SGR loop over the parameters given. */
    method SelectGraphics()
      requires Valid()
      modifies this`attr
      ensures Valid()
      ensures View() == old(View()).(attr := V.Sgr(if nparams == 0 then PLAIN else old(attr), params[..nparams]))
    {
      if nparams == 0 { attr := PLAIN; }
      ghost var start := attr;
      var i := 0;
      while i < nparams
        invariant 0 <= i <= nparams && attr == V.Sgr(start, params[..i])
      {
        attr := V.SgrOne(attr, params[i]);
        assert params[..i + 1][..i] == params[..i];
        i := i + 1;
      }
    }

    method ParamOr(n: nat, fallback: nat) returns (p: nat)
      requires Valid() && n < MAX_PARAMS
      ensures p == V.ParamOr(View(), n, fallback)
    {
      p := if n >= nparams || params[n] == 0 then fallback else params[n];
    }

    method Move(fin: Byte)
      requires Valid() && (0x41 <= fin <= 0x44 || fin == 0x48 || fin == 0x66)
      modifies this`cx, this`cy
      ensures Valid() && View() == V.CsiFinal(old(View()), fin)
    {
      var p := ParamOr(0, 1);
      if fin == 0x41 {
        cy := Monus(cy, p);
      } else if fin == 0x42 {
        cy := Min(Min(cy + p, V.U16_MAX), rows - 1);
      } else if fin == 0x43 {
        cx := Min(Min(cx + p, V.U16_MAX), cols - 1);
      } else if fin == 0x44 {
        cx := Monus(cx, p);
      } else {
        var q := ParamOr(1, 1);
        cy := Min(p - 1, rows - 1);
        cx := Min(q - 1, cols - 1);
      }
    }

    method Csi(fin: Byte)
      requires Valid()
      modifies this`cells, this`cx, this`cy, this`attr
      ensures Valid() && View() == V.CsiFinal(old(View()), fin)
    {
      match fin {
        case 0x41 | 0x42 | 0x43 | 0x44 | 0x48 | 0x66 => Move(fin);
        case 0x4A => EraseDisplay(if nparams > 0 then params[0] else 0);
        case 0x4B => EraseLine(if nparams > 0 then params[0] else 0);
        case 0x6D => SelectGraphics();
        case _ =>
      }
    }

    method EraseDisplay(mode: nat)
      requires Valid()
      modifies this`cells
      ensures Valid() && View() == V.EraseDisplay(old(View()), mode)
    {
      match mode {
        case 2 => EraseRows(0, rows);
        case 1 =>
          EraseRows(0, cy);
          Erase(0, cy, cx + 1);
        case _ =>
          Erase(cx, cy, cols - cx);
          EraseRows(cy + 1, rows);
      }
    }

    method EraseLine(mode: nat)
      requires Valid()
      modifies this`cells
      ensures Valid() && View() == V.EraseLine(old(View()), mode)
    {
      match mode {
        case 2 => Erase(0, cy, cols);
        case 1 => Erase(0, cy, cx + 1);
        case _ => Erase(cx, cy, cols - cx);
      }
    }

    method PrivateCsi(fin: Byte)
      requires Valid()
      modifies this`visible
      ensures Valid() && View() == V.PrivateFinal(old(View()), fin)
    {
      if nparams > 0 && params[0] == 25 {
        match fin {
          case 0x68 => visible := true;
          case 0x6C => visible := false;
          case _ =>
        }
      }
    }

    method Digit(d: nat)
      requires Valid() && d <= 9
      modifies this`nparams, params
      ensures Valid() && View() == V.InCsi(old(View()), 0x30 + d)
    {
      if nparams == 0 { nparams := 1; }
      params[nparams - 1] := V.Saturate(params[nparams - 1], d);
      assert params[..] == old(params[..])[nparams - 1 := params[nparams - 1]];
    }

    method CsiByte(b: Byte)
      requires Valid() && state == Parse.Csi
      modifies this, params
      ensures Valid() && View() == V.InCsi(old(View()), b)
    {
      if b == 0x3F && nparams == 0 {
        priv := true;
      } else if 0x30 <= b <= 0x39 {
        Digit(b - 0x30);
      } else if b == 0x3B {
        if nparams == 0 { nparams := 1; }
        if nparams < MAX_PARAMS { nparams := nparams + 1; }
      } else {
        if priv { PrivateCsi(b); } else { Csi(b); }
        state := Normal;
      }
    }

    method PlainByte(b: Byte)
      requires Valid()
      modifies this, params
      ensures Valid() && View() == V.Plain(old(View()), b)
    {
      match state {
        case Esc =>
          if b == 0x5B {
            state := Parse.Csi;
            forall i | 0 <= i < MAX_PARAMS { params[i] := 0; }
            nparams, priv := 0, false;
            assert params[..] == NO_PARAMS;
          } else {
            state := Normal;
          }
        case Csi => CsiByte(b);
        case Normal =>
          if b == ESC {
            state := Esc;
          } else if b == LF {
            cx := 0;
            NextRow();
          } else if b == CR {
            cx := 0;
          } else if b == BS {
            if cx > 0 {
              cx := cx - 1;
              SetCell(cx, cy, Cell(SPACE, attr));
            }
          } else if 0x20 <= b <= 0x7E {
            Put(b);
          }
      }
    }

    method LeadByte(b: Byte)
      requires Valid() && b >= 0x80
      modifies this
      ensures Valid() && View() == V.Lead(old(View()), b)
    {
      if 0xC0 <= b <= 0xDF {
        acc, need := b % 0x20, 1;
      } else if 0xE0 <= b <= 0xEF {
        acc, need := b % 0x10, 2;
      } else if 0xF0 <= b <= 0xF7 {
        acc, need := b % 0x08, 3;
      } else {
        Put(QUESTION);
        acc, need := 0, 0;
      }
    }

    method ByteIn(b: Byte)
      requires Valid()
      modifies this, params
      ensures Valid() && View() == V.Step(old(View()), b)
    {
      if need > 0 {
        if 0x80 <= b < 0xC0 {
          acc, need := acc * 64 + b % 64, need - 1;
          if need == 0 { Put(V.Scalar(acc)); }
          return;
        }
        need := 0;
        Put(QUESTION);
      }
      if b < 0x80 { PlainByte(b); } else { LeadByte(b); }
    }

    /** feed(): whatever is written, byte by byte. */
    method FeedBytes(bs: seq<Byte>)
      requires Valid()
      modifies this, params
      ensures Valid() && View() == V.Feed(old(View()), bs)
    {
      var i := 0;
      while i < |bs|
        invariant 0 <= i <= |bs| && Valid() && View() == V.Feed(old(View()), bs[..i])
      {
        ByteIn(bs[i]);
        assert bs[..i + 1][..i] == bs[..i];
        i := i + 1;
      }
      assert bs[..i] == bs;
    }
  }

  /** The kernel console, at cell level. */
  class FbConsole {
    const cols: nat
    const rows: nat
    var grid: seq<Cell>
    var col: nat
    var row: nat
    var reverse: bool
    var fg: Option<nat>
    var bg: Option<nat>
    var bold: bool
    var dim: bool
    var parse: Parse
    const params: array<nat>
    var nparams: nat
    var csiPrivate: bool
    var cp: nat
    var need: nat

    ghost function View(): C.Console
      reads this, params
    {
      C.Console(cols, rows, grid, col, row, Attr(fg, bg, bold, dim, reverse), parse, params[..], nparams, csiPrivate,
                cp, need)
    }

    ghost predicate Valid()
      reads this, params
    {
      params.Length == MAX_PARAMS && C.Ok(View())
    }

    /** A blank screen: what a pane of that size shows at first. */
    constructor (width: nat, height: nat)
      requires 1 <= width < C.U32 && 1 <= height < C.U32
      ensures Valid() && fresh(params)
      ensures View() == C.Console(width, height, Blanks(RowStart(height, width)), 0, 0, PLAIN, Normal, NO_PARAMS, 0,
                                  false, 0, 0)
    {
      cols, rows, grid := width, height, Blanks(RowStart(height, width));
      col, row, parse := 0, 0, Normal;
      reverse, fg, bg, bold, dim := false, None, None, false, false;
      params := new nat[MAX_PARAMS](_ => 0);
      nparams, csiPrivate, cp, need := 0, false, 0, 0;
      new;
      assert params[..] == NO_PARAMS;
    }

    method DrawGlyph(x: nat, y: nat, ch: nat)
      requires Valid() && x < cols && y < rows
      modifies this`grid
      ensures Valid() && View() == C.DrawGlyph(old(View()), x, y, ch)
    {
      RowsAhead(y, rows, cols);
      grid := grid[RowStart(y, cols) + x := Cell(C.Glyph(ch), Attr(fg, bg, bold, dim, reverse))];
    }

    method EraseCells(x: nat, y: nat, count: nat)
      requires Valid() && y < rows
      modifies this`grid
      ensures Valid() && View() == C.EraseCells(old(View()), x, y, count)
    {
      if x >= cols || count == 0 { return; }
      var n := Min(count, cols - x);
      ghost var at := RowStart(y, cols) + x;
      RowsAhead(y, rows, cols);
      assert Blanked(grid, at, at) == grid;
      var i := 0;
      while i < n
        invariant 0 <= i <= n && grid == Blanked(old(grid), at, at + i)
      {
        BlankedOneMore(old(grid), at, at + i);
        grid := grid[RowStart(y, cols) + x + i := BLANK];
        i := i + 1;
      }
    }

    method EraseLines(from: nat, to: nat)
      requires Valid() && from <= to <= rows
      modifies this`grid
      ensures Valid() && View() == C.EraseLines(old(View()), from, to)
    {
      var r := from;
      while r < to
        invariant from <= r <= to && Valid()
        invariant C.EraseLines(View(), r, to) == C.EraseLines(old(View()), from, to)
      {
        EraseCells(0, r, cols);
        r := r + 1;
      }
    }

    method Scroll()
      requires Valid()
      modifies this`grid
      ensures Valid() && View() == C.Scroll(old(View()))
    {
      RowsAhead(0, rows, cols);
      grid := grid[cols..] + Blanks(cols);
    }

    method Newline()
      requires Valid()
      modifies this`grid, this`col, this`row
      ensures Valid() && View() == C.Newline(old(View()))
    {
      col := 0;
      if row + 1 >= rows {
        Scroll();
        row := rows - 1;
      } else {
        row := row + 1;
      }
    }

    method PutGlyph(ch: nat)
      requires Valid()
      modifies this`grid, this`col, this`row
      ensures Valid() && View() == C.PutGlyph(old(View()), ch)
    {
      DrawGlyph(col, row, ch);
      if col + 1 >= cols { Newline(); } else { col := col + 1; }
    }

    method ResetAttributes()
      modifies this`reverse, this`fg, this`bg, this`bold, this`dim
      ensures Attr(fg, bg, bold, dim, reverse) == PLAIN
    {
      reverse := false;
      fg, bg := None, None;
      bold, dim := false, false;
    }

    method SgrParam(p: nat)
      modifies this`reverse, this`fg, this`bg, this`bold, this`dim
      ensures Attr(fg, bg, bold, dim, reverse) == C.SgrOne(old(Attr(fg, bg, bold, dim, reverse)), p)
    {
      match p {
        case 0 => ResetAttributes();
        case 1 => bold := true;
        case 2 => dim := true;
        case 7 => reverse := true;
        case 22 => bold, dim := false, false;
        case 27 => reverse := false;
        case 39 => fg := None;
        case 49 => bg := None;
        case _ =>
          if 30 <= p <= 37 { fg := Some(p - 30); }
          if 40 <= p <= 47 { bg := Some(p - 40); }
          if 90 <= p <= 97 { fg := Some(p - 90 + 8); }
          if 100 <= p <= 107 { bg := Some(p - 100 + 8); }
      }
    }

    method SelectGraphics()
      requires Valid()
      modifies this`reverse, this`fg, this`bg, this`bold, this`dim
      ensures Valid()
      ensures View() == old(View()).(pen := C.Sgr(if nparams == 0 then PLAIN else old(View()).pen, params[..nparams]))
    {
      if nparams == 0 { ResetAttributes(); }
      ghost var start := Attr(fg, bg, bold, dim, reverse);
      var i := 0;
      while i < nparams
        invariant 0 <= i <= nparams && Attr(fg, bg, bold, dim, reverse) == C.Sgr(start, params[..i])
      {
        SgrParam(params[i]);
        assert params[..i + 1][..i] == params[..i];
        i := i + 1;
      }
    }

    method EraseDisplay(mode: nat)
      requires Valid()
      modifies this`grid
      ensures Valid() && View() == C.EraseDisplay(old(View()), mode)
    {
      match mode {
        case 2 => EraseLines(0, rows);
        case 1 =>
          EraseLines(0, row);
          EraseCells(0, row, col + 1);
        case _ =>
          EraseCells(col, row, cols - col);
          EraseLines(row + 1, rows);
      }
    }

    method EraseLine(mode: nat)
      requires Valid()
      modifies this`grid
      ensures Valid() && View() == C.EraseLine(old(View()), mode)
    {
      match mode {
        case 2 => EraseCells(0, row, cols);
        case 1 => EraseCells(0, row, col + 1);
        case _ => EraseCells(col, row, cols - col);
      }
    }

    method ParamOr(n: nat, fallback: nat) returns (p: nat)
      requires Valid() && n < MAX_PARAMS
      ensures p == C.ParamOr(View(), n, fallback)
    {
      p := if n >= nparams || params[n] == 0 then fallback else params[n];
    }

    method Move(fin: Byte)
      requires Valid() && (0x41 <= fin <= 0x44 || fin == 0x48 || fin == 0x66)
      modifies this`col, this`row
      ensures Valid() && View() == C.HandleCsi(old(View()), fin)
    {
      var p := ParamOr(0, 1);
      if fin == 0x41 {
        row := Monus(row, p);
      } else if fin == 0x42 {
        row := Min(C.WrapAdd(row, p), rows - 1);
      } else if fin == 0x43 {
        col := Min(C.WrapAdd(col, p), cols - 1);
      } else if fin == 0x44 {
        col := Monus(col, p);
      } else {
        var q := ParamOr(1, 1);
        row := Min(p - 1, rows - 1);
        col := Min(q - 1, cols - 1);
      }
    }

    method HandleCsi(fin: Byte)
      requires Valid()
      modifies this`grid, this`col, this`row, this`reverse, this`fg, this`bg, this`bold, this`dim
      ensures Valid() && View() == C.HandleCsi(old(View()), fin)
    {
      var mode := if nparams > 0 then params[0] else 0;
      match fin {
        case 0x41 | 0x42 | 0x43 | 0x44 | 0x48 | 0x66 => Move(fin);
        case 0x4A => EraseDisplay(mode);
        case 0x4B => EraseLine(mode);
        case 0x6D => SelectGraphics();
        case _ =>
      }
    }

    method Digit(d: nat)
      requires Valid() && d <= 9
      modifies this`nparams, params
      ensures Valid() && View() == C.InCsi(old(View()), 0x30 + d)
    {
      if nparams == 0 { nparams := 1; }
      params[nparams - 1] := C.WrapAdd((params[nparams - 1] * 10) % C.U32, d);
      assert params[..] == old(params[..])[nparams - 1 := params[nparams - 1]];
    }

    method CsiByte(b: Byte)
      requires Valid()
      modifies this, params
      ensures Valid() && View() == C.InCsi(old(View()), b)
    {
      if b == 0x3F && nparams == 0 {
        csiPrivate := true;
      } else if 0x30 <= b <= 0x39 {
        Digit(b - 0x30);
      } else if b == 0x3B {
        if nparams == 0 { nparams := 1; }
        if nparams < MAX_PARAMS { nparams := nparams + 1; }
      } else {
        if !csiPrivate { HandleCsi(b); }
        parse := Normal;
      }
    }

    method PlainByte(b: Byte)
      requires Valid()
      modifies this`grid, this`col, this`row, this`parse
      ensures Valid() && View() == C.Plain(old(View()), b)
    {
      if b == ESC {
        parse := Esc;
      } else if b == CR {
        col := 0;
      } else if b == BS {
        if col > 0 {
          col := col - 1;
          DrawGlyph(col, row, SPACE);
        }
      } else if b == LF {
        Newline();
      } else {
        PutGlyph(b);
      }
    }

    method NormalByte(b: Byte)
      requires Valid() && parse == Normal
      modifies this
      ensures Valid() && View() == C.Putc(old(View()), b)
    {
      if need > 0 {
        if b / 0x40 == 2 {
          cp := cp * 64 + b % 64;
          need := need - 1;
          if need == 0 { PutGlyph(cp); }
          return;
        }
        need := 0;
        PutGlyph(QUESTION);
      }
      if b < 0x80 {
        PlainByte(b);
      } else if b / 0x20 == 6 {
        cp, need := b % 0x20, 1;
      } else if b / 0x10 == 14 {
        cp, need := b % 0x10, 2;
      } else if b / 0x08 == 30 {
        cp, need := b % 0x08, 3;
      } else {
        PutGlyph(QUESTION);
      }
    }

    method Putc(b: Byte)
      requires Valid()
      modifies this, params
      ensures Valid() && View() == C.Putc(old(View()), b)
    {
      match parse {
        case Esc =>
          if b == 0x5B {
            parse := Parse.Csi;
            nparams, csiPrivate := 0, false;
            forall i | 0 <= i < MAX_PARAMS { params[i] := 0; }
            assert params[..] == NO_PARAMS;
          } else {
            parse := Normal;
          }
        case Csi => CsiByte(b);
        case Normal => NormalByte(b);
      }
    }

    method Write(bs: seq<Byte>)
      requires Valid()
      modifies this, params
      ensures Valid() && View() == C.Write(old(View()), bs)
    {
      var i := 0;
      while i < |bs|
        invariant 0 <= i <= |bs| && Valid() && View() == C.Write(old(View()), bs[..i])
      {
        Putc(bs[i]);
        assert bs[..i + 1][..i] == bs[..i];
        i := i + 1;
      }
      assert bs[..i] == bs;
    }
  }

  /** The ratatui backend: a byte queue with a shadow of the terminal's cursor and pen. */
  class AnssBackend {
    var out: seq<Byte>
    var cursor: Option<(nat, nat)>
    var pen: Attr

    ghost function View(): B.Backend
      reads this
    {
      B.Backend(out, cursor, pen)
    }

    constructor ()
      ensures View() == B.Backend([], None, PLAIN)
    {
      out, cursor, pen := [], None, PLAIN;
    }

    method Goto(x: nat, y: nat)
      modifies this
      ensures View() == B.Goto(old(View()), x, y)
    {
      out := out + B.Cup(x, y);
      cursor := Some((x, y));
    }

    method SetPen(p: Attr)
      modifies this
      ensures View() == B.SetPen(old(View()), p)
    {
      if p != pen {
        out := out + B.SgrBytes(p);
        pen := p;
      }
    }

    method DrawOne(u: B.Update)
      modifies this
      ensures View() == B.DrawCell(old(View()), u)
    {
      if cursor != Some((u.x, u.y)) { Goto(u.x, u.y); }
      SetPen(B.PenOf(u.cell));
      out := out + B.EncodeUtf8(B.Shown(u.cell.symbol));
      cursor := Some((u.x + 1, u.y));
    }

    method Draw(content: seq<B.Update>)
      modifies this
      ensures View() == B.Draw(old(View()), content)
    {
      var i := 0;
      while i < |content|
        invariant 0 <= i <= |content| && View() == B.Draw(old(View()), content[..i])
      {
        DrawOne(content[i]);
        assert content[..i + 1][..i] == content[..i];
        i := i + 1;
      }
      assert content[..i] == content;
    }
  }
}
