/**
 * The kernel's framebuffer console at the level of character cells
 * (kernel/src/console/fbconsole.rs).
 */
module ConsoleModel {
  import opened Wrappers
  import opened Terminal

  const U32: nat := 0x1_0000_0000

  datatype Console = Console(
    cols: nat, rows: nat, grid: seq<Cell>, col: nat, row: nat,
    pen: Attr,                                   // reverse_video, fg, bg, bold, dim
    parse: Parse, params: seq<nat>, nparams: nat, csiPrivate: bool, cp: nat, need: nat)

  /** The code points font.rs has glyphs for beyond ASCII. */
  predicate InFont(cp: nat) {
    || cp == 0xB7 || cp == 0x2026 || cp == 0x2500 || cp == 0x2502 || cp == 0x250C || cp == 0x2510 || cp == 0x2514
    || cp == 0x2518 || cp == 0x251C || cp == 0x2524 || cp == 0x252C || cp == 0x2534 || cp == 0x253C
    || 0x256D <= cp <= 0x2570 || cp == 0x2588 || cp == 0x258C || cp == 0x2590 || cp == 0x25CF
    || cp == 0x2714 || cp == 0x2718 || cp == 0x276E || cp == 0x276F || 0xE0B0 <= cp <= 0xE0B7
  }

  /** glyph_for(): the glyph a code point is drawn with, named by its own code point. */
  function Glyph(cp: nat): nat {
    if cp < 128 || InFont(cp) then cp else QUESTION
  }

  predicate Ok(c: Console) {
    && 1 <= c.cols < U32 && 1 <= c.rows < U32
    && |c.grid| == RowStart(c.rows, c.cols)
    && c.col < c.cols && c.row < c.rows
    && |c.params| == MAX_PARAMS && c.nparams <= MAX_PARAMS
    && (forall i | 0 <= i < MAX_PARAMS :: c.params[i] < U32)
  }

  /** Still a valid console of the same size: the cursor is on the grid. */
  predicate Keeps(c: Console, c': Console) {
    Ok(c') && c'.cols == c.cols && c'.rows == c.rows
  }

  function DrawGlyph(c: Console, col: nat, row: nat, cp: nat): (c': Console)
    requires Ok(c) && col < c.cols && row < c.rows
    ensures Keeps(c, c')
  {
    RowsAhead(row, c.rows, c.cols);
    c.(grid := c.grid[RowStart(row, c.cols) + col := Cell(Glyph(cp), c.pen)])
  }

  function EraseCells(c: Console, col: nat, row: nat, count: nat): (c': Console)
    requires Ok(c)
    ensures Keeps(c, c')
  {
    if col >= c.cols || count == 0 then c
    else
      var n := Min(count, c.cols - col);
      c.(grid := Blanked(c.grid, RowStart(row, c.cols) + col, RowStart(row, c.cols) + col + n))
  }

  /** erase_cells(0, r, cols) for each row in [from, to). */
  function EraseLines(c: Console, from: nat, to: nat): (c': Console)
    requires Ok(c)
    ensures Ok(c') && c' == c.(grid := c'.grid)
    decreases Monus(to, from)
  {
    if from >= to then c else EraseLines(EraseCells(c, 0, from, c.cols), from + 1, to)
  }

  function Scroll(c: Console): (c': Console)
    requires Ok(c)
    ensures Keeps(c, c')
  {
    RowsAhead(0, c.rows, c.cols);
    c.(grid := c.grid[c.cols..] + Blanks(c.cols))
  }

  function Newline(c: Console): (c': Console)
    requires Ok(c)
    ensures Keeps(c, c')
  {
    var c1 := c.(col := 0);
    if c.row + 1 >= c.rows then Scroll(c1).(row := c.rows - 1) else c1.(row := c.row + 1)
  }

  function PutGlyph(c: Console, cp: nat): (c': Console)
    requires Ok(c)
    ensures Keeps(c, c')
  {
    var c1 := DrawGlyph(c, c.col, c.row, cp);
    if c.col + 1 >= c.cols then Newline(c1) else c1.(col := c.col + 1)
  }

  function ParamOr(c: Console, n: nat, fallback: nat): nat
    requires Ok(c) && n < MAX_PARAMS
  {
    if n >= c.nparams || c.params[n] == 0 then fallback else c.params[n]
  }

  /** One SGR parameter. */
  function SgrOne(pen: Attr, p: nat): Attr {
    match p
    case 0 => PLAIN
    case 1 => pen.(bold := true)
    case 2 => pen.(dim := true)
    case 7 => pen.(rev := true)
    case 22 => pen.(bold := false, dim := false)
    case 27 => pen.(rev := false)
    case 39 => pen.(fg := None)
    case 49 => pen.(bg := None)
    case _ =>
      if 30 <= p <= 37 then pen.(fg := Some(p - 30))
      else if 40 <= p <= 47 then pen.(bg := Some(p - 40))
      else if 90 <= p <= 97 then pen.(fg := Some(p - 90 + 8))
      else if 100 <= p <= 107 then pen.(bg := Some(p - 100 + 8))
      else pen
  }

  function Sgr(pen: Attr, ps: seq<nat>): Attr {
    if ps == [] then pen else SgrOne(Sgr(pen, ps[..|ps| - 1]), ps[|ps| - 1])
  }

  function WrapAdd(a: nat, b: nat): nat { (a + b) % U32 }

  function EraseDisplay(c: Console, mode: nat): (c': Console)
    requires Ok(c)
    ensures Keeps(c, c')
  {
    if mode == 2 then EraseLines(c, 0, c.rows)
    else if mode == 1 then EraseCells(EraseLines(c, 0, c.row), 0, c.row, c.col + 1)
    else EraseLines(EraseCells(c, c.col, c.row, c.cols - c.col), c.row + 1, c.rows)
  }

  function EraseLine(c: Console, mode: nat): (c': Console)
    requires Ok(c)
    ensures Keeps(c, c')
  {
    if mode == 2 then EraseCells(c, 0, c.row, c.cols)
    else if mode == 1 then EraseCells(c, 0, c.row, c.col + 1)
    else EraseCells(c, c.col, c.row, c.cols - c.col)
  }

  /** handle_csi(). The additions of CUD and CUF wrap at 32 bits. */
  function HandleCsi(c: Console, fin: Byte): (c': Console)
    requires Ok(c)
    ensures Keeps(c, c')
  {
    var mode := if c.nparams > 0 then c.params[0] else 0;
    var p := ParamOr(c, 0, 1);
    match fin
    case 0x48 | 0x66 => c.(row := Min(p - 1, c.rows - 1), col := Min(ParamOr(c, 1, 1) - 1, c.cols - 1))   // CUP
    case 0x41 => c.(row := Monus(c.row, p))   // CUU
    case 0x42 => c.(row := Min(WrapAdd(c.row, p), c.rows - 1))   // CUD
    case 0x43 => c.(col := Min(WrapAdd(c.col, p), c.cols - 1))   // CUF
    case 0x44 => c.(col := Monus(c.col, p))   // CUB
    case 0x4A => EraseDisplay(c, mode)   // ED
    case 0x4B => EraseLine(c, mode)   // EL
    case 0x6D => c.(pen := Sgr(if c.nparams == 0 then PLAIN else c.pen, c.params[..c.nparams]))   // SGR
    case _ => c
  }

  function InCsi(c: Console, b: Byte): (c': Console)
    requires Ok(c)
    ensures Keeps(c, c')
  {
    if b == 0x3F && c.nparams == 0 then c.(csiPrivate := true)
    else if 0x30 <= b <= 0x39 then
      var n := if c.nparams == 0 then 1 else c.nparams;
      c.(nparams := n, params := c.params[n - 1 := WrapAdd((c.params[n - 1] * 10) % U32, b - 0x30)])
    else if b == 0x3B then
      var n := if c.nparams == 0 then 1 else c.nparams;
      c.(nparams := if n < MAX_PARAMS then n + 1 else n)
    else
      (if !c.csiPrivate then HandleCsi(c, b) else c).(parse := Normal)
  }

  function Plain(c: Console, b: Byte): (c': Console)
    requires Ok(c)
    ensures Keeps(c, c')
  {
    if b == ESC then c.(parse := Esc)
    else if b == CR then c.(col := 0)
    else if b == BS then
      if c.col > 0 then DrawGlyph(c.(col := c.col - 1), c.col - 1, c.row, SPACE) else c
    else if b == LF then Newline(c)
    else PutGlyph(c, b)
  }

  function Lead(c: Console, b: Byte): (c': Console)
    requires Ok(c)
    ensures Keeps(c, c')
  {
    if b / 0x20 == 6 then c.(cp := b % 0x20, need := 1)
    else if b / 0x10 == 14 then c.(cp := b % 0x10, need := 2)
    else if b / 0x08 == 30 then c.(cp := b % 0x08, need := 3)
    else PutGlyph(c, QUESTION)
  }

  function Putc(c: Console, b: Byte): (c': Console)
    requires Ok(c)
    ensures Keeps(c, c')
  {
    match c.parse
    case Esc =>
      if b == 0x5B then c.(parse := Csi, nparams := 0, csiPrivate := false, params := NO_PARAMS)
      else c.(parse := Normal)
    case Csi => InCsi(c, b)
    case Normal =>
      if c.need > 0 && b / 0x40 == 2 then
        var c1 := c.(cp := c.cp * 64 + b % 64, need := c.need - 1);
        if c1.need == 0 then PutGlyph(c1, c1.cp) else c1
      else
        var c1 := if c.need > 0 then PutGlyph(c.(need := 0), QUESTION) else c;
        if b >= 0x80 then Lead(c1, b) else Plain(c1, b)
  }

  /** Whatever is written to the console, its cursor stays on its grid (the result is Ok). */
  function Write(c: Console, bs: seq<Byte>): (c': Console)
    requires Ok(c)
    ensures Keeps(c, c')
  {
    if bs == [] then c else Putc(Write(c, bs[..|bs| - 1]), bs[|bs| - 1])
  }
}
