/** What the two terminals share: bytes, colors, attributes and the grid. */
module Terminal {
  import opened Wrappers

  const ESC: Byte := 0x1B
  const LF: Byte := 0x0A
  const CR: Byte := 0x0D
  const BS: Byte := 0x08
  const QUESTION: nat := 0x3F
  const SPACE: nat := 0x20
  const MAX_PARAMS: nat := 8
  const NO_PARAMS: seq<nat> := [0, 0, 0, 0, 0, 0, 0, 0]

  /** How a cell is drawn; palette indexes 0-15, None for the default color. */
  datatype Attr = Attr(fg: Option<nat>, bg: Option<nat>, bold: bool, dim: bool, rev: bool)

  const PLAIN := Attr(None, None, false, false, false)

  /** A character cell: a code point (or glyph) and the attributes it was drawn with. */
  datatype Cell = Cell(ch: nat, attr: Attr)

  const BLANK := Cell(SPACE, PLAIN)

  datatype Parse = Normal | Esc | Csi

  /** The cells [lo, hi) blanked. */
  function Blanked(cells: seq<Cell>, lo: nat, hi: nat): (r: seq<Cell>)
    ensures |r| == |cells|
  {
    seq(|cells|, i requires 0 <= i < |cells| => if lo <= i < hi then BLANK else cells[i])
  }

  lemma BlankTwice(cells: seq<Cell>, lo: nat, mid: nat, hi: nat)
    requires lo <= mid <= hi
    ensures Blanked(Blanked(cells, lo, mid), mid, hi) == Blanked(cells, lo, hi)
  {
  }

  function Blanks(n: nat): (r: seq<Cell>)
    ensures |r| == n
  {
    seq(n, _ => BLANK)
  }

  /** Where row `y` starts in a row-major grid: y * cols, by repeated addition so that proofs stay linear. */
  function RowStart(y: nat, cols: nat): nat {
    if y == 0 then 0 else RowStart(y - 1, cols) + cols
  }

  /** The index the code computes. */
  lemma {:induction false} RowStartIsProduct(y: nat, cols: nat)
    ensures RowStart(y, cols) == y * cols
  {
    if y > 0 {
      RowStartIsProduct(y - 1, cols);
      assert y * cols == (y - 1) * cols + cols;
    }
  }

  /** A later row starts at least a row further on. */
  lemma {:induction false} RowsAhead(y: nat, y': nat, cols: nat)
    requires y < y'
    ensures RowStart(y, cols) + cols <= RowStart(y', cols)
    decreases y'
  {
    if y + 1 < y' { RowsAhead(y, y' - 1, cols); }
  }
}
