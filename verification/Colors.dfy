/** Which of the sixteen colors a cell is drawn in, and which character. */
module BackendColors {
  import opened Wrappers
  import opened Terminal
  import V = VtModel
  import opened BackendModel
  import opened BackendRoundTrip

  /** The named colors, in the order of the ANSI codes. */
  const NAMED: seq<Color> :=
    [Black, Red, Green, Yellow, Blue, Magenta, Cyan, Gray,
     DarkGray, LightRed, LightGreen, LightYellow, LightBlue, LightMagenta, LightCyan, White]

  /** The six levels of the color cube. */
  const CUBE: seq<Byte> := [0, 95, 135, 175, 215, 255]

  ghost predicate Nearest(i: Option<nat>, rgb: (Byte, Byte, Byte)) {
    && i.Some? && i.value < 16
    && (forall j | 0 <= j < 16 :: Dist(rgb, i.value) <= Dist(rgb, j))
    && (forall j | 0 <= j < i.value :: Dist(rgb, i.value) < Dist(rgb, j))
  }

  /** A named color is the palette entry of its ANSI number, and so is that number. */
  lemma NamedIs(i: nat)
    requires i < 16
    ensures PaletteIndex(NAMED[i]) == Some(i) == PaletteIndex(Indexed(i))
  {
  }

  /** Any other color is shown as the nearest of the sixteen, the lowest of equals. */
  lemma RgbIs(r: Byte, g: Byte, b: Byte)
    ensures Nearest(PaletteIndex(Rgb(r, g, b)), (r, g, b))
  {
  }

  lemma CubeParts(r: nat, g: nat, b: nat)
    requires r < 6 && g < 6 && b < 6
    ensures (36 * r + 6 * g + b) / 36 == r && (36 * r + 6 * g + b) / 6 % 6 == g && (36 * r + 6 * g + b) % 6 == b
  {
    assert (36 * r + 6 * g + b) / 6 == 6 * r + g;
  }

  lemma LevelIs(n: nat)
    requires n < 6
    ensures Level(n) == CUBE[n]
  {
  }

  lemma CubeIs(r: nat, g: nat, b: nat)
    requires r < 6 && g < 6 && b < 6
    ensures Nearest(PaletteIndex(Indexed(16 + 36 * r + 6 * g + b)), (CUBE[r], CUBE[g], CUBE[b]))
  {
    CubeParts(r, g, b);
    LevelIs(r);
    LevelIs(g);
    LevelIs(b);
  }

  lemma GreyIs(k: nat)
    requires k < 24
    ensures Nearest(PaletteIndex(Indexed(232 + k)), (8 + 10 * k, 8 + 10 * k, 8 + 10 * k))
  {
  }

  lemma SquaresAreZero(x: int, y: int, z: int)
    ensures Square(x) >= 0 && Square(y) >= 0 && Square(z) >= 0
    ensures Square(x) + Square(y) + Square(z) <= 0 ==> x == 0 && y == 0 && z == 0
  {
    SquareIsZero(x);
    SquareIsZero(y);
    SquareIsZero(z);
  }

  lemma SquareIsZero(x: int)
    ensures Square(x) >= 0 && (Square(x) == 0 <==> x == 0)
  {
  }

  lemma EntriesDiffer(i: nat, j: nat)
    requires i < 16 && j < 16 && PALETTE_RGB[i] == PALETTE_RGB[j]
    ensures i == j
  {
  }

  lemma ZeroDistance(rgb: (Byte, Byte, Byte), p: (Byte, Byte, Byte))
    ensures Square(rgb.0 - p.0) + Square(rgb.1 - p.1) + Square(rgb.2 - p.2) <= 0 <==> rgb == p
  {
    SquaresAreZero(rgb.0 - p.0, rgb.1 - p.1, rgb.2 - p.2);
  }

  lemma AtZero(rgb: (Byte, Byte, Byte), n: nat)
    requires n < 16
    ensures Dist(rgb, n) <= 0 <==> rgb == PALETTE_RGB[n]
  {
    ZeroDistance(rgb, PALETTE_RGB[n]);
  }

  /** A palette entry's own color is shown as that entry. */
  lemma PaletteIsItself(i: nat, rgb: (Byte, Byte, Byte))
    requires i < 16 && rgb == PALETTE_RGB[i]
    ensures PaletteIndex(Rgb(rgb.0, rgb.1, rgb.2)) == Some(i)
  {
    var n := PaletteIndex(Rgb(rgb.0, rgb.1, rgb.2)).value;
    RgbIs(rgb.0, rgb.1, rgb.2);
    assert Dist(rgb, n) <= Dist(rgb, i);
    AtZero(rgb, i);
    AtZero(rgb, n);
    EntriesDiffer(i, n);
  }

  /** The bytes that choose a named foreground: "ESC[0;31m" for red. */
  lemma NamedBytes(cell: Styled, i: nat)
    requires i < 16 && cell.fg == NAMED[i] && cell.bg.Reset? && !cell.bold && !cell.dim && !cell.reversed
    ensures SgrBytes(PenOf(cell))
         == [ESC, 0x5B, 0x30, 0x3B] + (if i < 8 then [0x33, 0x30 + i] else [0x39, 0x30 + i - 8]) + [0x6D]
  {
    NamedIs(i);
    var n := FgCode(i);
    assert Decimal(n / 10) == [0x30 + n / 10] && Decimal(0) == [0x30];
    assert Decimal(n) == [0x30 + n / 10, 0x30 + n % 10];
    var pen := PenOf(cell);
    assert ModifierBytes(pen) == [ESC, 0x5B, 0x30];
  }

  /**
   * A cell in named colors, drawn anywhere but in the bottom-right corner, is on the terminal in the colors of those
   * numbers, and no other cell has changed.
   */
  lemma DrawNamed(b: Backend, v: V.Vt, u: Update, i: nat, j: nat) returns (w: V.Vt)
    requires Tracks(b, v) && InWindow(u, v.cols, v.rows) && i < 16 && j < 16
    requires u.cell.fg == NAMED[i] && u.cell.bg == NAMED[j]
    ensures Reads(v, DrawBytes(b, [u]), w) && RowStart(u.y, v.cols) + u.x < |v.cells|
    ensures w.cells == v.cells[RowStart(u.y, v.cols) + u.x :=
      Cell(Shown(u.cell.symbol), Attr(Some(i), Some(j), u.cell.bold, u.cell.dim, u.cell.reversed))]
  {
    NamedIs(i);
    NamedIs(j);
    RowsAhead(u.y, v.rows, v.cols);
    w := DrawRoundTrip(b, v, [u]);
    assert [u][..0] == [];
    assert PaintedAll(v.cells, v.cols, v.rows, [u][..0]) == v.cells;
  }

  // Characters.

  /** One character is shown as itself if and only if the console has it. */
  lemma ShownIsItselfIff(c: nat)
    ensures Shown([c]) == c <==> ConsoleHas(c)
  {
  }

  /** No character is a blank, and more than one a question mark. */
  lemma ShownOther(symbol: seq<nat>)
    requires |symbol| != 1
    ensures Shown(symbol) == if symbol == [] then SPACE else QUESTION
  {
  }

  /** Heavy and double lines are shown as light ones, partial blocks as full ones, anything else as a question mark. */
  lemma ShownStandIn(c: nat)
    requires !ConsoleHas(c)
    ensures Shown([c]) in {0x2500, 0x2502, 0x2588, QUESTION}
    ensures Shown([c]) == 0x2500 <==> c in {0x2501, 0x2550}
    ensures Shown([c]) == 0x2502 <==> c in {0x2503, 0x2551}
    ensures Shown([c]) == 0x2588 <==> 0x2581 <= c <= 0x2587 || c == 0x25A0
  {
  }
}
