/**
 * The ratatui backend: turns cell updates into the escape sequences the console
 * understands (userland/rust/tui/src/backend.rs).
 */
module BackendModel {
  import opened Wrappers
  import opened Terminal
  import C = ConsoleModel

  datatype Color =
    | Reset | Black | Red | Green | Yellow | Blue | Magenta | Cyan | Gray
    | DarkGray | LightRed | LightGreen | LightYellow | LightBlue | LightMagenta | LightCyan | White
    | Indexed(i: Byte) | Rgb(r: Byte, g: Byte, b: Byte)

  const PALETTE_RGB: seq<(Byte, Byte, Byte)> := [
    (0x00, 0x00, 0x00), (0xD0, 0x50, 0x4F), (0x60, 0xB0, 0x50), (0xD8, 0xA8, 0x40),
    (0x4A, 0x80, 0xD8), (0xB0, 0x60, 0xC8), (0x40, 0xA8, 0xB8), (0xC0, 0xC0, 0xC0),
    (0x5C, 0x5C, 0x5C), (0xFF, 0x70, 0x70), (0x90, 0xE0, 0x80), (0xFF, 0xD8, 0x70),
    (0x70, 0xB0, 0xFF), (0xE0, 0x90, 0xFF), (0x70, 0xE0, 0xF0), (0xFF, 0xFF, 0xFF)]

  function Square(a: int): int { a * a }

  function Dist(rgb: (Byte, Byte, Byte), i: nat): int
    requires i < 16
  {
    var p := PALETTE_RGB[i];
    Square(rgb.0 - p.0) + Square(rgb.1 - p.1) + Square(rgb.2 - p.2)
  }

  /** The nearest of the first `n` palette colors, the lowest index among equals. */
  function NearestOf(rgb: (Byte, Byte, Byte), n: nat): (i: nat)
    requires 1 <= n <= 16
    ensures i < n
    ensures forall j | 0 <= j < n :: Dist(rgb, i) <= Dist(rgb, j)
    ensures forall j | 0 <= j < i :: Dist(rgb, i) < Dist(rgb, j)
  {
    if n == 1 then 0
    else
      var i := NearestOf(rgb, n - 1);
      if Dist(rgb, n - 1) < Dist(rgb, i) then n - 1 else i
  }

  function Level(n: nat): (r: Byte)
    requires n <= 5
  {
    if n == 0 then 0 else 55 + n * 40
  }

  function PaletteIndex(c: Color): (r: Option<nat>)
    ensures r.Some? ==> r.value < 16
    ensures r.None? <==> c.Reset?
  {
    match c
    case Reset => None
    case Black => Some(0)
    case Red => Some(1)
    case Green => Some(2)
    case Yellow => Some(3)
    case Blue => Some(4)
    case Magenta => Some(5)
    case Cyan => Some(6)
    case Gray => Some(7)
    case DarkGray => Some(8)
    case LightRed => Some(9)
    case LightGreen => Some(10)
    case LightYellow => Some(11)
    case LightBlue => Some(12)
    case LightMagenta => Some(13)
    case LightCyan => Some(14)
    case White => Some(15)
    case Indexed(i) =>
      if i < 16 then Some(i)
      else if i >= 232 then
        var v: Byte := 8 + (i - 232) * 10;
        Some(NearestOf((v, v, v), 16))
      else
        var k := i - 16;
        Some(NearestOf((Level(k / 36), Level(k / 6 % 6), Level(k % 6)), 16))
    case Rgb(r, g, b) => Some(NearestOf((r, g, b), 16))
  }

  /** A ratatui cell: its symbol's characters, colors and the modifiers the console can show. */
  datatype Styled = Styled(symbol: seq<nat>, fg: Color, bg: Color, bold: bool, dim: bool, reversed: bool)

  datatype Update = Update(x: nat, y: nat, cell: Styled)

  function PenOf(cell: Styled): Attr {
    Attr(PaletteIndex(cell.fg), PaletteIndex(cell.bg), cell.bold, cell.dim, cell.reversed)
  }

  /** anssos_tui::console_has(): the same set as the kernel's font. */
  predicate ConsoleHas(c: nat) {
    0x20 <= c <= 0x7E || C.InFont(c)
  }

  /** The character drawn for a symbol: itself if the console has it, else a stand-in. */
  function Shown(symbol: seq<nat>): (c: nat)
    ensures ConsoleHas(c)
  {
    if |symbol| == 0 then SPACE
    else if |symbol| > 1 then QUESTION
    else
      var c := symbol[0];
      if ConsoleHas(c) then c
      else if c == 0x2501 || c == 0x2550 then 0x2500
      else if c == 0x2503 || c == 0x2551 then 0x2502
      else if 0x2581 <= c <= 0x2587 || c == 0x25A0 then 0x2588
      else QUESTION
  }

  /** Whatever is sent is drawn as itself, never as the console's fallback. */
  lemma ShownIsDrawable(symbol: seq<nat>)
    ensures C.Glyph(Shown(symbol)) == Shown(symbol)
  {
  }

  // --- Bytes ---

  function Decimal(n: nat): (bs: seq<Byte>)
    ensures bs != []
  {
    if n < 10 then [0x30 + n] else Decimal(n / 10) + [0x30 + n % 10]
  }

  function EncodeUtf8(c: nat): (bs: seq<Byte>)
    requires c < 0x11_0000
  {
    if c < 0x80 then [c]
    else if c < 0x800 then [0xC0 + c / 0x40, 0x80 + c % 0x40]
    else if c < 0x1_0000 then [0xE0 + c / 0x1000, 0x80 + c / 0x40 % 0x40, 0x80 + c % 0x40]
    else [0xF0 + c / 0x4_0000, 0x80 + c / 0x1000 % 0x40, 0x80 + c / 0x40 % 0x40, 0x80 + c % 0x40]
  }

  function Cup(x: nat, y: nat): seq<Byte> {
    [ESC, 0x5B] + Decimal(y + 1) + [0x3B] + Decimal(x + 1) + [0x48]
  }

  function FgCode(i: nat): nat { if i < 8 then 30 + i else 90 + (i - 8) }
  function BgCode(i: nat): nat { if i < 8 then 40 + i else 100 + (i - 8) }

  function FgOf(pen: Attr): nat { if pen.fg.Some? then FgCode(pen.fg.value) else 0 }
  function BgOf(pen: Attr): nat { if pen.bg.Some? then BgCode(pen.bg.value) else 0 }

  /** ";n", when `on`. */
  function OptBytes(on: bool, n: nat): seq<Byte> { if on then [0x3B] + Decimal(n) else [] }

  function ModifierBytes(pen: Attr): seq<Byte> {
    [ESC, 0x5B] + Decimal(0) + OptBytes(pen.bold, 1) + OptBytes(pen.dim, 2) + OptBytes(pen.rev, 7)
  }

  /** write_sgr(): reset everything, then set this pen. */
  function SgrBytes(pen: Attr): seq<Byte> {
    ModifierBytes(pen) + OptBytes(pen.fg.Some?, FgOf(pen)) + OptBytes(pen.bg.Some?, BgOf(pen)) + [0x6D]
  }

  datatype Backend = Backend(out: seq<Byte>, cursor: Option<(nat, nat)>, pen: Attr)

  function Goto(b: Backend, x: nat, y: nat): Backend {
    b.(out := b.out + Cup(x, y), cursor := Some((x, y)))
  }

  function SetPen(b: Backend, pen: Attr): Backend {
    if pen != b.pen then b.(out := b.out + SgrBytes(pen), pen := pen) else b
  }

  function DrawCell(b: Backend, u: Update): Backend {
    var b1 := if b.cursor != Some((u.x, u.y)) then Goto(b, u.x, u.y) else b;
    var b2 := SetPen(b1, PenOf(u.cell));
    b2.(out := b2.out + EncodeUtf8(Shown(u.cell.symbol)), cursor := Some((u.x + 1, u.y)))
  }

  function Draw(b: Backend, us: seq<Update>): Backend {
    if us == [] then b else DrawCell(Draw(b, us[..|us| - 1]), us[|us| - 1])
  }

  /** size(): one row fewer than the window has, but at least one. */
  function Height(rows: nat): nat {
    if rows >= 2 then rows - 1 else 1
  }

  /** clear(): reset the pen, then erase the whole display. */
  function Clear(b: Backend): Backend {
    var b1 := SetPen(b, PLAIN);
    b1.(out := b1.out + [ESC, 0x5B, 0x32, 0x4A])
  }
}
