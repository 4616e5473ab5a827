/**
 * Printer and parser: what the backend prints, the terminals read back as exactly
 * the cell updates it was given.
 */
module BackendRoundTrip {
  import opened Wrappers
  import opened Terminal
  import V = VtModel
  import C = ConsoleModel
  import opened TerminalAgreement
  import opened BackendModel

  /** Feeding `bs` takes `v` to `v'`, without leaving the domain on which the terminals agree. */
  ghost predicate Reads(v: V.Vt, bs: seq<Byte>, v': V.Vt) {
    V.Ok(v) && V.Feed(v, bs) == v' && InDomainAll(v, bs)
  }

  lemma {:induction false} ReadsThen(v: V.Vt, a: seq<Byte>, w: V.Vt, b: seq<Byte>, x: V.Vt)
    requires Reads(v, a, w) && Reads(w, b, x)
    ensures Reads(v, a + b, x)
  {
    V.FeedConcat(v, a, b);
    if b == [] {
      assert a + b == a;
    } else {
      var n := |b| - 1;
      ReadsThen(v, a, w, b[..n], V.Feed(w, b[..n]));
      assert (a + b)[..|a + b| - 1] == a + b[..n];
    }
  }

  lemma ReadsOne(v: V.Vt, b: Byte)
    requires V.Ok(v) && InDomain(v, b)
    ensures Reads(v, [b], V.Step(v, b))
  {
    var bs: seq<Byte> := [b];
    assert bs[..0] == [] && V.Feed(v, bs[..0]) == v;
    assert V.Feed(v, bs) == V.Step(V.Feed(v, bs[..0]), b);
  }

  lemma ReadsNext(v: V.Vt, a: seq<Byte>, w: V.Vt, b: Byte)
    requires Reads(v, a, w) && InDomain(w, b)
    ensures Reads(v, a + [b], V.Step(w, b))
  {
    ReadsOne(w, b);
    ReadsThen(v, a, w, [b], V.Step(w, b));
  }

  // --- CSI parameters ---

  function Pad(ps: seq<nat>): (r: seq<nat>)
    requires |ps| <= MAX_PARAMS
    ensures |r| == MAX_PARAMS
  {
    ps + seq(MAX_PARAMS - |ps|, _ => 0)
  }

  predicate Params(ps: seq<nat>) {
    |ps| <= MAX_PARAMS && forall i | 0 <= i < |ps| :: ps[i] <= V.U16_MAX
  }

  /** `v` inside a CSI sequence that has given the parameters `ps` so far. */
  function CsiWith(v: V.Vt, ps: seq<nat>): (w: V.Vt)
    requires V.Ok(v) && Params(ps)
    ensures V.Ok(w)
  {
    v.(state := Csi, params := Pad(ps), nparams := |ps|, priv := false)
  }

  lemma DigitRead(v: V.Vt, ps: seq<nat>, n: nat)
    requires V.Ok(v) && v.need == 0 && Params(ps) && ps != [] && n <= V.U16_MAX
    requires ps[|ps| - 1] == n / 10
    ensures InDomain(CsiWith(v, ps), 0x30 + n % 10)
    ensures V.Step(CsiWith(v, ps), 0x30 + n % 10) == CsiWith(v, ps[..|ps| - 1] + [n])
  {
    var k := |ps| - 1;
    assert Pad(ps)[k := n] == Pad(ps[..k] + [n]);
  }

  /** A decimal number is read back into the parameter being given. */
  lemma {:induction false} DecimalRead(v: V.Vt, ps: seq<nat>, n: nat)
    requires V.Ok(v) && v.need == 0 && Params(ps) && ps != [] && ps[|ps| - 1] == 0 && n <= V.U16_MAX
    ensures Reads(CsiWith(v, ps), Decimal(n), CsiWith(v, ps[..|ps| - 1] + [n]))
  {
    if n < 10 {
      DigitRead(v, ps, n);
      ReadsOne(CsiWith(v, ps), 0x30 + n);
    } else {
      DecimalRead(v, ps, n / 10);
      var qs := ps[..|ps| - 1] + [n / 10];
      DigitRead(v, qs, n);
      ReadsNext(CsiWith(v, ps), Decimal(n / 10), CsiWith(v, qs), 0x30 + n % 10);
      assert qs[..|qs| - 1] + [n] == ps[..|ps| - 1] + [n];
    }
  }

  lemma FirstDigitOpens(v: V.Vt, b: Byte)
    requires V.Ok(v) && v.need == 0 && 0x30 <= b <= 0x39
    ensures InDomain(CsiWith(v, []), b) && V.Step(CsiWith(v, []), b) == V.Step(CsiWith(v, [0]), b)
  {
    assert Pad([]) == Pad([0]);
  }

  lemma {:induction false} FirstDecimalRead(v: V.Vt, n: nat)
    requires V.Ok(v) && v.need == 0 && n <= V.U16_MAX
    ensures Reads(CsiWith(v, []), Decimal(n), CsiWith(v, [n]))
  {
    if n < 10 {
      DigitRead(v, [0], n);
      FirstDigitOpens(v, 0x30 + n);
      ReadsOne(CsiWith(v, []), 0x30 + n);
      assert [0][..0] + [n] == [n];
    } else {
      FirstDecimalRead(v, n / 10);
      DigitRead(v, [n / 10], n);
      ReadsNext(CsiWith(v, []), Decimal(n / 10), CsiWith(v, [n / 10]), 0x30 + n % 10);
      assert [n / 10][..0] + [n] == [n];
    }
  }

  lemma SemicolonRead(v: V.Vt, ps: seq<nat>)
    requires V.Ok(v) && v.need == 0 && Params(ps) && 1 <= |ps| < MAX_PARAMS
    ensures Reads(CsiWith(v, ps), [0x3B], CsiWith(v, ps + [0]))
  {
    assert Pad(ps) == Pad(ps + [0]);
    ReadsOne(CsiWith(v, ps), 0x3B);
  }

  /** One more parameter: ";n". */
  lemma ParamRead(v: V.Vt, ps: seq<nat>, n: nat)
    requires V.Ok(v) && v.need == 0 && Params(ps) && 1 <= |ps| < MAX_PARAMS && n <= V.U16_MAX
    ensures Reads(CsiWith(v, ps), [0x3B] + Decimal(n), CsiWith(v, ps + [n]))
  {
    SemicolonRead(v, ps);
    DecimalRead(v, ps + [0], n);
    assert (ps + [0])[..|ps|] + [n] == ps + [n];
    ReadsThen(CsiWith(v, ps), [0x3B], CsiWith(v, ps + [0]), Decimal(n), CsiWith(v, ps + [n]));
  }

  /** At rest: between sequences and between characters. */
  predicate Ground(v: V.Vt) {
    V.Ok(v) && v.state == Normal && v.need == 0
  }

  lemma CsiOpens(v: V.Vt)
    requires Ground(v)
    ensures Reads(v, [ESC, 0x5B], CsiWith(v, []))
  {
    ReadsOne(v, ESC);
    ReadsNext(v, [ESC], v.(state := Esc), 0x5B);
    assert Pad([]) == NO_PARAMS;
    assert [ESC] + [0x5B] == [ESC, 0x5B];
  }

  /** After a sequence with parameters `ps`: back at rest, only the parser's scratch changed. */
  function After(v: V.Vt, ps: seq<nat>): (w: V.Vt)
    requires V.Ok(v) && Params(ps)
    ensures V.Ok(w)
  {
    v.(state := Normal, params := Pad(ps), nparams := |ps|, priv := false)
  }

  /** A sequence up to its first parameter. */
  lemma FirstParamRead(v: V.Vt, n: nat)
    requires Ground(v) && n <= V.U16_MAX
    ensures Reads(v, [ESC, 0x5B] + Decimal(n), CsiWith(v, [n]))
  {
    CsiOpens(v);
    FirstDecimalRead(v, n);
    ReadsThen(v, [ESC, 0x5B], CsiWith(v, []), Decimal(n), CsiWith(v, [n]));
  }

  lemma CupParamsRead(v: V.Vt, x: nat, y: nat)
    requires Ground(v) && x < v.cols && y < v.rows
    ensures Reads(v, [ESC, 0x5B] + Decimal(y + 1) + ([0x3B] + Decimal(x + 1)), CsiWith(v, [y + 1, x + 1]))
  {
    FirstParamRead(v, y + 1);
    ParamRead(v, [y + 1], x + 1);
    assert [y + 1] + [x + 1] == [y + 1, x + 1];
    ReadsThen(v, [ESC, 0x5B] + Decimal(y + 1), CsiWith(v, [y + 1]), [0x3B] + Decimal(x + 1),
              CsiWith(v, [y + 1, x + 1]));
  }

  lemma CupFinal(v: V.Vt, x: nat, y: nat)
    requires Ground(v) && x < v.cols && y < v.rows
    ensures var w := CsiWith(v, [y + 1, x + 1]);
      InDomain(w, 0x48) && V.Step(w, 0x48) == After(v, [y + 1, x + 1]).(cx := x, cy := y)
  {
  }

  /** A cursor address is read back as that position. */
  lemma CupRead(v: V.Vt, x: nat, y: nat)
    requires Ground(v) && x < v.cols && y < v.rows
    ensures Reads(v, Cup(x, y), After(v, [y + 1, x + 1]).(cx := x, cy := y))
  {
    var bs := [ESC, 0x5B] + Decimal(y + 1) + ([0x3B] + Decimal(x + 1));
    assert Cup(x, y) == bs + [0x48];
    CupFinal(v, x, y);
    CupParamsRead(v, x, y);
    ReadsNext(v, bs, CsiWith(v, [y + 1, x + 1]), 0x48);
  }

  // --- SGR ---

  /** An optional parameter of an SGR sequence. */
  function Opt(on: bool, n: nat): seq<nat> { if on then [n] else [] }

  lemma OptRead(v: V.Vt, done: seq<Byte>, ps: seq<nat>, on: bool, n: nat)
    requires Ground(v) && Params(ps) && 1 <= |ps| < MAX_PARAMS && n <= V.U16_MAX
    requires Reads(v, done, CsiWith(v, ps))
    ensures Reads(v, done + OptBytes(on, n), CsiWith(v, ps + Opt(on, n)))
  {
    if on {
      ParamRead(v, ps, n);
      ReadsThen(v, done, CsiWith(v, ps), OptBytes(on, n), CsiWith(v, ps + [n]));
    } else {
      assert done + OptBytes(on, n) == done && ps + Opt(on, n) == ps;
    }
  }

  lemma SgrNext(a: Attr, ps: seq<nat>, on: bool, n: nat)
    ensures V.Sgr(a, ps + Opt(on, n)) == if on then V.SgrOne(V.Sgr(a, ps), n) else V.Sgr(a, ps)
  {
    if on { assert (ps + [n])[..|ps|] == ps; } else { assert ps + Opt(on, n) == ps; }
  }

  predicate IsPen(pen: Attr) {
    (pen.fg.Some? ==> pen.fg.value < 16) && (pen.bg.Some? ==> pen.bg.value < 16)
  }

  /** The parameters write_sgr() sends. */
  function Codes(pen: Attr): seq<nat> {
    Modifiers(pen) + Opt(pen.fg.Some?, FgOf(pen)) + Opt(pen.bg.Some?, BgOf(pen))
  }

  function Modifiers(pen: Attr): seq<nat> {
    [0] + Opt(pen.bold, 1) + Opt(pen.dim, 2) + Opt(pen.rev, 7)
  }

  lemma CodesSetPen(a: Attr, pen: Attr)
    requires IsPen(pen)
    ensures V.Sgr(a, Codes(pen)) == pen
  {
    var p0 := [0];
    assert p0[..0] == [];
    assert V.Sgr(a, p0) == V.SgrOne(V.Sgr(a, p0[..0]), 0) == PLAIN;
    SgrNext(a, p0, pen.bold, 1);
    var p1 := p0 + Opt(pen.bold, 1);
    assert V.Sgr(a, p1) == PLAIN.(bold := pen.bold);
    SgrNext(a, p1, pen.dim, 2);
    var p2 := p1 + Opt(pen.dim, 2);
    assert V.Sgr(a, p2) == PLAIN.(bold := pen.bold, dim := pen.dim);
    SgrNext(a, p2, pen.rev, 7);
    var p3 := p2 + Opt(pen.rev, 7);
    assert V.Sgr(a, p3) == pen.(fg := None, bg := None);
    ColorsSet(a, p3, pen);
  }

  lemma FgSets(a: Attr, i: nat)
    requires i < 16
    ensures V.SgrOne(a, FgCode(i)) == a.(fg := Some(i)) && FgCode(i) <= 107
  {
  }

  lemma BgSets(a: Attr, i: nat)
    requires i < 16
    ensures V.SgrOne(a, BgCode(i)) == a.(bg := Some(i)) && BgCode(i) <= 107
  {
  }

  lemma ColorsSet(a: Attr, ps: seq<nat>, pen: Attr)
    requires IsPen(pen) && V.Sgr(a, ps) == pen.(fg := None, bg := None)
    ensures V.Sgr(a, ps + Opt(pen.fg.Some?, FgOf(pen)) + Opt(pen.bg.Some?, BgOf(pen))) == pen
  {
    SgrNext(a, ps, pen.fg.Some?, FgOf(pen));
    var qs := ps + Opt(pen.fg.Some?, FgOf(pen));
    if pen.fg.Some? { FgSets(V.Sgr(a, ps), pen.fg.value); }
    assert V.Sgr(a, qs) == pen.(bg := None);
    SgrNext(a, qs, pen.bg.Some?, BgOf(pen));
    if pen.bg.Some? { BgSets(V.Sgr(a, qs), pen.bg.value); }
  }

  lemma ModifiersRead(v: V.Vt, pen: Attr)
    requires Ground(v)
    ensures Reads(v, ModifierBytes(pen), CsiWith(v, Modifiers(pen)))
  {
    FirstParamRead(v, 0);
    var b0, p0 := [ESC, 0x5B] + Decimal(0), [0];
    OptRead(v, b0, p0, pen.bold, 1);
    var b1, p1 := b0 + OptBytes(pen.bold, 1), p0 + Opt(pen.bold, 1);
    OptRead(v, b1, p1, pen.dim, 2);
    OptRead(v, b1 + OptBytes(pen.dim, 2), p1 + Opt(pen.dim, 2), pen.rev, 7);
  }

  lemma ColorsRead(v: V.Vt, done: seq<Byte>, ps: seq<nat>, fg: bool, f: nat, bg: bool, b: nat)
    requires Ground(v) && Params(ps) && 1 <= |ps| <= 4 && f <= 107 && b <= 107 && Reads(v, done, CsiWith(v, ps))
    ensures Params(ps + Opt(fg, f) + Opt(bg, b))
    ensures Reads(v, done + OptBytes(fg, f) + OptBytes(bg, b), CsiWith(v, ps + Opt(fg, f) + Opt(bg, b)))
  {
    OptRead(v, done, ps, fg, f);
    OptRead(v, done + OptBytes(fg, f), ps + Opt(fg, f), bg, b);
  }

  lemma SgrFinal(v: V.Vt, ps: seq<nat>, pen: Attr)
    requires Ground(v) && Params(ps) && ps != [] && V.Sgr(v.attr, ps) == pen
    ensures InDomain(CsiWith(v, ps), 0x6D) && V.Step(CsiWith(v, ps), 0x6D) == After(v, ps).(attr := pen)
  {
    assert Pad(ps)[..|ps|] == ps;
  }

  lemma CodesRead(v: V.Vt, pen: Attr)
    requires Ground(v) && IsPen(pen)
    ensures Params(Codes(pen))
    ensures Reads(v, ModifierBytes(pen) + OptBytes(pen.fg.Some?, FgOf(pen)) + OptBytes(pen.bg.Some?, BgOf(pen)),
                  CsiWith(v, Codes(pen)))
  {
    assert FgOf(pen) <= 107 && BgOf(pen) <= 107 by {
      if pen.fg.Some? { FgSets(PLAIN, pen.fg.value); }
      if pen.bg.Some? { BgSets(PLAIN, pen.bg.value); }
    }
    ModifiersRead(v, pen);
    ColorsRead(v, ModifierBytes(pen), Modifiers(pen), pen.fg.Some?, FgOf(pen), pen.bg.Some?, BgOf(pen));
  }

  /** One SGR sequence leaves the terminal's attributes equal to the pen. */
  lemma SgrRead(v: V.Vt, pen: Attr)
    requires Ground(v) && IsPen(pen)
    ensures Params(Codes(pen)) && Reads(v, SgrBytes(pen), After(v, Codes(pen)).(attr := pen))
  {
    CodesRead(v, pen);
    CodesSetPen(v.attr, pen);
    SgrFinal(v, Codes(pen), pen);
    ReadsNext(v, ModifierBytes(pen) + OptBytes(pen.fg.Some?, FgOf(pen)) + OptBytes(pen.bg.Some?, BgOf(pen)),
              CsiWith(v, Codes(pen)), 0x6D);
  }

  // --- Characters ---

  /** Printable: drawn when it arrives, in either terminal. */
  predicate Printable(c: nat) {
    0x20 <= c <= 0x7E || 0x80 <= c < 0xD800 || 0xE000 <= c <= 0x10FFFF
  }

  /** Partway through a character. */
  function Partial(v: V.Vt, acc: nat, need: nat): (w: V.Vt)
    requires V.Ok(v)
    ensures V.Ok(w)
  {
    v.(acc := acc, need := need)
  }

  lemma LeadRead(v: V.Vt, b: Byte, acc: nat, need: nat)
    requires Ground(v)
    requires || (b == 0xC0 + acc && acc < 0x20 && need == 1)
             || (b == 0xE0 + acc && acc < 0x10 && need == 2)
             || (b == 0xF0 + acc && acc < 0x08 && need == 3)
    ensures Reads(v, [b], Partial(v, acc, need))
  {
    ReadsOne(v, b);
  }

  lemma MiddleStep(v: V.Vt, acc: nat, need: nat, d: nat)
    requires Ground(v) && need >= 2 && d < 0x40
    ensures InDomain(Partial(v, acc, need), 0x80 + d)
    ensures V.Step(Partial(v, acc, need), 0x80 + d) == Partial(v, acc * 64 + d, need - 1)
  {
  }

  lemma MiddleRead(v: V.Vt, done: seq<Byte>, acc: nat, need: nat, d: nat)
    requires Ground(v) && need >= 2 && d < 0x40 && Reads(v, done, Partial(v, acc, need))
    ensures Reads(v, done + [0x80 + d], Partial(v, acc * 64 + d, need - 1))
  {
    MiddleStep(v, acc, need, d);
    ReadsNext(v, done, Partial(v, acc, need), 0x80 + d);
  }

  lemma LastStep(v: V.Vt, acc: nat, d: nat, c: nat)
    requires Ground(v) && d < 0x40 && c == acc * 64 + d && Printable(c)
    ensures InDomain(Partial(v, acc, 1), 0x80 + d)
    ensures V.Step(Partial(v, acc, 1), 0x80 + d) == V.Put(v.(acc := c), c)
  {
  }

  lemma LastRead(v: V.Vt, done: seq<Byte>, acc: nat, d: nat, c: nat)
    requires Ground(v) && d < 0x40 && Reads(v, done, Partial(v, acc, 1)) && c == acc * 64 + d && Printable(c)
    ensures Reads(v, done + [0x80 + d], V.Put(v.(acc := c), c))
  {
    LastStep(v, acc, d, c);
    ReadsNext(v, done, Partial(v, acc, 1), 0x80 + d);
  }

  lemma TwoBytesRead(v: V.Vt, c: nat)
    requires Ground(v) && 0x80 <= c < 0x800
    ensures Reads(v, EncodeUtf8(c), V.Put(v.(acc := c), c))
  {
    LeadRead(v, 0xC0 + c / 0x40, c / 0x40, 1);
    LastRead(v, [0xC0 + c / 0x40], c / 0x40, c % 0x40, c);
    assert EncodeUtf8(c) == [0xC0 + c / 0x40] + [0x80 + c % 0x40];
  }

  lemma Sextets(c: nat)
    ensures c / 0x4_0000 * 64 + c / 0x1000 % 0x40 == c / 0x1000
    ensures c / 0x1000 * 64 + c / 0x40 % 0x40 == c / 0x40
    ensures c / 0x40 * 64 + c % 0x40 == c
  {
    assert c / 0x1000 / 0x40 == c / 0x4_0000;
    assert c / 0x40 / 0x40 == c / 0x1000;
  }

  lemma ThreeBytesRead(v: V.Vt, c: nat)
    requires Ground(v) && 0x800 <= c < 0x1_0000 && Printable(c)
    ensures Reads(v, EncodeUtf8(c), V.Put(v.(acc := c), c))
  {
    var h, m, l := c / 0x1000, c / 0x40 % 0x40, c % 0x40;
    Sextets(c);
    LeadRead(v, 0xE0 + h, h, 2);
    MiddleRead(v, [0xE0 + h], h, 2, m);
    LastRead(v, [0xE0 + h] + [0x80 + m], h * 64 + m, l, c);
    assert EncodeUtf8(c) == [0xE0 + h] + [0x80 + m] + [0x80 + l];
  }

  lemma FourBytesRead(v: V.Vt, c: nat)
    requires Ground(v) && 0x1_0000 <= c < 0x11_0000
    ensures Reads(v, EncodeUtf8(c), V.Put(v.(acc := c), c))
  {
    var t, h, m, l := c / 0x4_0000, c / 0x1000 % 0x40, c / 0x40 % 0x40, c % 0x40;
    Sextets(c);
    LeadRead(v, 0xF0 + t, t, 3);
    MiddleRead(v, [0xF0 + t], t, 3, h);
    MiddleRead(v, [0xF0 + t] + [0x80 + h], c / 0x1000, 2, m);
    LastRead(v, [0xF0 + t] + [0x80 + h] + [0x80 + m], c / 0x40, l, c);
    assert EncodeUtf8(c) == [0xF0 + t] + [0x80 + h] + [0x80 + m] + [0x80 + l];
  }

  /** Any printable character, sent as UTF-8, is drawn as itself. */
  lemma CharRead(v: V.Vt, c: nat)
    requires Ground(v) && Printable(c)
    ensures Reads(v, EncodeUtf8(c), V.Put(v.(acc := if c < 0x80 then v.acc else c), c))
  {
    if c < 0x80 {
      ReadsOne(v, c);
    } else if c < 0x800 {
      TwoBytesRead(v, c);
    } else if c < 0x1_0000 {
      ThreeBytesRead(v, c);
    } else {
      FourBytesRead(v, c);
    }
  }

  // --- Whole updates ---

  /** The backend's shadow of the terminal is right: same pen, and the cursor wherever it claims one on the grid. */
  ghost predicate Tracks(b: Backend, v: V.Vt) {
    && Ground(v) && v.attr == b.pen
    && (b.cursor.Some? && b.cursor.value.0 < v.cols && b.cursor.value.1 < v.rows ==>
          (v.cx, v.cy) == b.cursor.value)
  }

  predicate OnGrid(u: Update, cols: nat, rows: nat) { u.x < cols && u.y < rows }

  /** The bottom-right cell, after which the terminal scrolls at once. */
  predicate Corner(u: Update, cols: nat, rows: nat) { u.x + 1 == cols && u.y + 1 == rows }

  /** A position that can be drawn without a scroll. */
  predicate InWindow(u: Update, cols: nat, rows: nat) { OnGrid(u, cols, rows) && !Corner(u, cols, rows) }

  /** The window the backend reports keeps clear of the corner, but on a terminal of one row. */
  lemma ReportedIsInWindow(u: Update, cols: nat, rows: nat)
    requires rows > 0 && u.x < cols && u.y < Height(rows)
    ensures OnGrid(u, cols, rows) && (InWindow(u, cols, rows) <==> rows >= 2 || u.x + 1 < cols)
  {
  }

  /** Where the update lands in the terminal's cells. */
  function Painted(cells: seq<Cell>, cols: nat, u: Update): seq<Cell>
    requires RowStart(u.y, cols) + u.x < |cells|
  {
    cells[RowStart(u.y, cols) + u.x := Cell(Shown(u.cell.symbol), PenOf(u.cell))]
  }

  /** The cells after one update: painted, and scrolled up a row when it is the corner. */
  function Settled(cells: seq<Cell>, cols: nat, rows: nat, u: Update): (r: seq<Cell>)
    requires |cells| == RowStart(rows, cols) && OnGrid(u, cols, rows)
    ensures |r| == |cells|
  {
    RowsAhead(u.y, rows, cols);
    RowsAhead(0, rows, cols);
    var painted := Painted(cells, cols, u);
    if Corner(u, cols, rows) then painted[cols..] + Blanks(cols) else painted
  }

  /** What drawing one update sends. */
  function GotoBytes(b: Backend, u: Update): seq<Byte> {
    if b.cursor != Some((u.x, u.y)) then Cup(u.x, u.y) else []
  }

  function PenBytes(b: Backend, u: Update): seq<Byte> {
    if PenOf(u.cell) != b.pen then SgrBytes(PenOf(u.cell)) else []
  }

  function CellBytes(b: Backend, u: Update): seq<Byte> {
    GotoBytes(b, u) + PenBytes(b, u) + EncodeUtf8(Shown(u.cell.symbol))
  }

  lemma DrawCellIs(b: Backend, u: Update)
    ensures DrawCell(b, u) == Backend(b.out + CellBytes(b, u), Some((u.x + 1, u.y)), PenOf(u.cell))
  {
    assert b.out + CellBytes(b, u) == b.out + GotoBytes(b, u) + PenBytes(b, u) + EncodeUtf8(Shown(u.cell.symbol));
    assert b.out + [] == b.out;
  }

  /** Same screen and attributes, cursor at (x, y). */
  ghost predicate MovedTo(v: V.Vt, w: V.Vt, x: nat, y: nat) {
    Ground(w) && V.Keeps(v, w) && w.cells == v.cells && w.visible == v.visible && w.attr == v.attr && w.cx == x
        && w.cy == y
  }

  lemma AfterMoves(v: V.Vt, ps: seq<nat>, x: nat, y: nat)
    requires Ground(v) && Params(ps) && x < v.cols && y < v.rows
    ensures MovedTo(v, After(v, ps).(cx := x, cy := y), x, y)
  {
  }

  lemma GotoRead(b: Backend, v: V.Vt, u: Update) returns (w: V.Vt)
    requires Tracks(b, v) && OnGrid(u, v.cols, v.rows)
    ensures Reads(v, GotoBytes(b, u), w) && MovedTo(v, w, u.x, u.y)
  {
    if b.cursor == Some((u.x, u.y)) {
      w := v;
    } else {
      w := CupMoves(v, u.x, u.y);
    }
  }

  lemma CupMoves(v: V.Vt, x: nat, y: nat) returns (w: V.Vt)
    requires Ground(v) && x < v.cols && y < v.rows
    ensures Reads(v, Cup(x, y), w) && MovedTo(v, w, x, y)
  {
    CupRead(v, x, y);
    w := After(v, [y + 1, x + 1]).(cx := x, cy := y);
    AfterMoves(v, [y + 1, x + 1], x, y);
  }

  lemma PenRead(b: Backend, v: V.Vt, u: Update) returns (w: V.Vt)
    requires Ground(v) && v.attr == b.pen
    ensures Reads(v, PenBytes(b, u), w) && w.attr == PenOf(u.cell)
    ensures MovedTo(v.(attr := PenOf(u.cell)), w, v.cx, v.cy)
  {
    if PenOf(u.cell) != b.pen {
      SgrRead(v, PenOf(u.cell));
      w := After(v, Codes(PenOf(u.cell))).(attr := PenOf(u.cell));
    } else {
      w := v;
    }
  }

  lemma PutHere(v: V.Vt, c: nat, u: Update)
    requires V.Ok(v) && v.cx == u.x && v.cy == u.y && c == Shown(u.cell.symbol) && v.attr == PenOf(u.cell)
    ensures var w := V.Put(v, c);
      && w.cells == Settled(v.cells, v.cols, v.rows, u)
      && w.attr == v.attr && w.visible == v.visible && w.state == v.state && w.need == v.need
      && (v.cx + 1 < v.cols ==> (w.cx, w.cy) == (v.cx + 1, v.cy))
  {
    RowsAhead(v.cy, v.rows, v.cols);
  }

  lemma ShownIsPrintable(symbol: seq<nat>)
    ensures Printable(Shown(symbol))
  {
  }

  /** The character itself: one cell changes, nothing scrolls but at the corner, and the shadow cursor stays right. */
  lemma SymbolRead(v: V.Vt, u: Update) returns (w: V.Vt)
    requires Ground(v) && v.attr == PenOf(u.cell) && OnGrid(u, v.cols, v.rows) && v.cx == u.x && v.cy == u.y
    ensures Reads(v, EncodeUtf8(Shown(u.cell.symbol)), w) && V.Keeps(v, w) && w.visible == v.visible
    ensures w.cells == Settled(v.cells, v.cols, v.rows, u)
    ensures Ground(w) && w.attr == PenOf(u.cell) && (u.x + 1 < v.cols ==> (w.cx, w.cy) == (u.x + 1, u.y))
  {
    var c := Shown(u.cell.symbol);
    ShownIsPrintable(u.cell.symbol);
    CharRead(v, c);
    var v1 := v.(acc := if c < 0x80 then v.acc else c);
    PutHere(v1, c, u);
    w := V.Put(v1, c);
  }

  /** One update anywhere on the grid, from the shadowed state to the shadowed state. */
  lemma UpdateRead(b: Backend, v: V.Vt, u: Update) returns (w: V.Vt)
    requires Tracks(b, v) && OnGrid(u, v.cols, v.rows)
    ensures Reads(v, CellBytes(b, u), w) && V.Keeps(v, w) && w.visible == v.visible
    ensures w.cells == Settled(v.cells, v.cols, v.rows, u)
    ensures Tracks(DrawCell(b, u), w)
  {
    var v1 := GotoRead(b, v, u);
    var v2 := PenRead(b, v1, u);
    ReadsThen(v, GotoBytes(b, u), v1, PenBytes(b, u), v2);
    w := SymbolRead(v2, u);
    ReadsThen(v, GotoBytes(b, u) + PenBytes(b, u), v2, EncodeUtf8(Shown(u.cell.symbol)), w);
    DrawCellIs(b, u);
  }

  predicate AllOnGrid(us: seq<Update>, cols: nat, rows: nat) {
    forall i | 0 <= i < |us| :: OnGrid(us[i], cols, rows)
  }

  /** The grid after a whole list of updates, scrolls and all. */
  function SettledAll(cells: seq<Cell>, cols: nat, rows: nat, us: seq<Update>): (r: seq<Cell>)
    requires |cells| == RowStart(rows, cols) && AllOnGrid(us, cols, rows)
    ensures |r| == |cells|
  {
    if us == [] then cells
    else
      assert OnGrid(us[|us| - 1], cols, rows);
      Settled(SettledAll(cells, cols, rows, us[..|us| - 1]), cols, rows, us[|us| - 1])
  }

  lemma {:induction false} SettledIsPainted(cells: seq<Cell>, cols: nat, rows: nat, us: seq<Update>)
    requires |cells| == RowStart(rows, cols) && AllInWindow(us, cols, rows)
    ensures AllOnGrid(us, cols, rows) && SettledAll(cells, cols, rows, us) == PaintedAll(cells, cols, rows, us)
  {
    if us != [] {
      assert InWindow(us[|us| - 1], cols, rows);
      SettledIsPainted(cells, cols, rows, us[..|us| - 1]);
    }
  }

  predicate AllInWindow(us: seq<Update>, cols: nat, rows: nat) {
    forall i | 0 <= i < |us| :: InWindow(us[i], cols, rows)
  }

  /** The grid after a whole list of updates, later ones on top. */
  function PaintedAll(cells: seq<Cell>, cols: nat, rows: nat, us: seq<Update>): (r: seq<Cell>)
    requires |cells| == RowStart(rows, cols) && AllInWindow(us, cols, rows)
    ensures |r| == |cells|
  {
    if us == [] then cells
    else
      var u := us[|us| - 1];
      assert InWindow(u, cols, rows);
      RowsAhead(u.y, rows, cols);
      Painted(PaintedAll(cells, cols, rows, us[..|us| - 1]), cols, u)
  }

  /** Everything a draw() call queues. */
  function DrawBytes(b: Backend, us: seq<Update>): seq<Byte> {
    if us == [] then []
    else DrawBytes(b, us[..|us| - 1]) + CellBytes(Draw(b, us[..|us| - 1]), us[|us| - 1])
  }

  lemma AppendAssociates(a: seq<Byte>, b: seq<Byte>, c: seq<Byte>)
    ensures (a + b) + c == a + (b + c)
  {
  }

  /** What draw() queues is what the terminals are fed here. */
  lemma {:induction false} DrawIs(b: Backend, us: seq<Update>)
    ensures Draw(b, us).out == b.out + DrawBytes(b, us)
  {
    if us == [] {
      assert b.out + [] == b.out;
    } else {
      var n := |us| - 1;
      DrawIs(b, us[..n]);
      var b1 := Draw(b, us[..n]);
      DrawCellIs(b1, us[n]);
      AppendAssociates(b.out, DrawBytes(b, us[..n]), CellBytes(b1, us[n]));
    }
  }

  /** Drawing `us` on `v` leaves `w`: the updated cells, nothing else, and a shadow that still tracks. */
  ghost predicate Drawn(b: Backend, v: V.Vt, us: seq<Update>, w: V.Vt)
    requires V.Ok(v) && AllOnGrid(us, v.cols, v.rows)
  {
    && Reads(v, DrawBytes(b, us), w) && V.Keeps(v, w) && w.visible == v.visible
    && w.cells == SettledAll(v.cells, v.cols, v.rows, us) && Tracks(Draw(b, us), w)
  }

  lemma DrawnNext(b: Backend, v: V.Vt, us: seq<Update>, w: V.Vt, u: Update) returns (x: V.Vt)
    requires V.Ok(v) && AllOnGrid(us, v.cols, v.rows) && OnGrid(u, v.cols, v.rows) && Drawn(b, v, us, w)
    ensures AllOnGrid(us + [u], v.cols, v.rows) && Drawn(b, v, us + [u], x)
  {
    var b1 := Draw(b, us);
    x := UpdateRead(b1, w, u);
    ReadsThen(v, DrawBytes(b, us), w, CellBytes(b1, u), x);
    var vs := us + [u];
    assert vs[..|vs| - 1] == us && vs[|vs| - 1] == u;
    assert AllOnGrid(vs, v.cols, v.rows);
  }

  /**
   * What drawing does, for any updates on the grid of any tracked terminal: each paints its cell, the corner also
   * scrolls, and the backend's cursor and pen stay in step.
   */
  lemma {:induction false} DrawLeaves(b: Backend, v: V.Vt, us: seq<Update>) returns (w: V.Vt)
    requires Tracks(b, v) && AllOnGrid(us, v.cols, v.rows)
    ensures Drawn(b, v, us, w)
  {
    if us == [] {
      w := v;
    } else {
      var n := |us| - 1;
      assert us[..n] + [us[n]] == us && OnGrid(us[n], v.cols, v.rows);
      var w1 := DrawLeaves(b, v, us[..n]);
      w := DrawnNext(b, v, us[..n], w1, us[n]);
    }
  }

  /**
   * The round trip: for any updates that keep clear of the corner -- all of the reported window, on a terminal of
   * two or more rows -- the bytes the backend queues take tile's terminal to exactly the grid with those cells
   * changed to the shown character and pen. Nothing scrolls, and the backend's cursor and pen stay in step.
   */
  lemma DrawRoundTrip(b: Backend, v: V.Vt, us: seq<Update>) returns (w: V.Vt)
    requires Tracks(b, v) && AllInWindow(us, v.cols, v.rows)
    ensures Reads(v, DrawBytes(b, us), w) && V.Keeps(v, w) && w.visible == v.visible
    ensures w.cells == PaintedAll(v.cells, v.cols, v.rows, us) && Tracks(Draw(b, us), w)
    ensures Draw(b, us).out == b.out + DrawBytes(b, us)
  {
    DrawIs(b, us);
    SettledIsPainted(v.cells, v.cols, v.rows, us);
    w := DrawLeaves(b, v, us);
  }

  /** The same bytes on the kernel console: it shows the glyph of every cell drawn, with the pen it was drawn with. */
  lemma DrawOnConsole(b: Backend, v: V.Vt, c: C.Console, us: seq<Update>)
    requires Tracks(b, v) && Agree(v, c) && AllInWindow(us, v.cols, v.rows)
    ensures C.Write(c, DrawBytes(b, us)).grid == Glyphs(PaintedAll(v.cells, v.cols, v.rows, us))
    ensures C.Write(c, DrawBytes(b, us)).pen == Draw(b, us).pen
  {
    var w := DrawRoundTrip(b, v, us);
    StreamsAgree(v, c, DrawBytes(b, us));
  }

  // --- Exactly when a cell round-trips ---

  lemma OneUpdate(b: Backend, u: Update)
    ensures DrawBytes(b, [u]) == CellBytes(b, u)
  {
    var us := [u];
    assert us[..0] == [] && DrawBytes(b, us) == DrawBytes(b, us[..0]) + CellBytes(Draw(b, us[..0]), u);
  }

  /** What the backend sends for one cell changes that cell alone. */
  ghost predicate RoundTrips(b: Backend, v: V.Vt, u: Update)
    requires V.Ok(v) && OnGrid(u, v.cols, v.rows)
  {
    RowsAhead(u.y, v.rows, v.cols);
    V.Feed(v, DrawBytes(b, [u])).cells == Painted(v.cells, v.cols, u)
  }

  /** On a given terminal: unless the update is the corner and the scroll after it shows. */
  lemma RoundTripsIff(b: Backend, v: V.Vt, u: Update)
    requires Tracks(b, v) && OnGrid(u, v.cols, v.rows)
    ensures RowStart(u.y, v.cols) + u.x < |v.cells| && v.cols <= |v.cells|
    ensures var painted := Painted(v.cells, v.cols, u);
            RoundTrips(b, v, u) <==> !Corner(u, v.cols, v.rows) || painted[v.cols..] + Blanks(v.cols) == painted
  {
    RowsAhead(u.y, v.rows, v.cols);
    RowsAhead(0, v.rows, v.cols);
    OneUpdate(b, u);
    var w := UpdateRead(b, v, u);
  }

  /** A visible character at the corner never round-trips: its own cell is scrolled away or left blank. */
  lemma CornerIsLost(b: Backend, v: V.Vt, u: Update)
    requires Tracks(b, v) && OnGrid(u, v.cols, v.rows) && Corner(u, v.cols, v.rows)
             && Cell(Shown(u.cell.symbol), PenOf(u.cell)) != BLANK
    ensures !RoundTrips(b, v, u)
  {
    RoundTripsIff(b, v, u);
    var painted := Painted(v.cells, v.cols, u);
    var n := RowStart(v.rows, v.cols) - 1;
    assert RowStart(u.y, v.cols) + u.x == n;
    assert (painted[v.cols..] + Blanks(v.cols))[n] == BLANK != painted[n];
  }

  const LETTER := Styled([0x41], Reset, Reset, false, false, false)

  /** A position round-trips on every tracked terminal of a size if and only if it is not the bottom-right cell. */
  lemma PositionRoundTripsIff(cols: nat, rows: nat, x: nat, y: nat)
    requires x < cols <= V.U16_MAX && y < rows <= V.U16_MAX
    ensures (forall b, v: V.Vt, cell | Tracks(b, v) && v.cols == cols && v.rows == rows ::
               RoundTrips(b, v, Update(x, y, cell)))
       <==> !(x + 1 == cols && y + 1 == rows)
  {
    if x + 1 == cols && y + 1 == rows {
      var b, v, u := Backend([], None, PLAIN), V.New(cols, rows), Update(x, y, LETTER);
      assert Tracks(b, v);
      CornerIsLost(b, v, u);
      assert !RoundTrips(b, v, Update(x, y, LETTER));
    } else {
      forall b, v: V.Vt, cell | Tracks(b, v) && v.cols == cols && v.rows == rows
        ensures RoundTrips(b, v, Update(x, y, cell))
      {
        RoundTripsIff(b, v, Update(x, y, cell));
      }
    }
  }

  /** On one row the backend still reports the corner, and drawing it blanks the whole screen. */
  lemma OneRowScrollsAway(b: Backend, v: V.Vt, u: Update)
    requires Tracks(b, v) && v.rows == 1 && u.x + 1 == v.cols && u.y == 0
    ensures u.y < Height(v.rows) && V.Feed(v, DrawBytes(b, [u])).cells == Blanks(v.cols)
  {
    OneUpdate(b, u);
    var w := UpdateRead(b, v, u);
    OneRowSettles(v.cells, v.cols, u);
  }

  lemma OneRowSettles(cells: seq<Cell>, cols: nat, u: Update)
    requires |cells| == RowStart(1, cols) && u.x + 1 == cols && u.y == 0
    ensures Settled(cells, cols, 1, u) == Blanks(cols)
  {
    assert RowStart(1, cols) == RowStart(0, cols) + cols == cols;
  }

  // --- Clearing ---

  lemma EraseFinal(v: V.Vt)
    requires Ground(v)
    ensures InDomain(CsiWith(v, [2]), 0x4A)
            && V.Step(CsiWith(v, [2]), 0x4A) == After(v, [2]).(cells := Blanks(|v.cells|))
  {
    assert Blanked(v.cells, 0, RowStart(v.rows, v.cols)) == Blanks(|v.cells|);
  }

  lemma EraseAllRead(v: V.Vt)
    requires Ground(v)
    ensures Reads(v, [ESC, 0x5B, 0x32, 0x4A], After(v, [2]).(cells := Blanks(|v.cells|)))
  {
    FirstParamRead(v, 2);
    EraseFinal(v);
    var bs := [ESC, 0x5B] + Decimal(2);
    ReadsNext(v, bs, CsiWith(v, [2]), 0x4A);
    assert bs + [0x4A] == [ESC, 0x5B, 0x32, 0x4A];
  }

  /** clear() leaves a blank screen, and the shadow tracks it. */
  lemma ClearRead(b: Backend, v: V.Vt) returns (w: V.Vt)
    requires Tracks(b, v)
    ensures Clear(b).out == b.out + ClearBytes(b) && Reads(v, ClearBytes(b), w)
    ensures V.Keeps(v, w) && w.cells == Blanks(|v.cells|) && Tracks(Clear(b), w)
  {
    var v1 := v;
    if b.pen != PLAIN {
      SgrRead(v, PLAIN);
      v1 := After(v, Codes(PLAIN)).(attr := PLAIN);
    }
    EraseAllRead(v1);
    w := After(v1, [2]).(cells := Blanks(|v1.cells|));
    ReadsThen(v, if b.pen != PLAIN then SgrBytes(PLAIN) else [], v1, [ESC, 0x5B, 0x32, 0x4A], w);
    assert b.out + ClearBytes(b) == (b.out + if b.pen != PLAIN then SgrBytes(PLAIN) else []) + [ESC, 0x5B, 0x32, 0x4A];
    assert b.out + [] == b.out;
  }

  function ClearBytes(b: Backend): seq<Byte> {
    (if b.pen != PLAIN then SgrBytes(PLAIN) else []) + [ESC, 0x5B, 0x32, 0x4A]
  }
}
