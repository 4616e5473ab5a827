/**
 * tile's virtual terminal: one pane's screen as a flat vector of cells, driven a
 * byte at a time (userland/rust/tile/src/vt.rs).
 */
module VtModel {
  import opened Wrappers
  import opened Terminal

  const U16_MAX: nat := 65535

  datatype Vt = Vt(
    cols: nat, rows: nat, cells: seq<Cell>, cx: nat, cy: nat, attr: Attr, visible: bool,
    state: Parse, acc: nat, need: nat,          // UTF-8 in progress: bits so far, bytes left
    params: seq<nat>, nparams: nat, priv: bool)

  predicate Ok(v: Vt) {
    && 1 <= v.cols <= U16_MAX && 1 <= v.rows <= U16_MAX
    && |v.cells| == RowStart(v.rows, v.cols)
    && v.cx < v.cols && v.cy < v.rows
    && |v.params| == MAX_PARAMS && v.nparams <= MAX_PARAMS
    && (forall i | 0 <= i < MAX_PARAMS :: v.params[i] <= U16_MAX)
  }

  /** Still a valid terminal of the same size: the cursor is on the grid. */
  predicate Keeps(v: Vt, v': Vt) {
    Ok(v') && v'.cols == v.cols && v'.rows == v.rows
  }

  function New(cols: nat, rows: nat): (v: Vt)
    requires cols <= U16_MAX && rows <= U16_MAX
    ensures Ok(v)
  {
    var (c, r) := (if cols < 1 then 1 else cols, if rows < 1 then 1 else rows);
    Vt(c, r, Blanks(RowStart(r, c)), 0, 0, PLAIN, true, Normal, 0, 0, NO_PARAMS, 0, false)
  }

  function Set(v: Vt, x: nat, y: nat, c: Cell): (v': Vt)
    requires Ok(v) && x < v.cols && y < v.rows
    ensures Keeps(v, v')
  {
    RowsAhead(y, v.rows, v.cols);
    v.(cells := v.cells[RowStart(y, v.cols) + x := c])
  }

  /** `count` cells from (x, y) along the row. */
  function Erase(v: Vt, x: nat, y: nat, count: nat): (v': Vt)
    requires Ok(v)
    ensures Keeps(v, v')
  {
    v.(cells := Blanked(v.cells, RowStart(y, v.cols) + x, RowStart(y, v.cols) + Min(x + count, v.cols)))
  }

  function EraseRows(v: Vt, from: nat, to: nat): (v': Vt)
    requires Ok(v)
    ensures Keeps(v, v')
  {
    v.(cells := Blanked(v.cells, RowStart(from, v.cols), RowStart(to, v.cols)))
  }

  function ScrollUp(v: Vt): (v': Vt)
    requires Ok(v)
    ensures Keeps(v, v')
  {
    RowsAhead(0, v.rows, v.cols);
    v.(cells := v.cells[v.cols..] + Blanks(v.cols))
  }

  function NextRow(v: Vt): (v': Vt)
    requires Ok(v)
    ensures Keeps(v, v')
  {
    if v.cy + 1 >= v.rows then ScrollUp(v).(cy := v.rows - 1) else v.(cy := v.cy + 1)
  }

  function Put(v: Vt, ch: nat): (v': Vt)
    requires Ok(v)
    ensures Keeps(v, v')
  {
    var v1 := Set(v, v.cx, v.cy, Cell(ch, v.attr));
    if v.cx + 1 >= v.cols then NextRow(v1.(cx := 0)) else v1.(cx := v.cx + 1)
  }

  /** char::from_u32(), with '?' for what is not a scalar value. */
  function Scalar(cp: nat): nat {
    if cp < 0xD800 || 0xE000 <= cp <= 0x10FFFF then cp else QUESTION
  }

  function ParamOr(v: Vt, n: nat, fallback: nat): nat
    requires Ok(v) && n < MAX_PARAMS
  {
    if n >= v.nparams || v.params[n] == 0 then fallback else v.params[n]
  }

  /** One SGR parameter. */
  function SgrOne(a: Attr, p: nat): Attr {
    if p == 0 then PLAIN
    else if p == 1 then a.(bold := true)
    else if p == 2 then a.(dim := true)
    else if p == 7 then a.(rev := true)
    else if p == 22 then a.(bold := false, dim := false)
    else if p == 27 then a.(rev := false)
    else if 30 <= p <= 37 then a.(fg := Some(p - 30))
    else if p == 39 then a.(fg := None)
    else if 40 <= p <= 47 then a.(bg := Some(p - 40))
    else if p == 49 then a.(bg := None)
    else if 90 <= p <= 97 then a.(fg := Some(p - 90 + 8))
    else if 100 <= p <= 107 then a.(bg := Some(p - 100 + 8))
    else a
  }

  function Sgr(a: Attr, ps: seq<nat>): Attr {
    if ps == [] then a else SgrOne(Sgr(a, ps[..|ps| - 1]), ps[|ps| - 1])
  }

  function Mode(v: Vt): nat
    requires Ok(v)
  {
    if v.nparams > 0 then v.params[0] else 0
  }

  function EraseDisplay(v: Vt, mode: nat): (v': Vt)
    requires Ok(v)
    ensures Keeps(v, v')
  {
    if mode == 2 then EraseRows(v, 0, v.rows)
    else if mode == 1 then Erase(EraseRows(v, 0, v.cy), 0, v.cy, v.cx + 1)
    else EraseRows(Erase(v, v.cx, v.cy, v.cols - v.cx), v.cy + 1, v.rows)
  }

  function EraseLine(v: Vt, mode: nat): (v': Vt)
    requires Ok(v)
    ensures Keeps(v, v')
  {
    if mode == 2 then Erase(v, 0, v.cy, v.cols)
    else if mode == 1 then Erase(v, 0, v.cy, v.cx + 1)
    else Erase(v, v.cx, v.cy, v.cols - v.cx)
  }

  function CsiFinal(v: Vt, fin: Byte): (v': Vt)
    requires Ok(v)
    ensures Keeps(v, v')
  {
    var p := ParamOr(v, 0, 1);
    match fin
    case 0x48 | 0x66 => v.(cy := Min(p - 1, v.rows - 1), cx := Min(ParamOr(v, 1, 1) - 1, v.cols - 1))   // CUP
    case 0x41 => v.(cy := Monus(v.cy, p))   // CUU
    case 0x42 => v.(cy := Min(Min(v.cy + p, U16_MAX), v.rows - 1))   // CUD
    case 0x43 => v.(cx := Min(Min(v.cx + p, U16_MAX), v.cols - 1))   // CUF
    case 0x44 => v.(cx := Monus(v.cx, p))   // CUB
    case 0x4A => EraseDisplay(v, Mode(v))   // ED
    case 0x4B => EraseLine(v, Mode(v))   // EL
    case 0x6D => v.(attr := Sgr(if v.nparams == 0 then PLAIN else v.attr, v.params[..v.nparams]))   // SGR
    case _ => v
  }

  function PrivateFinal(v: Vt, fin: Byte): (v': Vt)
    requires Ok(v)
    ensures Keeps(v, v')
  {
    if v.nparams > 0 && v.params[0] == 25 then
      if fin == 0x68 then v.(visible := true)
      else if fin == 0x6C then v.(visible := false)
      else v
    else v
  }

  /** u16 saturating_mul(10).saturating_add(digit). */
  function Saturate(p: nat, digit: nat): (r: nat)
    ensures r <= U16_MAX
  {
    Min(Min(p * 10, U16_MAX) + digit, U16_MAX)
  }

  function InCsi(v: Vt, b: Byte): (v': Vt)
    requires Ok(v)
    ensures Keeps(v, v')
  {
    if b == 0x3F && v.nparams == 0 then v.(priv := true)
    else if 0x30 <= b <= 0x39 then
      var n := if v.nparams == 0 then 1 else v.nparams;
      v.(nparams := n, params := v.params[n - 1 := Saturate(v.params[n - 1], b - 0x30)])
    else if b == 0x3B then
      var n := if v.nparams == 0 then 1 else v.nparams;
      v.(nparams := if n < MAX_PARAMS then n + 1 else n)
    else
      (if v.priv then PrivateFinal(v, b) else CsiFinal(v, b)).(state := Normal)
  }

  /** A byte below 0x80 once any UTF-8 sequence is out of the way. */
  function Plain(v: Vt, b: Byte): (v': Vt)
    requires Ok(v)
    ensures Keeps(v, v')
  {
    match v.state
    case Esc =>
      if b == 0x5B then v.(state := Csi, params := NO_PARAMS, nparams := 0, priv := false) else v.(state := Normal)
    case Csi => InCsi(v, b)
    case Normal =>
      if b == ESC then v.(state := Esc)
      else if b == LF then NextRow(v.(cx := 0))
      else if b == CR then v.(cx := 0)
      else if b == BS then
        if v.cx > 0 then Set(v.(cx := v.cx - 1), v.cx - 1, v.cy, Cell(SPACE, v.attr)) else v
      else if 0x20 <= b <= 0x7E then Put(v, b)
      else v
  }

  /** A byte of 0x80 or more that does not continue a sequence. */
  function Lead(v: Vt, b: Byte): (v': Vt)
    requires Ok(v)
    ensures Keeps(v, v')
  {
    if 0xC0 <= b <= 0xDF then v.(acc := b % 0x20, need := 1)
    else if 0xE0 <= b <= 0xEF then v.(acc := b % 0x10, need := 2)
    else if 0xF0 <= b <= 0xF7 then v.(acc := b % 0x08, need := 3)
    else Put(v, QUESTION).(acc := 0, need := 0)
  }

  function Step(v: Vt, b: Byte): (v': Vt)
    requires Ok(v)
    ensures Keeps(v, v')
  {
    if v.need > 0 && 0x80 <= b < 0xC0 then
      var v1 := v.(acc := v.acc * 64 + b % 64, need := v.need - 1);
      if v1.need == 0 then Put(v1, Scalar(v1.acc)) else v1
    else
      var v1 := if v.need > 0 then Put(v.(need := 0), QUESTION) else v;
      if b >= 0x80 then Lead(v1, b) else Plain(v1, b)
  }

  /** Whatever is written to a pane, its cursor stays on its grid (the result is Ok). */
  function Feed(v: Vt, bs: seq<Byte>): (v': Vt)
    requires Ok(v)
    ensures Keeps(v, v')
  {
    if bs == [] then v else Step(Feed(v, bs[..|bs| - 1]), bs[|bs| - 1])
  }

  lemma {:induction false} FeedConcat(v: Vt, a: seq<Byte>, b: seq<Byte>)
    requires Ok(v)
    ensures Feed(v, a + b) == Feed(Feed(v, a), b)
  {
    if b == [] {
      assert a + b == a;
    } else {
      var n := |b| - 1;
      FeedConcat(v, a, b[..n]);
      assert (a + b)[..|a + b| - 1] == a + b[..n];
    }
  }
}
