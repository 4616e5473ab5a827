/** Small things used everywhere: Rust's Option, bytes, saturating arithmetic, list search. */
module Wrappers {

  datatype Option<+T> = None | Some(value: T)

  type Byte = b: nat | b < 256 witness 0

  function Min(a: nat, b: nat): nat { if a <= b then a else b }

  /** Subtraction that stops at zero. */
  function Monus(a: nat, b: nat): nat { if a >= b then a - b else 0 }

  /** The first index at or after `from` whose element satisfies `p`: Iterator::position. */
  function FirstFrom<T>(s: seq<T>, from: nat, p: T -> bool): (r: Option<nat>)
    requires from <= |s|
    ensures r.Some? ==> from <= r.value < |s| && p(s[r.value]) && forall j | from <= j < r.value :: !p(s[j])
    ensures r.None? ==> forall j | from <= j < |s| :: !p(s[j])
    decreases |s| - from
  {
    if from == |s| then None
    else if p(s[from]) then Some(from)
    else FirstFrom(s, from + 1, p)
  }
}
