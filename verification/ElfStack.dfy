/** The initial user stack (exec/elf.rs): what the loader writes, and what a program's _start reads back. */
module ElfStack {
  import opened Wrappers
  import opened LittleEndian

  /** Positions are offsets from the stack's base; both ends are page-aligned. */
  const STACK: nat := 0x1_0000
  const STACK_BASE: nat := 0x0000_7000_0000_0000 - 0x1_0000
  const MAX_ARGS := 16
  const MAX_ARG_LEN := 128

  function CutArg(a: seq<Byte>): seq<Byte> { a[..Min(|a|, MAX_ARG_LEN - 1)] }

  function CutArgs(argv: seq<seq<Byte>>): (args: seq<seq<Byte>>)
    ensures |args| == Min(|argv|, MAX_ARGS) && forall i | 0 <= i < |args| :: args[i] == CutArg(argv[i])
  {
    seq(Min(|argv|, MAX_ARGS), i requires 0 <= i < Min(|argv|, MAX_ARGS) => CutArg(argv[i]))
  }

  /** The bytes the strings from the `i`th on take, each with its NUL. */
  function StringBytes(args: seq<seq<Byte>>, i: nat): nat
    decreases Monus(|args|, i)
  {
    if i >= |args| then 0 else |args[i]| + 1 + StringBytes(args, i + 1)
  }

  ghost predicate Short(args: seq<seq<Byte>>) { |args| <= MAX_ARGS && forall a | a in args :: |a| < MAX_ARG_LEN }

  lemma {:induction false} StringsFit(args: seq<seq<Byte>>, i: nat)
    requires Short(args) && i <= |args|
    ensures StringBytes(args, i) <= MAX_ARG_LEN * (|args| - i)
    decreases |args| - i
  {
    if i < |args| {
      assert args[i] in args;
      StringsFit(args, i + 1);
    }
  }

  /** Where the `i`th string is. */
  function StringAt(args: seq<seq<Byte>>, i: nat): int { STACK - StringBytes(args, i) }

  function FrameBytes(n: nat): nat { (1 + n + 1 + 1 + 2) * 8 }

  /** The stack pointer at entry. */
  function Sp(args: seq<seq<Byte>>): int {
    var p := StringAt(args, 0) - FrameBytes(|args|);
    p - p % 16
  }

  /** There is always room: the branch for an argument vector that does not fit is never taken. */
  lemma AlwaysFits(args: seq<seq<Byte>>)
    requires Short(args)
    ensures 0 <= Sp(args) && Sp(args) % 16 == 0 && Sp(args) + FrameBytes(|args|) <= StringAt(args, 0)
  {
    StringsFit(args, 0);
    var p := StringAt(args, 0) - FrameBytes(|args|);
    Sixteens(p);
  }

  lemma Sixteens(p: int)
    ensures (p - p % 16) % 16 == 0 && 0 <= p % 16 < 16
  {
    var q := p / 16;
    assert p - p % 16 == 16 * q;
  }

  // What is in memory.

  ghost predicate BytesAt(mem: seq<Byte>, at: int, bs: seq<Byte>) {
    0 <= at && at + |bs| <= |mem| && mem[at..at + |bs|] == bs
  }

  /** An eight-byte number; the width is a range of one so that its bytes are not spelled out at every use. */
  ghost predicate WordAt(mem: seq<Byte>, at: int, n: nat) { forall w: nat | 8 <= w <= 8 :: BytesAt(mem, at, Le(n, w)) }

  ghost predicate StringOk(mem: seq<Byte>, args: seq<seq<Byte>>, i: nat)
    requires i < |args|
  {
    BytesAt(mem, StringAt(args, i), args[i] + [0])
  }

  ghost predicate PointerOk(mem: seq<Byte>, args: seq<seq<Byte>>, sp: nat, i: nat)
    requires i < |args|
  {
    0 <= StringAt(args, i) && WordAt(mem, sp + 8 * (1 + i), STACK_BASE + StringAt(args, i))
  }

  ghost predicate ZeroOk(mem: seq<Byte>, args: seq<seq<Byte>>, sp: nat, k: nat) {
    WordAt(mem, sp + 8 * (1 + |args| + k), 0)
  }

  /** argc, the argument pointers, four zero words, and the strings. */
  ghost predicate Laid(mem: seq<Byte>, args: seq<seq<Byte>>, sp: nat) {
    && |mem| == STACK
    && sp + FrameBytes(|args|) <= StringAt(args, 0)
    && WordAt(mem, sp, |args|)
    && (forall i | 0 <= i < |args| :: PointerOk(mem, args, sp, i))
    && (forall k | 0 <= k < 4 :: ZeroOk(mem, args, sp, k))
    && (forall i | 0 <= i < |args| :: StringOk(mem, args, i))
  }

  // Reading it back.

  /** The bytes up to the first NUL. */
  function UpToNul(a: seq<Byte>): seq<Byte> { if a == [] || a[0] == 0 then [] else [a[0]] + UpToNul(a[1..]) }

  function CString(mem: seq<Byte>, at: nat): seq<Byte>
    decreases Monus(|mem|, at)
  {
    if at >= |mem| || mem[at] == 0 then [] else [mem[at]] + CString(mem, at + 1)
  }

  function Word(mem: seq<Byte>, at: int): nat { if 0 <= at && at + 8 <= |mem| then FromLe(mem[at..at + 8]) else 0 }

  /** argc, and the string behind each of the argc pointers that follow it. */
  function Decode(mem: seq<Byte>, sp: nat): seq<seq<Byte>> {
    seq(Word(mem, sp), i requires 0 <= i < Word(mem, sp) =>
      CString(mem, Monus(Word(mem, sp + 8 * (1 + i)), STACK_BASE)))
  }

  lemma WordRead(mem: seq<Byte>, at: int, n: nat)
    requires WordAt(mem, at, n) && n < 0x1_0000_0000_0000
    ensures Word(mem, at) == n
  {
    assert BytesAt(mem, at, Le(n, 8));
    assert Pow256(6) == 0x1_0000_0000_0000 by { assert Pow256(3) == 0x100_0000; }
    LeRoundTrip(n, 8);
  }

  lemma {:induction false} CStringIs(mem: seq<Byte>, at: nat, a: seq<Byte>)
    requires BytesAt(mem, at, a + [0])
    ensures CString(mem, at) == UpToNul(a)
    decreases |a|
  {
    assert mem[at] == (a + [0])[0];
    if a != [] && a[0] != 0 {
      assert mem[at + 1..at + 1 + |a|] == mem[at..at + |a| + 1][1..] == a[1..] + [0];
      CStringIs(mem, at + 1, a[1..]);
    }
  }

  lemma ArgRead(mem: seq<Byte>, args: seq<seq<Byte>>, sp: nat, i: nat)
    requires i < |args| && PointerOk(mem, args, sp, i) && StringOk(mem, args, i)
    ensures CString(mem, Monus(Word(mem, sp + 8 * (1 + i)), STACK_BASE)) == UpToNul(args[i])
  {
    var at := StringAt(args, i);
    WordRead(mem, sp + 8 * (1 + i), STACK_BASE + at);
    CStringIs(mem, at, args[i]);
  }

  /** The program's reads give argc and every argument up to its first NUL, then a null pointer. */
  lemma DecodesBack(mem: seq<Byte>, args: seq<seq<Byte>>, sp: nat)
    requires Short(args) && Laid(mem, args, sp)
    ensures |Decode(mem, sp)| == |args| && forall i | 0 <= i < |args| :: Decode(mem, sp)[i] == UpToNul(args[i])
    ensures Word(mem, sp + 8 * (1 + |args|)) == 0
  {
    WordRead(mem, sp, |args|);
    assert ZeroOk(mem, args, sp, 0);
    WordRead(mem, sp + 8 * (1 + |args|), 0);
    forall i | 0 <= i < |args| ensures Decode(mem, sp)[i] == UpToNul(args[i]) { ArgRead(mem, args, sp, i); }
  }

  lemma {:induction false} UpToNulIsAll(a: seq<Byte>)
    ensures UpToNul(a) == a <==> 0 !in a
  {
    if a != [] {
      UpToNulIsAll(a[1..]);
      assert a == [a[0]] + a[1..];
    }
  }

  // Writing it.

  /** Bytes somewhere else are left alone. */
  lemma StaysAt(mem: seq<Byte>, mem': seq<Byte>, at: int, bs: seq<Byte>, lo: int, hi: int)
    requires BytesAt(mem, at, bs) && |mem'| == |mem| && (at + |bs| <= lo || hi <= at)
    requires forall k | 0 <= k < |mem| && !(lo <= k < hi) :: mem'[k] == mem[k]
    ensures BytesAt(mem', at, bs)
  {
    assert mem'[at..at + |bs|] == mem[at..at + |bs|];
  }

  method Put(mem: array<Byte>, at: nat, bs: seq<Byte>)
    requires at + |bs| <= mem.Length
    modifies mem
    ensures BytesAt(mem[..], at, bs)
    ensures forall k | 0 <= k < mem.Length && !(at <= k < at + |bs|) :: mem[k] == old(mem[k])
  {
    var i := 0;
    while i < |bs|
      invariant 0 <= i <= |bs|
      invariant forall k | 0 <= k < mem.Length :: mem[k] == if at <= k < at + i then bs[k - at] else old(mem[k])
    {
      mem[at + i] := bs[i];
      i := i + 1;
    }
    assert mem[..][at..at + |bs|] == bs;
  }

  lemma {:induction false} StringsAscend(args: seq<seq<Byte>>, i: nat, j: nat)
    requires i < j < |args|
    ensures StringAt(args, i) + |args[i]| + 1 <= StringAt(args, j)
    decreases j - i
  {
    if i + 1 < j { StringsAscend(args, i + 1, j); }
  }

  /** The strings, last argument highest; their addresses. */
  method PutStrings(mem: array<Byte>, args: seq<seq<Byte>>) returns (sp: nat, ptrs: seq<nat>)
    requires mem.Length == STACK && Short(args)
    modifies mem
    ensures sp == StringAt(args, 0) && |ptrs| == |args|
    ensures forall i | 0 <= i < |args| :: StringOk(mem[..], args, i) && ptrs[i] == STACK_BASE + StringAt(args, i)
  {
    sp := STACK;
    ptrs := [];
    var i := |args|;
    while i > 0
      invariant 0 <= i <= |args| && sp == StringAt(args, i) && StringsFrom(mem[..], args, i) && Points(ptrs, args, i)
    {
      i := i - 1;
      StringsFit(args, i);
      sp := sp - (|args[i]| + 1);
      PutString(mem, args, i, sp);
      PointsMore(ptrs, args, i);
      ptrs := [STACK_BASE + sp] + ptrs;
    }
    forall j | 0 <= j < |args| ensures StringOk(mem[..], args, j) && ptrs[j] == STACK_BASE + StringAt(args, j) {
      assert PointsAt(ptrs, args, 0, j);
    }
  }

  /** These are the addresses of the strings from the `i`th on. */
  ghost predicate Points(ptrs: seq<nat>, args: seq<seq<Byte>>, i: nat) {
    i + |ptrs| == |args| && forall j | 0 <= j < |ptrs| :: PointsAt(ptrs, args, i, j)
  }

  ghost predicate PointsAt(ptrs: seq<nat>, args: seq<seq<Byte>>, i: nat, j: nat)
    requires j < |ptrs|
  {
    ptrs[j] == STACK_BASE + StringAt(args, i + j)
  }

  lemma PointsMore(ptrs: seq<nat>, args: seq<seq<Byte>>, i: nat)
    requires Points(ptrs, args, i + 1) && StringAt(args, i) >= 0
    ensures Points([STACK_BASE + StringAt(args, i)] + ptrs, args, i)
  {
    var all := [STACK_BASE + StringAt(args, i)] + ptrs;
    forall j | 0 <= j < |all| ensures PointsAt(all, args, i, j) {
      if j > 0 { assert PointsAt(ptrs, args, i + 1, j - 1); }
    }
  }

  ghost predicate StringsFrom(mem: seq<Byte>, args: seq<seq<Byte>>, i: nat) {
    forall j | i <= j < |args| :: StringOk(mem, args, j)
  }

  /** One string, below those already there. */
  method PutString(mem: array<Byte>, args: seq<seq<Byte>>, i: nat, sp: nat)
    requires mem.Length == STACK && i < |args| && sp == StringAt(args, i) && sp + |args[i]| + 1 <= STACK
    requires StringsFrom(mem[..], args, i + 1)
    modifies mem
    ensures StringsFrom(mem[..], args, i)
  {
    ghost var before := mem[..];
    Put(mem, sp, args[i] + [0]);
    forall j | i <= j < |args| ensures StringOk(mem[..], args, j) {
      if i < j {
        assert StringOk(before, args, j);
        StringsAscend(args, i, j);
        StaysAt(before, mem[..], StringAt(args, j), args[j] + [0], sp, sp + |args[i]| + 1);
      }
    }
  }

  lemma WordStays(mem: seq<Byte>, mem': seq<Byte>, at: int, n: nat, lo: int, hi: int)
    requires WordAt(mem, at, n) && |mem'| == |mem| && (at + 8 <= lo || hi <= at)
    requires forall k | 0 <= k < |mem| && !(lo <= k < hi) :: mem'[k] == mem[k]
    ensures WordAt(mem', at, n)
  {
    assert BytesAt(mem, at, Le(n, 8));
    StaysAt(mem, mem', at, Le(n, 8), lo, hi);
  }

  method PutWord(mem: array<Byte>, at: nat, n: nat)
    requires at + 8 <= mem.Length
    modifies mem
    ensures WordAt(mem[..], at, n)
    ensures forall k | 0 <= k < mem.Length && !(at <= k < at + 8) :: mem[k] == old(mem[k])
  {
    Put(mem, at, Le(n, 8));
  }

  method PutWords(mem: array<Byte>, at: nat, words: seq<nat>)
    requires at + 8 * |words| <= mem.Length
    modifies mem
    ensures forall k | 0 <= k < |words| :: WordAt(mem[..], at + 8 * k, words[k])
    ensures forall k | 0 <= k < mem.Length && !(at <= k < at + 8 * |words|) :: mem[k] == old(mem[k])
  {
    var i := 0;
    while i < |words|
      invariant 0 <= i <= |words|
      invariant forall k | 0 <= k < i :: WordAt(mem[..], at + 8 * k, words[k])
      invariant forall k | 0 <= k < mem.Length && !(at <= k < at + 8 * i) :: mem[k] == old(mem[k])
    {
      ghost var before := mem[..];
      PutWord(mem, at + 8 * i, words[i]);
      forall k | 0 <= k < i ensures WordAt(mem[..], at + 8 * k, words[k]) {
        WordStays(before, mem[..], at + 8 * k, words[k], at + 8 * i, at + 8 * i + 8);
      }
      i := i + 1;
    }
  }

  lemma CutsAreShort(argv: seq<seq<Byte>>)
    ensures Short(CutArgs(argv))
  {
  }

  /** argc, the pointers and the zero words at `sp`, below the strings. */
  method PutFrame(mem: array<Byte>, args: seq<seq<Byte>>, sp: nat, ptrs: seq<nat>)
    requires mem.Length == STACK && |ptrs| == |args| && sp + FrameBytes(|args|) <= StringAt(args, 0)
    requires forall i | 0 <= i < |args| :: StringOk(mem[..], args, i) && ptrs[i] == STACK_BASE + StringAt(args, i)
    modifies mem
    ensures Laid(mem[..], args, sp)
  {
    ghost var before := mem[..];
    var words := [|args|] + ptrs + [0, 0, 0, 0];
    PutWords(mem, sp, words);
    FrameIs(before, mem[..], args, sp, ptrs, words);
  }

  lemma FrameIs(before: seq<Byte>, mem: seq<Byte>, args: seq<seq<Byte>>, sp: nat, ptrs: seq<nat>, words: seq<nat>)
    requires |before| == |mem| == STACK && |ptrs| == |args| && words == [|args|] + ptrs + [0, 0, 0, 0]
    requires sp + FrameBytes(|args|) <= StringAt(args, 0)
    requires forall i | 0 <= i < |args| :: StringOk(before, args, i) && ptrs[i] == STACK_BASE + StringAt(args, i)
    requires forall k | 0 <= k < |words| :: WordAt(mem, sp + 8 * k, words[k])
    requires forall k | 0 <= k < |mem| && !(sp <= k < sp + 8 * |words|) :: mem[k] == before[k]
    ensures Laid(mem, args, sp)
  {
    assert WordAt(mem, sp + 8 * 0, words[0]);
    forall i | 0 <= i < |args| ensures PointerOk(mem, args, sp, i) {
      assert WordAt(mem, sp + 8 * (1 + i), words[1 + i]);
    }
    forall k | 0 <= k < 4 ensures ZeroOk(mem, args, sp, k) {
      assert WordAt(mem, sp + 8 * (1 + |args| + k), words[1 + |args| + k]);
    }
    forall i | 0 <= i < |args| ensures StringOk(mem, args, i) {
      if i > 0 { StringsAscend(args, 0, i); }
      StaysAt(before, mem, StringAt(args, i), args[i] + [0], sp, sp + 8 * |words|);
    }
  }

  /** Lays out the arguments, cut to what fits; the stack pointer to enter with, as an offset. */
  method BuildStack(mem: array<Byte>, argv: seq<seq<Byte>>) returns (sp: nat)
    requires mem.Length == STACK
    modifies mem
    ensures Short(CutArgs(argv)) && sp == Sp(CutArgs(argv)) && sp % 16 == 0 && Laid(mem[..], CutArgs(argv), sp)
  {
    var args := CutArgs(argv);
    CutsAreShort(argv);
    var low, ptrs := PutStrings(mem, args);
    AlwaysFits(args);
    sp := low - FrameBytes(|args|);
    sp := sp - sp % 16;
    PutFrame(mem, args, sp, ptrs);
  }

  /** The arguments arrive whole if and only if none of them holds a NUL. */
  lemma ArriveWholeIff(mem: seq<Byte>, argv: seq<seq<Byte>>, sp: nat)
    requires Laid(mem, CutArgs(argv), sp)
    ensures Decode(mem, sp) == CutArgs(argv) <==> forall a | a in CutArgs(argv) :: 0 !in a
  {
    var args := CutArgs(argv);
    CutsAreShort(argv);
    DecodesBack(mem, args, sp);
    forall i | 0 <= i < |args| ensures UpToNul(args[i]) == args[i] <==> 0 !in args[i] { UpToNulIsAll(args[i]); }
  }

  /** What arrives, of any argument vector: of each of the first 16, the first 127 bytes, up to the first NUL. */
  lemma Arrives(mem: seq<Byte>, argv: seq<seq<Byte>>, sp: nat)
    requires Laid(mem, CutArgs(argv), sp)
    ensures |Decode(mem, sp)| == if |argv| <= 16 then |argv| else 16
    ensures forall i | 0 <= i < |Decode(mem, sp)| ::
              Decode(mem, sp)[i] == UpToNul(if |argv[i]| <= 127 then argv[i] else argv[i][..127])
  {
    CutsAreShort(argv);
    DecodesBack(mem, CutArgs(argv), sp);
    forall i | 0 <= i < |CutArgs(argv)|
      ensures CutArgs(argv)[i] == if |argv[i]| <= 127 then argv[i] else argv[i][..127]
    {
      if |argv[i]| <= 127 { assert argv[i][..|argv[i]|] == argv[i]; }
    }
  }

  lemma {:induction false} UpToNulIsShorter(a: seq<Byte>)
    ensures |UpToNul(a)| <= |a|
  {
    if a != [] { UpToNulIsShorter(a[1..]); }
  }

  /** The vector itself arrives if and only if it has at most 16 arguments of at most 127 bytes and no NUL. */
  lemma ArgvArrivesIff(mem: seq<Byte>, argv: seq<seq<Byte>>, sp: nat)
    requires Laid(mem, CutArgs(argv), sp)
    ensures Decode(mem, sp) == argv <==> |argv| <= 16 && forall i | 0 <= i < |argv| :: |argv[i]| <= 127 && 0 !in argv[i]
  {
    Arrives(mem, argv, sp);
    var d := Decode(mem, sp);
    forall i | 0 <= i < |d|
      ensures d[i] == argv[i] <==> |argv[i]| <= 127 && 0 !in argv[i]
    {
      UpToNulIsAll(argv[i]);
      if |argv[i]| > 127 { UpToNulIsShorter(argv[i][..127]); }
    }
  }
}
