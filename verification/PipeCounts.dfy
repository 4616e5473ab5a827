/**
 * What the reference counts mean: in every run, each end's count is exactly the number of
 * descriptor entries and stdio slots that name it plus the number of forgotten claims on it.
 */
module PipeCounts {
  import opened Wrappers
  import opened PipeModel
  import Bags

  ghost function Share(q: Slot): multiset<Ref> {
    if q.Unused? then multiset{} else multiset(TaskRefs(q.task))
  }

  ghost function Shares(slots: seq<Slot>): seq<multiset<Ref>> {
    seq(|slots|, i requires 0 <= i < |slots| => Share(slots[i]))
  }

  ghost function Held(slots: seq<Slot>): multiset<Ref> { Bags.Sum(Shares(slots)) }

  /** Every claim on a pipe end, still held or forgotten. */
  ghost function Claims(s: System): multiset<Ref> { Held(s.slots) + s.abandoned }

  ghost predicate Counted(s: System, r: Ref) { Claims(s)[r] == Count(s.pipes, r) }

  ghost predicate PipeOk(p: Pipe) {
    && |p.queue| <= BUF_SIZE
    && p.accepted == p.delivered + p.queue
    && (p.readRefs > 0 || p.writeRefs > 0)
  }

  ghost predicate Inv(s: System) {
    && !s.fault
    && (forall r :: Counted(s, r))
    && (forall id | id in s.pipes :: PipeOk(s.pipes[id]) && id < s.nextPipe)
  }

  // Counting lemmas.

  lemma AddRefCounts(s: System, r: Ref, x: Ref)
    requires r.pipe in s.pipes
    ensures Count(AddRef(s, r).pipes, x) == Count(s.pipes, x) + (if x == r then 1 else 0)
  {
  }

  lemma {:induction false} AddRefsKeeps(s: System, rs: seq<Ref>)
    requires forall r | r in rs :: r.pipe in s.pipes
    ensures AddRefs(s, rs) == s.(pipes := AddRefs(s, rs).pipes)
    ensures AddRefs(s, rs).pipes.Keys == s.pipes.Keys
    ensures forall id | id in s.pipes :: Bumped(s.pipes[id], AddRefs(s, rs).pipes[id])
  {
    if rs != [] {
      AddRefsKeeps(s, rs[..|rs| - 1]);
      assert rs[|rs| - 1] in rs;
    }
  }

  lemma {:induction false} AddRefsCount(s: System, rs: seq<Ref>, x: Ref)
    requires forall r | r in rs :: r.pipe in s.pipes
    ensures Count(AddRefs(s, rs).pipes, x) == Count(s.pipes, x) + multiset(rs)[x]
  {
    if rs != [] {
      var n := |rs| - 1;
      assert rs[n] in rs && rs == rs[..n] + [rs[n]];
      AddRefsCount(s, rs[..n], x);
      AddRefsKeeps(s, rs[..n]);
      AddRefCounts(AddRefs(s, rs[..n]), rs[n], x);
    }
  }

  lemma AddRefsCounts(s: System, rs: seq<Ref>)
    requires forall r | r in rs :: r.pipe in s.pipes
    ensures AddRefs(s, rs) == s.(pipes := AddRefs(s, rs).pipes)
    ensures AddRefs(s, rs).pipes.Keys == s.pipes.Keys
    ensures forall x :: Count(AddRefs(s, rs).pipes, x) == Count(s.pipes, x) + multiset(rs)[x]
    ensures forall id | id in s.pipes :: Bumped(s.pipes[id], AddRefs(s, rs).pipes[id])
  {
    AddRefsKeeps(s, rs);
    forall x ensures Count(AddRefs(s, rs).pipes, x) == Count(s.pipes, x) + multiset(rs)[x] { AddRefsCount(s, rs, x); }
  }

  /** Same bytes, and no count lower. */
  ghost predicate Bumped(p: Pipe, q: Pipe) {
    q == p.(readRefs := q.readRefs, writeRefs := q.writeRefs) && q.readRefs >= p.readRefs && q.writeRefs >= p.writeRefs
  }

  lemma DropRefCounts(s: System, r: Ref)
    requires Count(s.pipes, r) > 0
    ensures forall x :: Count(DropRef(s, r).pipes, x) == Count(s.pipes, x) - (if x == r then 1 else 0)
    ensures (forall id | id in s.pipes :: PipeOk(s.pipes[id]))
            ==> forall id | id in DropRef(s, r).pipes :: PipeOk(DropRef(s, r).pipes[id])
    ensures DropRef(s, r) == s.(pipes := DropRef(s, r).pipes) && DropRef(s, r).pipes.Keys <= s.pipes.Keys
  {
  }

  lemma {:induction false} FileIsHeld(files: seq<OpenFile>, k: nat)
    requires k < |files| && files[k].End?
    ensures files[k].ref in FileRefs(files)
  {
    var n := |files| - 1;
    if k < n { FileIsHeld(files[..n], k); }
  }

  lemma HeldAfterUpdate(slots: seq<Slot>, i: nat, q: Slot)
    requires i < |slots|
    ensures Held(slots[i := q]) + Share(slots[i]) == Held(slots) + Share(q)
  {
    assert Shares(slots[i := q]) == Shares(slots)[i := Share(q)];
    Bags.SumAfterUpdate(Shares(slots), i, Share(q));
  }

  /** A claim someone holds is on a pipe that is there. */
  lemma HeldIsThere(s: System, i: nat, r: Ref)
    requires Inv(s) && i < |s.slots| && !s.slots[i].Unused? && r in TaskRefs(s.slots[i].task)
    ensures Count(s.pipes, r) > 0 && r.pipe in s.pipes
  {
    Bags.SumHasPart(Shares(s.slots), i, r);
    assert Share(s.slots[i])[r] > 0;
    assert Counted(s, r);
  }

  /** How often a slot names an end. */
  ghost function Uses(q: Slot, r: Ref): nat { Share(q)[r] }

  ghost function Once(b: bool): nat { if b then 1 else 0 }

  lemma UsesIs(t: Task, r: Ref)
    ensures multiset(TaskRefs(t))[r]
         == FileUses(t.files, r) + Once(t.stdin == Some(r.pipe) && !r.write) + Once(t.stdout == Some(r.pipe) && r.write)
  {
    var a, b, c := FileRefs(t.files), StdinRefs(t), StdoutRefs(t);
    FileUsesIs(t.files, r);
    assert multiset(a + b + c)[r] == multiset(a)[r] + multiset(b)[r] + multiset(c)[r];
    assert multiset(b)[r] == Once(t.stdin == Some(r.pipe) && !r.write);
    assert multiset(c)[r] == Once(t.stdout == Some(r.pipe) && r.write);
  }

  ghost function FileUses(files: seq<OpenFile>, r: Ref): nat {
    if files == [] then 0 else FileUses(files[..|files| - 1], r) + Once(files[|files| - 1] == End(r))
  }

  lemma {:induction false} FileUsesIs(files: seq<OpenFile>, r: Ref)
    ensures multiset(FileRefs(files))[r] == FileUses(files, r)
  {
    if files != [] {
      FileUsesIs(files[..|files| - 1], r);
      var a, b := FileRefs(files[..|files| - 1]), RefsOf(files[|files| - 1]);
      assert multiset(a + b)[r] == multiset(a)[r] + multiset(b)[r];
    }
  }

  lemma {:induction false} FileUsesAfterUpdate(files: seq<OpenFile>, k: nat, f: OpenFile, r: Ref)
    requires k < |files|
    ensures FileUses(files[k := f], r) + Once(files[k] == End(r)) == FileUses(files, r) + Once(f == End(r))
  {
    var n := |files| - 1;
    if k == n {
      assert files[k := f][..n] == files[..n];
    } else {
      FileUsesAfterUpdate(files[..n], k, f, r);
      assert files[k := f][..n] == files[..n][k := f];
    }
  }

  lemma UsesAfterUpdate(t: Task, k: nat, f: OpenFile, r: Ref)
    requires k < |t.files|
    ensures Uses(Live(t.(files := t.files[k := f])), r) + Once(t.files[k] == End(r))
            == Uses(Live(t), r) + Once(f == End(r))
  {
    FileUsesAfterUpdate(t.files, k, f, r);
    UsesIs(t, r);
    UsesIs(t.(files := t.files[k := f]), r);
  }

  /** Slot `i`'s and the forgotten claims on an end change by as much as its count. */
  ghost predicate InStep(s: System, s': System, q: Slot, q': Slot, r: Ref) {
    Uses(q', r) + s'.abandoned[r] + Count(s.pipes, r) == Uses(q, r) + s.abandoned[r] + Count(s'.pipes, r)
  }

  lemma Rebalance(s: System, s': System, i: nat, q: Slot)
    requires Inv(s) && i < |s.slots| && s'.slots == s.slots[i := q]
    requires forall r :: InStep(s, s', s.slots[i], q, r)
    ensures forall r :: Counted(s', r)
  {
    HeldAfterUpdate(s.slots, i, q);
    var h, h' := Held(s.slots), Held(s'.slots);
    var a, a' := Share(s.slots[i]), Share(q);
    forall r ensures Counted(s', r) {
      assert Counted(s, r);
      assert InStep(s, s', s.slots[i], q, r);
      assert (h' + a)[r] == (h + a')[r];
    }
  }

  // Every step keeps the invariant.

  lemma SpawnSafe(s: System)
    requires Inv(s)
    ensures Inv(Spawn(s))
  {
    var j := FirstFrom(s.slots, 0, (q: Slot) => q.Unused?);
    if j.Some? {
      EmptyHoldsNothing();
      Rebalance(s, Spawn(s), j.value, Live(EMPTY));
    }
  }

  lemma EmptyHoldsNothing()
    ensures TaskRefs(EMPTY) == []
  {
    NoEndsNoRefs(NO_FILES);
  }

  lemma {:induction false} NoEndsNoRefs(files: seq<OpenFile>)
    requires forall f | f in files :: !f.End?
    ensures FileRefs(files) == []
  {
    if files != [] { NoEndsNoRefs(files[..|files| - 1]); }
  }

  lemma ReapSafe(s: System, i: nat)
    requires Inv(s) && i < |s.slots| && s.slots[i].Zombie?
    ensures Inv(Reap(s, i))
  {
    Rebalance(s, Reap(s, i), i, Unused);
  }

  lemma OpenSafe(s: System, i: nat)
    requires Inv(s) && i < |s.slots| && s.slots[i].Live?
    ensures Inv(Open(s, i))
  {
    var t := s.slots[i].task;
    var f := FreeFile(t, 0);
    if f.Some? {
      var q := Live(t.(files := t.files[f.value := File]));
      forall r ensures InStep(s, Open(s, i), s.slots[i], q, r) { UsesAfterUpdate(t, f.value, File, r); }
      Rebalance(s, Open(s, i), i, q);
    }
  }

  lemma CloseSafe(s: System, i: nat, fd: nat)
    requires Inv(s) && i < |s.slots| && s.slots[i].Live?
    ensures Inv(Close(s, i, fd))
  {
    var t := s.slots[i].task;
    if fd < |t.files| {
      if t.files[fd].End? {
        FileIsHeld(t.files, fd);
        HeldIsThere(s, i, t.files[fd].ref);
        DropRefCounts(s, t.files[fd].ref);
      }
      var s', q := Close(s, i, fd), Live(t.(files := t.files[fd := Free]));
      forall r ensures InStep(s, s', s.slots[i], q, r) { UsesAfterUpdate(t, fd, Free, r); }
      Rebalance(s, s', i, q);
    }
  }

  lemma MakePipeSafe(s: System, i: nat)
    requires Inv(s) && i < |s.slots| && s.slots[i].Live?
    ensures Inv(MakePipe(s, i))
  {
    var t := s.slots[i].task;
    var s' := MakePipe(s, i);
    if s' != s {
      var r, w := FreeFile(t, 0).value, FreeFile(t, FreeFile(t, 0).value + 1).value;
      var t1 := t.(files := t.files[r := End(Ref(s.nextPipe, false))]);
      var t2 := t1.(files := t1.files[w := End(Ref(s.nextPipe, true))]);
      forall x ensures InStep(s, s', s.slots[i], Live(t2), x) {
        UsesAfterUpdate(t, r, End(Ref(s.nextPipe, false)), x);
        UsesAfterUpdate(t1, w, End(Ref(s.nextPipe, true)), x);
      }
      Rebalance(s, s', i, Live(t2));
    }
  }

  lemma StdioUses(t: Task, r: Ref)
    ensures multiset(StdinRefs(t) + StdoutRefs(t))[r]
         == Once(t.stdin == Some(r.pipe) && !r.write) + Once(t.stdout == Some(r.pipe) && r.write)
  {
    var b, c := StdinRefs(t), StdoutRefs(t);
    assert multiset(b + c)[r] == multiset(b)[r] + multiset(c)[r];
    assert multiset(b)[r] == Once(t.stdin == Some(r.pipe) && !r.write);
    assert multiset(c)[r] == Once(t.stdout == Some(r.pipe) && r.write);
  }

  /** Moving two entries into the stdio slots: what the slots held before is all that is lost. */
  lemma UsesAfterMove(t: Task, inFd: nat, outFd: nat, t': Task, r: Ref)
    requires inFd < |t.files| && outFd < |t.files| && t.files[inFd].End? && t.files[outFd].End?
    requires !t.files[inFd].ref.write && t.files[outFd].ref.write
    requires t' == Task(t.files[inFd := Free][outFd := Free], Some(t.files[inFd].ref.pipe),
                        Some(t.files[outFd].ref.pipe))
    ensures Uses(Live(t'), r) + multiset(StdinRefs(t) + StdoutRefs(t))[r] == Uses(Live(t), r)
  {
    FileUsesAfterUpdate(t.files, inFd, Free, r);
    FileUsesAfterUpdate(t.files[inFd := Free], outFd, Free, r);
    UsesIs(t, r);
    UsesIs(t', r);
    StdioUses(t, r);
  }

  lemma UseAsStdioSafe(s: System, i: nat, inFd: nat, outFd: nat)
    requires Inv(s) && i < |s.slots| && s.slots[i].Live?
    ensures Inv(UseAsStdio(s, i, inFd, outFd))
  {
    var t := s.slots[i].task;
    var s' := UseAsStdio(s, i, inFd, outFd);
    if s' != s {
      var t' := s'.slots[i].task;
      forall r ensures InStep(s, s', s.slots[i], Live(t'), r) { UsesAfterMove(t, inFd, outFd, t', r); }
      Rebalance(s, s', i, Live(t'));
    }
  }

  lemma ForkSafe(s: System, i: nat, memory: bool)
    requires Inv(s) && i < |s.slots| && s.slots[i].Live?
    ensures Inv(Fork(s, i, memory))
  {
    var t := s.slots[i].task;
    var j := FirstFrom(s.slots, 0, (q: Slot) => q.Unused?);
    if j.Some? {
      forall r | r in TaskRefs(t) ensures r.pipe in s.pipes { HeldIsThere(s, i, r); }
      AddRefsCounts(s, TaskRefs(t));
      var s', q := Fork(s, i, memory), if memory then Live(t) else Unused;
      assert s'.slots == s.slots[j.value := q];
      forall r ensures InStep(s, s', s.slots[j.value], q, r) {}
      Rebalance(s, s', j.value, q);
    }
  }

  lemma StdioIsHeld(s: System, i: nat)
    requires Inv(s) && i < |s.slots| && s.slots[i].Live?
    ensures s.slots[i].task.stdin.Some? ==> Count(s.pipes, Ref(s.slots[i].task.stdin.value, false)) > 0
    ensures s.slots[i].task.stdout.Some? ==> Count(s.pipes, Ref(s.slots[i].task.stdout.value, true)) > 0
  {
    var t := s.slots[i].task;
    if t.stdin.Some? { assert StdinRefs(t)[0] in TaskRefs(t); HeldIsThere(s, i, StdinRefs(t)[0]); }
    if t.stdout.Some? { assert StdoutRefs(t)[0] in TaskRefs(t); HeldIsThere(s, i, StdoutRefs(t)[0]); }
  }

  lemma CloseStdinSafe(s: System, i: nat)
    requires Inv(s) && i < |s.slots| && s.slots[i].Live?
    ensures Inv(CloseStdin(s, i))
  {
    var t := s.slots[i].task;
    if t.stdin.Some? {
      StdioIsHeld(s, i);
      DropRefCounts(s, Ref(t.stdin.value, false));
      var s', t' := CloseStdin(s, i), t.(stdin := None);
      forall r ensures InStep(s, s', s.slots[i], Live(t'), r) {
        UsesIs(t, r);
        UsesIs(t', r);
      }
      Rebalance(s, s', i, Live(t'));
    }
  }

  lemma CloseStdoutSafe(s: System, i: nat)
    requires Inv(s) && i < |s.slots| && s.slots[i].Live?
    ensures Inv(CloseStdout(s, i))
  {
    var t := s.slots[i].task;
    if t.stdout.Some? {
      StdioIsHeld(s, i);
      DropRefCounts(s, Ref(t.stdout.value, true));
      var s', t' := CloseStdout(s, i), t.(stdout := None);
      forall r ensures InStep(s, s', s.slots[i], Live(t'), r) {
        UsesIs(t, r);
        UsesIs(t', r);
      }
      Rebalance(s, s', i, Live(t'));
    }
  }

  lemma ExitSafe(s: System, i: nat)
    requires Inv(s) && i < |s.slots| && s.slots[i].Live?
    ensures Inv(Exit(s, i))
  {
    CloseStdinSafe(s, i);
    CloseStdoutSafe(CloseStdin(s, i), i);
    var s1 := CloseStdout(CloseStdin(s, i), i);
    Rebalance(s1, Exit(s, i), i, Zombie(s1.slots[i].task));
  }

  lemma ExecSafe(s: System, i: nat)
    requires i < |s.slots| && s.slots[i].Live?
    ensures Exec(s, i) == s
  {
    assert Exec(s, i).slots == s.slots;
  }

  lemma NamedIsThere(s: System, i: nat, fd: Option<nat>, write: bool)
    requires Inv(s) && i < |s.slots| && s.slots[i].Live? && Named(s.slots[i].task, fd, write).Some?
    ensures var r := Named(s.slots[i].task, fd, write).value; Count(s.pipes, r) > 0
  {
    var t := s.slots[i].task;
    if fd.None? {
      StdioIsHeld(s, i);
    } else {
      FileIsHeld(t.files, fd.value);
      HeldIsThere(s, i, t.files[fd.value].ref);
    }
  }

  /** Moving bytes moves no claims. */
  lemma BytesSafe(s: System, id: nat, p: Pipe)
    requires Inv(s) && id in s.pipes && PipeOk(p)
    requires p.readRefs == s.pipes[id].readRefs && p.writeRefs == s.pipes[id].writeRefs
    ensures Inv(s.(pipes := s.pipes[id := p]))
  {
    var s' := s.(pipes := s.pipes[id := p]);
    forall r ensures Counted(s', r) { assert Counted(s, r); }
  }

  lemma WriteSafe(s: System, i: nat, fd: Option<nat>, data: seq<Byte>)
    requires Inv(s) && i < |s.slots| && s.slots[i].Live?
    ensures Inv(Write(s, i, fd, data))
  {
    var r := Named(s.slots[i].task, fd, true);
    if r.Some? {
      NamedIsThere(s, i, fd, true);
      var p := s.pipes[r.value.pipe];
      BytesSafe(s, r.value.pipe, WriteTo(p, data).1);
    }
  }

  lemma ReadSafe(s: System, i: nat, fd: Option<nat>, room: nat)
    requires Inv(s) && i < |s.slots| && s.slots[i].Live?
    ensures Inv(Read(s, i, fd, room))
  {
    var r := Named(s.slots[i].task, fd, false);
    if r.Some? {
      NamedIsThere(s, i, fd, false);
      var p := s.pipes[r.value.pipe];
      BytesSafe(s, r.value.pipe, ReadFrom(p, room).1);
    }
  }

  lemma StepSafe(s: System, e: Step)
    requires Inv(s)
    ensures Inv(Apply(s, e))
  {
    if e.DoSpawn? {
      SpawnSafe(s);
    } else if e.i >= |s.slots| {
    } else if e.DoReap? {
      if s.slots[e.i].Zombie? { ReapSafe(s, e.i); }
    } else if s.slots[e.i].Live? {
      match e
      case DoPipe(i) => MakePipeSafe(s, i);
      case DoOpen(i) => OpenSafe(s, i);
      case DoClose(i, fd) => CloseSafe(s, i, fd);
      case DoUseAsStdio(i, inFd, outFd) => UseAsStdioSafe(s, i, inFd, outFd);
      case DoFork(i, memory) => ForkSafe(s, i, memory);
      case DoExec(i) => ExecSafe(s, i);
      case DoExit(i) => ExitSafe(s, i);
      case DoWrite(i, fd, data) => WriteSafe(s, i, fd, data);
      case DoRead(i, fd, room) => ReadSafe(s, i, fd, room);
    }
  }

  lemma UnusedHoldNothing(slots: seq<Slot>)
    requires forall i | 0 <= i < |slots| :: slots[i] == Unused
    ensures Held(slots) == multiset{}
  {
    forall i | 0 <= i < |slots| ensures Shares(slots)[i] == multiset{} { assert slots[i] == Unused; }
    Bags.SumOfEmpties(Shares(slots));
  }

  lemma BootHoldsNothing()
    ensures Held(NO_SLOTS) == multiset{}
  {
    UnusedHoldNothing(NO_SLOTS);
  }

  lemma BootSafe()
    ensures Inv(BOOT)
  {
    BootHoldsNothing();
    forall r ensures Counted(BOOT, r) {}
  }

  lemma {:induction false} RunSafe(s: System, es: seq<Step>)
    requires Inv(s)
    ensures Inv(After(s, es))
  {
    if es != [] {
      RunSafe(s, es[..|es| - 1]);
      StepSafe(After(s, es[..|es| - 1]), es[|es| - 1]);
    }
  }
}
