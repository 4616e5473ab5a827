/** What each call on a pipe gives its caller, said of what went in and out so far and of who claims which end. */
module PipeCalls {
  import opened Wrappers
  import opened PipeModel
  import opened PipeCounts
  import opened PipeRuns

  /** Some process has the end, or forgot it without closing. */
  ghost predicate Claimed(s: System, r: Ref) {
    s.abandoned[r] > 0 || exists j :: 0 <= j < |s.slots| && Holds(s, j, r)
  }

  lemma ClaimedIs(s: System, r: Ref)
    requires Inv(s)
    ensures Claimed(s, r) <==> Count(s.pipes, r) > 0
  {
    NoClaimNoHolder(s, r);
    assert Counted(s, r);
  }

  /** Slot `i` has the CPU and `fd` is its name for that end of pipe `id`. */
  ghost predicate Names(s: System, i: nat, fd: Option<nat>, r: Ref) {
    i < |s.slots| && s.slots[i].Live? && Named(s.slots[i].task, fd, r.write) == Some(r)
  }

  /** How many bytes are in the pipe, from what its callers were told. */
  ghost function InFlight(es: seq<Step>, id: nat): nat {
    Monus(|AllTook(es, id)|, |AllGot(es, id)|)
  }

  lemma StandsAt(es: seq<Step>, id: nat, i: nat, fd: Option<nat>, write: bool)
    requires Names(After(BOOT, es), i, fd, Ref(id, write))
    ensures var s := After(BOOT, es);
      && Inv(s) && id in s.pipes && InFlight(es, id) == |s.pipes[id].queue| <= BUF_SIZE
      && AllGot(es, id) == s.pipes[id].delivered
      && AllTook(es, id) == s.pipes[id].accepted == AllGot(es, id) + s.pipes[id].queue
  {
    BootSafe();
    RunSafe(BOOT, es);
    RunTold(es, id);
    NamedIsThere(After(BOOT, es), i, fd, write);
    assert PipeOk(After(BOOT, es).pipes[id]);
  }

  lemma OneMoreStep(es: seq<Step>, e: Step, id: nat)
    ensures AllTook(es + [e], id) == AllTook(es, id) + Took(After(BOOT, es), e, id)
    ensures AllGot(es + [e], id) == AllGot(es, id) + Got(After(BOOT, es), e, id)
  {
    assert (es + [e])[..|es|] == es;
  }

  lemma TookIs(s: System, i: nat, fd: Option<nat>, id: nat, data: seq<Byte>)
    requires Names(s, i, fd, Ref(id, true)) && id in s.pipes
    ensures Took(s, DoWrite(i, fd, data), id)
         == (if s.pipes[id].readRefs == 0 then [] else data[..Min(|data|, Monus(BUF_SIZE, |s.pipes[id].queue|))])
  {
  }

  /**
   * After any run: a write is refused if and only if nobody claims the read end, and otherwise takes exactly as many
   * bytes, from the front of the data, as one buffer has room for beside those in flight.
   */
  lemma WriteTakes(es: seq<Step>, i: nat, fd: Option<nat>, id: nat, data: seq<Byte>)
    requires Names(After(BOOT, es), i, fd, Ref(id, true))
    ensures id in After(BOOT, es).pipes && InFlight(es, id) <= BUF_SIZE
    ensures var s, n := After(BOOT, es), Min(|data|, BUF_SIZE - InFlight(es, id));
      && WriteTo(s.pipes[id], data).0 == (if Claimed(s, Ref(id, false)) then Some(n) else None)
      && AllTook(es + [DoWrite(i, fd, data)], id)
         == AllTook(es, id) + if Claimed(s, Ref(id, false)) then data[..n] else []
  {
    StandsAt(es, id, i, fd, true);
    ClaimedIs(After(BOOT, es), Ref(id, false));
    TookIs(After(BOOT, es), i, fd, id, data);
    OneMoreStep(es, DoWrite(i, fd, data), id);
  }

  lemma ReadIs(p: Pipe, room: nat)
    requires PipeOk(p)
    ensures var at, n := |p.delivered|, Min(room, |p.queue|);
      && at + |p.queue| == |p.accepted|
      && ReadFrom(p, room).0 == (if p.queue == [] && p.writeRefs == 0 then None else Some(p.accepted[at..at + n]))
      && p.accepted[..at + n] == p.delivered + p.accepted[at..at + n]
  {
    var n := Min(room, |p.queue|);
    assert p.accepted[|p.delivered|..|p.delivered| + n] == p.queue[..n];
  }

  lemma GotIs(s: System, i: nat, fd: Option<nat>, id: nat, room: nat)
    requires Names(s, i, fd, Ref(id, false)) && id in s.pipes && PipeOk(s.pipes[id])
    ensures var p := s.pipes[id];
      p.delivered + Got(s, DoRead(i, fd, room), id) == p.accepted[..|p.delivered| + Min(room, |p.queue|)]
  {
    ReadIs(s.pipes[id], room);
  }

  lemma ReadReturns(s: System, id: nat, room: nat, took: seq<Byte>, at: nat)
    requires Inv(s) && id in s.pipes && took == s.pipes[id].accepted && at == |s.pipes[id].delivered|
    ensures at + |s.pipes[id].queue| == |took|
    ensures var n := Min(room, |s.pipes[id].queue|);
      ReadFrom(s.pipes[id], room).0
      == (if |took| == at && !Claimed(s, Ref(id, true)) then None else Some(took[at..at + n]))
  {
    ClaimedIs(s, Ref(id, true));
    assert PipeOk(s.pipes[id]);
    ReadIs(s.pipes[id], room);
  }

  lemma ReadAdvances(es: seq<Step>, i: nat, fd: Option<nat>, id: nat, room: nat)
    requires Names(After(BOOT, es), i, fd, Ref(id, false))
    ensures |AllGot(es, id)| + InFlight(es, id) == |AllTook(es, id)|
    ensures AllGot(es + [DoRead(i, fd, room)], id)
         == AllTook(es, id)[..|AllGot(es, id)| + Min(room, InFlight(es, id))]
  {
    StandsAt(es, id, i, fd, false);
    assert PipeOk(After(BOOT, es).pipes[id]);
    GotIs(After(BOOT, es), i, fd, id, room);
    OneMoreStep(es, DoRead(i, fd, room), id);
  }

  /**
   * After any run: a read hands out exactly the next bytes of all that was taken, as many as are in flight or fit; with
   * none in flight it is end of file if and only if nobody claims the write end.
   */
  lemma ReadGives(es: seq<Step>, i: nat, fd: Option<nat>, id: nat, room: nat)
    requires Names(After(BOOT, es), i, fd, Ref(id, false))
    ensures id in After(BOOT, es).pipes && |AllGot(es, id)| + InFlight(es, id) == |AllTook(es, id)|
    ensures var s, at, n := After(BOOT, es), |AllGot(es, id)|, Min(room, InFlight(es, id));
      && ReadFrom(s.pipes[id], room).0
         == (if InFlight(es, id) == 0 && !Claimed(s, Ref(id, true)) then None else Some(AllTook(es, id)[at..at + n]))
      && AllGot(es + [DoRead(i, fd, room)], id) == AllTook(es, id)[..at + n]
  {
    ReadAdvances(es, i, fd, id, room);
    StandsAt(es, id, i, fd, false);
    ReadReturns(After(BOOT, es), id, room, AllTook(es, id), |AllGot(es, id)|);
  }

  // Who has which end.

  ghost predicate TwoFree(files: seq<OpenFile>) {
    exists a, b :: 0 <= a < b < |files| && files[a].Free? && files[b].Free?
  }

  /** From `f` to `g`, other descriptors than `a` and `b` name what they did. */
  ghost predicate SameBut(f: seq<OpenFile>, g: seq<OpenFile>, a: nat, b: nat) {
    |g| == |f| && forall k | 0 <= k < |f| && k != a && k != b :: g[k] == f[k]
  }

  /** pipe() fails if and only if two descriptors are not free; else two that were are the ends of a new pipe. */
  lemma PipeGives(s: System, i: nat) returns (r: nat, w: nat)
    requires Inv(s) && i < |s.slots| && s.slots[i].Live?
    ensures var s', t := Apply(s, DoPipe(i)), s.slots[i].task;
      if !TwoFree(t.files) then s' == s
      else
        && s.nextPipe !in s.pipes && s'.pipes == s.pipes[s.nextPipe := Pipe([], 1, 1, [], [])]
        && Names(s', i, Some(r), Ref(s.nextPipe, false)) && Names(s', i, Some(w), Ref(s.nextPipe, true))
        && r < |t.files| && w < |t.files| && t.files[r].Free? && t.files[w].Free?
        && SameBut(t.files, s'.slots[i].task.files, r, w)
        && s'.slots == s.slots[i := Live(t.(files := s'.slots[i].task.files))]
  {
    var t := s.slots[i].task;
    var f := FreeFile(t, 0);
    r := if f.Some? then f.value else 0;
    var g := if f.Some? then FreeFile(t, r + 1) else None;
    w := if g.Some? then g.value else 0;
    if TwoFree(t.files) { assert f.Some? && g.Some?; }
  }

  /** A new pipe after a run: named at both ends, claimed at both, and empty. */
  lemma NewPipe(es: seq<Step>, i: nat) returns (r: nat, w: nat, id: nat)
    requires var s := After(BOOT, es); i < |s.slots| && s.slots[i].Live? && TwoFree(s.slots[i].task.files)
    ensures id == After(BOOT, es).nextPipe && AllTook(es + [DoPipe(i)], id) == [] == AllGot(es + [DoPipe(i)], id)
    ensures var s := After(BOOT, es + [DoPipe(i)]);
      Names(s, i, Some(r), Ref(id, false)) && Names(s, i, Some(w), Ref(id, true)) && Claimed(s, Ref(id, false))
  {
    BootSafe();
    RunSafe(BOOT, es);
    id := After(BOOT, es).nextPipe;
    r, w := PipeGives(After(BOOT, es), i);
    OneMore(BOOT, es, DoPipe(i));
    RunTold(es, id);
    OneMoreStep(es, DoPipe(i), id);
    ClaimedNew(es + [DoPipe(i)], i, r, id);
  }

  /** Writing changes no descriptor. */
  lemma WriteKeepsNames(es: seq<Step>, i: nat, fd: Option<nat>, data: seq<Byte>, i': nat, fd': Option<nat>, r: Ref)
    requires Names(After(BOOT, es), i', fd', r)
    ensures Names(After(BOOT, es + [DoWrite(i, fd, data)]), i', fd', r)
  {
    OneMore(BOOT, es, DoWrite(i, fd, data));
  }

  lemma WriteGetsNothing(es: seq<Step>, i: nat, fd: Option<nat>, data: seq<Byte>, id: nat)
    ensures AllGot(es + [DoWrite(i, fd, data)], id) == AllGot(es, id)
  {
    OneMoreStep(es, DoWrite(i, fd, data), id);
  }

  lemma WriteIntoEmpty(es: seq<Step>, i: nat, r: nat, w: nat, id: nat, data: seq<Byte>)
    requires Names(After(BOOT, es), i, Some(r), Ref(id, false)) && Names(After(BOOT, es), i, Some(w), Ref(id, true))
    requires Claimed(After(BOOT, es), Ref(id, false)) && AllTook(es, id) == [] == AllGot(es, id)
    ensures var es1 := es + [DoWrite(i, Some(w), data)];
      && AllTook(es1, id) == data[..Min(|data|, BUF_SIZE)] && AllGot(es1, id) == []
      && Names(After(BOOT, es1), i, Some(r), Ref(id, false))
  {
    WriteTakes(es, i, Some(w), id, data);
    WriteGetsNothing(es, i, Some(w), data, id);
    WriteKeepsNames(es, i, Some(w), data, i, Some(r), Ref(id, false));
  }

  lemma ReadFromFront(es: seq<Step>, i: nat, r: nat, id: nat, room: nat)
    requires Names(After(BOOT, es), i, Some(r), Ref(id, false)) && AllGot(es, id) == []
    ensures AllGot(es + [DoRead(i, Some(r), room)], id) == AllTook(es, id)[..Min(room, |AllTook(es, id)|)]
  {
    ReadAdvances(es, i, Some(r), id, room);
  }

  /** What is written into a new pipe comes out of it, up to one buffer. */
  lemma PipeCarries(es: seq<Step>, i: nat, data: seq<Byte>, room: nat) returns (r: nat, w: nat)
    requires var s := After(BOOT, es); i < |s.slots| && s.slots[i].Live? && TwoFree(s.slots[i].task.files)
    ensures var all := es + [DoPipe(i)] + [DoWrite(i, Some(w), data)] + [DoRead(i, Some(r), room)];
      AllGot(all, After(BOOT, es).nextPipe) == data[..Min(room, Min(|data|, BUF_SIZE))]
  {
    var id;
    r, w, id := NewPipe(es, i);
    WriteIntoEmpty(es + [DoPipe(i)], i, r, w, id, data);
    ReadFromFront(es + [DoPipe(i)] + [DoWrite(i, Some(w), data)], i, r, id, room);
  }

  lemma ClaimedNew(es: seq<Step>, i: nat, fd: nat, id: nat)
    requires Names(After(BOOT, es), i, Some(fd), Ref(id, false))
    ensures Claimed(After(BOOT, es), Ref(id, false))
  {
    BootSafe();
    RunSafe(BOOT, es);
    NamedIsThere(After(BOOT, es), i, Some(fd), false);
    ClaimedIs(After(BOOT, es), Ref(id, false));
  }

  /** The ends moved into the stdio slots are the ones the descriptors named; the descriptors are free. */
  lemma StdioIs(s: System, i: nat, inFd: nat, outFd: nat)
    requires i < |s.slots| && s.slots[i].Live?
    ensures var s', t := Apply(s, DoUseAsStdio(i, inFd, outFd)), s.slots[i].task;
      if Named(t, Some(inFd), false).None? || Named(t, Some(outFd), true).None? then s' == s
      else
        && s'.pipes == s.pipes && |s'.slots| == |s.slots| && s'.slots[i].Live?
        && var t' := s'.slots[i].task;
           && Named(t', None, false) == Named(t, Some(inFd), false)
           && Named(t', None, true) == Named(t, Some(outFd), true)
           && SameBut(t.files, t'.files, inFd, outFd) && t'.files[inFd].Free? && t'.files[outFd].Free?
           && s'.slots == s.slots[i := s'.slots[i]]
  {
  }

  lemma CloseApplies(s: System, i: nat, fd: nat)
    requires i < |s.slots| && s.slots[i].Live? && fd < |s.slots[i].task.files|
    ensures Apply(s, DoClose(i, fd)) == Close(s, i, fd)
  {
  }

  lemma CloseCounts(s: System, i: nat, fd: nat, r: Ref, s': System)
    requires Inv(s) && i < |s.slots| && s.slots[i].Live? && fd < |s.slots[i].task.files| && s' == Close(s, i, fd)
    ensures var t := s.slots[i].task;
      && s'.slots == s.slots[i := Live(t.(files := t.files[fd := Free]))]
      && Count(s.pipes, r) == Count(s'.pipes, r) + if t.files[fd] == End(r) then 1 else 0
  {
    if s.slots[i].task.files[fd].End? { ClosedIs(s, i, fd, r); }
  }

  lemma CloseKeepsInv(s: System, i: nat, fd: nat, s': System)
    requires Inv(s) && i < |s.slots| && s.slots[i].Live? && s' == Close(s, i, fd)
    ensures Inv(s')
  {
    CloseSafe(s, i, fd);
  }

  /** Closing frees the one descriptor, and drops its claim if it had one. */
  lemma CloseIs(s: System, i: nat, fd: nat, r: Ref) returns (s': System)
    requires Inv(s) && i < |s.slots| && s.slots[i].Live? && fd < |s.slots[i].task.files|
    ensures var t := s.slots[i].task;
      && s' == Apply(s, DoClose(i, fd)) && Inv(s') && s'.slots == s.slots[i := Live(t.(files := t.files[fd := Free]))]
      && Claims(s)[r] == Claims(s')[r] + if t.files[fd] == End(r) then 1 else 0
  {
    CloseApplies(s, i, fd);
    s' := Apply(s, DoClose(i, fd));
    CloseKeepsInv(s, i, fd, s');
    CloseCounts(s, i, fd, r, s');
    assert Counted(s, r) && Counted(s', r);
  }

  lemma ClosedIs(s: System, i: nat, fd: nat, r: Ref)
    requires Inv(s) && i < |s.slots| && s.slots[i].Live? && fd < |s.slots[i].task.files|
    requires s.slots[i].task.files[fd].End?
    ensures var x := s.slots[i].task.files[fd].ref;
      Count(s.pipes, r) == Count(DropRef(s, x).pipes, r) + if x == r then 1 else 0
  {
    var t := s.slots[i].task;
    FileIsHeld(t.files, fd);
    HeldIsThere(s, i, t.files[fd].ref);
  }

  /** A fork that finds a slot and memory gives the child the same names for the same ends, each claimed once more. */
  lemma ForkGives(s: System, i: nat, r: Ref) returns (j: nat)
    requires Inv(s) && i < |s.slots| && s.slots[i].Live? && exists q :: q in s.slots && q.Unused?
    ensures var s' := Apply(s, DoFork(i, true));
      && Inv(s') && j < |s.slots| && s.slots[j].Unused? && s'.slots == s.slots[j := Live(s.slots[i].task)]
      && Claims(s')[r] == Claims(s)[r] + multiset(TaskRefs(s.slots[i].task))[r]
  {
    var f := FirstFrom(s.slots, 0, (q: Slot) => q.Unused?);
    assert f.Some?;
    j := f.value;
    StepSafe(s, DoFork(i, true));
    var rs := TaskRefs(s.slots[i].task);
    forall x | x in rs ensures x.pipe in s.pipes { HeldIsThere(s, i, x); }
    AddRefsCounts(s, rs);
    AddRefsCount(s, rs, r);
    assert Counted(s, r) && Counted(Apply(s, DoFork(i, true)), r);
  }

  lemma StdinIs(s: System, i: nat, r: Ref)
    requires Inv(s) && i < |s.slots| && s.slots[i].Live?
    ensures var s', t := CloseStdin(s, i), s.slots[i].task;
      && Inv(s') && s'.slots == s.slots[i := Live(t.(stdin := None))]
      && Count(s.pipes, r) == Count(s'.pipes, r) + multiset(StdinRefs(t))[r]
  {
    CloseStdinSafe(s, i);
    StdioIsHeld(s, i);
  }

  lemma StdoutIs(s: System, i: nat, r: Ref)
    requires Inv(s) && i < |s.slots| && s.slots[i].Live?
    ensures var s', t := CloseStdout(s, i), s.slots[i].task;
      && Inv(s') && s'.slots == s.slots[i := Live(t.(stdout := None))]
      && Count(s.pipes, r) == Count(s'.pipes, r) + multiset(StdoutRefs(t))[r]
  {
    CloseStdoutSafe(s, i);
    StdioIsHeld(s, i);
  }

  lemma ExitApplies(s: System, i: nat)
    requires i < |s.slots| && s.slots[i].Live?
    ensures Apply(s, DoExit(i)) == Exit(s, i)
  {
  }

  lemma ExitCounts(s: System, i: nat, r: Ref, s': System)
    requires Inv(s) && i < |s.slots| && s.slots[i].Live? && s' == Exit(s, i)
    ensures var t := s.slots[i].task;
      && s'.slots == s.slots[i := Zombie(Task(t.files, None, None))]
      && Count(s.pipes, r) == Count(s'.pipes, r) + multiset(StdinRefs(t))[r] + multiset(StdoutRefs(t))[r]
  {
    StdinIs(s, i, r);
    StdoutIs(CloseStdin(s, i), i, r);
  }

  lemma ExitKeepsInv(s: System, i: nat, s': System)
    requires Inv(s) && i < |s.slots| && s.slots[i].Live? && s' == Exit(s, i)
    ensures Inv(s')
  {
    ExitSafe(s, i);
  }

  /** Exit closes the two stdio ends and nothing else. */
  lemma ExitIs(s: System, i: nat, r: Ref) returns (s': System)
    requires Inv(s) && i < |s.slots| && s.slots[i].Live?
    ensures var t := s.slots[i].task;
      && s' == Apply(s, DoExit(i)) && Inv(s') && s'.slots == s.slots[i := Zombie(Task(t.files, None, None))]
      && Claims(s)[r] == Claims(s')[r] + multiset(StdinRefs(t))[r] + multiset(StdoutRefs(t))[r]
  {
    ExitApplies(s, i);
    s' := Apply(s, DoExit(i));
    ExitKeepsInv(s, i, s');
    ExitCounts(s, i, r, s');
    assert Counted(s, r) && Counted(s', r);
  }

  /** To the pipes exec() is nothing: the new program has every end the old one had. */
  lemma ExecIs(s: System, i: nat)
    requires i < |s.slots| && s.slots[i].Live?
    ensures Apply(s, DoExec(i)) == s
  {
    assert s.slots[i := s.slots[i]] == s.slots;
  }

  /** Opening a file takes one free descriptor, if there is one, and no claim. */
  lemma OpenIs(s: System, i: nat) returns (fd: nat)
    requires i < |s.slots| && s.slots[i].Live?
    ensures var s', t := Apply(s, DoOpen(i)), s.slots[i].task;
      if forall k | 0 <= k < |t.files| :: !t.files[k].Free? then s' == s
      else
        && fd < |t.files| && t.files[fd].Free?
        && s' == s.(slots := s.slots[i := Live(t.(files := t.files[fd := File]))])
  {
    var f := FreeFile(s.slots[i].task, 0);
    fd := if f.Some? then f.value else 0;
  }
}
