/** What the pipes promise over whole runs, from an empty table. */
module PipeRuns {
  import opened Wrappers
  import opened PipeModel
  import opened PipeCounts
  import Bags

  /**
   * No freed pipe is ever touched; every entry of every process names a pipe that is there; and a
   * pipe is there exactly as long as some claim on it is.
   */
  lemma EveryRunCountsRight(es: seq<Step>, r: Ref)
    ensures var s := After(BOOT, es);
            && !s.fault
            && Held(s.slots)[r] + s.abandoned[r] == Count(s.pipes, r)
            && (forall i | 0 <= i < |s.slots| && !s.slots[i].Unused? && r in TaskRefs(s.slots[i].task) ::
                  r.pipe in s.pipes)
            && (r.pipe in s.pipes <==> Claims(s)[Ref(r.pipe, false)] > 0 || Claims(s)[Ref(r.pipe, true)] > 0)
  {
    BootSafe();
    RunSafe(BOOT, es);
    var s := After(BOOT, es);
    assert Counted(s, r) && Counted(s, Ref(r.pipe, false)) && Counted(s, Ref(r.pipe, true));
    forall i | 0 <= i < |s.slots| && !s.slots[i].Unused? && r in TaskRefs(s.slots[i].task) ensures r.pipe in s.pipes {
      HeldIsThere(s, i, r);
    }
  }

  // End of file.

  ghost predicate Holds(s: System, i: nat, r: Ref)
    requires i < |s.slots|
  {
    !s.slots[i].Unused? && r in TaskRefs(s.slots[i].task)
  }

  lemma NoClaimNoHolder(s: System, r: Ref)
    ensures Claims(s)[r] == 0 <==> s.abandoned[r] == 0 && forall i | 0 <= i < |s.slots| :: !Holds(s, i, r)
  {
    if Held(s.slots)[r] > 0 {
      var i := Bags.SumComesFrom(Shares(s.slots), r);
      assert Holds(s, i, r);
    } else {
      forall i | 0 <= i < |s.slots| ensures !Holds(s, i, r) {
        Bags.SumHasPart(Shares(s.slots), i, r);
        assert Share(s.slots[i])[r] == 0;
      }
    }
  }

  /** A read reports end of file exactly when every byte taken was handed out and nobody claims the write end. */
  lemma EndOfFileIff(es: seq<Step>, i: nat, fd: Option<nat>, room: nat)
    requires var s := After(BOOT, es); i < |s.slots| && s.slots[i].Live? && Named(s.slots[i].task, fd, false).Some?
    ensures var s := After(BOOT, es); var id := Named(s.slots[i].task, fd, false).value.pipe;
            && id in s.pipes
            && (ReadFrom(s.pipes[id], room).0 == None
                <==> && s.pipes[id].delivered == s.pipes[id].accepted
                     && s.abandoned[Ref(id, true)] == 0
                     && forall j | 0 <= j < |s.slots| :: !Holds(s, j, Ref(id, true)))
  {
    BootSafe();
    RunSafe(BOOT, es);
    var s := After(BOOT, es);
    NamedIsThere(s, i, fd, false);
    var id := Named(s.slots[i].task, fd, false).value.pipe;
    NoClaimNoHolder(s, Ref(id, true));
    assert Counted(s, Ref(id, true));
    var p := s.pipes[id];
    assert PipeOk(p);
    assert p.queue == [] <==> |p.delivered| == |p.accepted|;
  }

  /** Nobody can write to this pipe, and it took `bytes`. */
  ghost predicate Ended(s: System, id: nat, bytes: seq<Byte>) {
    id < s.nextPipe && Count(s.pipes, Ref(id, true)) == 0 && (id in s.pipes ==> s.pipes[id].accepted == bytes)
  }

  lemma NotHeld(s: System, i: nat, r: Ref)
    requires Inv(s) && i < |s.slots| && !s.slots[i].Unused? && Count(s.pipes, r) == 0
    ensures multiset(TaskRefs(s.slots[i].task))[r] == 0
  {
    if r in TaskRefs(s.slots[i].task) { HeldIsThere(s, i, r); }
  }

  lemma EndedByFork(s: System, i: nat, memory: bool, id: nat, bytes: seq<Byte>)
    requires Inv(s) && Ended(s, id, bytes) && i < |s.slots| && s.slots[i].Live?
    ensures Ended(Fork(s, i, memory), id, bytes)
  {
    var rs := TaskRefs(s.slots[i].task);
    NotHeld(s, i, Ref(id, true));
    forall r | r in rs ensures r.pipe in s.pipes { HeldIsThere(s, i, r); }
    AddRefsCounts(s, rs);
  }

  lemma EndedByWrite(s: System, i: nat, fd: Option<nat>, data: seq<Byte>, id: nat, bytes: seq<Byte>)
    requires Inv(s) && Ended(s, id, bytes) && i < |s.slots| && s.slots[i].Live?
    ensures Ended(Write(s, i, fd, data), id, bytes)
  {
    if Named(s.slots[i].task, fd, true).Some? { NamedIsThere(s, i, fd, true); }
  }

  lemma EndedByDrop(s: System, r: Ref, id: nat, bytes: seq<Byte>)
    requires Ended(s, id, bytes)
    ensures Ended(DropRef(s, r), id, bytes)
  {
  }

  lemma EndedByClosing(s: System, e: Step, id: nat, bytes: seq<Byte>)
    requires Inv(s) && Ended(s, id, bytes) && (e.DoClose? || e.DoExit?) && e.i < |s.slots| && s.slots[e.i].Live?
    ensures Ended(Apply(s, e), id, bytes)
  {
    var t := s.slots[e.i].task;
    if e.DoClose? {
      if e.fd < |t.files| && t.files[e.fd].End? { EndedByDrop(s, t.files[e.fd].ref, id, bytes); }
    } else {
      if t.stdin.Some? { EndedByDrop(s, Ref(t.stdin.value, false), id, bytes); }
      var s1 := CloseStdin(s, e.i);
      assert Ended(s1, id, bytes);
      if t.stdout.Some? { EndedByDrop(s1, Ref(t.stdout.value, true), id, bytes); }
    }
  }

  lemma EndedStep(s: System, e: Step, id: nat, bytes: seq<Byte>)
    requires Inv(s) && Ended(s, id, bytes)
    ensures Ended(Apply(s, e), id, bytes)
  {
    if e.DoSpawn? || e.i >= |s.slots| || e.DoReap? || !s.slots[e.i].Live? {
    } else {
      match e
      case DoFork(i, memory) => EndedByFork(s, i, memory, id, bytes);
      case DoWrite(i, fd, data) => EndedByWrite(s, i, fd, data, id, bytes);
      case DoClose(_, _) => EndedByClosing(s, e, id, bytes);
      case DoExit(_) => EndedByClosing(s, e, id, bytes);
      case _ =>
    }
  }

  /** Once the write end is unclaimed it stays so: end of file is never followed by more bytes. */
  lemma {:induction false} EndOfFileIsForever(s: System, es: seq<Step>, id: nat)
    requires Inv(s) && id in s.pipes && Claims(s)[Ref(id, true)] == 0
    ensures Ended(After(s, es), id, s.pipes[id].accepted)
  {
    if es == [] {
      assert Counted(s, Ref(id, true));
    } else {
      var n := |es| - 1;
      EndOfFileIsForever(s, es[..n], id);
      RunSafe(s, es[..n]);
      EndedStep(After(s, es[..n]), es[n], id, s.pipes[id].accepted);
    }
  }

  // Bytes, as the callers see them.

  /** What a step's read() returned from pipe `id`. */
  function Got(s: System, e: Step, id: nat): seq<Byte> {
    if e.DoRead? && e.i < |s.slots| && s.slots[e.i].Live?
        && Named(s.slots[e.i].task, e.rfd, false) == Some(Ref(id, false)) && id in s.pipes
    then
      var bs := ReadFrom(s.pipes[id], e.room).0;
      if bs.Some? then bs.value else []
    else []
  }

  /** What a step's write() reported as taken into pipe `id`. */
  function Took(s: System, e: Step, id: nat): seq<Byte> {
    if e.DoWrite? && e.i < |s.slots| && s.slots[e.i].Live?
        && Named(s.slots[e.i].task, e.wfd, true) == Some(Ref(id, true)) && id in s.pipes
    then
      var n := WriteTo(s.pipes[id], e.data).0;
      if n.Some? then e.data[..n.value] else []
    else []
  }

  function AllGot(es: seq<Step>, id: nat): seq<Byte> {
    if es == [] then [] else AllGot(es[..|es| - 1], id) + Got(After(BOOT, es[..|es| - 1]), es[|es| - 1], id)
  }

  function AllTook(es: seq<Step>, id: nat): seq<Byte> {
    if es == [] then [] else AllTook(es[..|es| - 1], id) + Took(After(BOOT, es[..|es| - 1]), es[|es| - 1], id)
  }

  /** The record's histories are what the callers saw. */
  ghost predicate Told(s: System, id: nat, got: seq<Byte>, took: seq<Byte>) {
    && got <= took
    && (id in s.pipes ==> s.pipes[id].delivered == got && s.pipes[id].accepted == took)
    && (id >= s.nextPipe ==> got == took == [])
  }

  lemma ToldByFork(s: System, i: nat, memory: bool, id: nat)
    requires Inv(s) && i < |s.slots| && s.slots[i].Live?
    ensures Fork(s, i, memory).nextPipe == s.nextPipe && Fork(s, i, memory).pipes.Keys == s.pipes.Keys
    ensures id in s.pipes ==> Bumped(s.pipes[id], Fork(s, i, memory).pipes[id])
  {
    var rs := TaskRefs(s.slots[i].task);
    forall r | r in rs ensures r.pipe in s.pipes { HeldIsThere(s, i, r); }
    AddRefsCounts(s, rs);
  }

  lemma ToldByBytes(s: System, e: Step, id: nat, got: seq<Byte>, took: seq<Byte>)
    requires Inv(s) && Told(s, id, got, took) && (e.DoRead? || e.DoWrite?)
    ensures Told(Apply(s, e), id, got + Got(s, e, id), took + Took(s, e, id))
  {
    if e.i < |s.slots| && s.slots[e.i].Live? {
      var fd := if e.DoRead? then e.rfd else e.wfd;
      if Named(s.slots[e.i].task, fd, e.DoWrite?).Some? {
        NamedIsThere(s, e.i, fd, e.DoWrite?);
        assert id in s.pipes ==> PipeOk(s.pipes[id]);
      }
    }
  }

  lemma ToldByDrop(s: System, r: Ref, id: nat, got: seq<Byte>, took: seq<Byte>)
    requires Told(s, id, got, took)
    ensures Told(DropRef(s, r), id, got, took)
  {
  }

  lemma ToldByOthers(s: System, e: Step, id: nat, got: seq<Byte>, took: seq<Byte>)
    requires Inv(s) && Told(s, id, got, took)
    requires !e.DoSpawn? && !e.DoReap? && !e.DoRead? && !e.DoWrite? && e.i < |s.slots| && s.slots[e.i].Live?
    ensures Told(Apply(s, e), id, got, took)
  {
    var t := s.slots[e.i].task;
    match e
    case DoFork(i, memory) => ToldByFork(s, i, memory, id);
    case DoClose(_, fd) =>
      if fd < |t.files| && t.files[fd].End? { ToldByDrop(s, t.files[fd].ref, id, got, took); }
    case DoExit(i) =>
      if t.stdin.Some? { ToldByDrop(s, Ref(t.stdin.value, false), id, got, took); }
      var s1 := CloseStdin(s, i);
      assert Told(s1, id, got, took);
      if t.stdout.Some? { ToldByDrop(s1, Ref(t.stdout.value, true), id, got, took); }
    case _ =>
  }

  lemma ToldStep(s: System, e: Step, id: nat, got: seq<Byte>, took: seq<Byte>)
    requires Inv(s) && Told(s, id, got, took)
    ensures Told(Apply(s, e), id, got + Got(s, e, id), took + Took(s, e, id))
  {
    if e.DoRead? || e.DoWrite? {
      ToldByBytes(s, e, id, got, took);
    } else {
      assert got + [] == got && took + [] == took;
      if e.DoSpawn? || e.i >= |s.slots| || e.DoReap? || !s.slots[e.i].Live? {
      } else {
        ToldByOthers(s, e, id, got, took);
      }
    }
  }

  lemma {:induction false} RunTold(es: seq<Step>, id: nat)
    ensures Told(After(BOOT, es), id, AllGot(es, id), AllTook(es, id))
  {
    if es != [] {
      var n := |es| - 1;
      RunTold(es[..n], id);
      BootSafe();
      RunSafe(BOOT, es[..n]);
      ToldStep(After(BOOT, es[..n]), es[n], id, AllGot(es[..n], id), AllTook(es[..n], id));
    }
  }

  /**
   * In every run, whatever readers share a pipe, the bytes they were handed are a prefix of the bytes
   * writers were told were taken; at most one buffer is in flight; and at end of file nothing is missing.
   */
  lemma BytesArriveInOrder(es: seq<Step>, id: nat)
    ensures AllGot(es, id) <= AllTook(es, id)
    ensures id in After(BOOT, es).pipes ==> |AllTook(es, id)| - |AllGot(es, id)| <= BUF_SIZE
    ensures id in After(BOOT, es).pipes && ReadFrom(After(BOOT, es).pipes[id], 0).0 == None
            ==> AllGot(es, id) == AllTook(es, id)
  {
    RunTold(es, id);
    BootSafe();
    RunSafe(BOOT, es);
  }

  // Forgotten claims.

  /** The steps after which fewer entries name a pipe than its counts say. */
  predicate Forgets(s: System, e: Step) {
    match e
    case DoFork(i, memory) =>
      && i < |s.slots| && s.slots[i].Live? && !memory
      && FirstFrom(s.slots, 0, (q: Slot) => q.Unused?).Some?
      && TaskRefs(s.slots[i].task) != []
    case DoUseAsStdio(i, inFd, outFd) =>
      && i < |s.slots| && s.slots[i].Live?
      && Named(s.slots[i].task, Some(inFd), false).Some? && Named(s.slots[i].task, Some(outFd), true).Some?
      && (s.slots[i].task.stdin.Some? || s.slots[i].task.stdout.Some?)
    case DoReap(i) => i < |s.slots| && s.slots[i].Zombie? && TaskRefs(s.slots[i].task) != []
    case _ => false
  }

  lemma SomethingMore(a: multiset<Ref>, rs: seq<Ref>)
    ensures a + multiset(rs) == a <==> rs == []
  {
    if rs != [] { assert (a + multiset(rs))[rs[0]] > a[rs[0]]; }
  }

  lemma ForgottenByFork(s: System, i: nat, memory: bool) returns (rs: seq<Ref>)
    requires Inv(s) && i < |s.slots| && s.slots[i].Live?
    ensures Fork(s, i, memory).abandoned == s.abandoned + multiset(rs) && (rs != [] <==> Forgets(s, DoFork(i, memory)))
  {
    var t := s.slots[i].task;
    forall r | r in TaskRefs(t) ensures r.pipe in s.pipes { HeldIsThere(s, i, r); }
    AddRefsCounts(s, TaskRefs(t));
    rs := if Forgets(s, DoFork(i, memory)) then TaskRefs(t) else [];
  }

  lemma ForgottenByMove(s: System, i: nat, inFd: nat, outFd: nat) returns (rs: seq<Ref>)
    requires i < |s.slots| && s.slots[i].Live?
    ensures UseAsStdio(s, i, inFd, outFd).abandoned == s.abandoned + multiset(rs)
    ensures rs != [] <==> Forgets(s, DoUseAsStdio(i, inFd, outFd))
  {
    var t := s.slots[i].task;
    rs := [];
    if Named(t, Some(inFd), false).Some? && Named(t, Some(outFd), true).Some? {
      rs := StdinRefs(t) + StdoutRefs(t);
      assert UseAsStdio(s, i, inFd, outFd).abandoned == s.abandoned + multiset(rs);
    } else {
      assert UseAsStdio(s, i, inFd, outFd) == s;
    }
  }

  lemma ForgottenBy(s: System, e: Step) returns (rs: seq<Ref>)
    requires Inv(s)
    ensures Apply(s, e).abandoned == s.abandoned + multiset(rs) && (rs != [] <==> Forgets(s, e))
  {
    rs := [];
    if e.DoSpawn? || e.i >= |s.slots| {
    } else if e.DoReap? {
      if s.slots[e.i].Zombie? { rs := TaskRefs(s.slots[e.i].task); }
    } else if s.slots[e.i].Live? {
      match e
      case DoFork(i, memory) => rs := ForgottenByFork(s, i, memory);
      case DoUseAsStdio(i, inFd, outFd) => rs := ForgottenByMove(s, i, inFd, outFd);
      case _ =>
    }
  }

  /** A step loses a claim if and only if it is one of those. */
  lemma LosesAClaimIff(s: System, e: Step)
    requires Inv(s)
    ensures Apply(s, e).abandoned != s.abandoned <==> Forgets(s, e)
  {
    var rs := ForgottenBy(s, e);
    SomethingMore(s.abandoned, rs);
  }

  /** Nothing ever picks a forgotten claim up again, so its pipe outlives every process. */
  lemma {:induction false} ForgottenIsForever(s: System, es: seq<Step>, r: Ref)
    requires Inv(s) && r in s.abandoned
    ensures After(s, es).abandoned[r] >= s.abandoned[r] && r.pipe in After(s, es).pipes
  {
    RunSafe(s, es);
    if es != [] {
      var n := |es| - 1;
      ForgottenIsForever(s, es[..n], r);
      RunSafe(s, es[..n]);
      var rs := ForgottenBy(After(s, es[..n]), es[n]);
    }
    assert Counted(After(s, es), r);
  }

  ghost predicate Careful(es: seq<Step>) {
    forall k | 0 <= k < |es| :: CarefulAt(es, k)
  }

  ghost predicate CarefulAt(es: seq<Step>, k: nat)
    requires k < |es|
  {
    !Forgets(After(BOOT, es[..k]), es[k])
  }

  /** The counts are exactly the entries in use if and only if no step of the run forgot a claim. */
  lemma {:induction false} CountsAreExactIff(es: seq<Step>)
    ensures After(BOOT, es).abandoned == multiset{} <==> Careful(es)
    ensures (forall r :: Count(After(BOOT, es).pipes, r) == Held(After(BOOT, es).slots)[r]) <==> Careful(es)
  {
    BootSafe();
    RunSafe(BOOT, es);
    if es == [] {
    } else {
      var n := |es| - 1;
      var s := After(BOOT, es[..n]);
      CountsAreExactIff(es[..n]);
      RunSafe(BOOT, es[..n]);
      var rs := ForgottenBy(s, es[n]);
      SomethingMore(s.abandoned, rs);
      CarefulPrefix(es);
      assert s.abandoned + multiset(rs) == multiset{} <==> s.abandoned == multiset{} && rs == [];
    }
    ExactIff(After(BOOT, es));
  }

  lemma ExactIff(s: System)
    requires Inv(s)
    ensures (forall r :: Count(s.pipes, r) == Held(s.slots)[r]) <==> s.abandoned == multiset{}
  {
    if s.abandoned == multiset{} {
      forall r ensures Count(s.pipes, r) == Held(s.slots)[r] { assert Counted(s, r); }
    } else {
      var r :| r in s.abandoned;
      assert Counted(s, r) && Count(s.pipes, r) != Held(s.slots)[r];
    }
  }

  lemma CarefulPrefix(es: seq<Step>)
    requires es != []
    ensures Careful(es) <==> Careful(es[..|es| - 1]) && !Forgets(After(BOOT, es[..|es| - 1]), es[|es| - 1])
  {
    var n := |es| - 1;
    forall k | 0 <= k < n ensures CarefulAt(es, k) <==> CarefulAt(es[..n], k) {
      assert es[..n][..k] == es[..k];
    }
    assert CarefulAt(es, n) <==> !Forgets(After(BOOT, es[..n]), es[n]);
    if Careful(es) { assert CarefulAt(es, n); }
  }

  lemma OneMore(s: System, es: seq<Step>, e: Step)
    ensures After(s, es + [e]) == Apply(After(s, es), e)
  {
    assert (es + [e])[..|es|] == es;
  }

  const PIPED := EMPTY.(files := EMPTY.files[0 := End(Ref(0, false))][1 := End(Ref(0, true))])

  lemma SpawnAndPipe() returns (es: seq<Step>)
    ensures After(BOOT, es)
            == System(NO_SLOTS[0 := Live(PIPED)], map[0 := Pipe([], 1, 1, [], [])], 1, multiset{}, false)
  {
    OneMore(BOOT, [], DoSpawn);
    assert [] + [DoSpawn] == [DoSpawn];
    var s1 := BOOT.(slots := NO_SLOTS[0 := Live(EMPTY)]);
    assert Spawn(BOOT) == s1;
    OneMore(BOOT, [DoSpawn], DoPipe(0));
    es := [DoSpawn] + [DoPipe(0)];
    assert MakePipe(s1, 0).slots == NO_SLOTS[0 := Live(PIPED)];
  }

  lemma ExitAndReap(s: System)
    requires |s.slots| > 0 && s.slots[0] == Live(PIPED)
    ensures Exit(s, 0) == s.(slots := s.slots[0 := Zombie(PIPED)])
    ensures Reap(Exit(s, 0), 0).slots == s.slots[0 := Unused] && Reap(Exit(s, 0), 0).pipes == s.pipes
  {
    assert CloseStdin(s, 0) == s == CloseStdout(s, 0);
  }

  /** A process that exits with pipe descriptors open: its pipe is claimed by nobody, and stays. */
  lemma ExitLeaksPipes() returns (es: seq<Step>)
    ensures 0 in After(BOOT, es).pipes && Held(After(BOOT, es).slots) == multiset{}
  {
    var piped := SpawnAndPipe();
    assert 0 in After(BOOT, piped).pipes && NO_SLOTS[0 := Live(PIPED)][0 := Unused] == NO_SLOTS;
    BootHoldsNothing();
    es := LeaksFrom(piped);
  }

  lemma LeaksFrom(es: seq<Step>) returns (more: seq<Step>)
    requires var s := After(BOOT, es);
             |s.slots| > 0 && s.slots[0] == Live(PIPED) && 0 in s.pipes && Held(s.slots[0 := Unused]) == multiset{}
    ensures 0 in After(BOOT, more).pipes && Held(After(BOOT, more).slots) == multiset{}
  {
    var s := After(BOOT, es);
    OneMore(BOOT, es, DoExit(0));
    OneMore(BOOT, es + [DoExit(0)], DoReap(0));
    ExitAndReap(s);
    assert Apply(s, DoExit(0)) == Exit(s, 0);
    more := es + [DoExit(0)] + [DoReap(0)];
  }
}
