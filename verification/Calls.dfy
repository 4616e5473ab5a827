/** What a process gets from each call, said of the table and the activations alone. */
module SchedulerCalls {
  import opened Wrappers
  import opened Bags
  import opened KernelModel
  import opened SchedulerProofs
  import opened SchedulerRuns

  /** The process on the CPU. */
  function Caller(k: Kernel): nat
    requires InProcess(k)
  {
    k.frames[|k.frames| - 1].dispatch.value.slot
  }

  /** Slot `t` holds a live child of the caller: the one with that pid, when one is given. */
  ghost predicate IsChild(k: Kernel, t: nat, pid: Option<int>) {
    && InProcess(k) && |k.procs| == MAX_PROCESSES && t < MAX_PROCESSES && Caller(k) < MAX_PROCESSES
    && !k.procs[t].state.Unused? && k.procs[t].parent == k.procs[Caller(k)].pid
    && (pid.Some? ==> k.procs[t].pid == pid.value)
  }

  ghost predicate HasExited(k: Kernel, t: nat, pid: Option<int>) {
    IsChild(k, t, pid) && k.procs[t].state.Zombie?
  }

  lemma CallerIs(k: Kernel)
    requires Core(k) && InProcess(k)
    ensures k.current == Some(Caller(k)) && Caller(k) < MAX_PROCESSES && k.procs[Caller(k)].state.Running?
  {
    var me := OnCpu(k);
    assert FrameOk(k, |k.frames| - 1);
  }

  lemma PidIsFound(k: Kernel, t: nat)
    requires Core(k) && t < MAX_PROCESSES && !k.procs[t].state.Unused?
    ensures SlotOf(k, k.procs[t].pid) == Some(t)
  {
  }

  // --- wait() ---

  /** wait() blocks if and only if the caller has such a child; otherwise it fails with nothing changed. */
  lemma WaitOpensIff(k: Kernel, pid: Option<int>)
    requires Inv(k) && InProcess(k)
    ensures var k' := Apply(k, Wait(pid));
      && (|k'.frames| == |k.frames| + 1 <==> exists t: nat :: IsChild(k, t, pid))
      && (|k'.frames| != |k.frames| + 1 ==> k' == k)
  {
    CallerIs(k);
    var t := FindChild(k, k.procs[Caller(k)].pid, pid);
    if t.Some? { assert IsChild(k, t.value, pid); }
    if c: nat :| IsChild(k, c, pid) { PidIsFound(k, c); }
  }

  /** The slot find_child() picks, said without it. */
  ghost predicate Preferred(k: Kernel, pid: Option<int>, t: nat) {
    && IsChild(k, t, pid)
    && ((exists z: nat :: HasExited(k, z, pid)) ==>
          HasExited(k, t, pid) && forall z: nat | z < t :: !HasExited(k, z, pid))
    && ((forall z: nat :: !HasExited(k, z, pid)) ==> forall c: nat | c < t :: !IsChild(k, c, pid))
  }

  lemma FindsByPid(k: Kernel, pid: int, c: nat)
    requires Core(k) && IsChild(k, c, Some(pid))
    ensures FindChild(k, k.procs[Caller(k)].pid, Some(pid)) == Some(c) && Preferred(k, Some(pid), c)
  {
    PidIsFound(k, c);
    forall x: nat | IsChild(k, x, Some(pid)) ensures x == c { PidIsFound(k, x); }
  }

  lemma FindsAny(k: Kernel, c: nat) returns (t: nat)
    requires Core(k) && IsChild(k, c, None)
    ensures FindChild(k, k.procs[Caller(k)].pid, None) == Some(t) && Preferred(k, None, t)
  {
    var me := k.procs[Caller(k)].pid;
    var z := FirstFrom(k.procs, 0, (p: Process) => p.state.Zombie? && p.parent == me);
    if z.Some? {
      t := z.value;
      assert HasExited(k, t, None);
    } else {
      forall x: nat ensures !HasExited(k, x, None) {}
      t := FirstFrom(k.procs, 0, (p: Process) => !p.state.Unused? && p.parent == me).value;
    }
  }

  lemma FindsPreferred(k: Kernel, pid: Option<int>) returns (t: nat)
    requires Inv(k) && InProcess(k) && exists c: nat :: IsChild(k, c, pid)
    ensures Caller(k) < |k.procs| && FindChild(k, k.procs[Caller(k)].pid, pid) == Some(t) && Preferred(k, pid, t)
  {
    var c: nat :| IsChild(k, c, pid);
    if pid.Some? {
      FindsByPid(k, pid.value, c);
      t := c;
    } else {
      t := FindsAny(k, c);
    }
  }

  lemma WaitFrames(k: Kernel, pid: Option<int>, t: nat)
    requires Core(k) && InProcess(k) && Caller(k) < |k.procs| && FindChild(k, k.procs[Caller(k)].pid, pid) == Some(t)
    ensures t < |k.procs| && !k.procs[t].state.Unused? && k.procs[t].parent == k.procs[Caller(k)].pid
    ensures Apply(k, Wait(pid)) == k.(frames := k.frames + [Frame(Some(k.procs[t].pid), k.current, None)])
  {
    CallerIs(k);
  }

  lemma WaitOpensOn(k: Kernel, pid: Option<int>, t: nat)
    requires Inv(k) && InProcess(k) && Caller(k) < |k.procs| && FindChild(k, k.procs[Caller(k)].pid, pid) == Some(t)
    ensures var k' := Apply(k, Wait(pid));
      && Inv(k') && k'.procs == k.procs && k'.exits == k.exits && |k'.frames| == |k.frames| + 1
      && k'.frames[..|k.frames|] == k.frames && Enabled(k', Pass) && Awaits(k', |k.frames|, t)
  {
    WaitSafe(k, pid);
    WaitFrames(k, pid, t);
  }

  /** It waits for a child that has exited, if there is one: the first in the table; else for the first child. */
  lemma WaitTakes(k: Kernel, pid: Option<int>) returns (t: nat)
    requires Inv(k) && InProcess(k) && exists c: nat :: IsChild(k, c, pid)
    ensures var k' := Apply(k, Wait(pid));
      && Inv(k') && k'.procs == k.procs && k'.exits == k.exits && |k'.frames| == |k.frames| + 1
      && k'.frames[..|k.frames|] == k.frames && Enabled(k', Pass) && Awaits(k', |k.frames|, t)
    ensures Preferred(k, pid, t)
  {
    t := FindsPreferred(k, pid);
    WaitOpensOn(k, pid, t);
  }

  /** A pass of a wait's activation ends it exactly when its target has exited. */
  lemma PassOfWait(k: Kernel, t: nat)
    requires Inv(k) && Enabled(k, Pass) && Awaits(k, |k.frames| - 1, t)
    ensures var k' := Apply(k, Pass);
      if k.procs[t].state.Zombie? then
        && k'.frames == k.frames[..|k.frames| - 1] && k'.ret == k.procs[t].status
        && k'.procs == k.procs[t := k.procs[t].(state := Unused)]
      else |k'.frames| == |k.frames|
  {
    TargetSlot(k, |k.frames| - 1);
    PidIsFound(k, t);
    if k.procs[t].state.Zombie? { ReapIs(k, t); } else { ScheduleIsInnermost(k); }
  }

  /**
   * A wait that blocks is over with the next pass of its activation if and only if such a child has exited already.
   * Then it has that child's status, the child's slot is free and no other slot has changed.
   */
  lemma WaitIsOverAtOnceIff(k: Kernel, pid: Option<int>) returns (t: nat, k1: Kernel, k2: Kernel)
    requires Inv(k) && InProcess(k) && exists c: nat :: IsChild(k, c, pid)
    ensures k1 == Apply(k, Wait(pid)) && Indexed(k1) && Enabled(k1, Pass) && k2 == Apply(k1, Pass)
    ensures IsChild(k, t, pid) && (k2.frames == k.frames <==> exists z: nat :: HasExited(k, z, pid))
    ensures k2.frames == k.frames ==>
      HasExited(k, t, pid) && k2.ret == k.procs[t].status && k2.procs == k.procs[t := k.procs[t].(state := Unused)]
  {
    t := WaitTakes(k, pid);
    k1 := Apply(k, Wait(pid));
    PassOfWait(k1, t);
    k2 := Apply(k1, Pass);
    assert |k1.frames| == |k.frames| + 1 && k1.frames[..|k1.frames| - 1] == k.frames;
  }

  // --- The scheduler's own passes ---

  lemma RunsNext(k: Kernel)
    requires Indexed(k) && k.frames != [] && !InProcess(k)
    ensures InProcess(Schedule(k)) <==> exists i :: 0 <= i < MAX_PROCESSES && k.procs[i].state.Runnable?
  {
    if i :| 0 <= i < MAX_PROCESSES && k.procs[i].state.Runnable? { PickFinds(k.procs, k.lastPicked, 1, i); }
  }

  /** Where the search starts does not matter: it goes once around the table. */
  lemma PickFinds(ps: seq<Process>, last: nat, n: nat, i: nat)
    requires |ps| == MAX_PROCESSES && i < MAX_PROCESSES && ps[i].state.Runnable? && n == 1
    ensures PickFrom(ps, last, n).Some?
  {
    var m := Around(last, i);
    FindsBy(ps, last, n, m);
  }

  lemma Around(last: nat, i: nat) returns (m: nat)
    requires i < MAX_PROCESSES
    ensures 1 <= m <= MAX_PROCESSES && (last + m) % MAX_PROCESSES == i
  {
    var r := last % MAX_PROCESSES;
    m := if r < i then i - r else i + MAX_PROCESSES - r;
  }

  lemma {:induction false} FindsBy(ps: seq<Process>, last: nat, n: nat, m: nat)
    requires |ps| == MAX_PROCESSES && 1 <= n <= m <= MAX_PROCESSES && ps[(last + m) % MAX_PROCESSES].state.Runnable?
    ensures PickFrom(ps, last, n).Some?
    decreases m - n
  {
    if n < m { FindsBy(ps, last, n + 1, m); }
  }

  lemma ScheduleSkips(k: Kernel, i: nat)
    requires Indexed(k) && k.frames != [] && i < MAX_PROCESSES && !k.procs[i].state.Runnable?
    ensures |Schedule(k).procs| == MAX_PROCESSES && Schedule(k).procs[i] == k.procs[i]
  {
  }

  ghost function Swept(p: Process): Process {
    if p.state.Zombie? then p.(state := Unused) else p
  }

  lemma {:induction false} SweepIs(k: Kernel, from: nat, i: nat)
    requires Core(k) && from <= MAX_PROCESSES && i < MAX_PROCESSES
    ensures ReapFrom(k, from).procs[i] == if i < from then k.procs[i] else Swept(k.procs[i])
    decreases MAX_PROCESSES - from
  {
    if from < MAX_PROCESSES {
      if k.procs[from].state.Zombie? {
        ReapIs(k, from);
        ReapSafe(k, from);
        SweepIs(Reap(k, from), from + 1, i);
      } else {
        SweepIs(k, from + 1, i);
      }
    }
  }

  /** Nothing of a process's is left: its slot is free, or will be with the next sweep. */
  ghost predicate Done(k: Kernel) {
    forall i | 0 <= i < |k.procs| :: k.procs[i].state.Unused? || k.procs[i].state.Zombie?
  }

  lemma AllSwept(k: Kernel)
    requires Core(k) && Done(k)
    ensures var k' := ReapFrom(k, 0); !AnyAlive(k') && k'.live == {}
  {
    var k' := ReapFrom(k, 0);
    forall i | 0 <= i < MAX_PROCESSES ensures k'.procs[i].state.Unused? { SweepIs(k, 0, i); }
    ReapFromSafe(k, 0);
    SumOfEmpties(Shares(k'.procs));
    forall r ensures r !in k'.live { assert r !in multiset(k'.live); }
  }

  lemma NoneRunsAtRoot(k: Kernel, i: nat)
    requires Core(k) && Enabled(k, Pass) && |k.frames| == 1 && i < MAX_PROCESSES
    ensures !k.procs[i].state.Running?
  {
    assert RunOk(k, i);
  }

  lemma SomeoneIsLeft(k: Kernel, i: nat)
    requires Core(k) && Enabled(k, Pass) && |k.frames| == 1 && i < MAX_PROCESSES
    requires !k.procs[i].state.Unused? && !k.procs[i].state.Zombie?
    ensures AnyAlive(ReapFrom(k, 0)) && InProcess(Schedule(ReapFrom(k, 0)))
  {
    var k1 := ReapFrom(k, 0);
    SweepIs(k, 0, i);
    NoneRunsAtRoot(k, i);
    assert k1.procs[i].state.Runnable?;
    RunsNext(k1);
  }

  /**
   * The outermost loop: it gives control back to the kernel if and only if every process is gone or has exited, and
   * then everything allocated has been freed; otherwise it runs one. Either way nothing that had exited is left.
   */
  lemma RootPassIs(k: Kernel)
    requires Inv(k) && Enabled(k, Pass) && |k.frames| == 1
    ensures var k' := Apply(k, Pass);
      && (k'.frames == [] <==> Done(k))
      && (k'.frames == [] ==> k'.live == {})
      && (k'.frames != [] ==> InProcess(k'))
      && |k'.procs| == MAX_PROCESSES
      && forall i | 0 <= i < MAX_PROCESSES && k.procs[i].state.Zombie? :: k'.procs[i].state.Unused?
  {
    assert FrameOk(k, 0);
    forall i | 0 <= i < MAX_PROCESSES && k.procs[i].state.Zombie?
      ensures |Loop(k).procs| == MAX_PROCESSES && Loop(k).procs[i].state.Unused?
    {
      SweepIs(k, 0, i);
      ScheduleSkips(ReapFrom(k, 0), i);
    }
    if Done(k) {
      AllSwept(k);
    } else {
      var i :| 0 <= i < MAX_PROCESSES && !k.procs[i].state.Unused? && !k.procs[i].state.Zombie?;
      SomeoneIsLeft(k, i);
    }
  }

  /** Inside a wait that goes on: the CPU is idle only when no process can run. */
  lemma WaitPassIs(k: Kernel)
    requires Inv(k) && Enabled(k, Pass) && |Apply(k, Pass).frames| == |k.frames| > 1
    ensures InProcess(Apply(k, Pass)) <==> exists i :: 0 <= i < MAX_PROCESSES && k.procs[i].state.Runnable?
  {
    TargetSlot(k, |k.frames| - 1);
    var t := SlotOf(k, k.frames[|k.frames| - 1].wait.value).value;
    PassOfWait(k, t);
    RunsNext(k);
  }

  // --- New processes ---

  ghost predicate Full(k: Kernel) { forall i | 0 <= i < |k.procs| :: !k.procs[i].state.Unused? }

  /** From `k` to `k'` exactly one process came to be, ready to run, under a pid nobody had. */
  ghost predicate Adds(k: Kernel, k': Kernel, c: nat, parent: int) {
    && c < |k.procs| && k.procs[c].state.Unused? && |k'.procs| == |k.procs| && k'.procs == k.procs[c := k'.procs[c]]
    && k'.procs[c].state.Runnable? && k'.procs[c].parent == parent
    && (forall i | 0 <= i < |k.procs| && !k.procs[i].state.Unused? :: k.procs[i].pid != k'.procs[c].pid)
    && k'.frames == k.frames && k'.current == k.current
  }

  /** fork() fails if and only if the table is full; otherwise the caller has one more child. */
  lemma ForkIs(k: Kernel, a: nat, ks: nat) returns (c: nat)
    requires Inv(k) && Enabled(k, Fork(a, ks))
    ensures Caller(k) < |k.procs|
    ensures var k' := Apply(k, Fork(a, ks));
      if Full(k) then k' == k else Adds(k, k', c, k.procs[Caller(k)].pid) && k'.nextPid == k'.procs[c].pid + 1
  {
    CallerIs(k);
    c := if AllocSlot(k).Some? then AllocSlot(k).value else 0;
    forall i | 0 <= i < |k.procs| && !k.procs[i].state.Unused? ensures k.procs[i].pid != k.nextPid {
      assert SlotOk(k, k.procs[i]);
    }
  }

  /** Starting a program from the kernel, likewise; it is nobody's child. */
  lemma SpawnIs(k: Kernel, a: nat, ks: nat) returns (c: nat)
    requires Inv(k) && Enabled(k, Spawn(a, ks))
    ensures var k' := Apply(k, Spawn(a, ks));
      if Full(k) then k' == k else Adds(k, k', c, KERNEL_PARENT_PID)
  {
    c := if AllocSlot(k).Some? then AllocSlot(k).value else 0;
    forall i | 0 <= i < |k.procs| && !k.procs[i].state.Unused? ensures k.procs[i].pid != k.nextPid {
      assert SlotOk(k, k.procs[i]);
    }
  }

  /** The pid fork() gives is one the caller can wait for at once, and it waits for that very child. */
  lemma ForkThenWait(k: Kernel, a: nat, ks: nat) returns (c: nat)
    requires Inv(k) && Enabled(k, Fork(a, ks)) && !Full(k)
    ensures var k1 := Apply(k, Fork(a, ks));
      && Adds(k, k1, c, k.procs[Caller(k)].pid) && Indexed(k1) && Enabled(k1, Wait(Some(k1.procs[c].pid)))
      && Awaits(Apply(k1, Wait(Some(k1.procs[c].pid))), |k.frames|, c)
  {
    c := ForkIs(k, a, ks);
    ForkSafe(k, a, ks);
    var k1 := Apply(k, Fork(a, ks));
    CallerIs(k);
    assert IsChild(k1, c, Some(k1.procs[c].pid));
    var t := WaitTakes(k1, Some(k1.procs[c].pid));
  }

  // --- Leaving the CPU ---

  /** What the caller of a step that leaves the CPU has become. */
  ghost predicate Became(s: Step, p: Process, q: Process) {
    && q.pid == p.pid && q.parent == p.parent
    && match s
       case Exit(code) => q.state.Zombie? && q.status == code
       case Crash => q.state.Zombie? && q.status == -1
       case Exec(a, ks) => q.state.Runnable? && q.aspace == a && q.kstack == ks && !q.hasRun
       case _ => q.state.Runnable? && q.aspace == p.aspace && q.kstack == p.kstack == q.savedOn
  }

  /**
   * exit, a crash, exec, yield and preemption: the activation that dispatched the caller has the CPU back, in the
   * address space it had before; the caller is what it asked to be, and no other process has changed.
   */
  lemma LeavesTheCpu(k: Kernel, s: Step)
    requires Inv(k) && InProcess(k) && Enabled(k, s) && (s.Exit? || s.Crash? || s.Exec? || s.Yield? || s.Preempt?)
    ensures var k', n := Apply(k, s), |k.frames| - 1;
      && |k'.procs| == |k.procs| == MAX_PROCESSES && Caller(k) < MAX_PROCESSES
      && k'.procs == k.procs[Caller(k) := k'.procs[Caller(k)]] && Became(s, k.procs[Caller(k)], k'.procs[Caller(k)])
      && k'.frames == k.frames[n := k.frames[n].(dispatch := None)] && k'.cr3 == k.frames[n].dispatch.value.callerAs
  {
    CallerIs(k);
    var me := OnCpu(k);
    assert FrameOk(k, |k.frames| - 1);
    if s.Exec? { LeaveIs(k, ExecInto(k, me, s.a, s.ks), me); }
    if s.Exit? { LeaveIs(k, Die(k, me, s.code), me); }
    if s.Crash? { LeaveIs(k, Die(k, me, -1), me); }
    if s.Yield? || s.Preempt? { LeaveIs(k, Stop(k, me), me); }
  }
}
