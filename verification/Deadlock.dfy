/**
 * A wait that can never return is within reach: a run from boot in which a child calls wait(), and its own parent,
 * picked inside that wait, then waits for the child.
 */
module SchedulerDeadlock {
  import opened Wrappers
  import opened KernelModel
  import opened SchedulerProofs
  import opened SchedulerRuns
  import opened SchedulerFairness

  /** A table with three slots in use. */
  function Table(p: Process, q: Process, r: Process): (ps: seq<Process>)
    ensures |ps| == MAX_PROCESSES && ps[0] == p && ps[1] == q && ps[2] == r
    ensures forall i | 3 <= i < MAX_PROCESSES :: ps[i] == EMPTY
  {
    [p, q, r] + seq(MAX_PROCESSES - 3, _ => EMPTY)
  }

  lemma TableUpdate(p: Process, q: Process, r: Process, x: Process)
    ensures Table(p, q, r)[0 := x] == Table(x, q, r)
    ensures Table(p, q, r)[1 := x] == Table(p, x, r)
    ensures Table(p, q, r)[2 := x] == Table(p, q, x)
  {
  }

  /** A process whose address space and kernel stack are numbered like itself. */
  function Proc(pid: nat, parent: int, state: RunState, hasRun: bool, savedOn: nat, resume: nat): Process {
    Process(pid, parent, state, 0, hasRun, savedOn, pid, pid, resume, None, None)
  }

  /** The kernel after `n` processes were made; nobody has exited. */
  function State(ps: seq<Process>, n: nat, current: Option<nat>, last: nat, frames: seq<Frame>, cr3: nat, rsp0: nat,
      task: Option<nat>): Kernel {
    Kernel(ps, n + 1, current, last, frames, cr3, rsp0, task, Live(n), 0, map[], false)
  }

  function Live(n: nat): set<Resource> {
    if n == 0 then {} else Live(n - 1) + {Aspace(n), Kstack(n)}
  }

  lemma {:induction false} NotLive(n: nat, m: nat)
    requires n < m
    ensures Aspace(m) !in Live(n) && Kstack(m) !in Live(n)
  {
    if n > 0 { NotLive(n - 1, m); }
  }

  ghost predicate Leads(k: Kernel, s: Step, k': Kernel) { Indexed(k) && Enabled(k, s) && Apply(k, s) == k' }

  // The three processes, in the states they go through.

  const NEW := Proc(1, -1, Runnable, false, 0, 0)
  const PARENT_ON := Proc(1, -1, Running, true, 0, 0)
  const PARENT_OFF := Proc(1, -1, Runnable, true, 1, 0)
  const PARENT_INSIDE := Proc(1, -1, Running, true, 1, 1)
  const CHILD_NEW := Proc(2, 1, Runnable, true, 2, 0)
  const CHILD_ON := Proc(2, 1, Running, true, 2, 0)
  const GRANDCHILD_NEW := Proc(3, 2, Runnable, true, 3, 0)
  const GRANDCHILD_ON := Proc(3, 2, Running, true, 3, 1)
  const GRANDCHILD_OFF := Proc(3, 2, Runnable, true, 3, 1)

  function Root(d: Option<Dispatch>): Frame { Frame(None, None, d) }
  function ChildWaits(d: Option<Dispatch>): Frame { Frame(Some(3), Some(1), d) }
  const CHILD := Root(Some(Dispatch(1, 0, None)))

  function Spawned(): Kernel { State(Table(NEW, EMPTY, EMPTY), 1, None, 15, [], 0, 0, None) }
  function Started(): Kernel { State(Table(NEW, EMPTY, EMPTY), 1, None, 15, [Root(None)], 0, 0, None) }
  function ParentRuns(): Kernel {
    State(Table(PARENT_ON, EMPTY, EMPTY), 1, Some(0), 0, [Root(Some(Dispatch(0, 0, None)))], 1, 1, Some(0))
  }
  function ParentForked(): Kernel {
    State(Table(PARENT_ON, CHILD_NEW, EMPTY), 2, Some(0), 0, [Root(Some(Dispatch(0, 0, None)))], 1, 1, Some(0))
  }
  function ParentYielded(): Kernel {
    State(Table(PARENT_OFF, CHILD_NEW, EMPTY), 2, Some(0), 0, [Root(None)], 0, 1, None)
  }
  function ChildRuns(): Kernel { State(Table(PARENT_OFF, CHILD_ON, EMPTY), 2, Some(1), 1, [CHILD], 2, 2, Some(1)) }
  function ChildForked(): Kernel {
    State(Table(PARENT_OFF, CHILD_ON, GRANDCHILD_NEW), 3, Some(1), 1, [CHILD], 2, 2, Some(1))
  }
  function ChildBlocks(): Kernel {
    State(Table(PARENT_OFF, CHILD_ON, GRANDCHILD_NEW), 3, Some(1), 1, [CHILD, ChildWaits(None)], 2, 2, Some(1))
  }
  function GrandchildRuns(): Kernel {
    State(Table(PARENT_OFF, CHILD_ON, GRANDCHILD_ON), 3, Some(2), 2, [CHILD, ChildWaits(Some(Dispatch(2, 2, Some(1))))],
          3, 3, Some(2))
  }
  function GrandchildYielded(): Kernel {
    State(Table(PARENT_OFF, CHILD_ON, GRANDCHILD_OFF), 3, Some(2), 2, [CHILD, ChildWaits(None)], 2, 3, Some(1))
  }
  function ParentInside(): Kernel {
    State(Table(PARENT_INSIDE, CHILD_ON, GRANDCHILD_OFF), 3, Some(0), 0,
          [CHILD, ChildWaits(Some(Dispatch(0, 2, Some(1))))], 1, 1, Some(0))
  }
  function Stuck(): Kernel {
    State(Table(PARENT_INSIDE, CHILD_ON, GRANDCHILD_OFF), 3, Some(0), 0,
          [CHILD, ChildWaits(Some(Dispatch(0, 2, Some(1)))), Frame(Some(2), Some(0), None)], 1, 1, Some(0))
  }

  lemma Step1()
    ensures Leads(BOOT, Spawn(1, 1), Spawned())
  {
    assert AllocSlot(BOOT) == Some(0);
    assert BOOT.procs[0 := NEW] == Spawned().procs;
  }

  lemma Step2()
    ensures Leads(Spawned(), RunAll, Started())
  {
  }

  lemma NoZombies(k: Kernel, i: nat)
    requires Indexed(k) && i <= MAX_PROCESSES && forall j | 0 <= j < MAX_PROCESSES :: !k.procs[j].state.Zombie?
    ensures ReapFrom(k, i) == k
    decreases MAX_PROCESSES - i
  {
  }

  /** Scheduling a process with nothing pending. */
  lemma Schedules(k: Kernel, i: nat)
    requires Indexed(k) && k.frames != [] && PickFrom(k.procs, k.lastPicked, 1) == Some(i)
    requires k.procs[i].oldAspace.None? && k.procs[i].oldKstack.None?
    ensures Schedule(k) == Enter(k.(lastPicked := i), i)
  {
    var k1 := k.(lastPicked := i);
    assert k1.procs[i := k1.procs[i]] == k1.procs;
    assert FreePending(k1, i) == k1;
  }

  /** A pass of a wait whose target has not exited. */
  lemma PassInWait(k: Kernel, pid: int, t: nat, i: nat)
    requires Indexed(k) && Enabled(k, Pass) && k.frames[|k.frames| - 1].wait == Some(pid)
    requires SlotOf(k, pid) == Some(t) && !k.procs[t].state.Zombie? && PickFrom(k.procs, k.lastPicked, 1) == Some(i)
    requires k.procs[i].oldAspace.None? && k.procs[i].oldKstack.None?
    ensures Apply(k, Pass) == Enter(k.(lastPicked := i), i)
  {
    Schedules(k, i);
  }

  lemma Step3()
    ensures Leads(Started(), Pass, ParentRuns())
  {
    var k := Started();
    NoZombies(k, 0);
    assert !k.procs[0].state.Unused?;
    assert (15 + 1) % MAX_PROCESSES == 0;
    assert PickFrom(k.procs, 15, 1) == Some(0);
    Schedules(k, 0);
    TableUpdate(NEW, EMPTY, EMPTY, PARENT_ON);
  }

  lemma Step4()
    ensures Leads(ParentRuns(), Fork(2, 2), ParentForked())
  {
    NotLive(1, 2);
    TableUpdate(PARENT_ON, EMPTY, EMPTY, CHILD_NEW);
    assert AllocSlot(ParentRuns()) == Some(1);
  }

  lemma Step5()
    ensures Leads(ParentForked(), Yield, ParentYielded())
  {
    TableUpdate(PARENT_ON, CHILD_NEW, EMPTY, PARENT_OFF);
  }

  lemma Step6()
    ensures Leads(ParentYielded(), Pass, ChildRuns())
  {
    var k := ParentYielded();
    NoZombies(k, 0);
    assert !k.procs[0].state.Unused?;
    assert PickFrom(k.procs, 0, 1) == Some(1);
    Schedules(k, 1);
    TableUpdate(PARENT_OFF, CHILD_NEW, EMPTY, CHILD_ON);
  }

  lemma Step7()
    ensures Leads(ChildRuns(), Fork(3, 3), ChildForked())
  {
    NotLive(2, 3);
    TableUpdate(PARENT_OFF, CHILD_ON, EMPTY, GRANDCHILD_NEW);
    assert AllocSlot(ChildRuns()) == Some(2);
  }

  lemma Step8()
    ensures Leads(ChildForked(), Wait(Some(3)), ChildBlocks())
  {
    assert SlotOf(ChildForked(), 3) == Some(2);
  }

  lemma Step9()
    ensures Leads(ChildBlocks(), Pass, GrandchildRuns())
  {
    var k := ChildBlocks();
    assert SlotOf(k, 3) == Some(2);
    assert PickFrom(k.procs, 1, 1) == Some(2);
    PassInWait(k, 3, 2, 2);
    TableUpdate(PARENT_OFF, CHILD_ON, GRANDCHILD_NEW, GRANDCHILD_ON);
  }

  lemma Step10()
    ensures Leads(GrandchildRuns(), Yield, GrandchildYielded())
  {
    TableUpdate(PARENT_OFF, CHILD_ON, GRANDCHILD_ON, GRANDCHILD_OFF);
  }

  /** The search goes once round the empty slots. */
  lemma {:induction false} PicksParent(ps: seq<Process>, last: nat, n: nat)
    requires ps == GrandchildYielded().procs && last == 2 && 1 <= n <= 14
    ensures PickFrom(ps, last, n) == Some(0)
    decreases 14 - n
  {
    if n < 14 { PicksParent(ps, last, n + 1); }
  }

  lemma Step11Of(k: Kernel)
    requires k == GrandchildYielded()
    ensures Leads(k, Pass, ParentInside())
  {
    assert SlotOf(k, 3) == Some(2);
    PicksParent(k.procs, k.lastPicked, 1);
    PassInWait(k, 3, 2, 0);
    TableUpdate(PARENT_OFF, CHILD_ON, GRANDCHILD_OFF, PARENT_INSIDE);
  }

  lemma Step11()
    ensures Leads(GrandchildYielded(), Pass, ParentInside())
  {
    Step11Of(GrandchildYielded());
  }

  lemma Step12()
    ensures Leads(ParentInside(), Wait(Some(2)), Stuck())
  {
    assert SlotOf(ParentInside(), 2) == Some(1);
  }

  lemma Longer(k: Kernel, s: Step, ks: seq<Kernel>, ss: seq<Step>) returns (qs: seq<Kernel>, ts: seq<Step>)
    requires IsRun(ks, ss) && Leads(k, s, ks[0])
    ensures IsRun(qs, ts) && qs[0] == k && qs[|ts|] == ks[|ss|]
  {
    RunFrom(k, s, ks, ss);
    qs, ts := [k] + ks, [s] + ss;
  }

  lemma SecondHalf() returns (ks: seq<Kernel>, ss: seq<Step>)
    ensures IsRun(ks, ss) && ks[0] == ChildRuns() && ks[|ss|] == Stuck()
  {
    ks, ss := [Stuck()], [];
    Step12();
    ks, ss := Longer(ParentInside(), Wait(Some(2)), ks, ss);
    Step11();
    ks, ss := Longer(GrandchildYielded(), Pass, ks, ss);
    Step10();
    ks, ss := Longer(GrandchildRuns(), Yield, ks, ss);
    Step9();
    ks, ss := Longer(ChildBlocks(), Pass, ks, ss);
    Step8();
    ks, ss := Longer(ChildForked(), Wait(Some(3)), ks, ss);
    Step7();
    ks, ss := Longer(ChildRuns(), Fork(3, 3), ks, ss);
  }

  lemma WholeRun() returns (ks: seq<Kernel>, ss: seq<Step>)
    ensures IsRun(ks, ss) && ks[0] == BOOT && ks[|ss|] == Stuck()
  {
    ks, ss := SecondHalf();
    Step6();
    ks, ss := Longer(ParentYielded(), Pass, ks, ss);
    Step5();
    ks, ss := Longer(ParentForked(), Yield, ks, ss);
    Step4();
    ks, ss := Longer(ParentRuns(), Fork(2, 2), ks, ss);
    Step3();
    ks, ss := Longer(Started(), Pass, ks, ss);
    Step2();
    ks, ss := Longer(Spawned(), RunAll, ks, ss);
    Step1();
    ks, ss := Longer(BOOT, Spawn(1, 1), ks, ss);
  }

  /** Twelve steps after boot, the parent waits for its child and no run whatever brings that wait back. */
  lemma DeadlockIsReachable() returns (ks: seq<Kernel>, ss: seq<Step>)
    ensures IsRun(ks, ss) && ks[0] == BOOT && |ks[|ss|].frames| == 3 && !CanReturn(ks[|ss|], 2)
  {
    ks, ss := WholeRun();
    BootInv();
    RunKeepsInv(ks, ss, |ss|);
    assert IsTarget(Stuck(), 2, 1);
    WaitCanReturnIffTargetOffStack(Stuck(), 1);
  }
}
