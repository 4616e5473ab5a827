/**
 * The scheduler over whole runs: from boot, through any interleaving of spawns,
 * scheduler passes, forks, execs, waits, exits, crashes, yields and preemptions.
 */
module SchedulerRuns {
  import opened Wrappers
  import opened KernelModel
  import opened SchedulerProofs

  ghost predicate IsRun(ks: seq<Kernel>, ss: seq<Step>) {
    |ks| == |ss| + 1 && forall i | 0 <= i < |ss| :: StepAt(ks, ss, i)
  }

  ghost predicate StepAt(ks: seq<Kernel>, ss: seq<Step>, i: nat)
    requires i < |ss| && |ks| == |ss| + 1
  {
    Indexed(ks[i]) && Enabled(ks[i], ss[i]) && ks[i + 1] == Apply(ks[i], ss[i])
  }

  lemma StepKeepsInv(ks: seq<Kernel>, ss: seq<Step>, i: nat)
    requires IsRun(ks, ss) && i < |ss| && Inv(ks[i])
    ensures Inv(ks[i + 1])
  {
    assert StepAt(ks, ss, i);
    StepSafe(ks[i], ss[i]);
  }

  lemma {:induction false} RunKeepsInv(ks: seq<Kernel>, ss: seq<Step>, i: nat)
    requires IsRun(ks, ss) && Inv(ks[0]) && i <= |ss|
    ensures Inv(ks[i])
  {
    if i > 0 {
      RunKeepsInv(ks, ss, i - 1);
      StepKeepsInv(ks, ss, i - 1);
    }
  }

  function OnStack(k: Kernel): set<nat> {
    set d | 0 <= d < |k.frames| && k.frames[d].dispatch.Some? :: k.frames[d].dispatch.value.slot
  }

  /**
   * In every state of every run from boot: the Running slots are exactly those on
   * the dispatch stack, each there once; while a process has the CPU, `current`,
   * the current task, CR3 and RSP0 are all its own; no free has ever hit a resource
   * that was not allocated or was still in use; and every allocated address space
   * and kernel stack is held by exactly one task or pending slot.
   */
  lemma EveryRunIsSafe(ks: seq<Kernel>, ss: seq<Step>, i: nat)
    requires IsRun(ks, ss) && ks[0] == BOOT && i <= |ss|
    ensures var k := ks[i];
      && |k.procs| == MAX_PROCESSES
      && OnStack(k) == (set s | 0 <= s < MAX_PROCESSES && k.procs[s].state.Running?)
      && (forall d, e | 0 <= d < e < |k.frames| && k.frames[d].dispatch.Some? && k.frames[e].dispatch.Some? ::
            k.frames[d].dispatch.value.slot != k.frames[e].dispatch.value.slot)
      && (InProcess(k) ==>
            var me := k.frames[|k.frames| - 1].dispatch.value.slot;
            && k.current == Some(me) && k.currentTask == Some(me) && me < MAX_PROCESSES
            && k.cr3 == k.procs[me].aspace && k.rsp0 == k.procs[me].kstack)
      && !k.fault
      && HeldByAll(k.procs) == multiset(k.live)
  {
    BootInv();
    RunKeepsInv(ks, ss, i);
    StackIsRunning(ks[i]);
    var k := ks[i];
    forall d, e | 0 <= d < e < |k.frames| && k.frames[d].dispatch.Some? && k.frames[e].dispatch.Some?
      ensures k.frames[d].dispatch.value.slot != k.frames[e].dispatch.value.slot
    {
      assert FrameOk(k, d) && FrameOk(k, e);
    }
  }

  lemma StackIsRunning(k: Kernel)
    requires Inv(k)
    ensures OnStack(k) == (set s | 0 <= s < MAX_PROCESSES && k.procs[s].state.Running?)
  {
    forall d | 0 <= d < |k.frames| && k.frames[d].dispatch.Some?
      ensures k.procs[k.frames[d].dispatch.value.slot].state.Running?
    {
      assert FrameOk(k, d);
    }
    forall s | 0 <= s < MAX_PROCESSES && k.procs[s].state.Running? ensures s in OnStack(k) {
      assert RunOk(k, s);
      var d := k.procs[s].resume;
      assert k.frames[d].dispatch.value.slot == s;
    }
  }

  /** exec() never overwrites a pending slot that is still full, so nothing it replaces is lost. */
  lemma ExecFindsPendingEmpty(k: Kernel)
    requires Inv(k) && InProcess(k)
    ensures k.current.Some? && k.procs[k.current.value].oldAspace.None? && k.procs[k.current.value].oldKstack.None?
  {
    var me := OnCpu(k);
  }

  // --- wait() ---

  /** The process activation `d` waits for is in slot `t`. */
  ghost predicate Awaits(k: Kernel, d: nat, t: nat) {
    Indexed(k) && 0 < d < |k.frames| && IsTarget(k, d, t)
  }

  /**
   * From frames `f` to `g` touching only the innermost activation: working in it, opening one inside it, or leaving it.
   */
  ghost predicate Innermost(f: seq<Frame>, g: seq<Frame>) {
    var n := |f|;
    && n > 0
    && ((|g| == n && g[..n - 1] == f[..n - 1] && g[n - 1].wait == f[n - 1].wait)
        || (|g| == n + 1 && g[..n] == f)
        || g == f[..n - 1])
  }

  lemma LeaveIsInnermost(k: Kernel, k1: Kernel, me: nat)
    requires Inv(k) && InProcess(k) && k.current == Some(me) && me < MAX_PROCESSES
    requires Indexed(k1) && k1.frames == k.frames && k1.currentTask == k.currentTask
    requires k1.procs[me].resume == k.procs[me].resume
    ensures Innermost(k.frames, ReturnToKernel(k1).frames) && |ReturnToKernel(k1).frames| == |k.frames|
  {
    LeaveIs(k, k1, me);
  }

  lemma ScheduleIsInnermost(k: Kernel)
    requires Indexed(k) && k.frames != []
    ensures Innermost(k.frames, Schedule(k).frames) && |Schedule(k).frames| == |k.frames|
  {
  }

  lemma ReturnIsInnermost(k: Kernel, f: seq<Frame>, result: int)
    requires Indexed(k) && k.frames == f != []
    ensures Return(k, result).frames == f[..|f| - 1] && Innermost(f, Return(k, result).frames)
  {
  }

  lemma ReapKeepsFrames(k: Kernel, t: nat)
    requires Indexed(k) && t < MAX_PROCESSES
    ensures Indexed(Reap(k, t)) && Reap(k, t).frames == k.frames
  {
  }

  lemma WaitLoopIsInnermost(k: Kernel)
    requires Indexed(k) && k.frames != [] && k.frames[|k.frames| - 1].wait.Some?
    ensures Innermost(k.frames, Loop(k).frames) && |Loop(k).frames| <= |k.frames|
  {
    var t := SlotOf(k, k.frames[|k.frames| - 1].wait.value);
    if t.Some? {
      ReapKeepsFrames(k, t.value);
      ReturnIsInnermost(Reap(k, t.value), k.frames, k.procs[t.value].status);
      ScheduleIsInnermost(k);
    } else {
      ReturnIsInnermost(k, k.frames, -1);
    }
  }

  lemma RootLoopIsInnermost(k: Kernel)
    requires Indexed(k) && k.frames != [] && k.frames[|k.frames| - 1].wait.None?
    ensures Innermost(k.frames, Loop(k).frames) && |Loop(k).frames| <= |k.frames|
  {
    var k1 := ReapFrom(k, 0);
    ScheduleIsInnermost(k1);
    ReturnIsInnermost(k1, k.frames, 0);
  }

  lemma LoopIsInnermost(k: Kernel)
    requires Indexed(k) && k.frames != []
    ensures Innermost(k.frames, Loop(k).frames) && |Loop(k).frames| <= |k.frames|
  {
    if k.frames[|k.frames| - 1].wait.Some? { WaitLoopIsInnermost(k); } else { RootLoopIsInnermost(k); }
  }

  lemma StepIsInnermost(k: Kernel, s: Step)
    requires Inv(k) && Enabled(k, s) && k.frames != []
    ensures Innermost(k.frames, Apply(k, s).frames)
    ensures s != Pass ==> |Apply(k, s).frames| >= |k.frames|
  {
    if InProcess(k) {
      var me := OnCpu(k);
      match s {
        case Exec(a, ks) => LeaveIsInnermost(k, ExecInto(k, me, a, ks), me);
        case Exit(code) => LeaveIsInnermost(k, Die(k, me, code), me);
        case Crash => LeaveIsInnermost(k, Die(k, me, -1), me);
        case Yield => LeaveIsInnermost(k, Stop(k, me), me);
        case Preempt => LeaveIsInnermost(k, Stop(k, me), me);
        case _ =>
      }
    } else {
      LoopIsInnermost(k);
    }
  }

  ghost predicate SameProcess(p: Process, q: Process) {
    !p.state.Unused? && !q.state.Unused? && p.pid == q.pid && p.parent == q.parent
  }

  /** Slot `i` keeps its process unless this pass reaps it. */
  ghost predicate KeptOrReaped(k: Kernel, s: Step, i: nat)
    requires Indexed(k) && Enabled(k, s) && i < MAX_PROCESSES
  {
    var k' := Apply(k, s);
    || (|k'.procs| == MAX_PROCESSES && SameProcess(k.procs[i], k'.procs[i]))
    || (s == Pass && k.procs[i].state.Zombie?
        && (|k.frames| == 1 || (k'.frames == k.frames[..|k.frames| - 1] && Awaits(k, |k.frames| - 1, i))))
  }

  lemma ScheduleKeeps(k: Kernel, i: nat)
    requires Inv(k) && k.frames != [] && !InProcess(k) && i < MAX_PROCESSES && !k.procs[i].state.Unused?
    ensures |Schedule(k).procs| == MAX_PROCESSES && SameProcess(k.procs[i], Schedule(k).procs[i])
  {
    var next := PickFrom(k.procs, k.lastPicked, 1);
    if next.Some? {
      PickSafe(k, next.value);
      FreePendingIs(k.(lastPicked := next.value), next.value);
    }
  }

  lemma PassKeeps(k: Kernel, i: nat)
    requires Inv(k) && Enabled(k, Pass) && |k.frames| > 1 && i < MAX_PROCESSES && !k.procs[i].state.Unused?
    ensures KeptOrReaped(k, Pass, i)
  {
    var n := |k.frames| - 1;
    TargetSlot(k, n);
    var t := SlotOf(k, k.frames[n].wait.value).value;
    if k.procs[t].state.Zombie? {
      ReapIs(k, t);
      ReturnIsInnermost(Reap(k, t), k.frames, k.procs[t].status);
    } else {
      ScheduleKeeps(k, i);
    }
  }

  lemma LeaveKeeps(k: Kernel, k1: Kernel, me: nat, i: nat)
    requires Inv(k) && InProcess(k) && k.current == Some(me) && me < MAX_PROCESSES && i < MAX_PROCESSES
    requires Indexed(k1) && k1.frames == k.frames && k1.currentTask == k.currentTask
    requires k1.procs[me].resume == k.procs[me].resume
    requires SameProcess(k.procs[i], k1.procs[i])
    ensures |ReturnToKernel(k1).procs| == MAX_PROCESSES && SameProcess(k.procs[i], ReturnToKernel(k1).procs[i])
  {
    LeaveIs(k, k1, me);
  }

  lemma StepKeeps(k: Kernel, s: Step, i: nat)
    requires Inv(k) && Enabled(k, s) && |k.frames| > 1 && i < MAX_PROCESSES && !k.procs[i].state.Unused?
    ensures KeptOrReaped(k, s, i)
  {
    if InProcess(k) {
      var me := OnCpu(k);
      match s {
        case Exec(a, ks) => LeaveKeeps(k, ExecInto(k, me, a, ks), me, i);
        case Exit(code) => LeaveKeeps(k, Die(k, me, code), me, i);
        case Crash => LeaveKeeps(k, Die(k, me, -1), me, i);
        case Yield => LeaveKeeps(k, Stop(k, me), me, i);
        case Preempt => LeaveKeeps(k, Stop(k, me), me, i);
        case _ =>
      }
    } else {
      PassKeeps(k, i);
    }
  }

  /** What the waiting system call sees when its activation returns: its child's exit status. */
  lemma WaitReturnsStatus(k: Kernel)
    requires Inv(k) && Enabled(k, Pass) && |k.frames| > 1 && |Loop(k).frames| < |k.frames|
    ensures var pid, k' := k.frames[|k.frames| - 1].wait, Loop(k);
      && pid.Some? && pid.value in k.exits && k'.ret == k.exits[pid.value] && k'.exits == k.exits
      && InProcess(k') && k'.current == k.frames[|k.frames| - 1].outer
  {
    var n := |k.frames| - 1;
    TargetSlot(k, n);
    var t := SlotOf(k, k.frames[n].wait.value).value;
    if k.procs[t].state.Zombie? {
      ReapIs(k, t);
      assert FrameOk(k, n) && FrameOk(k, n - 1);
      assert SlotOk(k, k.procs[t]);
    } else {
      ScheduleIsInnermost(k);
    }
  }

  /**
   * Whatever happens inside a wait, step by step: its target stays in its slot, alive
   * and the waiter's child, until the pass that ends this very wait.
   */
  lemma WaitGoesOn(k: Kernel, s: Step, d: nat, t: nat)
    requires Inv(k) && Enabled(k, s) && Awaits(k, d, t) && |Apply(k, s).frames| > d
    ensures var k' := Apply(k, s);
      Awaits(k', d, t) && k'.frames[..d] == k.frames[..d] && k'.frames[d].wait == k.frames[d].wait
  {
    assert FrameOk(k, d - 1);
    var w := k.frames[d - 1].dispatch.value.slot;
    StepKeeps(k, s, t);
    KeptInside(k, s, d, t);
    StepKeeps(k, s, w);
    StepSafe(k, s);
    StepIsInnermost(k, s);
    AwaitsKept(k, Apply(k, s), d, t);
  }

  /** The end of a wait: its target was a zombie, and its status is the result. */
  lemma WaitEnds(k: Kernel, s: Step, d: nat, t: nat)
    requires Inv(k) && Enabled(k, s) && Awaits(k, d, t) && |Apply(k, s).frames| <= d
    ensures s == Pass && d == |k.frames| - 1 && Apply(k, s).frames == k.frames[..d]
    ensures k.procs[t].state.Zombie? && k.procs[t].pid in k.exits
    ensures Apply(k, s).ret == k.procs[t].status == k.exits[k.procs[t].pid]
    ensures Apply(k, s).exits == k.exits
  {
    StepIsInnermost(k, s);
    assert s == Pass;
    WaitReturnsStatus(k);
    TargetSlot(k, d);
    assert SlotOf(k, k.frames[d].wait.value).value == t;
    assert SlotOk(k, k.procs[t]);
    if !k.procs[t].state.Zombie? { ScheduleIsInnermost(k); }
  }

  lemma KeptInside(k: Kernel, s: Step, d: nat, t: nat)
    requires Inv(k) && Enabled(k, s) && Awaits(k, d, t) && |Apply(k, s).frames| > d && KeptOrReaped(k, s, t)
    ensures |Apply(k, s).procs| == MAX_PROCESSES && SameProcess(k.procs[t], Apply(k, s).procs[t])
  {
    var n := |k.frames|;
    if Apply(k, s).frames == k.frames[..n - 1] && Awaits(k, n - 1, t) {
      TargetsDistinct(k, d, t, n - 1, t);
    }
  }

  lemma AwaitsKept(k: Kernel, k': Kernel, d: nat, t: nat)
    requires Indexed(k) && Indexed(k') && Awaits(k, d, t) && |k'.frames| > d && Innermost(k.frames, k'.frames)
    requires SameProcess(k.procs[t], k'.procs[t])
    requires var w := k.frames[d - 1].dispatch.value.slot; SameProcess(k.procs[w], k'.procs[w])
    ensures Awaits(k', d, t) && k'.frames[..d] == k.frames[..d] && k'.frames[d].wait == k.frames[d].wait
  {
    var f, g, n := k.frames, k'.frames, |k.frames|;
    assert g[..d] == f[..d] && g[d].wait == f[d].wait by {
      assert |g| >= n ==> g[..n - 1] == f[..n - 1];
      assert forall e | 0 <= e < d :: e < n - 1 && g[e] == g[..n - 1][e] == f[..n - 1][e] == f[e];
    }
    assert g[d - 1] == g[..d][d - 1] == f[..d][d - 1] == f[d - 1];
  }

  /** A wait for the process in slot `t`, opened on top of the activations `f`. */
  ghost predicate WaitingOn(k: Kernel, f: seq<Frame>, t: nat, pid: int) {
    Awaits(k, |f|, t) && k.frames[..|f|] == f && k.procs[t].pid == pid
  }

  lemma WaitingStep(ks: seq<Kernel>, ss: seq<Step>, m: nat, f: seq<Frame>, t: nat, pid: int)
    requires IsRun(ks, ss) && Inv(ks[0]) && m < |ss| && WaitingOn(ks[m], f, t, pid) && |ks[m + 1].frames| > |f|
    ensures WaitingOn(ks[m + 1], f, t, pid)
  {
    RunKeepsInv(ks, ss, m);
    assert StepAt(ks, ss, m);
    WaitGoesOn(ks[m], ss[m], |f|, t);
  }

  /** While the wait's activation is there, it waits for the same process. */
  lemma {:induction false} WaitHolds(ks: seq<Kernel>, ss: seq<Step>, i: nat, m: nat, f: seq<Frame>, t: nat, pid: int)
    requires IsRun(ks, ss) && Inv(ks[0]) && i <= m <= |ss|
    requires forall e | i <= e <= m :: |ks[e].frames| > |f|
    requires WaitingOn(ks[i], f, t, pid)
    ensures WaitingOn(ks[m], f, t, pid)
  {
    if m > i {
      WaitHolds(ks, ss, i, m - 1, f, t, pid);
      WaitingStep(ks, ss, m - 1, f, t, pid);
    }
  }

  lemma WaitingEnds(ks: seq<Kernel>, ss: seq<Step>, m: nat, f: seq<Frame>, t: nat, pid: int)
    requires IsRun(ks, ss) && Inv(ks[0]) && m < |ss| && WaitingOn(ks[m], f, t, pid) && |ks[m + 1].frames| <= |f|
    ensures ks[m + 1].frames == f && pid in ks[m + 1].exits && ks[m + 1].ret == ks[m + 1].exits[pid]
  {
    RunKeepsInv(ks, ss, m);
    assert StepAt(ks, ss, m);
    WaitEnds(ks[m], ss[m], |f|, t);
  }

  lemma WaitingStarts(ks: seq<Kernel>, ss: seq<Step>, i: nat) returns (t: nat)
    requires IsRun(ks, ss) && Inv(ks[0]) && i < |ss| && ss[i].Wait? && |ks[i + 1].frames| > |ks[i].frames|
    ensures t < |ks[i].procs| && WaitingOn(ks[i + 1], ks[i].frames, t, ks[i].procs[t].pid) && InProcess(ks[i])
    ensures ks[i].current.Some? && ks[i].current.value < |ks[i].procs|
    ensures ks[i].procs[t].parent == ks[i].procs[ks[i].current.value].pid
    ensures ss[i].pid.Some? ==> ss[i].pid == Some(ks[i].procs[t].pid)
  {
    RunKeepsInv(ks, ss, i);
    assert StepAt(ks, ss, i);
    t := WaitOpens(ks[i], ss[i].pid);
  }

  lemma WaitOpens(k: Kernel, pid: Option<int>) returns (t: nat)
    requires Inv(k) && InProcess(k) && |Apply(k, Wait(pid)).frames| > |k.frames|
    ensures var k', d := Apply(k, Wait(pid)), |k.frames|;
      && |k'.frames| == d + 1 && k'.frames[..d] == k.frames && Awaits(k', d, t)
      && (pid.Some? ==> k'.frames[d].wait == pid)
      && k'.procs == k.procs && k.current.Some? && k.procs[t].parent == k.procs[k.current.value].pid
  {
    var me := OnCpu(k);
    t := FindChild(k, k.procs[me].pid, pid).value;
    WaitSafe(k, pid);
  }

  /**
   * A parent blocked in wait() gets its own child's exit status. For any wait that
   * opens at step `i` and ends at step `j`, whatever runs (and waits) in between:
   * the target is a child of the caller and stays alive in its slot throughout, the
   * result is the status it exited with, and control is back in the caller with the
   * stack of activations exactly as it was.
   */
  lemma ParentGetsItsChildsStatus(ks: seq<Kernel>, ss: seq<Step>, i: nat, j: nat) returns (t: nat, pid: int)
    requires IsRun(ks, ss) && ks[0] == BOOT && i + 1 < j <= |ss| && ss[i].Wait?
    requires forall e | i < e < j :: |ks[e].frames| > |ks[i].frames|
    requires |ks[j].frames| <= |ks[i].frames|
    ensures ss[i].pid.Some? ==> ss[i].pid == Some(pid)
    ensures forall e | i < e < j :: WaitingOn(ks[e], ks[i].frames, t, pid)
    ensures t < |ks[i].procs| && ks[i].procs[t].pid == pid
    ensures ks[i].current.Some? && ks[i].current.value < |ks[i].procs|
    ensures ks[i].procs[t].parent == ks[i].procs[ks[i].current.value].pid
    ensures pid in ks[j].exits && ks[j].ret == ks[j].exits[pid]
    ensures ks[j].frames == ks[i].frames && InProcess(ks[j]) && ks[j].current == ks[i].current
  {
    BootInv();
    t := WaitingStarts(ks, ss, i);
    pid := ks[i].procs[t].pid;
    forall e | i < e < j ensures WaitingOn(ks[e], ks[i].frames, t, pid) {
      WaitHolds(ks, ss, i + 1, e, ks[i].frames, t, pid);
    }
    WaitingEnds(ks, ss, j - 1, ks[i].frames, t, pid);
    RunKeepsInv(ks, ss, i);
    RunKeepsInv(ks, ss, j);
    SameTopSameCurrent(ks[i], ks[j]);
  }

  lemma SameTopSameCurrent(k: Kernel, k': Kernel)
    requires Inv(k) && Inv(k') && InProcess(k) && k'.frames == k.frames
    ensures k'.current == k.current
  {
    var m := OnCpu(k);
    var m' := OnCpu(k');
    assert FrameOk(k, |k.frames| - 1);
  }

  /** The process that exits or crashes is the one the history records. */
  ghost predicate EndedAt(k: Kernel, s: Step, pid: int, status: int) {
    && Indexed(k) && k.current.Some? && k.procs[k.current.value].pid == pid
    && (s == Exit(status) || (s == Crash && status == -1))
  }

  lemma StepRecordsExits(k: Kernel, s: Step, pid: int)
    requires Inv(k) && Enabled(k, s) && pid in Apply(k, s).exits
    ensures EndedAt(k, s, pid, Apply(k, s).exits[pid])
            || (pid in k.exits && k.exits[pid] == Apply(k, s).exits[pid])
  {
    if InProcess(k) {
      var me := OnCpu(k);
      match s {
        case Exec(a, ks) => LeaveIs(k, ExecInto(k, me, a, ks), me);
        case Exit(code) => LeaveIs(k, Die(k, me, code), me);
        case Crash => LeaveIs(k, Die(k, me, -1), me);
        case Yield => LeaveIs(k, Stop(k, me), me);
        case Preempt => LeaveIs(k, Stop(k, me), me);
        case _ =>
      }
    } else if s == Pass {
      LoopKeepsExits(k);
    }
  }

  lemma {:induction false} ReapFromKeepsExits(k: Kernel, i: nat)
    requires Indexed(k) && i <= MAX_PROCESSES
    ensures ReapFrom(k, i).exits == k.exits
    decreases MAX_PROCESSES - i
  {
    if i < MAX_PROCESSES {
      ReapFromKeepsExits(if k.procs[i].state.Zombie? then Reap(k, i) else k, i + 1);
    }
  }

  lemma LoopKeepsExits(k: Kernel)
    requires Indexed(k) && k.frames != []
    ensures Loop(k).exits == k.exits
  {
    ReapFromKeepsExits(k, 0);
  }

  /** Every recorded status was handed to exit() by that process, or is a crash's -1. */
  lemma {:induction false} StatusWasGivenToExit(ks: seq<Kernel>, ss: seq<Step>, j: nat, pid: int) returns (m: nat)
    requires IsRun(ks, ss) && ks[0] == BOOT && j <= |ss| && pid in ks[j].exits
    ensures m < j && EndedAt(ks[m], ss[m], pid, ks[j].exits[pid])
  {
    BootInv();
    RunKeepsInv(ks, ss, j - 1);
    assert StepAt(ks, ss, j - 1);
    StepRecordsExits(ks[j - 1], ss[j - 1], pid);
    if EndedAt(ks[j - 1], ss[j - 1], pid, ks[j].exits[pid]) {
      m := j - 1;
    } else {
      m := StatusWasGivenToExit(ks, ss, j - 1, pid);
    }
  }
}
