/**
 * Who gets to run: round robin shared by all nested scheduler activations, and
 * exactly when a wait can finish.
 */
module SchedulerFairness {
  import opened Wrappers
  import opened KernelModel
  import opened SchedulerProofs
  import opened SchedulerRuns

  /** How many slots the round-robin search passes over before it reaches `i`. */
  function Ahead(last: nat, i: nat): (n: nat)
    requires last < MAX_PROCESSES && i < MAX_PROCESSES
    ensures n < MAX_PROCESSES && (last + 1 + n) % MAX_PROCESSES == i
  {
    if i > last then i - last - 1 else i + MAX_PROCESSES - last - 1
  }

  /** A runnable slot is picked, or one before it in the round is, which brings it closer. */
  lemma {:induction false} PickComesCloser(ps: seq<Process>, last: nat, n: nat, i: nat)
    requires |ps| == MAX_PROCESSES && last < MAX_PROCESSES && i < MAX_PROCESSES && ps[i].state.Runnable?
    requires 1 <= n <= Ahead(last, i) + 1
    ensures var j := PickFrom(ps, last, n);
      j.Some? && (j.value != i ==> Ahead(j.value, i) < Ahead(last, i))
    decreases MAX_PROCESSES - n
  {
    var j := (last + n) % MAX_PROCESSES;
    if !ps[j].state.Runnable? { PickComesCloser(ps, last, n + 1, i); }
  }

  /** The pass that takes `k` to `k'` picked a process and dispatched it. */
  ghost predicate Picks(k: Kernel, s: Step, k': Kernel) {
    s == Pass && |k'.frames| == |k.frames| && InProcess(k')
  }

  lemma ScheduleRound(k: Kernel, i: nat)
    requires Inv(k) && k.frames != [] && !InProcess(k) && i < MAX_PROCESSES
    requires k.procs[i].state.Runnable?
    ensures var k' := Schedule(k);
      && |k'.procs| == MAX_PROCESSES && k'.lastPicked < MAX_PROCESSES && InProcess(k')
         && k'.current == Some(k'.lastPicked)
      && (k'.lastPicked != i ==> k'.procs[i] == k.procs[i] && Ahead(k'.lastPicked, i) < Ahead(k.lastPicked, i))
      && (k'.lastPicked == i ==> k'.procs[i].state.Running?)
  {
    PickComesCloser(k.procs, k.lastPicked, 1, i);
    var j := PickFrom(k.procs, k.lastPicked, 1).value;
    PickSafe(k, j);
    FreePendingIs(k.(lastPicked := j), j);
  }

  lemma {:induction false} ReapFromSkips(k: Kernel, j: nat, i: nat)
    requires Indexed(k) && j <= MAX_PROCESSES && i < MAX_PROCESSES && k.procs[i].state.Runnable?
    ensures ReapFrom(k, j).procs[i] == k.procs[i] && ReapFrom(k, j).lastPicked == k.lastPicked
    decreases MAX_PROCESSES - j
  {
    if j < MAX_PROCESSES { ReapFromSkips(if k.procs[j].state.Zombie? then Reap(k, j) else k, j + 1, i); }
  }

  /** While slot `i` stays Runnable, each pick brings it closer and nothing else moves the round. */
  lemma StepRound(k: Kernel, s: Step, i: nat)
    requires Inv(k) && Enabled(k, s) && i < MAX_PROCESSES
    requires k.procs[i].state.Runnable? && |Apply(k, s).procs| == MAX_PROCESSES && Apply(k, s).procs[i].state.Runnable?
    ensures var k' := Apply(k, s);
      && k'.lastPicked < MAX_PROCESSES
      && (if Picks(k, s, k') then Ahead(k'.lastPicked, i) < Ahead(k.lastPicked, i) else k'.lastPicked == k.lastPicked)
  {
    if InProcess(k) {
      var me := OnCpu(k);
    } else if s == Pass {
      PassRound(k, i);
    }
  }

  ghost predicate Round(k: Kernel, k': Kernel, i: nat)
    requires k.lastPicked < MAX_PROCESSES && i < MAX_PROCESSES
  {
    && k'.lastPicked < MAX_PROCESSES
    && (if Picks(k, Pass, k') then Ahead(k'.lastPicked, i) < Ahead(k.lastPicked, i) else k'.lastPicked == k.lastPicked)
  }

  lemma WaitPassRound(k: Kernel, i: nat)
    requires Inv(k) && Enabled(k, Pass) && |k.frames| > 1 && i < MAX_PROCESSES
    requires k.procs[i].state.Runnable? && |Loop(k).procs| == MAX_PROCESSES && Loop(k).procs[i].state.Runnable?
    ensures Round(k, Loop(k), i)
  {
    var n := |k.frames| - 1;
    TargetSlot(k, n);
    var t := SlotOf(k, k.frames[n].wait.value).value;
    if k.procs[t].state.Zombie? {
      ReapIs(k, t);
    } else {
      ScheduleRound(k, i);
    }
  }

  lemma RootPassRound(k: Kernel, i: nat)
    requires Inv(k) && Enabled(k, Pass) && |k.frames| == 1 && i < MAX_PROCESSES
    requires k.procs[i].state.Runnable? && |Loop(k).procs| == MAX_PROCESSES && Loop(k).procs[i].state.Runnable?
    ensures Round(k, Loop(k), i)
  {
    assert FrameOk(k, 0);
    ReapFromSafe(k, 0);
    ReapFromSkips(k, 0, i);
    var k1 := ReapFrom(k, 0);
    assert AnyAlive(k1);
    ScheduleRound(k1, i);
  }

  lemma PassRound(k: Kernel, i: nat)
    requires Inv(k) && Enabled(k, Pass) && i < MAX_PROCESSES
    requires k.procs[i].state.Runnable? && |Loop(k).procs| == MAX_PROCESSES && Loop(k).procs[i].state.Runnable?
    ensures Round(k, Loop(k), i)
  {
    if |k.frames| > 1 { WaitPassRound(k, i); } else { RootPassRound(k, i); }
  }

  /** How many of the first `n` steps of a run pick a process, in whichever activation. */
  ghost function PickCount(ks: seq<Kernel>, ss: seq<Step>, n: nat): nat
    requires |ks| == |ss| + 1 && n <= |ss|
  {
    if n == 0 then 0
    else PickCount(ks, ss, n - 1) + if Picks(ks[n - 1], ss[n - 1], ks[n]) then 1 else 0
  }

  lemma RoundAt(ks: seq<Kernel>, ss: seq<Step>, m: nat, i: nat)
    requires IsRun(ks, ss) && m < |ss| && Inv(ks[m]) && i < MAX_PROCESSES
    requires Inv(ks[m + 1]) && ks[m].procs[i].state.Runnable? && ks[m + 1].procs[i].state.Runnable?
    ensures if Picks(ks[m], ss[m], ks[m + 1])
            then Ahead(ks[m + 1].lastPicked, i) < Ahead(ks[m].lastPicked, i)
            else ks[m + 1].lastPicked == ks[m].lastPicked
  {
    assert StepAt(ks, ss, m);
    StepRound(ks[m], ss[m], i);
  }

  /**
   * Round-robin bounded waiting: in any run through which slot `i` stays Runnable,
   * fewer than MAX_PROCESSES picks happen, counting those of every nested activation.
   */
  lemma {:induction false} BoundedWaiting(ks: seq<Kernel>, ss: seq<Step>, i: nat, n: nat)
    requires IsRun(ks, ss) && Inv(ks[0]) && n <= |ss| && i < MAX_PROCESSES
    requires forall m | 0 <= m <= n :: |ks[m].procs| == MAX_PROCESSES && ks[m].procs[i].state.Runnable?
    ensures ks[0].lastPicked < MAX_PROCESSES && ks[n].lastPicked < MAX_PROCESSES
    ensures PickCount(ks, ss, n) + Ahead(ks[n].lastPicked, i) <= Ahead(ks[0].lastPicked, i)
    ensures PickCount(ks, ss, n) < MAX_PROCESSES
  {
    RunKeepsInv(ks, ss, n);
    if n > 0 {
      BoundedWaiting(ks, ss, i, n - 1);
      RunKeepsInv(ks, ss, n - 1);
      RoundAt(ks, ss, n - 1, i);
    }
  }

  // --- When a wait can finish ---

  /** Some run from `k` gets the activation at depth `d` to return. */
  ghost predicate CanReturn(k: Kernel, d: nat) {
    exists ks: seq<Kernel>, ss: seq<Step> :: IsRun(ks, ss) && ks[0] == k && |ks[|ss|].frames| <= d
  }

  lemma OnStackRuns(k: Kernel, f: seq<Frame>, t: nat, pid: int, c: nat)
    requires Inv(k) && WaitingOn(k, f, t, pid) && c < |f| && f[c].dispatch.Some? && f[c].dispatch.value.slot == t
    ensures k.procs[t].state.Running?
  {
    assert FrameOk(k, c) && k.frames[c] == f[c];
  }

  lemma StuckStep(ks: seq<Kernel>, ss: seq<Step>, f: seq<Frame>, t: nat, pid: int, c: nat, m: nat)
    requires IsRun(ks, ss) && Inv(ks[0]) && m < |ss| && WaitingOn(ks[m], f, t, pid)
    requires c < |f| && f[c].dispatch.Some? && f[c].dispatch.value.slot == t
    ensures WaitingOn(ks[m + 1], f, t, pid)
  {
    RunKeepsInv(ks, ss, m);
    OnStackRuns(ks[m], f, t, pid, c);
    NotYet(ks, ss, m, f, t, pid);
    WaitingStep(ks, ss, m, f, t, pid);
  }

  /** A wait for a process that is itself on the stack below never returns. */
  lemma {:induction false} StuckForever(ks: seq<Kernel>, ss: seq<Step>, f: seq<Frame>, t: nat, pid: int, c: nat, m: nat)
    requires IsRun(ks, ss) && Inv(ks[0]) && m <= |ss| && WaitingOn(ks[0], f, t, pid)
    requires c < |f| && f[c].dispatch.Some? && f[c].dispatch.value.slot == t
    ensures WaitingOn(ks[m], f, t, pid)
  {
    if m > 0 {
      StuckForever(ks, ss, f, t, pid, c, m - 1);
      StuckStep(ks, ss, f, t, pid, c, m - 1);
    }
  }

  lemma NotYet(ks: seq<Kernel>, ss: seq<Step>, m: nat, f: seq<Frame>, t: nat, pid: int)
    requires IsRun(ks, ss) && m < |ss| && Inv(ks[m]) && WaitingOn(ks[m], f, t, pid) && ks[m].procs[t].state.Running?
    ensures |ks[m + 1].frames| > |f|
  {
    assert StepAt(ks, ss, m);
    if |ks[m + 1].frames| <= |f| { WaitEnds(ks[m], ss[m], |f|, t); }
  }

  lemma RunFrom(k: Kernel, s: Step, ks: seq<Kernel>, ss: seq<Step>)
    requires Indexed(k) && Enabled(k, s) && IsRun(ks, ss) && ks[0] == Apply(k, s)
    ensures IsRun([k] + ks, [s] + ss)
  {
    var qs, ts := [k] + ks, [s] + ss;
    forall i | 0 <= i < |ts| ensures StepAt(qs, ts, i) {
      if i > 0 { assert StepAt(ks, ss, i - 1); }
    }
  }

  lemma CanReturnAfter(k: Kernel, s: Step, d: nat)
    requires Inv(k) && Enabled(k, s) && CanReturn(Apply(k, s), d)
    ensures CanReturn(k, d)
  {
    var ks: seq<Kernel>, ss: seq<Step> :| IsRun(ks, ss) && ks[0] == Apply(k, s) && |ks[|ss|].frames| <= d;
    RunFrom(k, s, ks, ss);
    var qs, ts := [k] + ks, [s] + ss;
    assert qs[|ts|] == ks[|ss|];
    assert IsRun(qs, ts) && qs[0] == k && |qs[|ts|].frames| <= d;
  }

  lemma PassReturns(k: Kernel, t: nat)
    requires Inv(k) && Enabled(k, Pass) && |k.frames| > 1 && IsTarget(k, |k.frames| - 1, t) && k.procs[t].state.Zombie?
    ensures |Apply(k, Pass).frames| <= |k.frames| - 1
  {
    TargetSlot(k, |k.frames| - 1);
    ReapIs(k, t);
  }

  lemma ReturnsAtOnce(k: Kernel, t: nat)
    requires Inv(k) && Enabled(k, Pass) && |k.frames| > 1 && IsTarget(k, |k.frames| - 1, t) && k.procs[t].state.Zombie?
    ensures CanReturn(k, |k.frames| - 1)
  {
    PassReturns(k, t);
    var k' := Apply(k, Pass);
    var ks, ss := [k, k'], [Pass];
    assert StepAt(ks, ss, 0);
    assert IsRun(ks, ss) && ks[0] == k && |ks[|ss|].frames| <= |k.frames| - 1;
  }

  /** With the CPU: the picked process is preempted at once and the target has come closer, or exits. */
  lemma AfterPick(k: Kernel, t: nat, d: nat)
    requires Inv(k) && InProcess(k) && Awaits(k, d, t) && d == |k.frames| - 1
    ensures var me := k.current.value; var s := if me == t then Exit(0) else Preempt; var k' := Apply(k, s);
      && k.current.Some? && Enabled(k, s) && Inv(k') && Enabled(k', Pass) && |k'.frames| == |k.frames|
         && Awaits(k', d, t)
      && (me == t ==> k'.procs[t].state.Zombie?)
      && (me != t ==> k'.procs[t] == k.procs[t] && k'.lastPicked == k.lastPicked)
  {
    var me := OnCpu(k);
    var s := if me == t then Exit(0) else Preempt;
    StepSafe(k, s);
    LeaveIs(k, if me == t then Die(k, me, 0) else Stop(k, me), me);
    WaitGoesOn(k, s, d, t);
  }

  lemma PassSchedules(k: Kernel, t: nat)
    requires Inv(k) && Enabled(k, Pass) && |k.frames| > 1 && IsTarget(k, |k.frames| - 1, t)
             && k.procs[t].state.Runnable?
    ensures Apply(k, Pass) == Schedule(k) && |Apply(k, Pass).frames| == |k.frames|
  {
    TargetSlot(k, |k.frames| - 1);
    ScheduleIsInnermost(k);
  }

  lemma PickInWait(k: Kernel, t: nat)
    requires Inv(k) && Enabled(k, Pass) && |k.frames| > 1 && IsTarget(k, |k.frames| - 1, t)
             && k.procs[t].state.Runnable?
    ensures var d, k1 := |k.frames| - 1, Apply(k, Pass);
      && Inv(k1) && InProcess(k1) && |k1.frames| == |k.frames| && Awaits(k1, d, t)
      && k1.current == Some(k1.lastPicked)
      && (k1.lastPicked != t ==> k1.procs[t] == k.procs[t] && Ahead(k1.lastPicked, t) < Ahead(k.lastPicked, t))
  {
    PassSchedules(k, t);
    ScheduleRound(k, t);
    StepSafe(k, Pass);
    WaitGoesOn(k, Pass, |k.frames| - 1, t);
  }

  /** One round of a wait: the target ends up a zombie, or still Runnable and closer to its turn. */
  lemma OneRound(k: Kernel, t: nat) returns (k2: Kernel)
    requires Inv(k) && Enabled(k, Pass) && |k.frames| > 1 && IsTarget(k, |k.frames| - 1, t)
             && k.procs[t].state.Runnable?
    ensures Inv(k2) && Enabled(k2, Pass) && |k2.frames| == |k.frames| && IsTarget(k2, |k.frames| - 1, t)
    ensures k2.procs[t].state.Zombie?
            || (k2.procs[t].state.Runnable? && Ahead(k2.lastPicked, t) < Ahead(k.lastPicked, t))
    ensures CanReturn(k2, |k.frames| - 1) ==> CanReturn(k, |k.frames| - 1)
  {
    PickInWait(k, t);
    var d, k1 := |k.frames| - 1, Apply(k, Pass);
    AfterPick(k1, t, d);
    var s := if k1.current.value == t then Exit(0) else Preempt;
    k2 := Apply(k1, s);
    if CanReturn(k2, d) {
      CanReturnAfter(k1, s, d);
      CanReturnAfter(k, Pass, d);
    }
  }

  /** A wait whose target is not on the dispatch stack can finish: pick, preempt, until the target runs and exits. */
  lemma {:induction false} CanFinish(k: Kernel, t: nat)
    requires Inv(k) && Enabled(k, Pass) && |k.frames| > 1 && IsTarget(k, |k.frames| - 1, t)
             && !k.procs[t].state.Running?
    ensures CanReturn(k, |k.frames| - 1)
    decreases Ahead(k.lastPicked, t)
  {
    if k.procs[t].state.Zombie? {
      ReturnsAtOnce(k, t);
    } else {
      var k2 := OneRound(k, t);
      if k2.procs[t].state.Zombie? { ReturnsAtOnce(k2, t); } else { CanFinish(k2, t); }
    }
  }

  /**
   * Exactly when a wait can come back: a parent that waits for a child which is itself
   * blocked in a wait() further down the dispatch stack is stuck in every run, and a
   * wait for any other child returns in some run.
   */
  lemma WaitCanReturnIffTargetOffStack(k: Kernel, t: nat)
    requires Inv(k) && Enabled(k, Pass) && |k.frames| > 1 && IsTarget(k, |k.frames| - 1, t)
    ensures CanReturn(k, |k.frames| - 1) <==> !k.procs[t].state.Running?
  {
    var d := |k.frames| - 1;
    if k.procs[t].state.Running? {
      assert RunOk(k, t);
      forall ks: seq<Kernel>, ss: seq<Step> | IsRun(ks, ss) && ks[0] == k
        ensures |ks[|ss|].frames| > d
      {
        assert WaitingOn(k, k.frames[..d], t, k.procs[t].pid);
        StuckForever(ks, ss, k.frames[..d], t, k.procs[t].pid, k.procs[t].resume, |ss|);
      }
    } else {
      CanFinish(k, t);
    }
  }
}
