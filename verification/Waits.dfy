/** Exactly when a wait can return, at whatever depth of nested activations it is. */
module SchedulerWaits {
  import opened Wrappers
  import opened KernelModel
  import opened SchedulerProofs
  import opened SchedulerRuns
  import opened SchedulerFairness

  ghost predicate Dispatches(f: Frame, t: nat) { f.dispatch.Some? && f.dispatch.value.slot == t }

  /** Some of these activations is in the middle of running slot `t`. */
  ghost predicate Holds(fs: seq<Frame>, t: nat) { exists c :: 0 <= c < |fs| && Dispatches(fs[c], t) }

  /** The wait of activation `e` is not for a process that an activation below it is running. */
  ghost predicate Unblocked(k: Kernel, e: nat)
    requires e <= |k.frames|
  {
    forall t: nat | Awaits(k, e, t) :: !Holds(k.frames[..e], t)
  }

  ghost predicate ClearFrom(k: Kernel, d: nat) { forall e | d <= e < |k.frames| :: Unblocked(k, e) }

  lemma OneTarget(k: Kernel, e: nat, t: nat, u: nat)
    requires Inv(k) && Awaits(k, e, t) && Awaits(k, e, u)
    ensures t == u
  {
  }

  lemma StaysUnblocked(k: Kernel, k': Kernel, e: nat, t: nat)
    requires Inv(k') && Awaits(k, e, t) && Awaits(k', e, t) && k'.frames[..e] == k.frames[..e] && Unblocked(k, e)
    ensures Unblocked(k', e)
  {
    forall u | Awaits(k', e, u) ensures !Holds(k'.frames[..e], u) { OneTarget(k', e, t, u); }
  }

  lemma Target(k: Kernel, e: nat) returns (t: nat)
    requires Inv(k) && 0 < e < |k.frames|
    ensures Awaits(k, e, t)
  {
    TargetSlot(k, e);
    t := SlotOf(k, k.frames[e].wait.value).value;
  }

  /** A blocked wait stays, and so does everything below it. */
  lemma BlockedNeverReturns(k: Kernel, d: nat, e: nat)
    requires Inv(k) && 0 < d <= e < |k.frames| && !Unblocked(k, e)
    ensures !CanReturn(k, d)
  {
    var f := k.frames[..e];
    var t: nat :| Awaits(k, e, t) && Holds(f, t);
    var c: nat :| c < |f| && Dispatches(f[c], t);
    forall ks: seq<Kernel>, ss: seq<Step> | IsRun(ks, ss) && ks[0] == k ensures |ks[|ss|].frames| > d {
      StuckForever(ks, ss, f, t, k.procs[t].pid, c, |ss|);
    }
  }

  /** Taking the CPU away from whoever has it blocks nobody. */
  lemma PreemptKeepsClear(k: Kernel, d: nat)
    requires Inv(k) && InProcess(k) && 0 < d < |k.frames| && ClearFrom(k, d)
    ensures var k' := Apply(k, Preempt); Inv(k') && Enabled(k', Pass) && |k'.frames| == |k.frames| && ClearFrom(k', d)
  {
    var k' := Apply(k, Preempt);
    var me := OnCpu(k);
    StepSafe(k, Preempt);
    LeaveIs(k, Stop(k, me), me);
    forall e | d <= e < |k'.frames| ensures Unblocked(k', e) {
      var t := Target(k, e);
      WaitGoesOn(k, Preempt, e, t);
      assert Unblocked(k, e);
      StaysUnblocked(k, k', e, t);
    }
  }

  /** With the scheduler in charge, whoever is Running is held by an activation below the innermost. */
  lemma RunningIsHeld(k: Kernel, t: nat)
    requires Inv(k) && Enabled(k, Pass) && t < MAX_PROCESSES && k.procs[t].state.Running?
    ensures Holds(k.frames[..|k.frames| - 1], t)
  {
    assert RunOk(k, t);
    assert Dispatches(k.frames[..|k.frames| - 1][k.procs[t].resume], t);
  }

  lemma InnermostIsOff(k: Kernel, t: nat)
    requires Inv(k) && Enabled(k, Pass) && |k.frames| > 1 && Awaits(k, |k.frames| - 1, t)
             && Unblocked(k, |k.frames| - 1)
    ensures !k.procs[t].state.Running?
  {
    if k.procs[t].state.Running? { RunningIsHeld(k, t); }
  }

  lemma {:induction false} FirstReturn(ks: seq<Kernel>, ss: seq<Step>, d: nat, n: nat) returns (m: nat)
    requires IsRun(ks, ss) && n <= |ss| && |ks[0].frames| > d && |ks[n].frames| <= d
    ensures 0 < m <= n && |ks[m].frames| <= d && forall i | 0 <= i < m :: |ks[i].frames| > d
  {
    if i: nat :| i < n && |ks[i].frames| <= d { m := FirstReturn(ks, ss, d, i); } else { m := n; }
  }

  lemma {:induction false} CanReturnFrom(ks: seq<Kernel>, ss: seq<Step>, m: nat, d: nat)
    requires IsRun(ks, ss) && Inv(ks[0]) && m <= |ss| && CanReturn(ks[m], d)
    ensures CanReturn(ks[0], d)
  {
    if m > 0 {
      RunKeepsInv(ks, ss, m - 1);
      assert StepAt(ks, ss, m - 1);
      CanReturnAfter(ks[m - 1], ss[m - 1], d);
      CanReturnFrom(ks, ss, m - 1, d);
    }
  }

  /** Where the innermost wait comes back: everything below it is as it was. */
  lemma AfterReturn(ks: seq<Kernel>, ss: seq<Step>, m: nat, d: nat)
    requires IsRun(ks, ss) && Inv(ks[0]) && m <= |ss| && 0 < m && 0 < d < |ks[0].frames| - 1 && ClearFrom(ks[0], d)
    requires |ks[m].frames| <= |ks[0].frames| - 1 && forall i | 0 <= i < m :: |ks[i].frames| > |ks[0].frames| - 1
    ensures Inv(ks[m]) && ks[m].frames == ks[0].frames[..|ks[0].frames| - 1] && ClearFrom(ks[m], d)
  {
    var k, n := ks[0], |ks[0].frames| - 1;
    RunKeepsInv(ks, ss, m);
    var t := Target(k, n);
    WaitHolds(ks, ss, 0, m - 1, k.frames[..n], t, k.procs[t].pid);
    WaitingEnds(ks, ss, m - 1, k.frames[..n], t, k.procs[t].pid);
    forall e | d <= e < n ensures Unblocked(ks[m], e) { BelowKept(ks, ss, m, e); }
  }

  lemma BelowKept(ks: seq<Kernel>, ss: seq<Step>, m: nat, e: nat)
    requires IsRun(ks, ss) && Inv(ks[0]) && m <= |ss| && 0 < e < |ks[0].frames| - 1 && Unblocked(ks[0], e)
    requires forall i | 0 <= i <= m :: |ks[i].frames| > e
    ensures Unblocked(ks[m], e)
  {
    RunKeepsInv(ks, ss, m);
    var t := Target(ks[0], e);
    WaitHolds(ks, ss, 0, m, ks[0].frames[..e], t, ks[0].procs[t].pid);
    StaysUnblocked(ks[0], ks[m], e, t);
  }

  /** With no blocked wait from `d` up, they all can return, innermost first. */
  lemma {:induction false} ClearCanReturn(k: Kernel, d: nat)
    requires Inv(k) && 0 < d < |k.frames| && ClearFrom(k, d)
    ensures CanReturn(k, d)
    decreases |k.frames|, if InProcess(k) then 1 else 0
  {
    if InProcess(k) {
      PreemptKeepsClear(k, d);
      ClearCanReturn(Apply(k, Preempt), d);
      CanReturnAfter(k, Preempt, d);
    } else {
      var n := |k.frames| - 1;
      var t := Target(k, n);
      assert Unblocked(k, n);
      InnermostIsOff(k, t);
      CanFinish(k, t);
      if d < n { OneDown(k, d); }
    }
  }

  lemma {:induction false} OneDown(k: Kernel, d: nat)
    requires Inv(k) && 0 < d < |k.frames| - 1 && ClearFrom(k, d) && CanReturn(k, |k.frames| - 1)
    ensures CanReturn(k, d)
    decreases |k.frames|, 0, 0
  {
    var n := |k.frames| - 1;
    var ks: seq<Kernel>, ss: seq<Step> :| IsRun(ks, ss) && ks[0] == k && |ks[|ss|].frames| <= n;
    var m := FirstReturn(ks, ss, n, |ss|);
    AfterReturn(ks, ss, m, d);
    ClearCanReturn(ks[m], d);
    CanReturnFrom(ks, ss, m, d);
  }

  /**
   * A wait at any depth can return in some run if and only if no wait from it upward is for a process that an
   * activation below that wait is in the middle of running.
   */
  lemma WaitCanReturnIff(k: Kernel, d: nat)
    requires Inv(k) && 0 < d < |k.frames|
    ensures CanReturn(k, d) <==> ClearFrom(k, d)
  {
    if ClearFrom(k, d) {
      ClearCanReturn(k, d);
    } else {
      var e :| d <= e < |k.frames| && !Unblocked(k, e);
      BlockedNeverReturns(k, d, e);
    }
  }
}
