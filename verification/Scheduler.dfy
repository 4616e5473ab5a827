/**
 * What every run of the scheduler keeps: stack discipline across nested waits,
 * one owner for every address space and kernel stack, and a parent that gets
 * its own child's status.
 */
module SchedulerProofs {
  import opened Wrappers
  import opened Bags
  import opened KernelModel

  // --- Ownership: every allocated resource sits in exactly one place ---

  function Held(p: Process): multiset<Resource> {
    if p.state.Unused? then multiset{}
    else multiset{Aspace(p.aspace), Kstack(p.kstack)} + Pending(p)
  }

  function Pending(p: Process): multiset<Resource> {
    (if p.oldAspace.Some? then multiset{Aspace(p.oldAspace.value)} else multiset{})
    + (if p.oldKstack.Some? then multiset{Kstack(p.oldKstack.value)} else multiset{})
  }

  function Shares(ps: seq<Process>): seq<multiset<Resource>> {
    seq(|ps|, i requires 0 <= i < |ps| => Held(ps[i]))
  }

  function HeldByAll(ps: seq<Process>): multiset<Resource> {
    Sum(Shares(ps))
  }

  lemma HeldAfterUpdate(ps: seq<Process>, i: nat, p: Process)
    requires i < |ps|
    ensures HeldByAll(ps[i := p]) + Held(ps[i]) == HeldByAll(ps) + Held(p)
  {
    SumAfterUpdate(Shares(ps), i, Held(p));
    assert Shares(ps[i := p]) == Shares(ps)[i := Held(p)];
  }

  ghost predicate OneOwnerEach(k: Kernel) {
    HeldByAll(k.procs) == multiset(k.live)
  }

  /** One owner each: a held resource is allocated, and held by no other slot. */
  lemma SoleHolder(k: Kernel, i: nat, j: nat, r: Resource)
    requires OneOwnerEach(k) && i < |k.procs| && j < |k.procs| && r in Held(k.procs[i])
    ensures r in k.live
    ensures i != j ==> r !in Held(k.procs[j])
  {
    SumHasPart(Shares(k.procs), i, r);
    if i < j { SumHasTwoParts(Shares(k.procs), i, j, r); }
    if j < i { SumHasTwoParts(Shares(k.procs), j, i, r); }
  }

  // --- Nesting ---

  /** The process whose system call activation `d` runs inside; None is the kernel itself. */
  function Below(k: Kernel, d: nat): Option<nat>
    requires d <= |k.frames|
  {
    if d > 0 && k.frames[d - 1].dispatch.Some? then Some(k.frames[d - 1].dispatch.value.slot) else None
  }

  function AspaceOf(k: Kernel, t: Option<nat>): nat
    requires t.Some? ==> t.value < |k.procs|
  {
    if t.Some? then k.procs[t.value].aspace else KERNEL_AS
  }

  /** Activation `d`: only the innermost can be between dispatches; its dispatch saved what it must restore. */
  ghost predicate FrameOk(k: Kernel, d: nat)
    requires Indexed(k) && d < |k.frames|
  {
    var f := k.frames[d];
    && (d + 1 < |k.frames| ==> f.dispatch.Some?)
    && f.outer == Below(k, d)
    && (f.wait.None? <==> d == 0)
    && (f.dispatch.Some? ==>
          && f.dispatch.value.outerTask == Below(k, d)
          && f.dispatch.value.callerAs == AspaceOf(k, Below(k, d))
          && k.procs[f.dispatch.value.slot].state.Running?
          && k.procs[f.dispatch.value.slot].resume == d)
  }

  /** A Running process is inside the dispatch it would unwind to. */
  ghost predicate RunOk(k: Kernel, i: nat)
    requires Indexed(k) && i < MAX_PROCESSES
  {
    k.procs[i].state.Running? ==>
      var d := k.procs[i].resume;
      d < |k.frames| && k.frames[d].dispatch.Some? && k.frames[d].dispatch.value.slot == i
  }

  /** CR3, RSP0, the current task and `current` belong to the top of the stack. */
  ghost predicate CpuMatchesTop(k: Kernel)
    requires Indexed(k)
  {
    var top := Below(k, |k.frames|);
    if top.Some? then
      k.current == top && k.currentTask == top
      && k.cr3 == k.procs[top.value].aspace && k.rsp0 == k.procs[top.value].kstack
    else
      var t := if k.frames == [] then None else Below(k, |k.frames| - 1);
      k.currentTask == t && k.cr3 == AspaceOf(k, t) && (k.frames == [] ==> k.current.None?)
  }

  // --- Each slot by itself ---

  ghost predicate SlotOk(k: Kernel, p: Process) {
    p.state.Unused? ||
    (&& 1 <= p.pid < k.nextPid
     && p.aspace != KERNEL_AS
     && (p.oldAspace.Some? <==> p.oldKstack.Some?)
     && (p.oldAspace.Some? ==> p.state.Runnable? && !p.hasRun && p.oldAspace != Some(KERNEL_AS))
     && (p.state.Runnable? && p.hasRun ==> p.savedOn == p.kstack)
     && (p.state.Zombie? ==> p.pid in k.exits && k.exits[p.pid] == p.status))
  }

  ghost predicate Slots(k: Kernel)
    requires Indexed(k)
  {
    && k.lastPicked < MAX_PROCESSES && k.nextPid >= 1
    && (forall i | 0 <= i < MAX_PROCESSES :: SlotOk(k, k.procs[i]))
    && (forall i, j | 0 <= i < j < MAX_PROCESSES ::
          k.procs[i].state.Unused? || k.procs[j].state.Unused? || k.procs[i].pid != k.procs[j].pid)
  }

  /** Slot `t` holds the process activation `d` waits for: a child of the process it runs inside. */
  ghost predicate IsTarget(k: Kernel, d: nat, t: nat)
    requires Indexed(k) && 0 < d < |k.frames|
  {
    && t < MAX_PROCESSES
    && !k.procs[t].state.Unused?
    && k.frames[d].wait == Some(k.procs[t].pid)
    && k.frames[d - 1].dispatch.Some?
    && k.procs[t].parent == k.procs[k.frames[d - 1].dispatch.value.slot].pid
  }

  ghost predicate HasTarget(k: Kernel, d: nat)
    requires Indexed(k) && 0 < d < |k.frames|
  {
    exists t: nat :: IsTarget(k, d, t)
  }

  ghost predicate TargetsLive(k: Kernel)
    requires Indexed(k)
  {
    forall d | 0 < d < |k.frames| :: HasTarget(k, d)
  }

  /** The stack discipline. */
  ghost predicate Stack(k: Kernel)
    requires Indexed(k)
  {
    && (forall d | 0 <= d < |k.frames| :: FrameOk(k, d))
    && (forall i | 0 <= i < MAX_PROCESSES :: RunOk(k, i))
    && CpuMatchesTop(k)
  }

  /** Everything but the wait targets: what holds even between reaping and returning. */
  ghost predicate Core(k: Kernel) {
    Indexed(k) && Stack(k) && Slots(k) && OneOwnerEach(k) && !k.fault
  }

  ghost predicate Inv(k: Kernel) {
    Core(k) && TargetsLive(k)
  }

  lemma BootInv()
    ensures Inv(BOOT)
  {
    SumOfEmpties(Shares(BOOT.procs));
  }

  // --- Freeing is safe ---

  /** What a process that is not on the stack holds is neither the kernel's nor a Running process's own. */
  lemma HeldElsewhere(k: Kernel, i: nat, r: Resource, t: Option<nat>)
    requires Core(k) && i < MAX_PROCESSES && !k.procs[i].state.Running? && r in Held(k.procs[i])
    requires t.Some? ==> t.value < MAX_PROCESSES && k.procs[t.value].state.Running?
    ensures r != Aspace(AspaceOf(k, t))
    ensures t.Some? ==> r != Kstack(k.procs[t.value].kstack)
  {
    assert SlotOk(k, k.procs[i]);
    if t.Some? { SoleHolder(k, i, t.value, r); }
  }

  lemma BelowRuns(k: Kernel, d: nat)
    requires Core(k) && d <= |k.frames|
    ensures Below(k, d).Some? ==> Below(k, d).value < MAX_PROCESSES && k.procs[Below(k, d).value].state.Running?
  {
    if d > 0 { assert FrameOk(k, d - 1); }
  }

  /** What a process that is not on the stack holds is not in use. */
  lemma OffStackNotInUse(k: Kernel, i: nat, r: Resource)
    requires Core(k) && i < MAX_PROCESSES && !k.procs[i].state.Running? && r in Held(k.procs[i])
    ensures r in k.live && !InUse(k, r)
  {
    SoleHolder(k, i, i, r);
    HeldElsewhere(k, i, r, None);
    var n := |k.frames|;
    BelowRuns(k, n);
    HeldElsewhere(k, i, r, Below(k, n));
    if n > 0 {
      BelowRuns(k, n - 1);
      HeldElsewhere(k, i, r, Below(k, n - 1));
    }
    forall d | 0 <= d < n ensures !FrameHolds(k, d, r) {
      assert FrameOk(k, d);
      BelowRuns(k, d);
      HeldElsewhere(k, i, r, Below(k, d));
      BelowRuns(k, d + 1);
      HeldElsewhere(k, i, r, Below(k, d + 1));
    }
  }

  lemma OwnersAfterFree(k: Kernel, i: nat, p: Process, gone: set<Resource>)
    requires OneOwnerEach(k) && i < |k.procs| && Held(k.procs[i]) == Held(p) + multiset(gone)
    ensures HeldByAll(k.procs[i := p]) == multiset(k.live - gone)
  {
    HeldAfterUpdate(k.procs, i, p);
    BalanceAfterLoss(HeldByAll(k.procs[i := p]), Held(k.procs[i]), HeldByAll(k.procs), Held(p), k.live, gone);
  }

  lemma OwnersAfterAlloc(k: Kernel, i: nat, p: Process, added: set<Resource>)
    requires OneOwnerEach(k) && i < |k.procs| && Held(p) == Held(k.procs[i]) + multiset(added) && added !! k.live
    ensures HeldByAll(k.procs[i := p]) == multiset(k.live + added)
  {
    HeldAfterUpdate(k.procs, i, p);
    BalanceAfterGain(HeldByAll(k.procs[i := p]), Held(k.procs[i]), HeldByAll(k.procs), Held(p), k.live, added);
  }

  /** The stack discipline looks at nothing but the frames, the CPU and the Running slots. */
  lemma StackKept(k: Kernel, k': Kernel)
    requires Indexed(k) && Indexed(k') && Stack(k)
    requires k'.frames == k.frames && k'.cr3 == k.cr3 && k'.rsp0 == k.rsp0
    requires k'.current == k.current && k'.currentTask == k.currentTask
    requires forall i | 0 <= i < MAX_PROCESSES ::
               k.procs[i].state.Running? || k'.procs[i].state.Running? ==> k'.procs[i] == k.procs[i]
    ensures Stack(k')
  {
    forall d | 0 <= d < |k.frames| ensures FrameOk(k', d) {
      assert FrameOk(k, d);
      if d > 0 { assert FrameOk(k, d - 1); }
    }
    forall i | 0 <= i < MAX_PROCESSES ensures RunOk(k', i) {
      assert RunOk(k, i);
    }
    if k.frames != [] { assert FrameOk(k, |k.frames| - 1); }
    if |k.frames| > 1 { assert FrameOk(k, |k.frames| - 2); }
  }

  lemma FreeBoth(k: Kernel, a: Resource, t: Resource)
    requires Indexed(k) && !k.fault && a in k.live && t in k.live && a != t && !InUse(k, a) && !InUse(k, t)
    ensures Free(Free(k, a), t) == k.(live := k.live - {a, t})
  {
    assert k.live - {a} - {t} == k.live - {a, t};
    var k1 := Free(k, a);
    assert forall d | 0 <= d < |k.frames| :: FrameHolds(k1, d, t) == FrameHolds(k, d, t);
  }

  /** Only slot `i` changed, and it kept its pid or took the next one. */
  lemma SlotsKept(k: Kernel, k': Kernel, i: nat)
    requires Indexed(k) && Indexed(k') && Slots(k) && i < MAX_PROCESSES
    requires k'.procs == k.procs[i := k'.procs[i]] && SlotOk(k', k'.procs[i])
    requires k'.lastPicked < MAX_PROCESSES
    requires k'.exits == k.exits
             || (!k.procs[i].state.Unused? && k'.exits == k.exits[k.procs[i].pid := k'.procs[i].status])
    requires || k'.procs[i].state.Unused?
             || (!k.procs[i].state.Unused? && k'.procs[i].pid == k.procs[i].pid)
             || (k'.procs[i].pid == k.nextPid && k'.exits == k.exits)
    requires k.nextPid <= k'.nextPid
    ensures Slots(k')
  {
    forall j | 0 <= j < MAX_PROCESSES ensures SlotOk(k', k'.procs[j]) {
      assert SlotOk(k, k.procs[j]);
    }
  }

  /** A process off the stack may change, and give resources up, without disturbing anything. */
  lemma OffStackChange(k: Kernel, i: nat, p: Process, gone: set<Resource>)
    requires Core(k) && i < MAX_PROCESSES && !k.procs[i].state.Unused? && !k.procs[i].state.Running?
    requires !p.state.Running? && SlotOk(k, p) && p.pid == k.procs[i].pid
    requires Held(k.procs[i]) == Held(p) + multiset(gone)
    ensures Core(k.(procs := k.procs[i := p], live := k.live - gone))
  {
    var k' := k.(procs := k.procs[i := p], live := k.live - gone);
    OwnersAfterFree(k, i, p, gone);
    StackKept(k, k');
    SlotsKept(k, k', i);
  }

  lemma FreePendingIs(k: Kernel, i: nat)
    requires Core(k) && i < MAX_PROCESSES && !k.procs[i].state.Unused? && !k.procs[i].state.Running?
    ensures var p := k.procs[i];
      FreePending(k, i) == k.(procs := k.procs[i := p.(oldAspace := None, oldKstack := None)],
                              live := k.live - PendingSet(p))
  {
    var p := k.procs[i];
    assert SlotOk(k, p);
    if p.oldAspace.Some? {
      var a, t := Aspace(p.oldAspace.value), Kstack(p.oldKstack.value);
      OffStackNotInUse(k, i, a);
      OffStackNotInUse(k, i, t);
      FreeBoth(k, a, t);
      assert PendingSet(p) == {a, t};
    } else {
      assert k.live - PendingSet(p) == k.live;
    }
  }

  function PendingSet(p: Process): set<Resource> {
    (if p.oldAspace.Some? then {Aspace(p.oldAspace.value)} else {})
    + (if p.oldKstack.Some? then {Kstack(p.oldKstack.value)} else {})
  }

  lemma FreePendingSafe(k: Kernel, i: nat)
    requires Core(k) && i < MAX_PROCESSES && !k.procs[i].state.Unused? && !k.procs[i].state.Running?
    ensures Core(FreePending(k, i))
  {
    var p := k.procs[i];
    FreePendingIs(k, i);
    assert SlotOk(k, p);
    assert Pending(p) == multiset(PendingSet(p));
    OffStackChange(k, i, p.(oldAspace := None, oldKstack := None), PendingSet(p));
  }

  /** Targets stay when the frames do and no live slot changes its identity. */
  lemma TargetsKept(k: Kernel, k': Kernel)
    requires Indexed(k) && Indexed(k') && TargetsLive(k) && |k'.frames| <= |k.frames|
    requires forall d | 0 <= d < |k'.frames| :: k'.frames[d].wait == k.frames[d].wait
    requires forall d | 0 <= d < |k'.frames| - 1 :: k'.frames[d] == k.frames[d]
    requires forall i | 0 <= i < MAX_PROCESSES && !k.procs[i].state.Unused? ::
               !k'.procs[i].state.Unused? && k'.procs[i].pid == k.procs[i].pid
                   && k'.procs[i].parent == k.procs[i].parent
    requires Stack(k)
    ensures TargetsLive(k')
  {
    forall d | 0 < d < |k'.frames| ensures HasTarget(k', d) {
      assert HasTarget(k, d) && FrameOk(k, d - 1);
      var t: nat :| IsTarget(k, d, t);
      assert IsTarget(k', d, t);
    }
  }

  lemma ReapIs(k: Kernel, i: nat)
    requires Core(k) && i < MAX_PROCESSES && k.procs[i].state.Zombie?
    ensures var p := k.procs[i];
      Reap(k, i) == k.(procs := k.procs[i := p.(state := Unused)],
                       live := k.live - {Aspace(p.aspace), Kstack(p.kstack)})
  {
    var p := k.procs[i];
    assert SlotOk(k, p);
    assert FreePending(k, i).procs == k.procs && FreePending(k, i) == k;
    OffStackNotInUse(k, i, Aspace(p.aspace));
    OffStackNotInUse(k, i, Kstack(p.kstack));
    FreeBoth(k, Aspace(p.aspace), Kstack(p.kstack));
  }

  lemma ReapSafe(k: Kernel, i: nat)
    requires Core(k) && i < MAX_PROCESSES && k.procs[i].state.Zombie?
    ensures Core(Reap(k, i))
  {
    var p := k.procs[i];
    ReapIs(k, i);
    assert SlotOk(k, p);
    OffStackChange(k, i, p.(state := Unused), {Aspace(p.aspace), Kstack(p.kstack)});
  }

  lemma EnterStack(k: Kernel, i: nat)
    requires Core(k) && k.frames != [] && !InProcess(k)
    requires i < MAX_PROCESSES && k.procs[i].state.Runnable?
    ensures Indexed(Enter(k, i)) && Stack(Enter(k, i))
  {
    var k' := Enter(k, i);
    forall d | 0 <= d < |k'.frames| ensures FrameOk(k', d) {
      assert FrameOk(k, d);
      BelowRuns(k, d);
      assert Below(k', d) == Below(k, d);
    }
    forall j | 0 <= j < MAX_PROCESSES ensures RunOk(k', j) {
      assert RunOk(k, j);
    }
    assert Below(k', |k'.frames|) == Some(i);
  }

  /** A change to a slot that leaves what it holds alone leaves the ownership alone. */
  lemma OwnersKept(k: Kernel, k': Kernel, i: nat)
    requires OneOwnerEach(k) && i < |k.procs| == |k'.procs|
    requires k'.procs == k.procs[i := k'.procs[i]] && k'.live == k.live && Held(k'.procs[i]) == Held(k.procs[i])
    ensures OneOwnerEach(k')
  {
    OwnersAfterFree(k, i, k'.procs[i], {});
    assert k.live - {} == k.live;
  }

  lemma EnterSafe(k: Kernel, i: nat)
    requires Core(k) && k.frames != [] && !InProcess(k)
    requires i < MAX_PROCESSES && k.procs[i].state.Runnable? && k.procs[i].oldAspace.None?
    ensures Core(Enter(k, i))
  {
    var k' := Enter(k, i);
    EnterStack(k, i);
    assert SlotOk(k, k.procs[i]);
    OwnersKept(k, k', i);
    SlotsKept(k, k', i);
  }

  // --- The scheduler loop ---

  lemma PickSafe(k: Kernel, i: nat)
    requires Core(k) && i < MAX_PROCESSES
    ensures Core(k.(lastPicked := i))
  {
    var k0 := k.(lastPicked := i);
    StackKept(k, k0);
    SlotsKept(k, k0, i);
  }

  lemma SwitchSafe(k: Kernel, i: nat)
    requires Inv(k) && k.frames != [] && !InProcess(k) && i < MAX_PROCESSES && k.procs[i].state.Runnable?
    ensures Inv(Enter(FreePending(k, i), i))
  {
    FreePendingSafe(k, i);
    FreePendingIs(k, i);
    var k1 := FreePending(k, i);
    EnterSafe(k1, i);
    EnterTargets(k, k1, i);
  }

  lemma EnterTargets(k: Kernel, k1: Kernel, i: nat)
    requires Indexed(k) && Stack(k) && TargetsLive(k) && k.frames != [] && k.frames[|k.frames| - 1].dispatch.None?
    requires i < MAX_PROCESSES && k.procs[i].state.Runnable? && Indexed(k1) && k1.frames == k.frames
             && Indexed(Enter(k1, i))
    requires k1.procs == k.procs[i := k1.procs[i]]
    requires k1.procs[i].pid == k.procs[i].pid && k1.procs[i].parent == k.procs[i].parent
    ensures TargetsLive(Enter(k1, i))
  {
    var k', d := Enter(k1, i), |k.frames| - 1;
    assert k'.procs == k.procs[i := k'.procs[i]] && k'.frames == k.frames[d := k'.frames[d]]
        && k'.frames[d].wait == k.frames[d].wait;
    TargetsKept(k, k');
  }

  lemma ScheduleSafe(k: Kernel)
    requires Inv(k) && k.frames != [] && !InProcess(k)
    ensures Inv(Schedule(k))
  {
    var next := PickFrom(k.procs, k.lastPicked, 1);
    if next.Some? {
      PickSafe(k, next.value);
      var k0 := k.(lastPicked := next.value);
      TargetsKept(k, k0);
      SwitchSafe(k0, next.value);
    }
  }

  lemma ReturnSafe(k: Kernel, result: int)
    requires Core(k) && k.frames != [] && !InProcess(k)
    ensures Core(Return(k, result))
  {
    var k' := Return(k, result);
    var n := |k'.frames|;
    assert FrameOk(k, n);
    BelowRuns(k, n);
    forall d | 0 <= d < n ensures FrameOk(k', d) {
      assert FrameOk(k, d);
      assert Below(k', d) == Below(k, d);
    }
    forall j | 0 <= j < MAX_PROCESSES ensures RunOk(k', j) {
      assert RunOk(k, j);
    }
    assert Below(k', n) == Below(k, n);
    assert CpuMatchesTop(k') by {
      if n > 0 { assert FrameOk(k, n - 1); }
    }
    assert Slots(k');
  }

  /** No two activations wait for the same process. */
  lemma TargetsDistinct(k: Kernel, d: nat, t: nat, e: nat, u: nat)
    requires Core(k) && 0 < d < e < |k.frames| && IsTarget(k, d, t) && IsTarget(k, e, u)
    ensures t != u
  {
    assert FrameOk(k, d - 1) && FrameOk(k, e - 1);
    var a, b := k.frames[d - 1].dispatch.value.slot, k.frames[e - 1].dispatch.value.slot;
    assert a != b && k.procs[a].pid != k.procs[b].pid;
  }

  /** Reaping the innermost target and returning leaves every outer target alone. */
  lemma ReapTargetSafe(k: Kernel, t: nat, result: int)
    requires Inv(k) && |k.frames| > 1 && !InProcess(k)
    requires IsTarget(k, |k.frames| - 1, t) && k.procs[t].state.Zombie?
    ensures Inv(Return(Reap(k, t), result))
  {
    ReapSafe(k, t);
    ReapIs(k, t);
    var k1 := Reap(k, t);
    ReturnSafe(k1, result);
    var k' := Return(k1, result);
    forall d | 0 < d < |k'.frames| ensures HasTarget(k', d) { OuterTargetStays(k, t, k', d); }
  }

  lemma OuterTargetStays(k: Kernel, t: nat, k': Kernel, d: nat)
    requires Inv(k) && 0 < d < |k.frames| - 1 && IsTarget(k, |k.frames| - 1, t) && k.procs[t].state.Zombie?
    requires Indexed(k') && k'.frames == k.frames[..|k.frames| - 1] && k'.procs == k.procs[t := k'.procs[t]]
    ensures HasTarget(k', d)
  {
    assert HasTarget(k, d);
    var u: nat :| IsTarget(k, d, u);
    TargetsDistinct(k, d, u, |k.frames| - 1, t);
    assert FrameOk(k, d - 1);
    assert IsTarget(k', d, u);
  }

  lemma {:induction false} ReapFromSafe(k: Kernel, i: nat)
    requires Core(k) && i <= MAX_PROCESSES
    ensures Core(ReapFrom(k, i))
    decreases MAX_PROCESSES - i
  {
    if i < MAX_PROCESSES {
      if k.procs[i].state.Zombie? {
        ReapSafe(k, i);
        ReapFromSafe(Reap(k, i), i + 1);
      } else {
        ReapFromSafe(k, i + 1);
      }
    }
  }

  lemma TargetSlot(k: Kernel, d: nat)
    requires Inv(k) && 0 < d < |k.frames|
    ensures k.frames[d].wait.Some?
    ensures var t := SlotOf(k, k.frames[d].wait.value); t.Some? && IsTarget(k, d, t.value)
  {
    assert HasTarget(k, d);
    var u: nat :| IsTarget(k, d, u);
  }

  lemma WaitLoopSafe(k: Kernel)
    requires Inv(k) && |k.frames| > 1 && !InProcess(k)
    ensures Inv(Loop(k))
  {
    var n := |k.frames| - 1;
    TargetSlot(k, n);
    var t := SlotOf(k, k.frames[n].wait.value).value;
    if k.procs[t].state.Zombie? {
      ReapTargetSafe(k, t, k.procs[t].status);
    } else {
      ScheduleSafe(k);
    }
  }

  lemma RootLoopSafe(k: Kernel)
    requires Inv(k) && |k.frames| == 1 && !InProcess(k)
    ensures Inv(Loop(k))
  {
    assert FrameOk(k, 0);
    ReapFromSafe(k, 0);
    var k1 := ReapFrom(k, 0);
    if AnyAlive(k1) { ScheduleSafe(k1); } else { ReturnSafe(k1, 0); }
  }

  lemma LoopSafe(k: Kernel)
    requires Inv(k) && k.frames != [] && !InProcess(k)
    ensures Inv(Loop(k))
  {
    if |k.frames| > 1 { WaitLoopSafe(k); } else { RootLoopSafe(k); }
  }

  // --- What the running process does ---

  /** The slot of the process on the CPU. */
  lemma OnCpu(k: Kernel) returns (me: nat)
    requires Core(k) && InProcess(k)
    ensures me < MAX_PROCESSES && k.current == Some(me) && k.currentTask == Some(me)
    ensures k.procs[me].state.Running? && k.procs[me].resume == |k.frames| - 1
    ensures k.rsp0 == k.procs[me].kstack && k.procs[me].oldAspace.None? && k.procs[me].oldKstack.None?
  {
    me := k.frames[|k.frames| - 1].dispatch.value.slot;
    assert FrameOk(k, |k.frames| - 1);
    assert SlotOk(k, k.procs[me]);
  }

  /** return_to_kernel() pops exactly one dispatch and restores what it saved. */
  lemma LeaveIs(k: Kernel, k1: Kernel, me: nat)
    requires Core(k) && InProcess(k) && k.current == Some(me) && me < MAX_PROCESSES
    requires Indexed(k1) && k1.frames == k.frames && k1.currentTask == k.currentTask
    requires k1.procs[me].resume == k.procs[me].resume
    ensures var d := |k.frames| - 1;
      ReturnToKernel(k1) == k1.(frames := k.frames[d := k.frames[d].(dispatch := None)],
                                currentTask := Below(k, d),
                                cr3 := AspaceOf(k, Below(k, d)))
  {
    var m := OnCpu(k);
    var d := |k.frames| - 1;
    assert FrameOk(k, d);
    assert k.frames[..d] + [k.frames[d].(dispatch := None)] == k.frames[d := k.frames[d].(dispatch := None)];
  }

  lemma LeaveStack(k: Kernel, k1: Kernel, me: nat)
    requires Core(k) && InProcess(k) && k.current == Some(me) && me < MAX_PROCESSES
    requires Indexed(k1) && k1.frames == k.frames && k1.currentTask == k.currentTask
    requires k1.procs == k.procs[me := k1.procs[me]]
    requires k1.procs[me].resume == k.procs[me].resume && !k1.procs[me].state.Running?
    ensures Indexed(ReturnToKernel(k1)) && Stack(ReturnToKernel(k1))
  {
    LeaveIs(k, k1, me);
    var m := OnCpu(k);
    var k' := ReturnToKernel(k1);
    var n := |k.frames| - 1;
    BelowRuns(k, n);
    assert n > 0 ==> FrameOk(k, n - 1);
    forall d | 0 <= d <= n ensures FrameOk(k', d) { FrameAfterLeaving(k, k', me, d); }
    forall j | 0 <= j < MAX_PROCESSES ensures RunOk(k', j) {
      assert RunOk(k, j);
    }
  }

  /** Every activation but the innermost is as it was, and that one has no dispatch any more. */
  lemma FrameAfterLeaving(k: Kernel, k': Kernel, me: nat, d: nat)
    requires Core(k) && InProcess(k) && k.current == Some(me) && me < MAX_PROCESSES && Indexed(k') && d < |k.frames|
    requires var n := |k.frames| - 1; k'.frames == k.frames[n := k.frames[n].(dispatch := None)]
    requires k'.procs == k.procs[me := k'.procs[me]]
    ensures FrameOk(k', d)
  {
    var m := OnCpu(k);
    assert FrameOk(k, d);
    BelowRuns(k, d);
    if d > 0 { assert FrameOk(k, d - 1); }
    assert Below(k', d) == Below(k, d);
  }

  /** The running process stops with record `p`, having taken on `added`. */
  lemma LeaveSafe(k: Kernel, k1: Kernel, me: nat, added: set<Resource>)
    requires Inv(k) && InProcess(k) && k.current == Some(me) && me < MAX_PROCESSES
    requires |k1.procs| == MAX_PROCESSES
             && k1 == k.(procs := k.procs[me := k1.procs[me]], live := k.live + added, exits := k1.exits)
    requires added !! k.live && Held(k1.procs[me]) == Held(k.procs[me]) + multiset(added)
    requires SlotOk(k1, k1.procs[me]) && !k1.procs[me].state.Running? && !k1.procs[me].state.Unused?
    requires k1.procs[me].pid == k.procs[me].pid && k1.procs[me].parent == k.procs[me].parent
    requires k1.procs[me].resume == k.procs[me].resume
    requires k1.exits == k.exits || k1.exits == k.exits[k.procs[me].pid := k1.procs[me].status]
    ensures Inv(ReturnToKernel(k1))
  {
    var m := OnCpu(k);
    LeaveIs(k, k1, me);
    LeaveStack(k, k1, me);
    var k' := ReturnToKernel(k1);
    OwnersAfterAlloc(k, me, k1.procs[me], added);
    SlotsKept(k, k', me);
    TargetsKept(k, k');
  }

  lemma DieSafe(k: Kernel, me: nat, status: int)
    requires Inv(k) && InProcess(k) && k.current == Some(me) && me < MAX_PROCESSES
    ensures Inv(ReturnToKernel(Die(k, me, status)))
  {
    var m := OnCpu(k);
    assert SlotOk(k, k.procs[me]);
    assert k.live + {} == k.live;
    LeaveSafe(k, Die(k, me, status), me, {});
  }

  lemma StopSafe(k: Kernel, me: nat)
    requires Inv(k) && InProcess(k) && k.current == Some(me) && me < MAX_PROCESSES
    ensures Inv(ReturnToKernel(Stop(k, me)))
  {
    var m := OnCpu(k);
    assert SlotOk(k, k.procs[me]);
    assert k.live + {} == k.live;
    LeaveSafe(k, Stop(k, me), me, {});
  }

  lemma ExecSafe(k: Kernel, me: nat, a: nat, ks: nat)
    requires Inv(k) && InProcess(k) && k.current == Some(me) && me < MAX_PROCESSES && Fresh(k, a, ks)
    ensures Inv(ReturnToKernel(ExecInto(k, me, a, ks)))
  {
    var m := OnCpu(k);
    assert SlotOk(k, k.procs[me]);
    var k1 := ExecInto(k, me, a, ks);
    HeldAfterExec(k.procs[me], k1.procs[me], a, ks);
    LeaveSafe(k, k1, me, {Aspace(a), Kstack(ks)});
  }

  /** exec() keeps the old address space and stack, now pending, beside the new ones. */
  lemma HeldAfterExec(p: Process, q: Process, a: nat, ks: nat)
    requires !p.state.Unused? && p.oldAspace.None? && p.oldKstack.None?
    requires q == p.(oldAspace := Some(p.aspace), oldKstack := Some(p.kstack), aspace := a, kstack := ks,
                     hasRun := false, state := Runnable)
    ensures Held(q) == Held(p) + multiset({Aspace(a), Kstack(ks)})
  {
  }

  /** A new process in an unused slot. */
  lemma NewProcessSafe(k: Kernel, i: nat, p: Process)
    requires Inv(k) && i < MAX_PROCESSES && k.procs[i].state.Unused?
    requires p.state.Runnable? && p.pid == k.nextPid && p.oldAspace.None? && p.oldKstack.None?
    requires p.hasRun ==> p.savedOn == p.kstack
    requires Fresh(k, p.aspace, p.kstack)
    ensures Inv(k.(procs := k.procs[i := p], nextPid := k.nextPid + 1,
                   live := k.live + {Aspace(p.aspace), Kstack(p.kstack)}))
  {
    var added := {Aspace(p.aspace), Kstack(p.kstack)};
    var k' := k.(procs := k.procs[i := p], nextPid := k.nextPid + 1, live := k.live + added);
    assert Held(p) == Held(k.procs[i]) + multiset(added);
    OwnersAfterAlloc(k, i, p, added);
    StackKept(k, k');
    SlotsKept(k, k', i);
    TargetsKept(k, k');
  }

  /** Opening an activation inside the running process. */
  lemma OpenStack(k: Kernel, pid: int)
    requires Core(k) && InProcess(k)
    ensures Core(k.(frames := k.frames + [Frame(Some(pid), k.current, None)]))
  {
    var me := OnCpu(k);
    var k' := k.(frames := k.frames + [Frame(Some(pid), k.current, None)]);
    var n := |k.frames|;
    forall d | 0 <= d <= n ensures FrameOk(k', d) {
      if d < n { assert FrameOk(k, d); }
      assert Below(k', d) == Below(k, d);
    }
    forall j | 0 <= j < MAX_PROCESSES ensures RunOk(k', j) {
      assert RunOk(k, j);
    }
    assert Slots(k');
  }

  lemma WaitSafe(k: Kernel, pid: Option<int>)
    requires Inv(k) && InProcess(k)
    ensures Inv(Apply(k, Wait(pid)))
  {
    var me := OnCpu(k);
    var t := FindChild(k, k.procs[me].pid, pid);
    if t.Some? {
      var k' := k.(frames := k.frames + [Frame(Some(k.procs[t.value].pid), k.current, None)]);
      OpenStack(k, k.procs[t.value].pid);
      forall d | 0 < d < |k'.frames| ensures HasTarget(k', d) {
        if d < |k.frames| {
          assert HasTarget(k, d);
          var u: nat :| IsTarget(k, d, u);
          assert IsTarget(k', d, u);
        } else {
          assert IsTarget(k', d, t.value);
        }
      }
      assert Apply(k, Wait(pid)) == k';
    }
  }

  lemma ForkSafe(k: Kernel, a: nat, ks: nat)
    requires Inv(k) && Enabled(k, Fork(a, ks))
    ensures Inv(Apply(k, Fork(a, ks)))
  {
    var me := OnCpu(k);
    var i := AllocSlot(k);
    if i.Some? { ForkIntoSafe(k, me, i.value, a, ks); }
  }

  lemma ForkIntoSafe(k: Kernel, me: nat, i: nat, a: nat, ks: nat)
    requires Inv(k) && me < MAX_PROCESSES && i < MAX_PROCESSES && k.procs[i].state.Unused? && Fresh(k, a, ks)
    ensures Inv(ForkInto(k, me, i, a, ks))
  {
    NewProcessSafe(k, i, ForkInto(k, me, i, a, ks).procs[i]);
  }

  lemma SpawnSafe(k: Kernel, a: nat, ks: nat)
    requires Inv(k) && Enabled(k, Spawn(a, ks))
    ensures Inv(Apply(k, Spawn(a, ks)))
  {
    var i := AllocSlot(k);
    if i.Some? { NewProcessSafe(k, i.value, Apply(k, Spawn(a, ks)).procs[i.value]); }
  }

  /** Every step of the system keeps the invariant. */
  lemma StepSafe(k: Kernel, s: Step)
    requires Inv(k) && Enabled(k, s)
    ensures Inv(Apply(k, s))
  {
    if InProcess(k) {
      var me := OnCpu(k);
      match s {
        case Fork(a, ks) => ForkSafe(k, a, ks);
        case Exec(a, ks) => ExecSafe(k, me, a, ks);
        case Wait(pid) => WaitSafe(k, pid);
        case Exit(code) => DieSafe(k, me, code);
        case Crash => DieSafe(k, me, -1);
        case Yield => StopSafe(k, me);
        case Preempt => StopSafe(k, me);
      }
    } else {
      match s {
        case Spawn(a, ks) => SpawnSafe(k, a, ks);
        case RunAll => RunAllSafe(k);
        case Pass => LoopSafe(k);
      }
    }
  }

  lemma RunAllSafe(k: Kernel)
    requires Inv(k) && k.frames == []
    ensures Inv(Apply(k, RunAll))
  {
    var k' := Apply(k, RunAll);
    assert FrameOk(k', 0);
    forall j | 0 <= j < MAX_PROCESSES ensures RunOk(k', j) {
      assert RunOk(k, j);
    }
    assert Slots(k');
  }
}
