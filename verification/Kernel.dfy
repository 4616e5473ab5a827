/**
 * The process table and the recursive scheduler, as a transition system.
 *
 * wait() blocks by calling the scheduler again from inside a system call, so
 * activations of run_until() nest, each holding at most one dispatch. The state
 * records that nesting explicitly, together with the three pieces of CPU state a
 * dispatch swaps (CR3, TSS.RSP0 and the current task) and the set of address
 * spaces and kernel stacks that are allocated. Every free goes through `Free`,
 * which raises `fault` when the resource is not allocated or still in use, so
 * "nothing in use is ever freed" is the claim that `fault` stays false.
 */
module KernelModel {
  import opened Wrappers

  const MAX_PROCESSES: nat := 16
  /** The parent of a process the kernel launched itself. */
  const KERNEL_PARENT_PID: int := -1
  /** The address space the kernel booted in. */
  const KERNEL_AS: nat := 0

  datatype RunState = Unused | Runnable | Running | Zombie

  datatype Resource = Aspace(pml4: nat) | Kstack(top: nat)

  datatype Process = Process(
    pid: int,
    parent: int,
    state: RunState,
    status: int,
    hasRun: bool,
    savedOn: nat,              // the kernel stack saved_rsp points into
    aspace: nat,
    kstack: nat,
    resume: nat,               // kernel_resume: the activation its dispatch unwinds to
    oldAspace: Option<nat>,    // pending_free_as
    oldKstack: Option<nat>)    // pending_free_kstack

  const EMPTY := Process(0, 0, Unused, 0, false, 0, 0, 0, 0, None, None)

  /** What usermode::dispatch() keeps on the kernel stack while its task runs. */
  datatype Dispatch = Dispatch(slot: nat, callerAs: nat, outerTask: Option<nat>)

  /** One activation of run_until(), and the dispatch it is inside, if any. */
  datatype Frame = Frame(wait: Option<int>, outer: Option<nat>, dispatch: Option<Dispatch>)

  datatype Kernel = Kernel(
    procs: seq<Process>,
    nextPid: int,
    current: Option<nat>,
    lastPicked: nat,
    frames: seq<Frame>,        // innermost activation last
    cr3: nat,
    rsp0: nat,
    currentTask: Option<nat>,
    live: set<Resource>,       // allocated and not yet freed
    ret: int,                  // what the last run_until() returned
    exits: map<int, int>,      // history: the status each exited pid ended with
    fault: bool)               // history: some free was wrong

  const BOOT := Kernel(seq(MAX_PROCESSES, _ => EMPTY), 1, None, MAX_PROCESSES - 1, [], KERNEL_AS, 0, None, {}, 0, map[],
                       false)

  predicate DispatchIndexed(v: Option<Dispatch>) {
    v.Some? ==> v.value.slot < MAX_PROCESSES && (v.value.outerTask.Some? ==> v.value.outerTask.value < MAX_PROCESSES)
  }

  predicate Indexed(k: Kernel) {
    && |k.procs| == MAX_PROCESSES
    && (forall d | 0 <= d < |k.frames| :: DispatchIndexed(k.frames[d].dispatch))
    && (forall d | 0 <= d < |k.frames| :: k.frames[d].outer.Some? ==> k.frames[d].outer.value < MAX_PROCESSES)
    && (k.current.Some? ==> k.current.value < MAX_PROCESSES)
    && (k.currentTask.Some? ==> k.currentTask.value < MAX_PROCESSES)
  }

  // --- Freeing ---

  /** Whether the dispatch of activation `d` will still use `r` when it unwinds or runs on. */
  predicate FrameHolds(k: Kernel, d: nat, r: Resource)
    requires Indexed(k) && d < |k.frames|
  {
    && k.frames[d].dispatch.Some?
    && var v := k.frames[d].dispatch.value;
       || r == Aspace(v.callerAs)
       || r == Aspace(k.procs[v.slot].aspace)
       || r == Kstack(k.procs[v.slot].kstack)
  }

  /** In use: the kernel's or the active address space, or needed by some activation. */
  predicate InUse(k: Kernel, r: Resource)
    requires Indexed(k)
  {
    || r == Aspace(KERNEL_AS)
    || r == Aspace(k.cr3)
    || exists d :: 0 <= d < |k.frames| && FrameHolds(k, d, r)
  }

  function Free(k: Kernel, r: Resource): Kernel
    requires Indexed(k)
  {
    k.(live := k.live - {r}, fault := k.fault || r !in k.live || InUse(k, r))
  }

  /** free_pending(): whatever an earlier exec() left behind. */
  function FreePending(k: Kernel, i: nat): Kernel
    requires Indexed(k) && i < MAX_PROCESSES
  {
    var p := k.procs[i];
    var k1 := if p.oldAspace.Some? then Free(k, Aspace(p.oldAspace.value)) else k;
    var k2 := if p.oldKstack.Some? then Free(k1, Kstack(p.oldKstack.value)) else k1;
    k2.(procs := k.procs[i := p.(oldAspace := None, oldKstack := None)])
  }

  function Reap(k: Kernel, i: nat): Kernel
    requires Indexed(k) && i < MAX_PROCESSES
  {
    var k1 := FreePending(k, i);
    var k2 := Free(Free(k1, Aspace(k1.procs[i].aspace)), Kstack(k1.procs[i].kstack));
    k2.(procs := k2.procs[i := k2.procs[i].(state := Unused)])
  }

  // --- Searching the table ---

  function SlotOf(k: Kernel, pid: int): Option<nat> {
    FirstFrom(k.procs, 0, (p: Process) => !p.state.Unused? && p.pid == pid)
  }

  function AllocSlot(k: Kernel): Option<nat> {
    FirstFrom(k.procs, 0, (p: Process) => p.state.Unused?)
  }

  /** find_child(): exactly `pid` if given, otherwise any child, an exited one first. */
  function FindChild(k: Kernel, parent: int, pid: Option<int>): Option<nat> {
    if pid.Some? then
      var t := SlotOf(k, pid.value);
      if t.Some? && k.procs[t.value].parent == parent then t else None
    else
      var z := FirstFrom(k.procs, 0, (p: Process) => p.state.Zombie? && p.parent == parent);
      if z.Some? then z else FirstFrom(k.procs, 0, (p: Process) => !p.state.Unused? && p.parent == parent)
  }

  /** pick_next_runnable()'s search, `n` slots past the last pick. */
  function PickFrom(ps: seq<Process>, last: nat, n: nat): (r: Option<nat>)
    requires |ps| == MAX_PROCESSES && 1 <= n <= MAX_PROCESSES + 1
    ensures r.Some? ==> r.value < MAX_PROCESSES && ps[r.value].state.Runnable?
    decreases MAX_PROCESSES + 1 - n
  {
    if n > MAX_PROCESSES then None
    else
      var i := (last + n) % MAX_PROCESSES;
      if ps[i].state.Runnable? then Some(i) else PickFrom(ps, last, n + 1)
  }

  // --- The scheduler loop ---

  /** usermode::dispatch()'s prologue: save the caller's context, switch to the process's. */
  function Enter(k: Kernel, i: nat): Kernel
    requires Indexed(k) && i < MAX_PROCESSES && k.frames != []
  {
    var d := |k.frames| - 1;
    var p := k.procs[i].(state := Running, hasRun := true, resume := d);
    k.(procs := k.procs[i := p],
       current := Some(i),
       frames := k.frames[d := k.frames[d].(dispatch := Some(Dispatch(i, k.cr3, k.currentTask)))],
       rsp0 := p.kstack,
       cr3 := p.aspace,
       currentTask := Some(i))
  }

  function Schedule(k: Kernel): Kernel
    requires Indexed(k) && k.frames != []
  {
    var next := PickFrom(k.procs, k.lastPicked, 1);
    if next.None? then k   // wait_for_interrupt()
    else Enter(FreePending(k.(lastPicked := next.value), next.value), next.value)
  }

  /** Leaving run_until() with `result`. */
  function Return(k: Kernel, result: int): Kernel
    requires Indexed(k) && k.frames != []
  {
    var outer := k.frames[|k.frames| - 1].outer;
    k.(frames := k.frames[..|k.frames| - 1],
       current := outer,
       rsp0 := if outer.Some? then k.procs[outer.value].kstack else k.rsp0,
       ret := result)
  }

  /** The sweep of run_until(None) over the table, from slot `i`. */
  function ReapFrom(k: Kernel, i: nat): (k': Kernel)
    requires Indexed(k) && i <= MAX_PROCESSES
    ensures Indexed(k') && k'.frames == k.frames
    decreases MAX_PROCESSES - i
  {
    if i == MAX_PROCESSES then k
    else if k.procs[i].state.Zombie? then ReapFrom(Reap(k, i), i + 1)
    else ReapFrom(k, i + 1)
  }

  predicate SomeLive(ps: seq<Process>) {
    exists i :: 0 <= i < |ps| && !ps[i].state.Unused?
  }

  predicate AnyAlive(k: Kernel) {
    SomeLive(k.procs)
  }

  /** One pass of the innermost run_until() loop. */
  function Loop(k: Kernel): Kernel
    requires Indexed(k) && k.frames != []
  {
    var wait := k.frames[|k.frames| - 1].wait;
    if wait.Some? then
      var t := SlotOf(k, wait.value);
      if t.None? then Return(k, -1)
      else if k.procs[t.value].state.Zombie? then Return(Reap(k, t.value), k.procs[t.value].status)
      else Schedule(k)
    else
      var k1 := ReapFrom(k, 0);
      if AnyAlive(k1) then Schedule(k1) else Return(k1, 0)
  }

  // --- What a running process does ---

  /** return_to_kernel() and the epilogue of the dispatch it lands in. */
  function ReturnToKernel(k: Kernel): Kernel
    requires Indexed(k)
  {
    if k.currentTask.None? then k.(fault := true)
    else
      var d := k.procs[k.currentTask.value].resume;
      if d >= |k.frames| || k.frames[d].dispatch.None? then k.(fault := true)
      else
        var v := k.frames[d].dispatch.value;
        k.(frames := k.frames[..d] + [k.frames[d].(dispatch := None)],
           currentTask := v.outerTask,
           cr3 := v.callerAs)
  }

  function ForkInto(k: Kernel, me: nat, i: nat, a: nat, ks: nat): Kernel
    requires Indexed(k) && me < MAX_PROCESSES && i < MAX_PROCESSES
  {
    k.(procs := k.procs[i := EMPTY.(pid := k.nextPid, parent := k.procs[me].pid, state := Runnable,
                                    hasRun := true, savedOn := ks, aspace := a, kstack := ks)],
       nextPid := k.nextPid + 1,
       live := k.live + {Aspace(a), Kstack(ks)})
  }

  /** exec(): the old address space and kernel stack become pending, the new ones take over. */
  function ExecInto(k: Kernel, me: nat, a: nat, ks: nat): Kernel
    requires Indexed(k) && me < MAX_PROCESSES
  {
    var p := k.procs[me];
    k.(procs := k.procs[me := p.(oldAspace := Some(p.aspace), oldKstack := Some(p.kstack),
                                 aspace := a, kstack := ks, hasRun := false, state := Runnable)],
       live := k.live + {Aspace(a), Kstack(ks)})
  }

  /** exit() and the user-fault path: the process becomes a zombie. */
  function Die(k: Kernel, me: nat, status: int): Kernel
    requires Indexed(k) && me < MAX_PROCESSES
  {
    k.(procs := k.procs[me := k.procs[me].(state := Zombie, status := status)],
       exits := k.exits[k.procs[me].pid := status])
  }

  /** sched_yield() and preemption: the frame is on the stack TSS.RSP0 names. */
  function Stop(k: Kernel, me: nat): Kernel
    requires Indexed(k) && me < MAX_PROCESSES
  {
    k.(procs := k.procs[me := k.procs[me].(state := Runnable, savedOn := k.rsp0)])
  }

  datatype Step =
    | Spawn(a: nat, ks: nat)        // the kernel loads a program
    | RunAll                        // the kernel calls run_until(None)
    | Pass                          // one pass of the innermost scheduler loop
    | Fork(a: nat, ks: nat)
    | Exec(a: nat, ks: nat)
    | Wait(pid: Option<int>)
    | Exit(code: int)
    | Crash
    | Yield
    | Preempt

  /** An address space and a kernel stack the allocators may hand out. */
  predicate Fresh(k: Kernel, a: nat, ks: nat) {
    a != KERNEL_AS && Aspace(a) !in k.live && Kstack(ks) !in k.live
  }

  /** Whether ring 3 (or a system call made by it) is on the CPU, rather than the scheduler. */
  predicate InProcess(k: Kernel) {
    k.frames != [] && k.frames[|k.frames| - 1].dispatch.Some?
  }

  predicate Enabled(k: Kernel, s: Step) {
    match s
    case Spawn(a, ks) => k.frames == [] && Fresh(k, a, ks)
    case RunAll => k.frames == []
    case Pass => k.frames != [] && !InProcess(k)
    case Fork(a, ks) => InProcess(k) && Fresh(k, a, ks)
    case Exec(a, ks) => InProcess(k) && Fresh(k, a, ks)
    case _ => InProcess(k)
  }

  function Apply(k: Kernel, s: Step): Kernel
    requires Indexed(k) && Enabled(k, s)
  {
    match s
    case Spawn(a, ks) =>
      var i := AllocSlot(k);
      if i.None? then k
      else k.(procs := k.procs[i.value := EMPTY.(pid := k.nextPid, parent := KERNEL_PARENT_PID,
                                                 state := Runnable, aspace := a, kstack := ks)],
              nextPid := k.nextPid + 1,
              live := k.live + {Aspace(a), Kstack(ks)})
    case RunAll => k.(frames := [Frame(None, k.current, None)])
    case Pass => Loop(k)
    case Fork(a, ks) =>
      var i := AllocSlot(k);
      if k.current.None? || i.None? then k else ForkInto(k, k.current.value, i.value, a, ks)
    case Exec(a, ks) =>
      if k.current.None? then k else ReturnToKernel(ExecInto(k, k.current.value, a, ks))
    case Wait(pid) =>
      if k.current.None? then k
      else
        var t := FindChild(k, k.procs[k.current.value].pid, pid);
        if t.None? then k
        else k.(frames := k.frames + [Frame(Some(k.procs[t.value].pid), k.current, None)])
    case Exit(code) =>
      ReturnToKernel(if k.current.None? then k else Die(k, k.current.value, code))
    case Crash =>
      ReturnToKernel(if k.current.None? then k else Die(k, k.current.value, -1))
    case Yield | Preempt =>
      if k.current.None? then k else ReturnToKernel(Stop(k, k.current.value))
  }
}
