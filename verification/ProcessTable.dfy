/**
 * The process table as the kernel keeps it: a fixed array of slots and a handful of
 * globals, changed in place by loops and assignments. Every method is proved to do
 * exactly what the transition system says.
 */
module ProcessTable {
  import opened Wrappers
  import opened KernelModel

  lemma OneMore(ps: seq<Process>, i: nat)
    requires i < |ps|
    ensures SomeLive(ps[..i + 1]) <==> SomeLive(ps[..i]) || !ps[i].state.Unused?
  {
    var qs := ps[..i + 1];
    assert qs == ps[..i] + [ps[i]];
    if SomeLive(ps[..i]) {
      var j :| 0 <= j < i && !ps[..i][j].state.Unused?;
      assert qs[j] == ps[..i][j];
    } else if !ps[i].state.Unused? {
      assert qs[i] == ps[i];
    }
  }

  ghost predicate HasRoom(k: Kernel) {
    exists i :: 0 <= i < |k.procs| && k.procs[i].state.Unused?
  }

  class Machine {
    const processes: array<Process>
    var nextPid: int
    var current: Option<nat>
    var lastPicked: nat
    var frames: seq<Frame>
    var cr3: nat
    var rsp0: nat
    var currentTask: Option<nat>
    ghost var live: set<Resource>
    var ret: int
    ghost var exits: map<int, int>
    ghost var fault: bool

    ghost function View(): Kernel
      reads this, processes
    {
      Kernel(processes[..], nextPid, current, lastPicked, frames, cr3, rsp0, currentTask, live, ret, exits, fault)
    }

    ghost predicate Valid()
      reads this, processes
    {
      processes.Length == MAX_PROCESSES && Indexed(View())
    }

    constructor ()
      ensures Valid() && fresh(processes) && View() == BOOT
    {
      processes := new Process[MAX_PROCESSES](_ => EMPTY);
      nextPid, current, lastPicked, frames := 1, None, MAX_PROCESSES - 1, [];
      cr3, rsp0, currentTask, live, ret, exits, fault := KERNEL_AS, 0, None, {}, 0, map[], false;
      new;
      assert processes[..] == BOOT.procs;
    }

    /** position() over the table, for a live process with this pid. */
    method SlotOfPid(pid: int) returns (t: Option<nat>)
      requires Valid()
      ensures t == SlotOf(View(), pid)
    {
      var i := 0;
      while i < MAX_PROCESSES && (processes[i].state.Unused? || processes[i].pid != pid)
        invariant 0 <= i <= MAX_PROCESSES
        invariant forall j | 0 <= j < i :: processes[j].state.Unused? || processes[j].pid != pid
      {
        i := i + 1;
      }
      t := if i < MAX_PROCESSES then Some(i) else None;
    }

    method AllocateSlot() returns (t: Option<nat>)
      requires Valid()
      ensures t == AllocSlot(View())
    {
      var i := 0;
      while i < MAX_PROCESSES && !processes[i].state.Unused?
        invariant 0 <= i <= MAX_PROCESSES
        invariant forall j | 0 <= j < i :: !processes[j].state.Unused?
      {
        i := i + 1;
      }
      t := if i < MAX_PROCESSES then Some(i) else None;
    }

    method FindChildOf(parent: int, pid: Option<int>) returns (t: Option<nat>)
      requires Valid()
      ensures t == FindChild(View(), parent, pid)
    {
      if pid.Some? {
        t := SlotOfPid(pid.value);
        if t.Some? && processes[t.value].parent != parent { t := None; }
        return;
      }
      var i := 0;
      while i < MAX_PROCESSES && !(processes[i].state.Zombie? && processes[i].parent == parent)
        invariant 0 <= i <= MAX_PROCESSES
        invariant forall j | 0 <= j < i :: !(processes[j].state.Zombie? && processes[j].parent == parent)
      {
        i := i + 1;
      }
      if i < MAX_PROCESSES { return Some(i); }
      i := 0;
      while i < MAX_PROCESSES && (processes[i].state.Unused? || processes[i].parent != parent)
        invariant 0 <= i <= MAX_PROCESSES
        invariant forall j | 0 <= j < i :: processes[j].state.Unused? || processes[j].parent != parent
      {
        i := i + 1;
      }
      t := if i < MAX_PROCESSES then Some(i) else None;
    }

    /** pick_next_runnable(): the next Runnable slot in the round, remembered as the last pick. */
    method PickNextRunnable() returns (next: Option<nat>)
      requires Valid()
      modifies this`lastPicked
      ensures Valid() && next == PickFrom(old(View()).procs, old(lastPicked), 1)
      ensures View() == if next.Some? then old(View()).(lastPicked := next.value) else old(View())
    {
      var n := 1;
      while n <= MAX_PROCESSES && !processes[(lastPicked + n) % MAX_PROCESSES].state.Runnable?
        invariant 1 <= n <= MAX_PROCESSES + 1
        invariant PickFrom(processes[..], lastPicked, n) == PickFrom(processes[..], lastPicked, 1)
      {
        n := n + 1;
      }
      if n > MAX_PROCESSES { return None; }
      next := Some((lastPicked + n) % MAX_PROCESSES);
      lastPicked := next.value;
    }

    ghost method Release(r: Resource)
      requires Valid()
      modifies this`live, this`fault
      ensures Valid() && View() == Free(old(View()), r)
    {
      fault := fault || r !in live || InUse(View(), r);
      live := live - {r};
    }

    method FreePendingOf(i: nat)
      requires Valid() && i < MAX_PROCESSES
      modifies this`live, this`fault, processes
      ensures Valid() && View() == FreePending(old(View()), i)
    {
      var p := processes[i];
      if p.oldAspace.Some? { Release(Aspace(p.oldAspace.value)); }
      if p.oldKstack.Some? { Release(Kstack(p.oldKstack.value)); }
      processes[i] := p.(oldAspace := None, oldKstack := None);
      assert processes[..] == old(processes[..])[i := processes[i]];
    }

    method ReapSlot(i: nat)
      requires Valid() && i < MAX_PROCESSES
      modifies this`live, this`fault, processes
      ensures Valid() && View() == Reap(old(View()), i)
    {
      FreePendingOf(i);
      label freed:
      Release(Aspace(processes[i].aspace));
      Release(Kstack(processes[i].kstack));
      processes[i] := processes[i].(state := Unused);
      assert processes[..] == old@freed(processes[..])[i := processes[i]];
    }

    /** One slot of the sweep: reaped if it is a zombie; says whether it stays in use. */
    method SweepSlot(i: nat) returns (alive: bool)
      requires Valid() && i < MAX_PROCESSES
      modifies this`live, this`fault, processes
      ensures Valid() && View() == if old(processes[i]).state.Zombie? then Reap(old(View()), i) else old(View())
      ensures processes[..i] == old(processes[..i]) && alive == !processes[i].state.Unused?
    {
      alive := false;
      match processes[i].state {
        case Zombie => ReapSlot(i);
        case Unused =>
        case _ => alive := true;
      }
    }

    /** The sweep of run_until(None): reaps every zombie and says whether anything is left. */
    method ReapZombies() returns (anyAlive: bool)
      requires Valid()
      modifies this`live, this`fault, processes
      ensures Valid() && View() == ReapFrom(old(View()), 0)
      ensures anyAlive <==> AnyAlive(View())
    {
      anyAlive := false;
      for i := 0 to MAX_PROCESSES
        invariant Valid() && ReapFrom(View(), i) == ReapFrom(old(View()), 0)
        invariant anyAlive <==> SomeLive(processes[..i])
      {
        var alive := SweepSlot(i);
        OneMore(processes[..], i);
        assert processes[..][..i] == processes[..i] && processes[..][..i + 1] == processes[..i + 1];
        anyAlive := anyAlive || alive;
      }
      assert processes[..] == processes[..MAX_PROCESSES];
    }

    /** spawn(), once the program is loaded. */
    method Spawn(a: nat, ks: nat) returns (pid: Option<int>)
      requires Valid() && frames == [] && Fresh(View(), a, ks)
      modifies this`nextPid, this`live, processes
      ensures Valid() && View() == Apply(old(View()), Step.Spawn(a, ks))
      ensures pid == if HasRoom(old(View())) then Some(old(nextPid)) else None
    {
      var i := AllocateSlot();
      if i.None? { return None; }
      processes[i.value] := EMPTY.(pid := nextPid, parent := KERNEL_PARENT_PID, state := Runnable, aspace := a,
                                   kstack := ks);
      live := live + {Aspace(a), Kstack(ks)};
      pid := Some(nextPid);
      nextPid := nextPid + 1;
      assert processes[..] == old(processes[..])[i.value := processes[i.value]];
    }

    /** wait(), up to the activation it opens; the pid it then waits for, or None. */
    method Wait(pid: Option<int>) returns (target: Option<int>)
      requires Valid() && InProcess(View())
      modifies this`frames
      ensures Valid() && View() == Apply(old(View()), Step.Wait(pid))
      ensures target == if |frames| > |old(frames)| then frames[|old(frames)|].wait else None
    {
      if current.None? { return None; }
      var t := FindChildOf(processes[current.value].pid, pid);
      if t.None? { return None; }
      target := Some(processes[t.value].pid);
      frames := frames + [Frame(target, current, None)];
    }

    /** fork(), once memory for the child has been found. */
    method Fork(a: nat, ks: nat) returns (pid: Option<int>)
      requires Valid() && InProcess(View()) && Fresh(View(), a, ks)
      modifies this`nextPid, this`live, processes
      ensures Valid() && View() == Apply(old(View()), Step.Fork(a, ks))
      ensures pid == if old(current).Some? && HasRoom(old(View())) then Some(old(nextPid)) else None
    {
      if current.None? { return None; }
      var i := AllocateSlot();
      if i.None? { return None; }
      processes[i.value] := EMPTY.(pid := nextPid, parent := processes[current.value].pid, state := Runnable,
                                   hasRun := true, savedOn := ks, aspace := a, kstack := ks);
      live := live + {Aspace(a), Kstack(ks)};
      pid := Some(nextPid);
      nextPid := nextPid + 1;
      assert processes[..] == old(processes[..])[i.value := processes[i.value]];
    }

    /** exec(), once the new image is loaded; return_to_kernel() follows. */
    method Exec(a: nat, ks: nat)
      requires Valid() && InProcess(View()) && Fresh(View(), a, ks) && current.Some?
      modifies this`live, processes
      ensures Valid() && View() == ExecInto(old(View()), old(current).value, a, ks)
    {
      var me := current.value;
      var was := processes[me];
      processes[me] := was.(oldAspace := Some(was.aspace), oldKstack := Some(was.kstack));
      processes[me] := processes[me].(aspace := a, kstack := ks);
      processes[me] := processes[me].(hasRun := false);
      processes[me] := processes[me].(state := Runnable);
      live := live + {Aspace(a), Kstack(ks)};
      assert processes[..] == old(processes[..])[me := processes[me]];
    }

    /** exit() or a user fault. */
    method BecomeZombie(status: int)
      requires Valid() && current.Some?
      modifies this`exits, processes
      ensures Valid() && View() == Die(old(View()), old(current).value, status)
    {
      var me := current.value;
      exits := exits[processes[me].pid := status];
      processes[me] := processes[me].(state := Zombie);
      processes[me] := processes[me].(status := status);
      assert processes[..] == old(processes[..])[me := processes[me]];
    }

    /** sched_yield() or a tick in ring 3. */
    method BecomeRunnable()
      requires Valid() && current.Some?
      modifies processes
      ensures Valid() && View() == Stop(old(View()), old(current).value)
    {
      var me := current.value;
      processes[me] := processes[me].(savedOn := rsp0);
      processes[me] := processes[me].(state := Runnable);
      assert processes[..] == old(processes[..])[me := processes[me]];
    }

    /** The first half of run_until()'s dispatch: mark, save the caller's context, switch. */
    method BeginDispatch(i: nat)
      requires Valid() && i < MAX_PROCESSES && frames != []
      modifies this`current, this`frames, this`rsp0, this`cr3, this`currentTask, processes
      ensures Valid() && View() == Enter(old(View()), i)
    {
      processes[i] := processes[i].(state := Running);
      current := Some(i);
      processes[i] := processes[i].(hasRun := true);
      var callerAs, outer, d := cr3, currentTask, |frames| - 1;
      rsp0 := processes[i].kstack;
      cr3 := processes[i].aspace;
      currentTask := Some(i);
      processes[i] := processes[i].(resume := d);
      frames := frames[d := frames[d].(dispatch := Some(Dispatch(i, callerAs, outer)))];
      assert processes[..] == old(processes[..])[i := processes[i]];
    }

    /** return_to_kernel() and the second half of the dispatch it lands in. */
    method EndDispatch()
      requires Valid() && currentTask.Some?
      requires var d := processes[currentTask.value].resume; d < |frames| && frames[d].dispatch.Some?
      modifies this`frames, this`cr3, this`currentTask
      ensures Valid() && View() == ReturnToKernel(old(View()))
    {
      var d := processes[currentTask.value].resume;
      var v := frames[d].dispatch.value;
      frames := frames[..d] + [frames[d].(dispatch := None)];
      currentTask := v.outerTask;
      cr3 := v.callerAs;
    }

    method ReturnFromRunUntil(result: int)
      requires Valid() && frames != []
      modifies this`current, this`frames, this`rsp0, this`ret
      ensures Valid() && View() == Return(old(View()), result)
    {
      var outer := frames[|frames| - 1].outer;
      frames := frames[..|frames| - 1];
      current := outer;
      if outer.Some? { rsp0 := processes[outer.value].kstack; }
      ret := result;
    }

    /** One pass of the innermost run_until() loop. */
    method RunUntilPass()
      requires Valid() && frames != []
      modifies this, processes
      ensures Valid() && View() == Loop(old(View()))
    {
      var wait := frames[|frames| - 1].wait;
      if wait.Some? {
        var target := SlotOfPid(wait.value);
        if target.None? { ReturnFromRunUntil(-1); return; }
        if processes[target.value].state.Zombie? {
          var status := processes[target.value].status;
          ReapSlot(target.value);
          ReturnFromRunUntil(status);
          return;
        }
      } else {
        var anyAlive := ReapZombies();
        if !anyAlive { ReturnFromRunUntil(0); return; }
      }
      var next := PickNextRunnable();
      if next.None? { return; }
      FreePendingOf(next.value);
      BeginDispatch(next.value);
    }
  }
}
