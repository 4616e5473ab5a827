/**
 * The pipe subsystem (pipe.rs, and the parts of process.rs and syscall.rs that move pipe
 * references around): byte queues with two reference counts, named by descriptor entries and
 * stdio slots of processes.
 */
module PipeModel {
  import opened Wrappers

  const BUF_SIZE := 4096

  /**
   * `accepted` and `delivered` are histories the kernel does not keep: every byte a write()
   * reported as taken, and every byte a read() handed out.
   */
  datatype Pipe = Pipe(queue: seq<Byte>, readRefs: nat, writeRefs: nat, accepted: seq<Byte>, delivered: seq<Byte>)

  /** One entry's claim on one end of a pipe. */
  datatype Ref = Ref(pipe: nat, write: bool)

  datatype OpenFile = Free | File | End(ref: Ref)

  datatype Task = Task(files: seq<OpenFile>, stdin: Option<nat>, stdout: Option<nat>)

  datatype Slot = Unused | Live(task: Task) | Zombie(task: Task)

  /**
   * `abandoned` is a history of the claims whose holder forgot them without closing; `fault`
   * records that a freed pipe was touched.
   */
  datatype System = System(slots: seq<Slot>, pipes: map<nat, Pipe>, nextPipe: nat, abandoned: multiset<Ref>,
      fault: bool)

  /** MAX_OPEN_FILES entries and MAX_PROCESSES slots, all free. */
  const NO_FILES: seq<OpenFile> := [Free, Free, Free, Free, Free, Free, Free, Free]
  const EMPTY := Task(NO_FILES, None, None)
  const NO_SLOTS: seq<Slot> :=
    [Unused, Unused, Unused, Unused, Unused, Unused, Unused, Unused, Unused, Unused, Unused, Unused, Unused, Unused,
     Unused, Unused]
  const BOOT := System(NO_SLOTS, map[], 0, multiset{}, false)

  // One pipe.

  function WriteTo(p: Pipe, data: seq<Byte>): (r: (Option<nat>, Pipe)) {
    if p.readRefs == 0 then (None, p)
    else
      var n := Min(|data|, Monus(BUF_SIZE, |p.queue|));
      (Some(n), p.(queue := p.queue + data[..n], accepted := p.accepted + data[..n]))
  }

  /** None is end-of-file; Some([]) is "nothing yet". */
  function ReadFrom(p: Pipe, room: nat): (r: (Option<seq<Byte>>, Pipe)) {
    if p.queue == [] then (if p.writeRefs > 0 then Some([]) else None, p)
    else
      var n := Min(room, |p.queue|);
      (Some(p.queue[..n]), p.(queue := p.queue[n..], delivered := p.delivered + p.queue[..n]))
  }

  // Reference counts.

  function Count(pipes: map<nat, Pipe>, r: Ref): nat {
    if r.pipe !in pipes then 0 else if r.write then pipes[r.pipe].writeRefs else pipes[r.pipe].readRefs
  }

  function WithCount(p: Pipe, write: bool, n: nat): Pipe {
    if write then p.(writeRefs := n) else p.(readRefs := n)
  }

  function AddRef(s: System, r: Ref): System {
    if r.pipe !in s.pipes then s.(fault := true)
    else s.(pipes := s.pipes[r.pipe := WithCount(s.pipes[r.pipe], r.write, Count(s.pipes, r) + 1)])
  }

  function AddRefs(s: System, rs: seq<Ref>): System {
    if rs == [] then s else AddRef(AddRefs(s, rs[..|rs| - 1]), rs[|rs| - 1])
  }

  /** close_read and close_write: one reference less, and the pipe is freed once neither end has any. */
  function DropRef(s: System, r: Ref): System {
    if Count(s.pipes, r) == 0 then s.(fault := true)
    else
      var p := WithCount(s.pipes[r.pipe], r.write, Count(s.pipes, r) - 1);
      s.(pipes := if p.readRefs == 0 && p.writeRefs == 0 then s.pipes - {r.pipe} else s.pipes[r.pipe := p])
  }

  // What a task holds.

  function RefsOf(f: OpenFile): seq<Ref> { if f.End? then [f.ref] else [] }

  function FileRefs(files: seq<OpenFile>): seq<Ref> {
    if files == [] then [] else FileRefs(files[..|files| - 1]) + RefsOf(files[|files| - 1])
  }

  function StdinRefs(t: Task): seq<Ref> { if t.stdin.Some? then [Ref(t.stdin.value, false)] else [] }

  function StdoutRefs(t: Task): seq<Ref> { if t.stdout.Some? then [Ref(t.stdout.value, true)] else [] }

  function TaskRefs(t: Task): seq<Ref> { FileRefs(t.files) + StdinRefs(t) + StdoutRefs(t) }

  // The steps.

  function FreeFile(t: Task, from: nat): (r: Option<nat>)
    requires from <= |t.files|
    ensures r.Some? ==> from <= r.value < |t.files| && t.files[r.value].Free?
  {
    FirstFrom(t.files, from, (f: OpenFile) => f.Free?)
  }

  function MakePipe(s: System, i: nat): System
    requires i < |s.slots| && s.slots[i].Live?
  {
    var t := s.slots[i].task;
    var r := FreeFile(t, 0);
    var w := if r.None? then None else FreeFile(t, r.value + 1);
    if w.None? then s
    else
      var id := s.nextPipe;
      var files := t.files[r.value := End(Ref(id, false))][w.value := End(Ref(id, true))];
      s.(slots := s.slots[i := Live(t.(files := files))],
         pipes := s.pipes[id := Pipe([], 1, 1, [], [])],
         nextPipe := id + 1)
  }

  /** Opening an ordinary file takes an entry and no reference. */
  function Open(s: System, i: nat): System
    requires i < |s.slots| && s.slots[i].Live?
  {
    var t := s.slots[i].task;
    var f := FreeFile(t, 0);
    if f.None? then s else s.(slots := s.slots[i := Live(t.(files := t.files[f.value := File]))])
  }

  function Close(s: System, i: nat, fd: nat): System
    requires i < |s.slots| && s.slots[i].Live?
  {
    var t := s.slots[i].task;
    if fd >= |t.files| then s
    else
      var s1 := if t.files[fd].End? then DropRef(s, t.files[fd].ref) else s;
      s1.(slots := s.slots[i := Live(t.(files := t.files[fd := Free]))])
  }

  /** A move of two descriptor entries into the stdio slots; what was there is forgotten, not closed. */
  function UseAsStdio(s: System, i: nat, inFd: nat, outFd: nat): System
    requires i < |s.slots| && s.slots[i].Live?
  {
    var t := s.slots[i].task;
    if inFd < |t.files| && outFd < |t.files| && t.files[inFd].End? && t.files[outFd].End?
       && !t.files[inFd].ref.write && t.files[outFd].ref.write
    then
      var t' := Task(t.files[inFd := Free][outFd := Free], Some(t.files[inFd].ref.pipe), Some(t.files[outFd].ref.pipe));
      s.(slots := s.slots[i := Live(t')], abandoned := s.abandoned + multiset(StdinRefs(t) + StdoutRefs(t)))
    else s
  }

  /** `memory` is whether the address space and kernel stack could be had; the counts go up either way. */
  function Fork(s: System, i: nat, memory: bool): System
    requires i < |s.slots| && s.slots[i].Live?
  {
    var t := s.slots[i].task;
    var j := FirstFrom(s.slots, 0, (q: Slot) => q.Unused?);
    if j.None? then s
    else
      var s1 := AddRefs(s, TaskRefs(t));
      if memory then s1.(slots := s.slots[j.value := Live(t)])
      else s1.(abandoned := s.abandoned + multiset(TaskRefs(t)))
  }

  function CloseStdin(s: System, i: nat): (s': System)
    requires i < |s.slots| && s.slots[i].Live?
    ensures |s'.slots| == |s.slots| && s'.slots[i].Live?
  {
    var t := s.slots[i].task;
    if t.stdin.None? then s
    else DropRef(s, Ref(t.stdin.value, false)).(slots := s.slots[i := Live(t.(stdin := None))])
  }

  function CloseStdout(s: System, i: nat): (s': System)
    requires i < |s.slots| && s.slots[i].Live?
    ensures |s'.slots| == |s.slots| && s'.slots[i].Live?
  {
    var t := s.slots[i].task;
    if t.stdout.None? then s
    else DropRef(s, Ref(t.stdout.value, true)).(slots := s.slots[i := Live(t.(stdout := None))])
  }

  /** close_stdio_pipes, then the process is a zombie: exit() and a crash alike. Descriptors stay. */
  function Exit(s: System, i: nat): System
    requires i < |s.slots| && s.slots[i].Live?
  {
    var s1 := CloseStdout(CloseStdin(s, i), i);
    s1.(slots := s1.slots[i := Zombie(s1.slots[i].task)])
  }

  function Reap(s: System, i: nat): System
    requires i < |s.slots| && s.slots[i].Zombie?
  {
    s.(slots := s.slots[i := Unused], abandoned := s.abandoned + multiset(TaskRefs(s.slots[i].task)))
  }

  function Spawn(s: System): System {
    var j := FirstFrom(s.slots, 0, (q: Slot) => q.Unused?);
    if j.None? then s else s.(slots := s.slots[j.value := Live(EMPTY)])
  }

  /** The pipe behind a descriptor, or behind stdin or stdout when `fd` is None. */
  function Named(t: Task, fd: Option<nat>, write: bool): (r: Option<Ref>)
    ensures r.Some? ==> r.value.write == write
  {
    match fd
    case None =>
      var std := if write then t.stdout else t.stdin;
      if std.Some? then Some(Ref(std.value, write)) else None
    case Some(k) =>
      if k < |t.files| && t.files[k].End? && t.files[k].ref.write == write then Some(t.files[k].ref) else None
  }

  function Write(s: System, i: nat, fd: Option<nat>, data: seq<Byte>): System
    requires i < |s.slots| && s.slots[i].Live?
  {
    var r := Named(s.slots[i].task, fd, true);
    if r.None? then s
    else if r.value.pipe !in s.pipes then s.(fault := true)
    else s.(pipes := s.pipes[r.value.pipe := WriteTo(s.pipes[r.value.pipe], data).1])
  }

  function Read(s: System, i: nat, fd: Option<nat>, room: nat): System
    requires i < |s.slots| && s.slots[i].Live?
  {
    var r := Named(s.slots[i].task, fd, false);
    if r.None? then s
    else if r.value.pipe !in s.pipes then s.(fault := true)
    else s.(pipes := s.pipes[r.value.pipe := ReadFrom(s.pipes[r.value.pipe], room).1])
  }

  /** exec() replaces the program and carries the descriptors and stdio slots over. */
  function Exec(s: System, i: nat): System
    requires i < |s.slots| && s.slots[i].Live?
  {
    var was := s.slots[i].task;
    s.(slots := s.slots[i := Live(EMPTY.(files := was.files, stdin := was.stdin, stdout := was.stdout))])
  }

  datatype Step =
    | DoSpawn
    | DoReap(i: nat)
    | DoPipe(i: nat)
    | DoOpen(i: nat)
    | DoClose(i: nat, fd: nat)
    | DoUseAsStdio(i: nat, inFd: nat, outFd: nat)
    | DoFork(i: nat, memory: bool)
    | DoExec(i: nat)
    | DoExit(i: nat)
    | DoWrite(i: nat, wfd: Option<nat>, data: seq<Byte>)
    | DoRead(i: nat, rfd: Option<nat>, room: nat)

  /** A step by a process that is not there changes nothing. */
  function Apply(s: System, e: Step): System {
    if e.DoSpawn? then Spawn(s)
    else if e.i >= |s.slots| then s
    else if e.DoReap? then if s.slots[e.i].Zombie? then Reap(s, e.i) else s
    else if !s.slots[e.i].Live? then s
    else
      match e
      case DoPipe(i) => MakePipe(s, i)
      case DoOpen(i) => Open(s, i)
      case DoClose(i, fd) => Close(s, i, fd)
      case DoUseAsStdio(i, inFd, outFd) => UseAsStdio(s, i, inFd, outFd)
      case DoFork(i, memory) => Fork(s, i, memory)
      case DoExec(i) => Exec(s, i)
      case DoExit(i) => Exit(s, i)
      case DoWrite(i, fd, data) => Write(s, i, fd, data)
      case DoRead(i, fd, room) => Read(s, i, fd, room)
  }

  function After(s: System, es: seq<Step>): System {
    if es == [] then s else Apply(After(s, es[..|es| - 1]), es[|es| - 1])
  }
}
