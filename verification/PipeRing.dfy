/** The pipe as it is kept: a wrapping byte ring, proved to be the queue of PipeModel. */
module PipeRing {
  import opened Wrappers
  import M = PipeModel

  /** Where the `i`th byte from `head` is kept. */
  function Index(head: nat, i: nat): nat { (head + i) % M.BUF_SIZE }

  lemma IndexApart(head: nat, i: nat, j: nat)
    requires i < j < i + M.BUF_SIZE
    ensures Index(head, i) != Index(head, j)
  {
  }

  lemma IndexShift(head: nat, n: nat, i: nat)
    ensures Index(Index(head, n), i) == Index(head, n + i)
  {
  }

  /** The `count` bytes from `head` on, wrapping. */
  ghost function Unwrapped(buf: seq<Byte>, head: nat, count: nat): (s: seq<Byte>)
    requires |buf| == M.BUF_SIZE && count <= M.BUF_SIZE
    ensures |s| == count
  {
    seq(count, i requires 0 <= i < count => buf[Index(head, i)])
  }

  /** Storing just past the end appends one byte. */
  lemma StoreAppends(buf: seq<Byte>, head: nat, count: nat, at: nat, b: Byte)
    requires |buf| == M.BUF_SIZE && count < M.BUF_SIZE && at == Index(head, count)
    ensures Unwrapped(buf[at := b], head, count + 1) == Unwrapped(buf, head, count) + [b]
  {
    forall i: nat | i < count
      ensures buf[at := b][Index(head, i)] == buf[Index(head, i)]
    {
      IndexApart(head, i, count);
    }
  }

  /** Moving the head on drops bytes from the front. */
  lemma SkipDrops(buf: seq<Byte>, head: nat, count: nat, n: nat)
    requires |buf| == M.BUF_SIZE && n <= count <= M.BUF_SIZE
    ensures Unwrapped(buf, Index(head, n), count - n) == Unwrapped(buf, head, count)[n..]
  {
    var a, b := Unwrapped(buf, Index(head, n), count - n), Unwrapped(buf, head, count)[n..];
    forall i | 0 <= i < count - n ensures a[i] == b[i] { IndexShift(head, n, i); }
  }

  class Pipe {
    const buf: array<Byte>
    var head: nat
    var count: nat
    var readRefs: nat
    var writeRefs: nat
    ghost var accepted: seq<Byte>
    ghost var delivered: seq<Byte>

    ghost predicate Valid()
      reads this, buf
    {
      buf.Length == M.BUF_SIZE && head < M.BUF_SIZE && count <= M.BUF_SIZE
    }

    ghost function View(): M.Pipe
      requires Valid()
      reads this, buf
    {
      M.Pipe(Unwrapped(buf[..], head, count), readRefs, writeRefs, accepted, delivered)
    }

    constructor ()
      ensures Valid() && fresh(buf) && View() == M.Pipe([], 1, 1, [], [])
    {
      buf := new Byte[M.BUF_SIZE](_ => 0);
      head, count, readRefs, writeRefs := 0, 0, 1, 1;
      accepted, delivered := [], [];
    }

    method Write(data: seq<Byte>) returns (taken: Option<nat>)
      requires Valid()
      modifies this`count, this`accepted, buf
      ensures Valid() && (taken, View()) == M.WriteTo(old(View()), data)
    {
      if readRefs == 0 { return None; }
      var n := Min(|data|, M.BUF_SIZE - count);
      var tail := Index(head, count);
      ghost var queued := Unwrapped(buf[..], head, count);
      var i := 0;
      while i < n
        invariant 0 <= i <= n && count == old(count) && accepted == old(accepted)
        invariant Unwrapped(buf[..], head, count + i) == queued + data[..i]
      {
        ghost var was := buf[..];
        buf[Index(tail, i)] := data[i];
        IndexShift(head, count, i);
        StoreAppends(was, head, count + i, Index(tail, i), data[i]);
        assert buf[..] == was[Index(tail, i) := data[i]];
        assert data[..i + 1] == data[..i] + [data[i]];
        i := i + 1;
      }
      count := count + n;
      accepted := accepted + data[..n];
      return Some(n);
    }

    /** Fills `out` from the front; the rest of it is left alone. */
    method Read(out: array<Byte>) returns (got: Option<nat>)
      requires Valid() && out != buf
      modifies this`head, this`count, this`delivered, out
      ensures Valid() && View() == M.ReadFrom(old(View()), out.Length).1
      ensures got.None? <==> M.ReadFrom(old(View()), out.Length).0.None?
      ensures got.Some? ==> got.value <= out.Length && Some(out[..got.value]) == M.ReadFrom(old(View()), out.Length).0
      ensures forall k | (if got.Some? then got.value else 0) <= k < out.Length :: out[k] == old(out[k])
    {
      if count == 0 {
        return if writeRefs > 0 then Some(0) else None;
      }
      var n := Min(out.Length, count);
      ghost var queue := Unwrapped(buf[..], head, count);
      var i := 0;
      while i < n
        invariant 0 <= i <= n && head == old(head) && count == old(count) && delivered == old(delivered)
        invariant out[..i] == queue[..i]
        invariant forall k | i <= k < out.Length :: out[k] == old(out[k])
      {
        out[i] := buf[Index(head, i)];
        i := i + 1;
      }
      SkipDrops(buf[..], head, count, n);
      delivered := delivered + queue[..n];
      head := Index(head, n);
      count := count - n;
      return Some(n);
    }
  }

  lemma FileRefsNext(files: seq<M.OpenFile>, i: nat)
    requires i < |files|
    ensures files[i].End? ==> M.FileRefs(files[..i + 1]) == M.FileRefs(files[..i]) + [files[i].ref]
    ensures !files[i].End? ==> M.FileRefs(files[..i + 1]) == M.FileRefs(files[..i])
  {
    assert files[..i + 1][..i] == files[..i];
  }

  lemma AddRefsNext(s: M.System, rs: seq<M.Ref>, r: M.Ref)
    ensures M.AddRefs(s, rs + [r]) == M.AddRef(M.AddRefs(s, rs), r)
  {
    assert (rs + [r])[..|rs|] == rs;
  }

  /** The process table's side: loops over a task's descriptors, on the shared counts. */
  class PipeTable {
    var state: M.System

    /** No process and no pipe. */
    constructor ()
      ensures state == M.BOOT
    {
      state := M.BOOT;
    }

    /** fork()'s count of every inherited entry, in descriptor order, then stdin, then stdout. */
    method CountInherited(t: M.Task)
      modifies this
      ensures state == M.AddRefs(old(state), M.TaskRefs(t))
    {
      var i := 0;
      while i < |t.files|
        invariant 0 <= i <= |t.files| && state == M.AddRefs(old(state), M.FileRefs(t.files[..i]))
      {
        FileRefsNext(t.files, i);
        if t.files[i].End? {
          AddRefsNext(old(state), M.FileRefs(t.files[..i]), t.files[i].ref);
          state := M.AddRef(state, t.files[i].ref);
        }
        i := i + 1;
      }
      assert t.files[..i] == t.files;
      if t.stdin.Some? {
        AddRefsNext(old(state), M.FileRefs(t.files), M.Ref(t.stdin.value, false));
        state := M.AddRef(state, M.Ref(t.stdin.value, false));
      }
      ghost var both := M.FileRefs(t.files) + M.StdinRefs(t);
      assert t.stdin.None? ==> both == M.FileRefs(t.files);
      assert t.stdout.None? ==> M.TaskRefs(t) == both;
      if t.stdout.Some? {
        AddRefsNext(old(state), both, M.Ref(t.stdout.value, true));
        state := M.AddRef(state, M.Ref(t.stdout.value, true));
      }
    }

    method FindUnused() returns (j: Option<nat>)
      ensures j == FirstFrom(state.slots, 0, (q: M.Slot) => q.Unused?)
    {
      var i := 0;
      while i < |state.slots|
        invariant 0 <= i <= |state.slots|
        invariant FirstFrom(state.slots, 0, (q: M.Slot) => q.Unused?)
                  == FirstFrom(state.slots, i, (q: M.Slot) => q.Unused?)
      {
        if state.slots[i].Unused? { return Some(i); }
        i := i + 1;
      }
      return None;
    }

    method Fork(i: nat, memory: bool)
      requires i < |state.slots| && state.slots[i].Live?
      modifies this
      ensures state == M.Fork(old(state), i, memory)
    {
      var t := state.slots[i].task;
      var j := FindUnused();
      if j.None? { return; }
      ghost var was := state;
      CountInherited(t);
      AddRefsKeepsSlots(was, M.TaskRefs(t));
      if !memory {
        state := state.(abandoned := state.abandoned + multiset(M.TaskRefs(t)));
        return;
      }
      state := state.(slots := state.slots[j.value := M.Live(t)]);
    }
  }

  lemma {:induction false} AddRefsKeepsSlots(s: M.System, rs: seq<M.Ref>)
    ensures M.AddRefs(s, rs).slots == s.slots && M.AddRefs(s, rs).abandoned == s.abandoned
  {
    if rs != [] { AddRefsKeepsSlots(s, rs[..|rs| - 1]); }
  }
}
