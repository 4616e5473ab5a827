/** The serializer and the reader as they run: over the pointer-linked vnodes, appending and advancing in place. */
module FsDisk {
  import opened Wrappers
  import opened LittleEndian
  import opened Names
  import opened FsModel
  import opened FsTree
  import opened FsOps
  import opened FsCopy
  import opened FsImage
  import opened FsNodes
  import opened FsRoundTrip
  import opened FsLimits
  import FsRuns

  class Writer {
    var out: seq<Byte>

    /** Appends one node's record; `t` is the tree it holds. */
    method Node(store: VnodeStore, node: Id, ghost t: Tree)
      requires store.Valid() && Depicts(store.fs, node, t)
      modifies this
      ensures out == old(out) + Serialize(t)
      decreases t, 1
    {
      assert Stores(store.vs, store.fs, node) && Sound(store.fs, node);
      var v := store.vs[node];
      SerializeIs(t);
      ghost var head := [KindByte(v.kind), |v.name| % 256];
      out := out + [KindByte(v.kind), |v.name| % 256] + v.name;
      if v.kind == File {
        out := out + Le(|v.data| % U32, 4) + v.data;
        FourParts(old(out), head, v.name, Le(|v.data| % U32, 4), v.data);
        return;
      }
      var count := Count(store, v.children, store.fs.nodes[node].kids);
      out := out + Le(count % U32, 4);
      Kids(store, node, t);
      FourParts(old(out), head, v.name, Le(count % U32, 4), SerializeKids(t, 0));
    }

    static method Count(store: VnodeStore, first: Option<Id>, ghost kids: seq<Id>) returns (n: nat)
      requires Spells(store.vs, first, kids)
      ensures n == |kids|
    {
      n := 0;
      var c := first;
      while c.Some?
        invariant n <= |kids| && Spells(store.vs, c, kids[n..])
        decreases |kids| - n
      {
        assert kids[n..][1..] == kids[n + 1..];
        c := store.vs[c.value].sibling;
        n := n + 1;
      }
    }

    method Kids(store: VnodeStore, node: Id, ghost t: Tree)
      requires store.Valid() && Depicts(store.fs, node, t)
      modifies this
      ensures out == old(out) + SerializeKids(t, 0)
      decreases t, 0
    {
      assert Stores(store.vs, store.fs, node) && Sound(store.fs, node);
      ghost var kids := store.fs.nodes[node].kids;
      ghost var i := 0;
      var c := store.vs[node].children;
      while c.Some?
        invariant i <= |kids| == |t.kids| && Spells(store.vs, c, kids[i..])
        invariant old(out) + SerializeKids(t, 0) == out + SerializeKids(t, i)
        decreases |kids| - i
      {
        assert kids[i..][1..] == kids[i + 1..];
        assert Depicts(store.fs, kids[i], t.kids[i]);
        ghost var before := out;
        Node(store, c.value, t.kids[i]);
        AppendNext(before, Serialize(t.kids[i]), SerializeKids(t, i + 1));
        c := store.vs[c.value].sibling;
        i := i + 1;
      }
    }
  }

  lemma FourParts(out: seq<Byte>, a: seq<Byte>, b: seq<Byte>, c: seq<Byte>, d: seq<Byte>)
    ensures out + a + b + c + d == out + (a + (b + (c + d)))
  {
  }

  lemma AppendNext(a: seq<Byte>, b: seq<Byte>, c: seq<Byte>)
    ensures a + (b + c) == (a + b) + c
  {
  }

  function FieldAt(buf: seq<Byte>, pos: nat): Option<nat> {
    var bs := Bytes(buf, pos, 4);
    if bs.Some? then Some(FromLe(bs.value)) else None
  }

  class Reader {
    const buf: seq<Byte>
    const store: VnodeStore
    var pos: nat

    constructor (buf: seq<Byte>, store: VnodeStore)
      ensures this.buf == buf && this.store == store && pos == 0
    {
      this.buf, this.store, pos := buf, store, 0;
    }

    method Take(len: nat) returns (bs: Option<seq<Byte>>)
      modifies this
      ensures bs == Bytes(buf, old(pos), len) && pos == old(pos) + if bs.Some? then len else 0
    {
      if pos + len > |buf| { return None; }
      bs := Some(buf[pos..pos + len]);
      pos := pos + len;
    }

    /** A record's type and name. */
    method Start() returns (r: Option<(bool, Str)>)
      modifies this
      ensures r.None? ==> NoHeadAt(buf, old(pos))
      ensures r.Some? ==> HeadAt(buf, old(pos), Head(r.value.0, r.value.1, FieldAt(buf, pos), pos + 4))
      ensures r.Some? ==> old(pos) < pos <= |buf| && Utf8(r.value.1)
    {
      var start := Take(2);
      if start.None? || start.value[1] >= NAME_MAX { return None; }
      var name := Take(start.value[1]);
      if name.None? || !Utf8(name.value) { return None; }
      r := Some((start.value[0] == 1, name.value));
    }

    method Field() returns (n: Option<nat>)
      modifies this
      ensures n == FieldAt(buf, old(pos)) && pos == old(pos) + if n.Some? then 4 else 0
    {
      var bs := Take(4);
      if bs.None? { return None; }
      n := Some(FromLe(bs.value));
    }

    method FillFrom(parent: Id, name: Str, size: nat) returns (ok: bool)
      requires store.Valid() && Rooted(store.fs) && parent in store.vs && Utf8(name) && pos <= |buf|
      modifies this, store
      ensures store.Valid()
              && FillFile(old(store.fs), buf, old(pos), parent, name, size)
                 == (store.fs, if ok then Some(pos) else None)
    {
      if size == 0 { return true; }
      var data := Take(size);
      if data.None? { return false; }
      ok := store.WriteBytes(parent, name, data.value);
    }

    method FileRecord(parent: Id, name: Str, size: nat) returns (ok: bool)
      requires store.Valid() && Rooted(store.fs) && parent in store.vs && Utf8(name) && pos <= |buf|
      modifies this, store
      ensures store.Valid() && Rooted(store.fs) && store.vs.Keys >= old(store.vs.Keys)
              && (ok ==> old(pos) <= pos <= |buf|)
      ensures FileLeaves(old(store.fs), buf, old(pos), parent, name, size, store.fs, if ok then Some(pos) else None)
    {
      CreateSafe(store.fs, parent, name, File);
      var made := store.Create(parent, name, File);
      if !made { return false; }
      ok := FillFrom(parent, name, size);
    }

    method MakeDirectory(parent: Option<Id>, name: Str) returns (dir: Option<Id>)
      requires store.Valid() && Rooted(store.fs) && (parent.Some? ==> parent.value in store.vs) && Utf8(name)
      modifies store
      ensures store.Valid() && Rooted(store.fs) && store.vs.Keys >= old(store.vs.Keys)
              && (dir.Some? ==> dir.value in store.vs)
      ensures DirMade(old(store.fs), parent, name, store.fs, dir)
    {
      ghost var was := store.fs;
      DirMadeIs(was, parent, name, was, Some(store.root));
      if parent.None? { return Some(store.root); }
      CreateSafe(store.fs, parent.value, name, Dir);
      var made := store.Create(parent.value, name, Dir);
      DirMadeIs(was, parent, name, store.fs, None);
      if !made { return None; }
      dir := store.Resolve(parent.value, name);
      DirMadeIs(was, parent, name, store.fs, dir);
    }

    method Record(parent: Option<Id>) returns (ok: bool)
      requires store.Valid() && Rooted(store.fs) && (parent.Some? ==> parent.value in store.vs)
      modifies this, store
      ensures store.Valid() && Rooted(store.fs) && store.vs.Keys >= old(store.vs.Keys)
              && (ok ==> old(pos) < pos <= |buf|)
      ensures NodeLeaves(old(store.fs), buf, old(pos), parent, store.fs, if ok then Some(pos) else None)
      decreases Monus(|buf|, pos), 0
    {
      ghost var was, at := store.fs, pos;
      var start := Start();
      if start.None? { LeavesNoRecord(was, buf, at, parent); return false; }
      var (file, name) := start.value;
      if file {
        ok := FileRest(parent, name, was, at);
      } else {
        ok := DirRest(parent, name, was, at);
      }
    }

    method FileRest(parent: Option<Id>, name: Str, ghost was: Fs, ghost at: nat) returns (ok: bool)
      requires store.Valid() && Rooted(store.fs) && (parent.Some? ==> parent.value in store.vs) && store.fs == was
      requires Utf8(name) && at < pos <= |buf| && HeadAt(buf, at, Head(true, name, FieldAt(buf, pos), pos + 4))
      modifies this, store
      ensures store.Valid() && Rooted(store.fs) && store.vs.Keys >= old(store.vs.Keys)
              && (ok ==> old(pos) < pos <= |buf|)
      ensures NodeLeaves(was, buf, at, parent, store.fs, if ok then Some(pos) else None)
    {
      ghost var h := Head(true, name, FieldAt(buf, pos), pos + 4);
      var size := Field();
      if size.None? || parent.None? { LeavesNothing(was, buf, at, parent, h); return false; }
      ok := FileRecord(parent.value, name, size.value);
      LeavesFile(was, buf, at, parent.value, h, store.fs, if ok then Some(pos) else None);
    }

    method DirRest(parent: Option<Id>, name: Str, ghost was: Fs, ghost at: nat) returns (ok: bool)
      requires store.Valid() && Rooted(store.fs) && (parent.Some? ==> parent.value in store.vs) && store.fs == was
      requires Utf8(name) && at < pos <= |buf| && HeadAt(buf, at, Head(false, name, FieldAt(buf, pos), pos + 4))
      modifies this, store
      ensures store.Valid() && Rooted(store.fs) && store.vs.Keys >= old(store.vs.Keys)
              && (ok ==> old(pos) < pos <= |buf|)
      ensures NodeLeaves(was, buf, at, parent, store.fs, if ok then Some(pos) else None)
      decreases Monus(|buf|, pos), 3
    {
      ghost var h := Head(false, name, FieldAt(buf, pos), pos + 4);
      var dir := MakeDirectory(parent, name);
      if dir.None? { LeavesNoKids(was, buf, at, parent, h, store.fs, dir); return false; }
      var count := Field();
      if count.None? { LeavesNoKids(was, buf, at, parent, h, store.fs, dir); return false; }
      ok := DirContents(parent, dir.value, count.value, was, at, h);
    }

    /** The records of a directory just made. */
    method DirContents(parent: Option<Id>, dir: Id, n: nat, ghost was: Fs, ghost at: nat, ghost h: Head)
        returns (ok: bool)
      requires store.Valid() && Rooted(store.fs) && dir in store.vs && Rooted(was)
               && (parent.Some? ==> parent.value in was.nodes)
      requires HeadAt(buf, at, h) && !h.file && Utf8(h.name) && h.field == Some(n) && h.end == pos <= |buf|
      requires DirMade(was, parent, h.name, store.fs, Some(dir))
      modifies this, store
      ensures store.Valid() && Rooted(store.fs) && store.vs.Keys >= old(store.vs.Keys)
              && (ok ==> old(pos) <= pos <= |buf|)
      ensures NodeLeaves(was, buf, at, parent, store.fs, if ok then Some(pos) else None)
      decreases Monus(|buf|, pos), 2
    {
      ghost var made := store.fs;
      ok := Records(dir, n);
      LeavesKids(was, buf, at, parent, h, made, dir, store.fs, if ok then Some(pos) else None);
    }

    method Records(dir: Id, n: nat) returns (ok: bool)
      requires store.Valid() && Rooted(store.fs) && dir in store.vs && pos <= |buf|
      modifies this, store
      ensures store.Valid() && Rooted(store.fs) && store.vs.Keys >= old(store.vs.Keys)
              && (ok ==> old(pos) <= pos <= |buf|)
      ensures KidsEnd(old(store.fs), buf, old(pos), dir, n, store.fs, if ok then Some(pos) else None)
      decreases Monus(|buf|, pos), 1
    {
      ghost var was, at := store.fs, pos;
      var left := n;
      while left > 0
        invariant store.Valid() && Rooted(store.fs) && store.vs.Keys >= old(store.vs.Keys) && at <= pos <= |buf|
        invariant Same(was, buf, at, dir, n, store.fs, pos, left)
      {
        ghost var before, from := store.fs, pos;
        ok := Record(Some(dir));
        if !ok { SameFails(was, buf, at, dir, n, before, from, left, store.fs); return; }
        SameNext(was, buf, at, dir, n, before, from, left, store.fs, pos);
        left := left - 1;
      }
      SameDone(was, buf, at, dir, n, store.fs, pos);
      ok := true;
    }
  }

  /** No record starts here. Over a range of one value, so that the reader is not unfolded at every use. */
  ghost predicate NoHeadAt(buf: seq<Byte>, pos: nat) {
    forall k: nat | pos <= k <= pos :: ReadHead(buf, k) == None
  }

  lemma LeavesNoRecord(fs: Fs, buf: seq<Byte>, pos: nat, parent: Option<Id>)
    requires Rooted(fs) && (parent.Some? ==> parent.value in fs.nodes) && NoHeadAt(buf, pos)
    ensures NodeLeaves(fs, buf, pos, parent, fs, None)
  {
    assert ReadHead(buf, pos) == None;
  }

  lemma LeavesNothing(fs: Fs, buf: seq<Byte>, pos: nat, parent: Option<Id>, h: Head)
    requires Rooted(fs) && (parent.Some? ==> parent.value in fs.nodes)
    requires HeadAt(buf, pos, h) && h.file && (h.field.None? || parent.None?)
    ensures NodeLeaves(fs, buf, pos, parent, fs, None)
  {
    assert ReadHead(buf, pos) == Some(h);
  }

  /**
   * What reading a file's contents leaves. Over a range of one value, so that the reader is not unfolded at every use.
   */
  ghost predicate FileLeaves(fs: Fs, buf: seq<Byte>, pos: nat, parent: Id, name: Str, size: nat, fs': Fs,
      end: Option<nat>)
    requires Rooted(fs) && parent in fs.nodes && Utf8(name) && pos <= |buf|
  {
    forall k: nat | size <= k <= size :: ReadFile(fs, buf, pos, parent, name, k) == (fs', end)
  }

  lemma LeavesFile(fs: Fs, buf: seq<Byte>, pos: nat, parent: Id, h: Head, fs': Fs, end: Option<nat>)
    requires Rooted(fs) && parent in fs.nodes && HeadAt(buf, pos, h) && h.file && h.field.Some? && Utf8(h.name)
             && h.end <= |buf|
    requires FileLeaves(fs, buf, h.end, parent, h.name, h.field.value, fs', end)
    ensures NodeLeaves(fs, buf, pos, Some(parent), fs', end)
  {
    assert ReadHead(buf, pos) == Some(h);
    assert ReadFile(fs, buf, h.end, parent, h.name, h.field.value) == (fs', end);
  }

  /** What making a directory leaves. Over a range of one value, so that the reader is not unfolded at every use. */
  ghost predicate DirMade(fs: Fs, parent: Option<Id>, name: Str, fs1: Fs, dir: Option<Id>)
    requires Rooted(fs) && (parent.Some? ==> parent.value in fs.nodes) && Utf8(name)
  {
    forall k: nat | 0 <= k <= 0 :: name[k..] == name && MakeDir(fs, parent, name[k..]) == (fs1, dir)
  }

  lemma DirMadeIs(fs: Fs, parent: Option<Id>, name: Str, fs1: Fs, dir: Option<Id>)
    requires Rooted(fs) && (parent.Some? ==> parent.value in fs.nodes) && Utf8(name)
    ensures DirMade(fs, parent, name, fs1, dir) <==> MakeDir(fs, parent, name) == (fs1, dir)
  {
    assert name[0..] == name;
  }

  lemma LeavesNoKids(fs: Fs, buf: seq<Byte>, pos: nat, parent: Option<Id>, h: Head, fs1: Fs, dir: Option<Id>)
    requires Rooted(fs) && (parent.Some? ==> parent.value in fs.nodes) && HeadAt(buf, pos, h) && !h.file && Utf8(h.name)
    requires DirMade(fs, parent, h.name, fs1, dir) && (dir.None? || h.field.None?)
    ensures NodeLeaves(fs, buf, pos, parent, fs1, None)
  {
    assert ReadHead(buf, pos) == Some(h);
    DirMadeIs(fs, parent, h.name, fs1, dir);
  }

  /**
   * What reading `n` records leaves, and where. Over a range of one value, so that the reader is not unfolded at every
   * use.
   */
  ghost predicate KidsEnd(fs: Fs, buf: seq<Byte>, pos: nat, dir: Id, n: nat, fs': Fs, end: Option<nat>)
    requires Rooted(fs) && dir in fs.nodes && pos <= |buf|
  {
    forall k: nat | n <= k <= n :: ReadKids(fs, buf, pos, dir, k) == (fs', end)
  }

  lemma LeavesKids(fs: Fs, buf: seq<Byte>, pos: nat, parent: Option<Id>, h: Head, fs1: Fs, dir: Id, fs': Fs,
      end: Option<nat>)
    requires Rooted(fs) && (parent.Some? ==> parent.value in fs.nodes) && HeadAt(buf, pos, h) && !h.file
             && h.field.Some?
    requires Utf8(h.name) && h.end <= |buf| && DirMade(fs, parent, h.name, fs1, Some(dir)) && Rooted(fs1)
             && dir in fs1.nodes
    requires KidsEnd(fs1, buf, h.end, dir, h.field.value, fs', end)
    ensures NodeLeaves(fs, buf, pos, parent, fs', end)
  {
    assert ReadHead(buf, pos) == Some(h);
    DirMadeIs(fs, parent, h.name, fs1, Some(dir));
    assert ReadKids(fs1, buf, h.end, dir, h.field.value) == (fs', end);
  }

  /** Reading `n` records from the start comes to the same as reading `left` from here. */
  ghost predicate Same(fs0: Fs, buf: seq<Byte>, at: nat, dir: Id, n: nat, fs: Fs, pos: nat, left: nat)
    requires Rooted(fs0) && dir in fs0.nodes && at <= |buf| && Rooted(fs) && dir in fs.nodes && pos <= |buf|
  {
    forall fs', end :: KidsEnd(fs, buf, pos, dir, left, fs', end) ==> KidsEnd(fs0, buf, at, dir, n, fs', end)
  }

  lemma KidsEndNext(fs: Fs, buf: seq<Byte>, pos: nat, dir: Id, n: nat, fs1: Fs, next: nat, fs': Fs, end: Option<nat>)
    requires Rooted(fs) && dir in fs.nodes && pos <= |buf| && n > 0
             && NodeLeaves(fs, buf, pos, Some(dir), fs1, Some(next))
    requires Rooted(fs1) && dir in fs1.nodes && next <= |buf| && KidsEnd(fs1, buf, next, dir, n - 1, fs', end)
    ensures KidsEnd(fs, buf, pos, dir, n, fs', end)
  {
    assert ReadNode(fs, buf, pos, Some(dir)) == (fs1, Some(next));
    assert ReadKids(fs1, buf, next, dir, n - 1) == (fs', end);
  }

  lemma SameNext(fs0: Fs, buf: seq<Byte>, at: nat, dir: Id, n: nat, fs: Fs, pos: nat, left: nat, fs1: Fs, next: nat)
    requires Rooted(fs0) && dir in fs0.nodes && at <= |buf| && Rooted(fs) && dir in fs.nodes && pos <= |buf| && left > 0
    requires Same(fs0, buf, at, dir, n, fs, pos, left) && NodeLeaves(fs, buf, pos, Some(dir), fs1, Some(next))
    requires Rooted(fs1) && dir in fs1.nodes && next <= |buf|
    ensures Same(fs0, buf, at, dir, n, fs1, next, left - 1)
  {
    var fewer := left - 1;
    forall fs', end | KidsEnd(fs1, buf, next, dir, fewer, fs', end) ensures KidsEnd(fs0, buf, at, dir, n, fs', end) {
      KidsEndNext(fs, buf, pos, dir, left, fs1, next, fs', end);
    }
  }

  lemma SameFails(fs0: Fs, buf: seq<Byte>, at: nat, dir: Id, n: nat, fs: Fs, pos: nat, left: nat, fs1: Fs)
    requires Rooted(fs0) && dir in fs0.nodes && at <= |buf| && Rooted(fs) && dir in fs.nodes && pos <= |buf| && left > 0
    requires Same(fs0, buf, at, dir, n, fs, pos, left) && NodeLeaves(fs, buf, pos, Some(dir), fs1, None)
    ensures KidsEnd(fs0, buf, at, dir, n, fs1, None)
  {
    assert ReadNode(fs, buf, pos, Some(dir)) == (fs1, None);
    assert KidsEnd(fs, buf, pos, dir, left, fs1, None);
  }

  lemma SameDone(fs0: Fs, buf: seq<Byte>, at: nat, dir: Id, n: nat, fs: Fs, pos: nat)
    requires Rooted(fs0) && dir in fs0.nodes && at <= |buf| && Rooted(fs) && dir in fs.nodes && pos <= |buf|
    requires Same(fs0, buf, at, dir, n, fs, pos, 0)
    ensures KidsEnd(fs0, buf, at, dir, n, fs, Some(pos))
  {
    assert KidsEnd(fs, buf, pos, dir, 0, fs, Some(pos));
  }
}
