/** Processes working in the filesystem: every run of their calls keeps one tree with live working directories. */
module FsRuns {
  import opened Wrappers
  import opened Names
  import opened FsModel
  import opened FsTree
  import opened FsOps
  import opened FsCopy

  /** Nothing is under a file but itself. */
  lemma NothingUnderFile(fs: Fs, file: Id, id: Id)
    requires Forest(fs) && id in fs.nodes && HasLine(fs, id) && file in fs.nodes && fs.nodes[file].kind == File
    ensures Under(fs, file, id) ==> id == file
  {
    var line := Lineage(fs, id);
    forall k | 0 <= k < |line| - 1 ensures fs.nodes[line[k]].kind == Dir {
      assert fs.nodes[line[k + 1]].parent == Some(line[k]);
      assert Sound(fs, line[k]) && Sound(fs, line[k + 1]);
    }
    if Under(fs, file, id) { var k := IndexIn(line, file); }
  }

  lemma TargetOk(fs: Fs, base: Id, dest: Str, src: Id)
    requires Rooted(fs) && base in fs.nodes && src in fs.nodes && Utf8(dest)
    ensures var target := Target(fs, base, dest, src);
            target.Some? && target.value.1 != [] && src != fs.root ==> NameOk(target.value.1)
    ensures var target := Target(fs, base, dest, src);
            target.Some? && target.value.1 != [] && fs.nodes[fs.root].name == [] ==> NameOk(target.value.1)
  {
    ParentAndLeafOk(fs, base, dest);
    assert Sound(fs, src);
  }

  lemma MoveSafe(fs: Fs, base: Id, src: Str, dest: Str)
    requires Rooted(fs) && base in fs.nodes && Utf8(dest)
    ensures var (ok, fs') := Move(fs, base, src, dest);
            && Rooted(fs') && fs'.nodes.Keys == fs.nodes.Keys && fs'.root == fs.root
            && (forall n | n in fs.nodes ::
                  fs'.nodes[n].kind == fs.nodes[n].kind && fs'.nodes[n].data == fs.nodes[n].data)
            && fs'.nodes[fs.root].name == fs.nodes[fs.root].name
            && (!ok ==> fs' == fs)
  {
    var (ok, fs') := Move(fs, base, src, dest);
    if ok {
      var s := Resolve(fs, base, src).value;
      var (parent, leaf) := Target(fs, base, dest, s).value;
      TargetOk(fs, base, dest, s);
      assert Sound(fs, parent);
      if fs.nodes[s].kind == File { NothingUnderFile(fs, s, parent); }
      LineageOfParent(fs, parent);
      MoveNodeSafe(fs, s, parent, leaf);
      assert forall n | n in fs.nodes :: Moved(fs, fs', s, parent, leaf, n);
    }
  }

  lemma CopySafe(fs: Fs, base: Id, src: Str, dest: Str)
    requires Rooted(fs) && base in fs.nodes && Utf8(dest) && fs.nodes[fs.root].name == []
    ensures var (ok, fs') := Copy(fs, base, src, dest);
            && Rooted(fs') && fs'.root == fs.root
            && (forall n | n in fs.nodes ::
                  n in fs'.nodes && fs'.nodes[n].kind == fs.nodes[n].kind && fs'.nodes[n].name == fs.nodes[n].name)
            && (!ok ==> fs' == fs)
  {
    var (ok, fs') := Copy(fs, base, src, dest);
    if ok {
      var s := Resolve(fs, base, src).value;
      var (parent, leaf) := Target(fs, base, dest, s).value;
      TargetOk(fs, base, dest, s);
      CopyNodeSafe(fs, s, parent, leaf);
    }
  }

  ghost function WriteBytes(fs: Fs, base: Id, path: Str, data: seq<Byte>): (r: (bool, Fs))
    requires Rooted(fs) && base in fs.nodes && Utf8(path)
  {
    if Resolve(fs, base, path).Some? then WriteFound(fs, base, path, data)
    else
      CreateSafe(fs, base, path, File);
      var (made, fs1) := Create(fs, base, path, File);
      if made then WriteFound(fs1, base, path, data) else (false, fs1)
  }

  ghost function WriteFound(fs: Fs, base: Id, path: Str, data: seq<Byte>): (r: (bool, Fs))
    requires Rooted(fs) && base in fs.nodes
  {
    var n := Resolve(fs, base, path);
    if n.None? || fs.nodes[n.value].kind == Dir then (false, fs) else (true, SetData(fs, n.value, data))
  }

  ghost function SetData(fs: Fs, id: Id, data: seq<Byte>): Fs
    requires id in fs.nodes
  {
    fs.(nodes := fs.nodes[id := fs.nodes[id].(data := data)])
  }

  lemma SetDataSafe(fs: Fs, id: Id, data: seq<Byte>)
    requires Rooted(fs) && id in fs.nodes && fs.nodes[id].kind == File
    ensures Rooted(SetData(fs, id, data))
  {
    var fs' := SetData(fs, id, data);
    forall n ensures Sound(fs', n) {
      assert Sound(fs, n);
      if n in fs.nodes {
        LineKept(fs, fs', Lineage(fs, n), n);
        forall k | k in fs.nodes[n].kids ensures SameLabel(fs, fs', k) {}
        KidsKept(fs, fs', n);
      }
    }
  }

  // Processes and their working directories.

  datatype Sys = Sys(fs: Fs, cwds: seq<Option<Id>>)

  datatype Call =
    | Mkdir(path: Str)
    | CreateFile(path: Str)
    | Write(path: Str, data: seq<Byte>)
    | Unlink(path: Str)
    | Rename(src: Str, dest: Str)
    | CopyTo(src: Str, dest: Str)
    | Chdir(path: Str)
    | Fork(slot: nat)
    | Exit

  /** A path from userland is a string, or the call fails. */
  ghost predicate PathsOk(c: Call) {
    match c
    case Mkdir(path) => Utf8(path)
    case CreateFile(path) => Utf8(path)
    case Write(path, _) => Utf8(path)
    case Unlink(path) => Utf8(path)
    case Rename(src, dest) => Utf8(src) && Utf8(dest)
    case CopyTo(src, dest) => Utf8(src) && Utf8(dest)
    case Chdir(path) => Utf8(path)
    case _ => true
  }

  ghost predicate CwdOk(fs: Fs, cwd: Option<Id>) {
    cwd.Some? ==> cwd.value in fs.nodes && fs.nodes[cwd.value].kind == Dir
  }

  ghost predicate Inv(s: Sys) {
    Rooted(s.fs) && s.fs.nodes[s.fs.root].name == [] && forall c | c in s.cwds :: CwdOk(s.fs, c)
  }

  /** Whether some process's working directory is `dir` or inside it. */
  ghost predicate CwdWithin(s: Sys, dir: Id)
    requires Inv(s)
  {
    exists c | c in s.cwds && c.Some? :: c.value in s.fs.nodes && HasLine(s.fs, c.value) && Under(s.fs, dir, c.value)
  }

  ghost function Apply(s: Sys, i: nat, c: Call): (s': Sys)
    requires Inv(s)
  {
    if i >= |s.cwds| || s.cwds[i].None? || !PathsOk(c) then s
    else
      var cwd := s.cwds[i].value;
      assert CwdOk(s.fs, s.cwds[i]);
      match c
      case Mkdir(path) => s.(fs := Create(s.fs, cwd, path, Dir).1)
      case CreateFile(path) => s.(fs := Create(s.fs, cwd, path, File).1)
      case Write(path, data) => s.(fs := WriteBytes(s.fs, cwd, path, data).1)
      case Unlink(path) =>
        var n := Resolve(s.fs, cwd, path);
        if n.None? || CwdWithin(s, n.value) then s else s.(fs := Remove(s.fs, cwd, path, cwd).1)
      case Rename(src, dest) => s.(fs := Move(s.fs, cwd, src, dest).1)
      case CopyTo(src, dest) => s.(fs := Copy(s.fs, cwd, src, dest).1)
      case Chdir(path) =>
        var n := Resolve(s.fs, cwd, path);
        if n.None? || s.fs.nodes[n.value].kind != Dir then s else s.(cwds := s.cwds[i := n])
      case Fork(slot) => if slot < |s.cwds| && s.cwds[slot].None? then s.(cwds := s.cwds[slot := s.cwds[i]]) else s
      case Exit => s.(cwds := s.cwds[i := None])
  }

  lemma CwdsKept(s: Sys, fs: Fs)
    requires Inv(s) && Rooted(fs) && fs.nodes[fs.root].name == []
    requires forall n | n in s.fs.nodes :: n in fs.nodes && fs.nodes[n].kind == s.fs.nodes[n].kind
    ensures Inv(s.(fs := fs))
  {
    forall c | c in s.cwds ensures CwdOk(fs, c) { assert CwdOk(s.fs, c); }
  }

  lemma CreateKeepsCwds(s: Sys, cwd: Id, path: Str, kind: Kind)
    requires Inv(s) && cwd in s.fs.nodes && Utf8(path)
    ensures Inv(s.(fs := Create(s.fs, cwd, path, kind).1))
  {
    CreateSafe(s.fs, cwd, path, kind);
    ParentAndLeafOk(s.fs, cwd, path);
    var (ok, fs') := Create(s.fs, cwd, path, kind);
    if ok {
      var pl := ParentAndLeaf(s.fs, cwd, path).value;
      AddSafe(s.fs, pl.0, pl.1, kind);
    }
    CwdsKept(s, fs');
  }

  lemma WriteFoundKeepsCwds(s: Sys, cwd: Id, path: Str, data: seq<Byte>)
    requires Inv(s) && cwd in s.fs.nodes
    ensures Inv(s.(fs := WriteFound(s.fs, cwd, path, data).1))
  {
    var n := Resolve(s.fs, cwd, path);
    if n.Some? && s.fs.nodes[n.value].kind == File { SetDataKeepsCwds(s, n.value, data); }
  }

  lemma WriteKeepsCwds(s: Sys, cwd: Id, path: Str, data: seq<Byte>)
    requires Inv(s) && cwd in s.fs.nodes && Utf8(path)
    ensures Inv(s.(fs := WriteBytes(s.fs, cwd, path, data).1))
  {
    if Resolve(s.fs, cwd, path).Some? {
      WriteFoundKeepsCwds(s, cwd, path, data);
    } else {
      CreateSafe(s.fs, cwd, path, File);
      CreateKeepsCwds(s, cwd, path, File);
      WriteFoundKeepsCwds(s.(fs := Create(s.fs, cwd, path, File).1), cwd, path, data);
    }
  }

  lemma SetDataKeepsCwds(s: Sys, id: Id, data: seq<Byte>)
    requires Inv(s) && id in s.fs.nodes && s.fs.nodes[id].kind == File
    ensures Inv(s.(fs := SetData(s.fs, id, data)))
  {
    SetDataSafe(s.fs, id, data);
    CwdsKept(s, SetData(s.fs, id, data));
  }

  /** No process's working directory is freed. */
  lemma UnlinkKeepsCwds(s: Sys, cwd: Id, path: Str)
    requires Inv(s) && cwd in s.fs.nodes && Resolve(s.fs, cwd, path).Some?
             && !CwdWithin(s, Resolve(s.fs, cwd, path).value)
    ensures Inv(s.(fs := Remove(s.fs, cwd, path, cwd).1))
  {
    var n := Resolve(s.fs, cwd, path).value;
    var (ok, fs') := Remove(s.fs, cwd, path, cwd);
    if ok {
      RemoveNodeSafe(s.fs, n);
      RootStays(s.fs, n);
      NodesHaveLines(s.fs);
      forall c | c in s.cwds ensures CwdOk(fs', c) {
        assert CwdOk(s.fs, c);
        if c.Some? { assert c.value !in Subtree(s.fs, n); }
      }
    }
  }

  lemma RootStays(fs: Fs, n: Id)
    requires Rooted(fs) && n in fs.nodes && n != fs.root
    ensures fs.root !in Subtree(fs, n)
  {
    LineageOfParent(fs, fs.root);
  }

  lemma StepKeeps(s: Sys, i: nat, c: Call)
    requires Inv(s)
    ensures Inv(Apply(s, i, c))
  {
    if i < |s.cwds| && s.cwds[i].Some? && PathsOk(c) {
      var cwd := s.cwds[i].value;
      assert CwdOk(s.fs, s.cwds[i]);
      match c
      case Mkdir(path) => CreateKeepsCwds(s, cwd, path, Dir);
      case CreateFile(path) => CreateKeepsCwds(s, cwd, path, File);
      case Write(path, data) => WriteKeepsCwds(s, cwd, path, data);
      case Unlink(path) =>
        var n := Resolve(s.fs, cwd, path);
        if n.Some? && !CwdWithin(s, n.value) { UnlinkKeepsCwds(s, cwd, path); }
      case Rename(src, dest) =>
        MoveSafe(s.fs, cwd, src, dest);
        CwdsKept(s, Move(s.fs, cwd, src, dest).1);
      case CopyTo(src, dest) =>
        CopySafe(s.fs, cwd, src, dest);
        CwdsKept(s, Copy(s.fs, cwd, src, dest).1);
      case Chdir(path) =>
      case Fork(slot) =>
      case Exit =>
    }
  }

  ghost function After(s: Sys, calls: seq<(nat, Call)>): (s': Sys)
    requires Inv(s)
    ensures Inv(s')
  {
    if calls == [] then s
    else
      var before := After(s, calls[..|calls| - 1]);
      var (i, c) := calls[|calls| - 1];
      StepKeeps(before, i, c);
      Apply(before, i, c)
  }

  lemma BootIsATree(cwds: seq<Option<Id>>)
    requires forall c | c in cwds :: c in {None, Some(EMPTY.root)}
    ensures Inv(Sys(EMPTY, cwds))
  {
    forall id ensures Sound(EMPTY, id) {
      if id == 0 { assert Line(EMPTY, [0], 0); }
    }
  }

  /**
   * From an empty filesystem, whatever calls any processes make in whatever order: the nodes form one
   * consistently linked tree under the root, and every process's working directory is a directory in it.
   */
  lemma EveryRunKeepsOneTree(cwds: seq<Option<Id>>, calls: seq<(nat, Call)>)
    requires forall c | c in cwds :: c in {None, Some(EMPTY.root)}
    ensures Inv(Sys(EMPTY, cwds)) && Inv(After(Sys(EMPTY, cwds), calls))
  {
    BootIsATree(cwds);
  }
}
