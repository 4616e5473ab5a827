/** What each call on the filesystem does, seen through the paths before and after it. */
module FsCalls {
  import opened Wrappers
  import opened Names
  import opened FsModel
  import opened FsTree
  import opened FsOps
  import opened FsCopy
  import opened FsPaths
  import opened FsWalks
  import opened FsRuns

  /** Directory `d` has no entry of that name. */
  ghost predicate Vacant(fs: Fs, d: Id, name: Str) {
    forall k | k in fs.nodes && fs.nodes[k].parent == Some(d) :: fs.nodes[k].name != name
  }

  lemma VacantIs(fs: Fs, d: Id, name: Str)
    requires Forest(fs) && d in fs.nodes
    ensures Vacant(fs, d, name) <==> FindChild(fs, d, name).None?
  {
    assert Sound(fs, d);
    forall k | k in fs.nodes && fs.nodes[k].parent == Some(d) && fs.nodes[k].name == name
      ensures FindChild(fs, d, name) == Some(k)
    {
      ChildFound(fs, d, k);
    }
  }

  // Create.

  /** The path names a new entry of a directory. */
  ghost predicate CanCreate(fs: Fs, base: Id, path: Str)
    requires Forest(fs) && base in fs.nodes
  {
    var pl := ParentAndLeaf(fs, base, path);
    pl.Some? && fs.nodes[pl.value.0].kind == Dir && pl.value.1 != [] && Vacant(fs, pl.value.0, pl.value.1)
  }

  /** One more node, empty, under that name. */
  ghost predicate Made(fs: Fs, fs': Fs, d: Id, leaf: Str, kind: Kind) {
    && Grown(fs, fs') && fs'.nodes.Keys == fs.nodes.Keys + {fs.next} && fs.next !in fs.nodes
    && fs'.nodes[fs.next] == Node(leaf, kind, Some(d), [], [])
    && forall n | n in fs.nodes :: fs'.nodes[n].data == fs.nodes[n].data
  }

  lemma AddIs(fs: Fs, d: Id, leaf: Str, kind: Kind)
    requires Rooted(fs) && d in fs.nodes && fs.nodes[d].kind == Dir && NameOk(leaf) && FindChild(fs, d, leaf).None?
    ensures Made(fs, Add(fs, d, leaf, kind), d, leaf, kind)
  {
    var fs' := Add(fs, d, leaf, kind);
    AddSafe(fs, d, leaf, kind);
    forall n | n in fs.nodes ensures SamePlace(fs, fs', n) && fs'.nodes[n].data == fs.nodes[n].data {}
  }

  /**
   * Creation succeeds if and only if the path names a new entry of a directory. Then there is one more node, empty,
   * under that name, and the path leads to it unless the name is "." or "..".
   */
  lemma CreateIs(fs: Fs, base: Id, path: Str, kind: Kind)
    requires Rooted(fs) && base in fs.nodes && Utf8(path)
    ensures var (ok, fs') := Create(fs, base, path, kind);
      && (ok <==> CanCreate(fs, base, path))
      && (ok ==> var (d, leaf) := ParentAndLeaf(fs, base, path).value;
                 && Made(fs, fs', d, leaf, kind)
                 && (Special(leaf) || (base in fs'.nodes && Resolve(fs', base, path) == Some(fs.next))))
  {
    var (ok, fs') := Create(fs, base, path, kind);
    var pl := ParentAndLeaf(fs, base, path);
    if pl.Some? { VacantIs(fs, pl.value.0, pl.value.1); }
    if ok {
      ParentAndLeafOk(fs, base, path);
      AddIs(fs, pl.value.0, pl.value.1, kind);
      if !Special(pl.value.1) { NewLeafLeads(fs, fs', base, path, fs.next); }
    }
  }

  // Write.

  ghost predicate IsFile(fs: Fs, n: Option<Id>) { n.Some? && n.value in fs.nodes && fs.nodes[n.value].kind == File }

  /**
   * Writing succeeds if and only if the path leads to a file, or nowhere but could be created. Then it leads to a file
   * that holds exactly the data written, and every other node is where it was with what it held.
   */
  lemma WriteIs(fs: Fs, base: Id, path: Str, data: seq<Byte>)
    requires Rooted(fs) && base in fs.nodes && Utf8(path)
    ensures var (ok, fs') := WriteBytes(fs, base, path, data);
      && (ok <==> IsFile(fs, Resolve(fs, base, path))
                  || (Resolve(fs, base, path).None? && CanCreate(fs, base, path)))
      && (!ok ==> fs' == fs)
      && (ok ==> && Grown(fs, fs') && IsFile(fs', Resolve(fs', base, path))
                 && var n := Resolve(fs', base, path).value;
                    && fs'.nodes[n].data == data && fs'.nodes.Keys == fs.nodes.Keys + {n}
                    && forall m | m in fs.nodes && m != n :: fs'.nodes[m].data == fs.nodes[m].data)
  {
    if Resolve(fs, base, path).Some? {
      WriteFoundIs(fs, base, path, data);
    } else {
      CreateSafe(fs, base, path, File);
      CreateIs(fs, base, path, File);
      var (made, fs1) := Create(fs, base, path, File);
      if made {
        LeafIsNew(fs, base, path);
        WriteFoundIs(fs1, base, path, data);
        GrownTwice(fs, fs1, WriteFound(fs1, base, path, data).1);
      }
    }
  }

  /** A path that leads nowhere does not end in "." or "..". */
  lemma LeafIsNew(fs: Fs, base: Id, path: Str)
    requires Forest(fs) && base in fs.nodes && Resolve(fs, base, path).None? && CanCreate(fs, base, path)
    ensures !Special(ParentAndLeaf(fs, base, path).value.1)
  {
    var (d, leaf) := ParentAndLeaf(fs, base, path).value;
    LeafLeads(fs, base, path);
    ResolveOne(fs, d, leaf);
  }

  lemma GrownTwice(fs: Fs, fs1: Fs, fs2: Fs)
    requires Grown(fs, fs1) && Grown(fs1, fs2)
    ensures Grown(fs, fs2)
  {
    forall n | n in fs.nodes ensures SamePlace(fs, fs2, n) {
      assert SamePlace(fs, fs1, n) && SamePlace(fs1, fs2, n);
    }
  }

  lemma WriteFoundIs(fs: Fs, base: Id, path: Str, data: seq<Byte>)
    requires Rooted(fs) && base in fs.nodes && Resolve(fs, base, path).Some?
    ensures var (ok, fs'), n := WriteFound(fs, base, path, data), Resolve(fs, base, path).value;
      && (ok <==> fs.nodes[n].kind == File)
      && (!ok ==> fs' == fs)
      && (ok ==> && Grown(fs, fs') && base in fs'.nodes && Resolve(fs', base, path) == Some(n)
                 && fs'.nodes == fs.nodes[n := fs.nodes[n].(data := data)])
  {
    var n := Resolve(fs, base, path).value;
    if fs.nodes[n].kind == File {
      var fs' := SetData(fs, n, data);
      SetDataSafe(fs, n, data);
      forall m | m in fs.nodes ensures SamePlace(fs, fs', m) {}
      ResolveStays(fs, fs', base, path);
    }
  }

  // Remove.

  /** From a node that stays, a walk that led into the subtree removed now leads nowhere. */
  lemma {:induction false} WalkIsCut(fs: Fs, id: Id, at: Id, cs: seq<Str>)
    requires Rooted(fs) && id in fs.nodes && id != fs.root && at in RemoveNode(fs, id).nodes
    requires at in fs.nodes && Walk(fs, at, cs).Some? && Walk(fs, at, cs).value in Subtree(fs, id)
    ensures Forest(RemoveNode(fs, id)) && Walk(RemoveNode(fs, id), at, cs) == None
    decreases |cs|
  {
    RemoveNodeSafe(fs, id);
    if cs != [] {
      var n := StepTo(fs, at, Cut(cs[0])).value;
      if n in Subtree(fs, id) {
        StepIsCut(fs, id, at, Cut(cs[0]));
      } else {
        assert SamePlace(fs, RemoveNode(fs, id), at) && SamePlace(fs, RemoveNode(fs, id), n);
        StepStays(fs, RemoveNode(fs, id), at, Cut(cs[0]));
        WalkIsCut(fs, id, n, cs[1..]);
      }
    }
  }

  /** The only way into a subtree is by name, to its top. */
  lemma WayIn(fs: Fs, id: Id, at: Id, name: Str)
    requires Rooted(fs) && id in fs.nodes && at in fs.nodes && at !in Subtree(fs, id)
    requires StepTo(fs, at, name).Some? && StepTo(fs, at, name).value in Subtree(fs, id)
    ensures name != [] && !Special(name) && fs.nodes[at].kind == Dir && FindChild(fs, at, name) == Some(id)
  {
    var n := StepTo(fs, at, name).value;
    NodesHaveLines(fs);
    if fs.nodes[at].parent.Some? { UnderParent(fs, id, at); }
    if name != [] && !Special(name) { UnderParent(fs, id, n); }
  }

  lemma StepIsCut(fs: Fs, id: Id, at: Id, name: Str)
    requires Rooted(fs) && id in fs.nodes && id != fs.root && at in RemoveNode(fs, id).nodes && at in fs.nodes
    requires StepTo(fs, at, name).Some? && StepTo(fs, at, name).value in Subtree(fs, id)
    ensures Forest(RemoveNode(fs, id)) && StepTo(RemoveNode(fs, id), at, name) == None
  {
    var fs' := RemoveNode(fs, id);
    RemoveNodeSafe(fs, id);
    WayIn(fs, id, at, name);
    NoneLeft(fs, fs', id, at, name);
  }

  lemma NoneLeft(fs: Fs, fs': Fs, id: Id, at: Id, name: Str)
    requires Forest(fs) && Forest(fs') && at in fs.nodes && at in fs'.nodes && id !in fs'.nodes
    requires FindChild(fs, at, name) == Some(id)
    requires forall n | n in fs'.nodes :: n in fs.nodes && SamePlace(fs, fs', n)
    ensures FindChild(fs', at, name) == None
  {
    var found := FindChild(fs', at, name);
    if found.Some? {
      assert SamePlace(fs, fs', found.value);
      ChildFound(fs, at, found.value);
    }
  }

  /**
   * Removal succeeds if and only if the path leads to a node other than the root that is not on the way from the root
   * to the working directory. Then exactly that node and what is under it are gone, and the path leads nowhere.
   */
  lemma RemoveIs(fs: Fs, base: Id, path: Str, cwd: Id)
    requires Rooted(fs) && base in fs.nodes && cwd in fs.nodes
    ensures HasLine(fs, cwd)
    ensures var (ok, fs'), n := Remove(fs, base, path, cwd), Resolve(fs, base, path);
      && (ok <==> n.Some? && n.value != fs.root && n.value !in Lineage(fs, cwd))
      && (!ok ==> fs' == fs)
      && (ok ==> && Rooted(fs') && fs'.nodes.Keys == fs.nodes.Keys - Subtree(fs, n.value) && cwd in fs'.nodes
                 && (base in fs'.nodes ==> Resolve(fs', base, path) == None))
  {
    assert Sound(fs, cwd);
    var (ok, fs') := Remove(fs, base, path, cwd);
    var n := Resolve(fs, base, path);
    if ok {
      RemoveNodeSafe(fs, n.value);
      NodesHaveLines(fs);
      LineageOfParent(fs, n.value);
      RootStays(fs, n.value);
      if base in fs'.nodes {
        WalkIsCut(fs, n.value, if path != [] && path[0] == SLASH then fs.root else base, Split(path));
      }
    }
  }

  // Move and copy.

  /** A destination that is a directory means "into it, under the old name"; any other, its own parent and leaf. */
  ghost predicate Lands(fs: Fs, base: Id, dest: Str, src: Id, d: Id, leaf: Str)
    requires Forest(fs) && base in fs.nodes && src in fs.nodes
  {
    var there := Resolve(fs, base, dest);
    && d in fs.nodes && fs.nodes[d].kind == Dir && leaf != []
    && if there.Some? && fs.nodes[there.value].kind == Dir then d == there.value && leaf == fs.nodes[src].name
       else ParentAndLeaf(fs, base, dest) == Some((d, leaf))
  }

  ghost predicate Inside(fs: Fs, top: Id, id: Id) { HasLine(fs, id) && top in Lineage(fs, id) }

  /**
   * A move succeeds if and only if the source is there and not the root, the destination names an entry of a directory
   * that is free or the source itself, and that directory is not inside a directory being moved. Then the source is
   * found there, and the nodes are the same.
   */
  lemma MoveIs(fs: Fs, base: Id, src: Str, dest: Str)
    requires Rooted(fs) && base in fs.nodes && Utf8(dest)
    ensures var (ok, fs'), s := Move(fs, base, src, dest), Resolve(fs, base, src);
      && (ok <==> s.Some? && s.value != fs.root && exists d, leaf :: MovesTo(fs, base, dest, s.value, d, leaf))
      && (ok ==> forall d, leaf | MovesTo(fs, base, dest, s.value, d, leaf) ::
                   Rooted(fs') && d in fs'.nodes && FindChild(fs', d, leaf) == Some(s.value))
  {
    var s := Resolve(fs, base, src);
    if s.Some? && s.value != fs.root {
      forall d, leaf | MovesTo(fs, base, dest, s.value, d, leaf)
        ensures Move(fs, base, src, dest).0
        ensures var fs' := Move(fs, base, src, dest).1;
          Rooted(fs') && d in fs'.nodes && FindChild(fs', d, leaf) == Some(s.value)
      {
        MovedThere(fs, base, src, dest, d, leaf);
      }
      if Move(fs, base, src, dest).0 {
        var (d, leaf) := Target(fs, base, dest, s.value).value;
        MoveWasAllowed(fs, base, src, dest, d, leaf);
      }
    }
  }

  ghost predicate MovesTo(fs: Fs, base: Id, dest: Str, src: Id, d: Id, leaf: Str)
    requires Forest(fs) && base in fs.nodes && src in fs.nodes
  {
    && Lands(fs, base, dest, src, d, leaf)
    && (forall k | k in fs.nodes && k != src && fs.nodes[k].parent == Some(d) :: fs.nodes[k].name != leaf)
    && !(fs.nodes[src].kind == Dir && Inside(fs, src, d))
  }

  lemma MoveWasAllowed(fs: Fs, base: Id, src: Str, dest: Str, d: Id, leaf: Str)
    requires Rooted(fs) && base in fs.nodes && Move(fs, base, src, dest).0
    requires Resolve(fs, base, src).Some? && Target(fs, base, dest, Resolve(fs, base, src).value) == Some((d, leaf))
    ensures MovesTo(fs, base, dest, Resolve(fs, base, src).value, d, leaf)
  {
    var s := Resolve(fs, base, src).value;
    assert Sound(fs, d);
    forall k | k in fs.nodes && k != s && fs.nodes[k].parent == Some(d) ensures fs.nodes[k].name != leaf {
      ChildFound(fs, d, k);
    }
  }

  lemma MovedThere(fs: Fs, base: Id, src: Str, dest: Str, d: Id, leaf: Str)
    requires Rooted(fs) && base in fs.nodes && Utf8(dest)
    requires Resolve(fs, base, src).Some? && Resolve(fs, base, src).value != fs.root
    requires MovesTo(fs, base, dest, Resolve(fs, base, src).value, d, leaf)
    ensures var (ok, fs') := Move(fs, base, src, dest);
      ok && Rooted(fs') && d in fs'.nodes && FindChild(fs', d, leaf) == Resolve(fs, base, src)
  {
    var s := Resolve(fs, base, src).value;
    var there := FindChild(fs, d, leaf);
    assert Sound(fs, d);
    TargetOk(fs, base, dest, s);
    assert Target(fs, base, dest, s) == Some((d, leaf));
    if fs.nodes[s].kind == File { NothingUnderFile(fs, s, d); }
    LineageOfParent(fs, d);
    MoveNodeSafe(fs, s, d, leaf);
    var fs' := MoveNode(fs, s, d, leaf);
    assert Moved(fs, fs', s, d, leaf, s);
    ChildFound(fs', d, s);
  }

  ghost predicate CopiesTo(fs: Fs, base: Id, dest: Str, src: Id, d: Id, leaf: Str)
    requires Forest(fs) && base in fs.nodes && src in fs.nodes
  {
    && Lands(fs, base, dest, src, d, leaf) && Vacant(fs, d, leaf)
    && !(fs.nodes[src].kind == Dir && Inside(fs, src, d))
  }

  /**
   * A copy succeeds if and only if the source is there, the destination names a new entry of a directory, and that
   * directory is not inside a directory being copied. Then a new node is found there that holds the source's tree with
   * each directory's order reversed, and every old node is where it was.
   */
  lemma CopyIs(fs: Fs, base: Id, src: Str, dest: Str)
    requires Rooted(fs) && base in fs.nodes && Utf8(dest) && fs.nodes[fs.root].name == []
    ensures var (ok, fs'), s := Copy(fs, base, src, dest), Resolve(fs, base, src);
      && (ok <==> s.Some? && exists d, leaf :: CopiesTo(fs, base, dest, s.value, d, leaf))
      && (ok ==> forall d, leaf | CopiesTo(fs, base, dest, s.value, d, leaf) :: CopiedThere(fs, fs', s.value, d, leaf))
  {
    var s := Resolve(fs, base, src);
    if s.Some? {
      forall d, leaf | CopiesTo(fs, base, dest, s.value, d, leaf)
        ensures Copy(fs, base, src, dest).0 && CopiedThere(fs, Copy(fs, base, src, dest).1, s.value, d, leaf)
      {
        CopyLands(fs, base, src, dest, d, leaf);
      }
      if Copy(fs, base, src, dest).0 {
        var (d, leaf) := Target(fs, base, dest, s.value).value;
        VacantIs(fs, d, leaf);
        assert CopiesTo(fs, base, dest, s.value, d, leaf);
      }
    }
  }

  ghost predicate CopiedThere(fs: Fs, fs': Fs, src: Id, d: Id, leaf: Str)
    requires Forest(fs) && src in fs.nodes
  {
    && Grown(fs, fs') && fs.next !in fs.nodes && fs.next in fs'.nodes && d in fs'.nodes
    && FindChild(fs', d, leaf) == Some(fs.next) && TreeAt(fs', fs.next) == Mirror(TreeAt(fs, src)).(name := leaf)
  }

  lemma CopyNodeIs(fs: Fs, src: Id, d: Id, leaf: Str)
    requires Rooted(fs) && src in fs.nodes && d in fs.nodes && fs.nodes[d].kind == Dir
    requires NameOk(leaf) && FindChild(fs, d, leaf).None?
    ensures CopiedThere(fs, CopyNode(fs, src, d, leaf), src, d, leaf)
  {
    CopyNodeSafe(fs, src, d, leaf);
    var fs' := CopyNode(fs, src, d, leaf);
    forall n | n in fs.nodes ensures SamePlace(fs, fs', n) {}
    EntryFound(fs', d, fs.next);
  }

  lemma EntryFound(fs: Fs, d: Id, k: Id)
    requires Forest(fs) && d in fs.nodes && k in fs.nodes[d].kids
    ensures k in fs.nodes && FindChild(fs, d, fs.nodes[k].name) == Some(k)
  {
    assert Sound(fs, d);
    ChildFound(fs, d, k);
  }

  lemma CopyLands(fs: Fs, base: Id, src: Str, dest: Str, d: Id, leaf: Str)
    requires Rooted(fs) && base in fs.nodes && Utf8(dest) && fs.nodes[fs.root].name == []
    requires Resolve(fs, base, src).Some? && CopiesTo(fs, base, dest, Resolve(fs, base, src).value, d, leaf)
    ensures var (ok, fs'), s := Copy(fs, base, src, dest), Resolve(fs, base, src).value;
      ok && CopiedThere(fs, fs', s, d, leaf)
  {
    var s := Resolve(fs, base, src).value;
    assert Sound(fs, d);
    VacantIs(fs, d, leaf);
    TargetOk(fs, base, dest, s);
    assert Target(fs, base, dest, s) == Some((d, leaf));
    CopyNodeIs(fs, s, d, leaf);
  }

  // Working directories.

  /** chdir succeeds if and only if the path leads to a directory; then paths from there are paths through it. */
  lemma ChdirIs(s: Sys, i: nat, path: Str, q: Str)
    requires Inv(s) && i < |s.cwds| && s.cwds[i].Some? && Utf8(path) && path != []
    ensures s.cwds[i].value in s.fs.nodes
    ensures var s', n := Apply(s, i, Chdir(path)), Resolve(s.fs, s.cwds[i].value, path);
      if n.None? || s.fs.nodes[n.value].kind != Dir then s' == s
      else
        && s'.fs == s.fs && s'.cwds == s.cwds[i := n]
        && Resolve(s.fs, n.value, TrimStart(q)) == Resolve(s.fs, s.cwds[i].value, path + [SLASH] + q)
  {
    assert CwdOk(s.fs, s.cwds[i]);
    ResolveOn(s.fs, s.cwds[i].value, path, q);
  }

  /** unlink removes what the path leads to unless it is the root or has some process's working directory in it. */
  lemma UnlinkIs(s: Sys, i: nat, path: Str)
    requires Inv(s) && i < |s.cwds| && s.cwds[i].Some? && Utf8(path)
    ensures s.cwds[i].value in s.fs.nodes
    ensures var s', n := Apply(s, i, Unlink(path)), Resolve(s.fs, s.cwds[i].value, path);
      if n.None? || n.value == s.fs.root || CwdWithin(s, n.value) then s' == s
      else
        && Rooted(s'.fs) && s'.cwds == s.cwds && s'.fs.nodes.Keys == s.fs.nodes.Keys - Subtree(s.fs, n.value)
        && s.cwds[i].value in s'.fs.nodes && Resolve(s'.fs, s.cwds[i].value, path) == None
  {
    assert CwdOk(s.fs, s.cwds[i]);
    var cwd := s.cwds[i].value;
    RemoveIs(s.fs, cwd, path, cwd);
    var n := Resolve(s.fs, cwd, path);
    if n.Some? && n.value in Lineage(s.fs, cwd) {
      assert s.cwds[i] in s.cwds && Under(s.fs, n.value, s.cwds[i].value);
    }
  }

  // The calls, from process `i`.

  ghost predicate Calling(s: Sys, i: nat) { i < |s.cwds| && s.cwds[i].Some? && s.cwds[i].value in s.fs.nodes }

  /** mkdir makes a directory, and creating a file a file, or nothing. */
  lemma MakeCallIs(s: Sys, i: nat, path: Str, kind: Kind)
    requires Inv(s) && Calling(s, i) && Utf8(path)
    ensures var s', cwd := Apply(s, i, if kind == Dir then Mkdir(path) else CreateFile(path)), s.cwds[i].value;
      && s'.cwds == s.cwds
      && if !CanCreate(s.fs, cwd, path) then s' == s
         else var (d, leaf) := ParentAndLeaf(s.fs, cwd, path).value; Made(s.fs, s'.fs, d, leaf, kind)
  {
    CreateIs(s.fs, s.cwds[i].value, path, kind);
    CreateSafe(s.fs, s.cwds[i].value, path, kind);
  }

  /** A file written is there, whole, under its path; a call that fails changes nothing. */
  lemma WriteCallIs(s: Sys, i: nat, path: Str, data: seq<Byte>)
    requires Inv(s) && Calling(s, i) && Utf8(path)
    ensures var s', cwd, n := Apply(s, i, Write(path, data)), s.cwds[i].value, Resolve(s.fs, s.cwds[i].value, path);
      && s'.cwds == s.cwds
      && if IsFile(s.fs, n) || (n.None? && CanCreate(s.fs, cwd, path)) then
           && Grown(s.fs, s'.fs) && cwd in s'.fs.nodes && IsFile(s'.fs, Resolve(s'.fs, cwd, path))
           && s'.fs.nodes[Resolve(s'.fs, cwd, path).value].data == data
         else s' == s
  {
    WriteIs(s.fs, s.cwds[i].value, path, data);
  }

  /** rename and copy are the move and the copy of `MoveIs` and `CopyIs`, and touch no working directory. */
  lemma MoveCallsAre(s: Sys, i: nat, src: Str, dest: Str)
    requires Inv(s) && Calling(s, i) && Utf8(src) && Utf8(dest)
    ensures Apply(s, i, Rename(src, dest)) == s.(fs := Move(s.fs, s.cwds[i].value, src, dest).1)
    ensures Apply(s, i, CopyTo(src, dest)) == s.(fs := Copy(s.fs, s.cwds[i].value, src, dest).1)
  {
  }

  /** A child starts where its parent is; a process that ends is nowhere. */
  lemma ForkAndExitAre(s: Sys, i: nat, slot: nat)
    requires Inv(s) && Calling(s, i)
    ensures Apply(s, i, Exit) == s.(cwds := s.cwds[i := None])
    ensures slot < |s.cwds| && s.cwds[slot].None? ==>
      var s' := Apply(s, i, Fork(slot));
      s'.fs == s.fs && |s'.cwds| == |s.cwds| && s'.cwds[slot] == s'.cwds[i] == s.cwds[i]
  {
  }
}
