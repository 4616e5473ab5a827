/** Create, remove, copy and move, each proved to keep one tree and to change exactly what it says. */
module FsOps {
  import opened Wrappers
  import opened Names
  import opened FsModel
  import opened FsTree

  // Names that come out of paths are good names.

  lemma LeafIsOk(s: Str)
    requires Utf8(s) && SLASH !in s && Cut(s) != []
    ensures NameOk(Cut(s))
  {
    CutIsUtf8(s, Floor(s, NAME_MAX - 1));
  }

  lemma {:induction false} TrimIsUtf8(s: Str)
    requires Utf8(s)
    ensures Utf8(TrimEnd(s))
  {
    if s != [] && s[|s| - 1] == SLASH {
      CutIsUtf8(s, |s| - 1);
      TrimIsUtf8(s[..|s| - 1]);
    }
  }

  lemma AfterSlash(s: Str, i: nat)
    requires Utf8(s) && i < |s| && s[i] == SLASH
    ensures Utf8(s[i + 1..])
  {
    CutIsUtf8(s, i);
    var t := s[i..];
    assert CharLen(t[0]) == 1 && t[1..] == s[i + 1..];
  }

  lemma ParentAndLeafOk(fs: Fs, base: Id, path: Str)
    requires Forest(fs) && base in fs.nodes && Utf8(path)
    ensures var pl := ParentAndLeaf(fs, base, path); pl.Some? && pl.value.1 != [] ==> NameOk(pl.value.1)
  {
    TrimIsUtf8(path);
    var p := TrimEnd(path);
    var slash := LastSlash(p);
    if slash.Some? { AfterSlash(p, slash.value); }
    var leaf := if slash.Some? then p[slash.value + 1..] else p;
    if Cut(leaf) != [] { LeafIsOk(leaf); }
  }

  // Create.

  ghost function Create(fs: Fs, base: Id, path: Str, kind: Kind): (r: (bool, Fs))
    requires Rooted(fs) && base in fs.nodes
  {
    var pl := ParentAndLeaf(fs, base, path);
    if pl.None? || fs.nodes[pl.value.0].kind != Dir || pl.value.1 == [] || FindChild(fs, pl.value.0, pl.value.1).Some?
    then (false, fs)
    else (true, Add(fs, pl.value.0, pl.value.1, kind))
  }

  /** The new node is `fs.next`. */
  ghost function Add(fs: Fs, parent: Id, name: Str, kind: Kind): Fs
    requires Forest(fs) && parent in fs.nodes
  {
    AllocSafe(fs, name, kind, []);
    Link(Alloc(fs, name, kind, []), parent, fs.next)
  }

  lemma FreshIsLinkable(fs: Fs, parent: Id, fs1: Fs, child: Id)
    requires Forest(fs) && Forest(fs1) && parent in fs.nodes && fs.nodes[parent].kind == Dir
    requires child !in fs.nodes && child in fs1.nodes && fs1.nodes[child].parent == None && fs1.root == fs.root
    requires forall n | n in fs.nodes :: n in fs1.nodes && fs1.nodes[n] == fs.nodes[n]
    requires NameOk(fs1.nodes[child].name) && FindChild(fs, parent, fs1.nodes[child].name).None?
    ensures Linkable(fs1, parent, child)
  {
    assert Sound(fs, parent) && Sound(fs1, parent);
    var line := Lineage(fs, parent);
    LineKept(fs, fs1, line, parent);
    LineageIs(fs1, line, parent);
  }

  lemma AddSafe(fs: Fs, parent: Id, name: Str, kind: Kind)
    requires Rooted(fs) && parent in fs.nodes && fs.nodes[parent].kind == Dir && NameOk(name)
             && FindChild(fs, parent, name).None?
    ensures var fs' := Add(fs, parent, name, kind);
            && Rooted(fs') && fs'.root == fs.root && fs'.next == fs.next + 1
            && fs.next !in fs.nodes && parent != fs.next
            && fs'.nodes == fs.nodes[fs.next := Node(name, kind, Some(parent), [], [])]
                                    [parent := fs.nodes[parent].(kids := [fs.next] + fs.nodes[parent].kids)]
  {
    AllocSafe(fs, name, kind, []);
    var fs1 := Alloc(fs, name, kind, []);
    FreshIsLinkable(fs, parent, fs1, fs.next);
    LinkSafe(fs1, parent, fs.next);
    var fs' := Add(fs, parent, name, kind);
    assert fs'.nodes == fs.nodes[fs.next := Node(name, kind, Some(parent), [], [])]
                                [parent := fs.nodes[parent].(kids := [fs.next] + fs.nodes[parent].kids)];
  }

  lemma CreateSafe(fs: Fs, base: Id, path: Str, kind: Kind)
    requires Rooted(fs) && base in fs.nodes && Utf8(path)
    ensures var (ok, fs') := Create(fs, base, path, kind);
            && Rooted(fs')
            && (forall n | n in fs.nodes :: n in fs'.nodes && fs'.nodes[n].parent == fs.nodes[n].parent)
            && (!ok ==> fs' == fs)
            && (ok ==> fs'.nodes.Keys == fs.nodes.Keys + {fs.next} && fs.next !in fs.nodes)
  {
    ParentAndLeafOk(fs, base, path);
    var (ok, fs') := Create(fs, base, path, kind);
    if ok {
      var pl := ParentAndLeaf(fs, base, path).value;
      AddSafe(fs, pl.0, pl.1, kind);
    }
  }

  // Remove.

  ghost function Remove(fs: Fs, base: Id, path: Str, cwd: Id): (r: (bool, Fs))
    requires Rooted(fs) && base in fs.nodes && cwd in fs.nodes
  {
    assert Sound(fs, cwd);
    var n := Resolve(fs, base, path);
    if n.None? || n.value == fs.root || Under(fs, n.value, cwd) then (false, fs)
    else (true, RemoveNode(fs, n.value))
  }

  ghost function RemoveNode(fs: Fs, id: Id): Fs
    requires Rooted(fs) && id in fs.nodes && id != fs.root
  {
    assert Sound(fs, id);
    var parent := fs.nodes[id].parent.value;
    UnlinkSafe(fs, parent, id);
    FreeTree(Unlink(fs, parent, id), id)
  }

  /** Once cut off, a node's tree is what was under it before. */
  lemma UnlinkedSubtree(fs: Fs, id: Id)
    requires Rooted(fs) && id in fs.nodes && id != fs.root
    ensures fs.nodes[id].parent.Some? && fs.nodes[id].parent.value in fs.nodes && fs.nodes[id].parent.value != id
    ensures var fs1 := Unlink(fs, fs.nodes[id].parent.value, id); Forest(fs1) && Subtree(fs1, id) == Subtree(fs, id)
  {
    assert Sound(fs, id);
    var parent := fs.nodes[id].parent.value;
    UnlinkSafe(fs, parent, id);
    var fs1 := Unlink(fs, parent, id);
    NodesHaveLines(fs);
    NodesHaveLines(fs1);
    forall n | n in fs.nodes ensures Under(fs1, id, n) <==> Under(fs, id, n) {
      var k := if Under(fs, id, n) then IndexIn(Lineage(fs, n), id) else 0;
      UnlinkLine(fs, parent, id, n, k);
    }
  }

  ghost function Cropped(fs: Fs, id: Id, n: Id): Node
    requires id in fs.nodes && n in fs.nodes
  {
    if Some(n) == fs.nodes[id].parent then fs.nodes[n].(kids := Without(fs.nodes[n].kids, id)) else fs.nodes[n]
  }

  lemma RemoveNodeIs(fs: Fs, id: Id)
    requires Rooted(fs) && id in fs.nodes && id != fs.root
    ensures var fs' := RemoveNode(fs, id);
            && Forest(fs') && fs'.root == fs.root && fs'.next == fs.next
            && fs'.nodes.Keys == fs.nodes.Keys - Subtree(fs, id)
            && HasLine(fs, id) && id in Subtree(fs, id)
            && fs.nodes[id].parent.Some? && fs.nodes[id].parent.value in fs.nodes && fs.nodes[id].parent.value != id
            && forall n | n in fs'.nodes :: fs'.nodes[n] == Unlink(fs, fs.nodes[id].parent.value, id).nodes[n]
  {
    UnlinkedSubtree(fs, id);
    FreeSafe(Unlink(fs, fs.nodes[id].parent.value, id), id);
    LineageOfParent(fs, id);
  }

  /** Exactly one subtree goes; every other node stays as it was, but for one entry of one list. */
  lemma RemoveNodeSafe(fs: Fs, id: Id)
    requires Rooted(fs) && id in fs.nodes && id != fs.root
    ensures var fs' := RemoveNode(fs, id);
            && Rooted(fs') && fs'.root == fs.root
            && fs'.nodes.Keys == fs.nodes.Keys - Subtree(fs, id)
            && forall n | n in fs'.nodes :: fs'.nodes[n] == Cropped(fs, id, n)
  {
    RemoveNodeIs(fs, id);
    var fs' := RemoveNode(fs, id);
    forall n | n in fs'.nodes ensures fs'.nodes[n] == Cropped(fs, id, n) {}
  }

  // Move.

  ghost function Move(fs: Fs, base: Id, src: Str, dest: Str): (r: (bool, Fs))
    requires Rooted(fs) && base in fs.nodes
  {
    var s := Resolve(fs, base, src);
    if s.None? || s.value == fs.root then (false, fs)
    else
      var target := Target(fs, base, dest, s.value);
      if target.None? || target.value.1 == [] then (false, fs)
      else
        var (parent, leaf) := target.value;
        var there := FindChild(fs, parent, leaf);
        assert Sound(fs, parent);
        if there.Some? && there.value != s.value then (false, fs)
        else if fs.nodes[s.value].kind == Dir && Under(fs, s.value, parent) then (false, fs)
        else (true, MoveNode(fs, s.value, parent, leaf))
  }

  ghost function SetName(fs: Fs, id: Id, name: Str): Fs
    requires id in fs.nodes
  {
    fs.(nodes := fs.nodes[id := fs.nodes[id].(name := Cut(name))])
  }

  ghost function MoveNode(fs: Fs, id: Id, parent: Id, leaf: Str): Fs
    requires Rooted(fs) && id in fs.nodes && id != fs.root && parent in fs.nodes && parent != id
  {
    assert Sound(fs, id);
    UnlinkSafe(fs, fs.nodes[id].parent.value, id);
    Link(SetName(Unlink(fs, fs.nodes[id].parent.value, id), id, leaf), parent, id)
  }

  lemma SetNameForest(fs: Fs, id: Id, name: Str)
    requires Forest(fs) && id in fs.nodes && fs.nodes[id].parent == None
    ensures Forest(SetName(fs, id, name))
  {
    var fs' := SetName(fs, id, name);
    forall n ensures Sound(fs', n) {
      assert Sound(fs, n);
      if n in fs.nodes {
        LineKept(fs, fs', Lineage(fs, n), n);
        forall k | k in fs.nodes[n].kids ensures SameLabel(fs, fs', k) {}
        KidsKept(fs, fs', n);
      }
    }
  }

  lemma SetNameLine(fs: Fs, id: Id, name: Str, n: Id)
    requires Forest(fs) && id in fs.nodes && n in fs.nodes
    ensures HasLine(fs, n) && HasLine(SetName(fs, id, name), n) && Lineage(SetName(fs, id, name), n) == Lineage(fs, n)
  {
    var fs' := SetName(fs, id, name);
    assert Sound(fs, n);
    LineKept(fs, fs', Lineage(fs, n), n);
    LineageIs(fs', Lineage(fs, n), n);
  }

  ghost predicate Movable(fs: Fs, id: Id, parent: Id, leaf: Str) {
    && Rooted(fs) && id in fs.nodes && id != fs.root && parent in fs.nodes && fs.nodes[parent].kind == Dir
    && NameOk(leaf) && HasLine(fs, parent) && !Under(fs, id, parent) && parent != id
    && FindChild(fs, parent, leaf) in {None, Some(id)}
  }

  /** The node cut off, under its new name, and where it will go. */
  lemma CutOff(fs: Fs, id: Id, parent: Id, leaf: Str) returns (fs1: Fs)
    requires Movable(fs, id, parent, leaf)
    ensures fs.nodes[id].parent.Some? && fs.nodes[id].parent.value in fs.nodes && fs.nodes[id].parent.value != id
    ensures fs1 == Unlink(fs, fs.nodes[id].parent.value, id) && Forest(fs1)
    ensures HasLine(fs1, parent) && !Under(fs1, id, parent)
    ensures forall k | k in fs1.nodes[parent].kids :: k in fs1.nodes && k != id && fs1.nodes[k].name != leaf
  {
    assert Sound(fs, id);
    var was := fs.nodes[id].parent.value;
    UnlinkSafe(fs, was, id);
    fs1 := Unlink(fs, was, id);
    UnlinkLine(fs, was, id, parent, 0);
    assert Sound(fs1, parent) && Sound(fs, parent);
    forall k | k in fs1.nodes[parent].kids ensures k in fs1.nodes && k != id && fs1.nodes[k].name != leaf {
      assert fs1.nodes[k].parent == Some(parent);
      NoOtherNamed(fs, parent, leaf, id, k);
    }
  }

  lemma MoveLinkable(fs: Fs, id: Id, parent: Id, leaf: Str)
    requires Movable(fs, id, parent, leaf)
    ensures fs.nodes[id].parent.Some? && fs.nodes[id].parent.value in fs.nodes && fs.nodes[id].parent.value != id
    ensures Linkable(SetName(Unlink(fs, fs.nodes[id].parent.value, id), id, leaf), parent, id)
  {
    var fs1 := CutOff(fs, id, parent, leaf);
    SetNameForest(fs1, id, leaf);
    SetNameLine(fs1, id, leaf, parent);
  }

  lemma NoOtherNamed(fs: Fs, parent: Id, leaf: Str, id: Id, k: Id)
    requires Forest(fs) && parent in fs.nodes && FindChild(fs, parent, leaf) in {None, Some(id)}
    requires k in fs.nodes[parent].kids && k != id
    ensures k in fs.nodes && fs.nodes[k].name != leaf
  {
    assert Sound(fs, parent);
    var kids := fs.nodes[parent].kids;
    if FindChild(fs, parent, leaf) == Some(id) {
      var i, j := IndexIn(kids, id), IndexIn(kids, k);
      assert fs.nodes[kids[i]].name != fs.nodes[kids[j]].name;
    }
  }

  ghost predicate Moved(fs: Fs, fs': Fs, id: Id, parent: Id, leaf: Str, n: Id) {
    && n in fs.nodes && n in fs'.nodes
    && fs'.nodes[n].kind == fs.nodes[n].kind && fs'.nodes[n].data == fs.nodes[n].data
    && fs'.nodes[n].name == (if n == id then leaf else fs.nodes[n].name)
    && fs'.nodes[n].parent == if n == id then Some(parent) else fs.nodes[n].parent
  }

  /** No node comes or goes, and only the node moved changes name and place. */
  lemma MoveNodeSafe(fs: Fs, id: Id, parent: Id, leaf: Str)
    requires Movable(fs, id, parent, leaf)
    ensures var fs' := MoveNode(fs, id, parent, leaf);
            && Rooted(fs') && fs'.root == fs.root && fs'.next == fs.next && fs'.nodes.Keys == fs.nodes.Keys
            && forall n | n in fs.nodes :: Moved(fs, fs', id, parent, leaf, n)
  {
    MoveLinkable(fs, id, parent, leaf);
    var fs2 := SetName(Unlink(fs, fs.nodes[id].parent.value, id), id, leaf);
    LinkSafe(fs2, parent, id);
    var fs' := MoveNode(fs, id, parent, leaf);
    assert fs' == Link(fs2, parent, id);
    forall n | n in fs.nodes ensures Moved(fs, fs', id, parent, leaf, n) { MovedIs(fs, id, parent, leaf, fs2, n); }
    forall n | n in fs'.nodes && n != fs'.root ensures fs'.nodes[n].parent.Some? {
      assert Moved(fs, fs', id, parent, leaf, n);
    }
  }

  lemma MovedIs(fs: Fs, id: Id, parent: Id, leaf: Str, fs2: Fs, n: Id)
    requires id in fs.nodes && parent in fs.nodes && n in fs.nodes && id != parent
    requires fs.nodes[id].parent.Some? && fs.nodes[id].parent.value in fs.nodes && fs.nodes[id].parent.value != id
    requires fs2 == SetName(Unlink(fs, fs.nodes[id].parent.value, id), id, leaf) && NameOk(leaf)
    ensures Moved(fs, Link(fs2, parent, id), id, parent, leaf, n)
  {
  }
}
