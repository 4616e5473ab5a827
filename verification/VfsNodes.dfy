/**
 * The vnodes as they are kept: parent, first-child and next-sibling pointers, walked and rewired in place.
 * Each routine is proved against the operation of FsModel on the tree the pointers spell out.
 */
module FsNodes {
  import opened Wrappers
  import opened Names
  import opened FsModel
  import opened FsTree
  import opened FsOps
  import opened FsCopy
  import FsRuns

  datatype Vnode = Vnode(name: Str, kind: Kind, parent: Option<Id>, children: Option<Id>, sibling: Option<Id>,
      data: seq<Byte>)

  /** Following sibling pointers from `first` visits exactly `ids`. */
  ghost predicate Spells(vs: map<Id, Vnode>, first: Option<Id>, ids: seq<Id>)
    decreases |ids|
  {
    if ids == [] then first == None
    else first == Some(ids[0]) && ids[0] in vs && Spells(vs, vs[ids[0]].sibling, ids[1..])
  }

  ghost predicate Stores(vs: map<Id, Vnode>, fs: Fs, id: Id) {
    id in fs.nodes ==>
      && id in vs
      && Node(vs[id].name, vs[id].kind, vs[id].parent, fs.nodes[id].kids, vs[id].data) == fs.nodes[id]
      && Spells(vs, vs[id].children, fs.nodes[id].kids)
  }

  lemma {:induction false} SpellsKept(vs: map<Id, Vnode>, vs': map<Id, Vnode>, first: Option<Id>, ids: seq<Id>)
    requires Spells(vs, first, ids)
    requires forall k | k in ids :: k in vs' && (k in vs ==> vs'[k].sibling == vs[k].sibling)
    ensures Spells(vs', first, ids)
    decreases |ids|
  {
    if ids != [] { SpellsKept(vs, vs', vs[ids[0]].sibling, ids[1..]); }
  }

  /** A list with one entry taken out: its predecessor's pointer now skips it. */
  lemma {:induction false} SpellsWithout(vs: map<Id, Vnode>, vs': map<Id, Vnode>, first: Option<Id>, first': Option<Id>,
      ids: seq<Id>, k: nat)
    requires Spells(vs, first, ids) && k < |ids| && NoRepeat(ids) && forall i | 0 <= i < |ids| :: ids[i] in vs
    requires forall i | 0 <= i < |ids| && i != k ::
             ids[i] in vs' && (i + 1 != k ==> vs'[ids[i]].sibling == vs[ids[i]].sibling)
    requires k > 0 ==> vs'[ids[k - 1]].sibling == vs[ids[k]].sibling && first' == first
    requires k == 0 ==> first' == vs[ids[0]].sibling
    ensures Spells(vs', first', Without(ids, ids[k]))
    decreases |ids|
  {
    if k == 0 {
      assert forall i | 0 <= i < |ids[1..]| :: ids[1..][i] == ids[i + 1];
      SpellsKept(vs, vs', vs[ids[0]].sibling, ids[1..]);
    } else {
      var rest := ids[1..];
      assert forall i | 0 <= i < |rest| :: rest[i] == ids[i + 1];
      assert ids[0] != ids[k] && rest[k - 1] == ids[k];
      SpellsWithout(vs, vs', vs[ids[0]].sibling, vs'[ids[0]].sibling, rest, k - 1);
    }
  }

  ghost predicate NoRepeat(ids: seq<Id>) { forall i, j | 0 <= i < j < |ids| :: ids[i] != ids[j] }

  lemma KidsNoRepeat(fs: Fs, id: Id)
    requires Forest(fs) && id in fs.nodes
    ensures NoRepeat(fs.nodes[id].kids)
  {
    assert Sound(fs, id);
    var kids := fs.nodes[id].kids;
    forall i, j | 0 <= i < j < |kids| ensures kids[i] != kids[j] {
      assert fs.nodes[kids[i]].name != fs.nodes[kids[j]].name;
    }
  }

  /** A parent pointer leads to the node before on the line. */
  lemma OneUp(vs: map<Id, Vnode>, fs: Fs, node: Id, k: nat)
    requires Forest(fs) && node in fs.nodes && HasLine(fs, node) && 0 < k <= |Lineage(fs, node)|
    requires forall id :: Stores(vs, fs, id)
    ensures var line := Lineage(fs, node);
            line[k - 1] in vs && vs[line[k - 1]].parent == if k == 1 then None else Some(line[k - 2])
  {
    assert Stores(vs, fs, Lineage(fs, node)[k - 1]);
  }

  class VnodeStore {
    var vs: map<Id, Vnode>
    var root: Id
    var next: Id
    ghost var fs: Fs

    ghost predicate Valid()
      reads this
    {
      && Forest(fs) && root == fs.root && next == fs.next && vs.Keys == fs.nodes.Keys
      && forall id :: Stores(vs, fs, id)
    }

    /** init(): a root without a name, and nothing else. */
    constructor ()
      ensures Valid() && fs == EMPTY && Rooted(fs)
    {
      root, next := 0, 1;
      vs := map[0 := Vnode([], Dir, None, None, None, [])];
      fs := EMPTY;
      new;
      FsRuns.BootIsATree([]);
    }

    method FindChild(dir: Id, name: Str) returns (found: Option<Id>)
      requires Valid() && dir in vs
      ensures found == FsModel.FindChild(fs, dir, name)
    {
      assert Stores(vs, fs, dir) && Sound(fs, dir);
      ghost var kids := fs.nodes[dir].kids;
      ghost var i := 0;
      var c := vs[dir].children;
      while c.Some?
        invariant i <= |kids| && Spells(vs, c, kids[i..])
        invariant FindIn(fs, kids[i..], name) == FindIn(fs, kids, name)
        decreases |kids| - i
      {
        assert kids[i..][1..] == kids[i + 1..];
        assert Stores(vs, fs, c.value);
        if vs[c.value].name == name { return c; }
        c := vs[c.value].sibling;
        i := i + 1;
      }
      found := None;
    }

    method IsAncestorOrSelf(ancestor: Id, node: Id) returns (r: bool)
      requires Valid() && node in vs
      ensures HasLine(fs, node) && r == Under(fs, ancestor, node)
    {
      assert Sound(fs, node);
      ghost var line := Lineage(fs, node);
      ghost var k: nat := |line|;
      var n := Some(node);
      while n.Some?
        invariant k <= |line| && n == (if k == 0 then None else Some(line[k - 1]))
        invariant ancestor !in line[k..]
        decreases k
      {
        if n.value == ancestor { return true; }
        OneUp(vs, fs, node, k);
        assert line[k - 1..] == [line[k - 1]] + line[k..];
        n := vs[n.value].parent;
        k := k - 1;
      }
      assert line[0..] == line;
      r := false;
    }

    method LinkChild(parent: Id, child: Id)
      requires Valid() && Linkable(fs, parent, child)
      modifies this
      ensures Valid() && parent != child && fs == Link(old(fs), parent, child)
    {
      assert Stores(vs, fs, parent) && Stores(vs, fs, child);
      NotItself(fs, parent, child);
      LinkSafe(fs, parent, child);
      ghost var was, wasFs := vs, fs;
      vs := vs[child := vs[child].(parent := Some(parent), sibling := vs[parent].children)];
      vs := vs[parent := vs[parent].(children := Some(child))];
      fs := Link(fs, parent, child);
      forall id ensures Stores(vs, fs, id) {
        assert Stores(was, wasFs, id) && Sound(wasFs, id);
        if id in wasFs.nodes { SpellsKept(was, vs, was[id].children, wasFs.nodes[id].kids); }
      }
    }

    /** The entry before `child` in its parent's list, if any; it is the `k`th. */
    method EntryBefore(parent: Id, child: Id) returns (prev: Option<Id>, ghost k: nat)
      requires Valid() && child in vs && fs.nodes[child].parent == Some(parent) && parent in vs
      ensures k < |fs.nodes[parent].kids| && fs.nodes[parent].kids[k] == child
      ensures prev == if k == 0 then None else Some(fs.nodes[parent].kids[k - 1])
    {
      assert Sound(fs, child) && Stores(vs, fs, parent) && Sound(fs, parent);
      ghost var kids := fs.nodes[parent].kids;
      k := 0;
      prev := None;
      var c := vs[parent].children;
      while c != Some(child)
        invariant k <= |kids| && Spells(vs, c, kids[k..]) && child in kids[k..]
        invariant prev == (if k == 0 then None else Some(kids[k - 1]))
        decreases |kids| - k
      {
        assert kids[k..][1..] == kids[k + 1..];
        prev := c;
        c := vs[c.value].sibling;
        k := k + 1;
      }
    }

    method UnlinkChild(parent: Id, child: Id)
      requires Valid() && child in vs && fs.nodes[child].parent == Some(parent)
      modifies this`vs, this`fs
      ensures parent in old(fs).nodes && parent != child
      ensures Valid() && fs == Unlink(old(fs), parent, child)
    {
      assert Sound(fs, child) && Sound(fs, parent);
      UnlinkSafe(fs, parent, child);
      ghost var was, wasFs := vs, fs;
      var prev, k := EntryBefore(parent, child);
      var rest := vs[child].sibling;
      vs := vs[child := vs[child].(sibling := None, parent := None)];
      if prev.None? {
        vs := vs[parent := vs[parent].(children := rest)];
      } else {
        vs := vs[prev.value := vs[prev.value].(sibling := rest)];
      }
      fs := Unlink(fs, parent, child);
      Unlinked(was, wasFs, vs, parent, child, k);
    }

    method Resolve(base: Id, path: Str) returns (found: Option<Id>)
      requires Valid() && base in vs
      ensures found == FsModel.Resolve(fs, base, path)
    {
      var at := if path != [] && path[0] == SLASH then root else base;
      assert Stores(vs, fs, root);
      var parts := Split(path);
      var i := 0;
      while i < |parts|
        invariant 0 <= i <= |parts| && at in vs
        invariant Walk(fs, at, parts[i..]) == FsModel.Resolve(fs, base, path)
      {
        assert parts[i..][1..] == parts[i + 1..];
        assert Stores(vs, fs, at) && Sound(fs, at);
        var part := Cut(parts[i]);
        if part == [] || part == DOT {
        } else if part == DOTDOT {
          if vs[at].parent.Some? { at := vs[at].parent.value; }
        } else {
          if vs[at].kind != Dir { return None; }
          var c := FindChild(at, part);
          if c.None? { return None; }
          at := c.value;
        }
        i := i + 1;
      }
      found := Some(at);
    }

    /** The names from `node` up to the root's child. */
    method NamesUp(node: Id) returns (parts: seq<Str>)
      requires Valid() && Rooted(fs) && node in vs
      ensures HasLine(fs, node) && parts == Backwards(NamesOf(fs, Lineage(fs, node)[1..]))
    {
      assert Sound(fs, node);
      ghost var line := Lineage(fs, node);
      LineageFromRoot(fs, node);
      parts := [];
      var n := node;
      while n != root
        invariant |parts| < |line| && n == line[|line| - 1 - |parts|] && n in vs
        invariant forall i | 0 <= i < |parts| :: parts[i] == fs.nodes[line[|line| - 1 - i]].name
        decreases |line| - |parts|
      {
        assert Stores(vs, fs, n) && Sound(fs, n);
        assert line[0] == root;
        assert fs.nodes[line[|line| - 1 - |parts|]].parent == Some(line[|line| - 2 - |parts|]);
        parts := parts + [vs[n].name];
        n := vs[n].parent.value;
      }
      OnlyOnceOnLine(fs, line, node, |line| - 1 - |parts|);
    }

    static method JoinBack(parts: seq<Str>) returns (path: Str)
      ensures path == Join(Backwards(parts))
    {
      ghost var names := Backwards(parts);
      path := [];
      var i := |parts|;
      assert names[..0] == [];
      while i > 0
        invariant 0 <= i <= |parts| && path == Join(names[..|names| - i])
      {
        i := i - 1;
        JoinNext(names, |names| - 1 - i);
        path := path + [SLASH] + parts[i];
      }
      assert names[..|names|] == names;
    }

    method Path(node: Id) returns (path: Str)
      requires Valid() && Rooted(fs) && node in vs
      ensures path == PathOf(fs, node)
    {
      var parts := NamesUp(node);
      LineageOfParent(fs, node);
      LineageFromRoot(fs, node);
      if parts == [] { return [SLASH]; }
      path := JoinBack(parts);
      ghost var names := NamesOf(fs, Lineage(fs, node)[1..]);
      assert Backwards(Backwards(names)) == names;
    }

    method FreeChildren(node: Id)
      requires Forest(fs) && node in fs.nodes && Intact(vs, fs, node) && Stores(vs, fs, node)
      modifies this`vs
      ensures Freed(old(vs), vs, fs, fs.nodes[node].kids, |fs.nodes[node].kids|)
      decreases Left(fs, node), 0
    {
      ghost var kids := fs.nodes[node].kids;
      ghost var i := 0;
      var c := vs[node].children;
      while c.Some?
        invariant i <= |kids| && Spells(old(vs), c, kids[i..])
        invariant Freed(old(vs), vs, fs, kids, i)
        decreases |kids| - i
      {
        assert kids[i..][1..] == kids[i + 1..];
        NextKid(old(vs), vs, fs, node, i);
        var next := vs[c.value].sibling;
        ghost var before := vs;
        FreeTree(c.value);
        FreedNext(old(vs), before, vs, fs, kids, i);
        c := next;
        i := i + 1;
      }
    }

    /** Frees a node and everything under it, in place, children first. */
    method FreeTree(node: Id)
      requires Forest(fs) && node in fs.nodes && Intact(vs, fs, node)
      modifies this`vs
      ensures vs == old(vs) - Subtree(fs, node)
      decreases Left(fs, node), 1
    {
      SubtreeHasTop(fs, node);
      assert Stores(vs, fs, node) && Sound(fs, node);
      ghost var kids := fs.nodes[node].kids;
      if vs[node].kind == Dir { FreeChildren(node); }
      assert vs == old(vs) - FreedKids(fs, kids, |kids|);
      SubtreeSplit(fs, node);
      vs := vs - {node};
    }

    method AllocVnode(name: Str, kind: Kind, data: seq<Byte>) returns (node: Id)
      requires Valid() && (kind == Dir ==> data == [])
      modifies this
      ensures Valid() && node == old(fs).next && fs == Alloc(old(fs), name, kind, data)
    {
      AllocSafe(fs, name, kind, data);
      ghost var was, wasFs := vs, fs;
      node := next;
      vs := vs[node := Vnode(Cut(name), kind, None, None, None, data)];
      next := next + 1;
      fs := Alloc(fs, name, kind, data);
      forall id ensures Stores(vs, fs, id) {
        assert Stores(was, wasFs, id) && Sound(wasFs, id);
        if id in wasFs.nodes { SpellsKept(was, vs, was[id].children, wasFs.nodes[id].kids); }
      }
    }

    method ParentAndLeaf(base: Id, path: Str) returns (r: Option<(Id, Str)>)
      requires Valid() && base in vs
      ensures r == FsModel.ParentAndLeaf(fs, base, path)
    {
      var p := TrimEnd(path);
      if p == [] { return None; }
      match LastSlash(p) {
        case None => return Some((base, Cut(p)));
        case Some(0) => return Some((root, Cut(p[1..])));
        case Some(i) =>
          var parent := Resolve(base, p[..i]);
          if parent.None? { return None; }
          return Some((parent.value, Cut(p[i + 1..])));
      }
    }

    method Create(base: Id, path: Str, kind: Kind) returns (ok: bool)
      requires Valid() && Rooted(fs) && base in vs && Utf8(path)
      modifies this
      ensures Valid() && Rooted(fs) && (ok, fs) == FsOps.Create(old(fs), base, path, kind)
    {
      CreateSafe(fs, base, path, kind);
      ParentAndLeafOk(fs, base, path);
      var pl := ParentAndLeaf(base, path);
      if pl.None? { return false; }
      var (parent, leaf) := pl.value;
      assert Stores(vs, fs, parent);
      if vs[parent].kind != Dir || leaf == [] { return false; }
      var there := FindChild(parent, leaf);
      if there.Some? { return false; }
      ghost var was := fs;
      AllocSafe(fs, leaf, kind, []);
      var node := AllocVnode(leaf, kind, []);
      FreshIsLinkable(was, parent, fs, node);
      LinkChild(parent, node);
      ok := true;
    }

    method FreeDetached(node: Id)
      requires Valid() && node in vs && node != root && fs.nodes[node].parent == None
      modifies this`vs, this`fs
      ensures Valid() && fs == FsModel.FreeTree(old(fs), node)
    {
      FreeSafe(fs, node);
      ghost var was := vs;
      FreeTree(node);
      StoredAfterFree(was, vs, fs, node);
      fs := FsModel.FreeTree(fs, node);
    }

    method SetData(node: Id, data: seq<Byte>)
      requires Valid() && Rooted(fs) && node in vs && fs.nodes[node].kind == File
      modifies this`vs, this`fs
      ensures Valid() && fs == FsRuns.SetData(old(fs), node, data)
    {
      FsRuns.SetDataSafe(fs, node, data);
      ghost var was, wasFs := vs, fs;
      vs := vs[node := vs[node].(data := data)];
      fs := FsRuns.SetData(fs, node, data);
      forall id ensures Stores(vs, fs, id) {
        assert Stores(was, wasFs, id) && Stores(was, wasFs, node) && Sound(wasFs, id);
        if id in wasFs.nodes { SpellsKept(was, vs, was[id].children, wasFs.nodes[id].kids); }
      }
    }

    method WriteFound(base: Id, path: Str, data: seq<Byte>) returns (ok: bool)
      requires Valid() && Rooted(fs) && base in vs
      modifies this`vs, this`fs
      ensures Valid() && (ok, fs) == FsRuns.WriteFound(old(fs), base, path, data)
    {
      var n := Resolve(base, path);
      if n.None? { return false; }
      assert Stores(vs, fs, n.value);
      if vs[n.value].kind == Dir { return false; }
      SetData(n.value, data);
      ok := true;
    }

    method WriteBytes(base: Id, path: Str, data: seq<Byte>) returns (ok: bool)
      requires Valid() && Rooted(fs) && base in vs && Utf8(path)
      modifies this
      ensures Valid() && (ok, fs) == FsRuns.WriteBytes(old(fs), base, path, data)
    {
      var n := Resolve(base, path);
      if n.None? {
        CreateSafe(fs, base, path, File);
        var made := Create(base, path, File);
        if !made { return false; }
      }
      ok := WriteFound(base, path, data);
    }

    method RemoveVnode(node: Id)
      requires Valid() && Rooted(fs) && node in vs && node != root
      modifies this`vs, this`fs
      ensures Valid() && fs == RemoveNode(old(fs), node)
    {
      assert Sound(fs, node) && Stores(vs, fs, node);
      UnlinkChild(vs[node].parent.value, node);
      FreeDetached(node);
    }

    method Remove(base: Id, path: Str, cwd: Id) returns (ok: bool)
      requires Valid() && Rooted(fs) && base in vs && cwd in vs
      modifies this
      ensures Valid() && Rooted(fs) && (ok, fs) == FsOps.Remove(old(fs), base, path, cwd)
    {
      var node := Resolve(base, path);
      if node.None? || node.value == root { return false; }
      var above := IsAncestorOrSelf(node.value, cwd);
      if above { return false; }
      RemoveNodeSafe(fs, node.value);
      RemoveVnode(node.value);
      ok := true;
    }

    method Target(base: Id, dest: Str, src: Id) returns (r: Option<(Id, Str)>)
      requires Valid() && base in vs && src in vs
      ensures r == FsModel.Target(fs, base, dest, src)
    {
      var d := Resolve(base, dest);
      assert Stores(vs, fs, src);
      if d.Some? {
        assert Stores(vs, fs, d.value);
        if vs[d.value].kind == Dir { return Some((d.value, vs[src].name)); }
      }
      r := ParentAndLeaf(base, dest);
      if r.Some? {
        assert Stores(vs, fs, r.value.0);
        if vs[r.value.0].kind != Dir { r := None; }
      }
    }

    method SetName(node: Id, name: Str)
      requires Valid() && node in vs && fs.nodes[node].parent == None
      modifies this`vs, this`fs
      ensures Valid() && fs == FsOps.SetName(old(fs), node, name)
    {
      SetNameForest(fs, node, name);
      ghost var was, wasFs := vs, fs;
      vs := vs[node := vs[node].(name := Cut(name))];
      fs := FsOps.SetName(fs, node, name);
      forall id ensures Stores(vs, fs, id) {
        assert Stores(was, wasFs, id) && Stores(was, wasFs, node) && Sound(wasFs, id);
        if id in wasFs.nodes { SpellsKept(was, vs, was[id].children, wasFs.nodes[id].kids); }
      }
    }

    method MoveVnode(node: Id, parent: Id, leaf: Str)
      requires Valid() && Movable(fs, node, parent, leaf)
      modifies this
      ensures Valid() && fs == MoveNode(old(fs), node, parent, leaf)
    {
      assert Stores(vs, fs, node) && Sound(fs, node);
      MoveLinkable(fs, node, parent, leaf);
      UnlinkChild(vs[node].parent.value, node);
      SetName(node, leaf);
      LinkChild(parent, node);
    }

    method Move(base: Id, srcPath: Str, dest: Str) returns (ok: bool)
      requires Valid() && Rooted(fs) && base in vs && Utf8(dest)
      modifies this
      ensures Valid() && Rooted(fs) && (ok, fs) == FsOps.Move(old(fs), base, srcPath, dest)
    {
      FsRuns.MoveSafe(fs, base, srcPath, dest);
      var src := Resolve(base, srcPath);
      if src.None? || src.value == root { return false; }
      var target := Target(base, dest, src.value);
      if target.None? || target.value.1 == [] { return false; }
      var (parent, leaf) := target.value;
      var there := FindChild(parent, leaf);
      if there.Some? && there.value != src.value { return false; }
      var inside := IsAncestorOrSelf(src.value, parent);
      assert Stores(vs, fs, src.value);
      if vs[src.value].kind == Dir && inside { return false; }
      TargetIsMovable(fs, base, dest, src.value);
      MoveVnode(src.value, parent, leaf);
      ok := true;
    }

    method CopyAndLink(c: Id, copy: Id, ghost was: Fs, ghost start: Fs, ghost t: Tree, ghost name: Str, ghost i: nat)
      requires Valid() && Forest(was) && TreeOk(t) && i < |t.kids| && Depicts(was, c, t.kids[i])
      requires Copied(was, fs, copy, t, name, i) && Reached(start, copy, t, i, fs)
      modifies this
      ensures Valid() && Extends(was, fs) && Going(was, start, fs, copy, t, name, i + 1)
      decreases t, 0
    {
      ghost var before := fs;
      DepictsExtends(was, fs, c, t.kids[i]);
      assert Stores(vs, fs, c);
      CopyTreeSafe(fs, t.kids[i], t.kids[i].name);
      var kid := CopyRecursive(c, vs[c].name, t.kids[i]);
      CopyStep(was, before, copy, t, name, i, fs, kid);
      KidLinkable(was, before, copy, t, name, i, fs, kid);
      LinkChild(copy, kid);
      ReachedNext(start, copy, t, i, before, fs);
    }

    /** Copies the `i`th child of a directory being copied and links it in; the child after it. */
    method CopyKid(src: Id, c: Id, copy: Id, ghost was: Fs, ghost start: Fs, ghost t: Tree, ghost name: Str,
        ghost i: nat)
      returns (after: Option<Id>)
      requires Valid() && Forest(was) && TreeOk(t) && Depicts(was, src, t) && i < |t.kids|
               && c == was.nodes[src].kids[i]
      requires Going(was, start, fs, copy, t, name, i)
      modifies this
      ensures Valid() && Going(was, start, fs, copy, t, name, i + 1) && after == KidAt(was, src, i + 1)
      decreases t, 1
    {
      GoingIs(was, start, fs, copy, t, name, i);
      CopyAndLink(c, copy, was, start, t, name, i);
      assert Stores(vs, fs, src);
      NextSibling(vs, vs[src].children, was.nodes[src].kids, i);
      after := vs[c].sibling;
    }

    method CopyAllKids(src: Id, copy: Id, ghost was: Fs, ghost start: Fs, ghost t: Tree, ghost name: Str)
      requires Valid() && Forest(was) && Depicts(was, src, t) && TreeOk(t) && Going(was, start, fs, copy, t, name, 0)
      requires src in vs && vs[src].children == KidAt(was, src, 0)
      modifies this
      ensures Valid() && Going(was, start, fs, copy, t, name, |t.kids|)
      decreases t, 2
    {
      ghost var i := 0;
      var c := vs[src].children;
      while c.Some?
        invariant Valid() && i <= |t.kids| && Going(was, start, fs, copy, t, name, i) && c == KidAt(was, src, i)
        decreases |t.kids| - i
      {
        c := CopyKid(src, c.value, copy, was, start, t, name, i);
        i := i + 1;
      }
    }

    /** A detached copy of what is under `src`; `t` is the tree it holds. */
    method CopyRecursive(src: Id, name: Str, ghost t: Tree) returns (copy: Id)
      requires Valid() && Depicts(fs, src, t) && TreeOk(t)
      modifies this
      ensures Valid() && copy == old(fs).next && fs == CopyTree(old(fs), t, name).0
      decreases t, 3
    {
      ghost var was := fs;
      assert Stores(vs, fs, src);
      CopyStarts(fs, t, name);
      copy := AllocVnode(name, vs[src].kind, vs[src].data);
      ghost var start := fs;
      assert Stores(vs, fs, src) && Reached(start, copy, t, 0, start);
      CopyAllKids(src, copy, was, start, t, name);
      GoingIs(was, start, fs, copy, t, name, |t.kids|);
      ReachedAll(was, name, t, fs);
    }

    method Copy(base: Id, srcPath: Str, dest: Str) returns (ok: bool)
      requires Valid() && Rooted(fs) && base in vs && Utf8(dest) && fs.nodes[root].name == []
      modifies this
      ensures Valid() && Rooted(fs) && (ok, fs) == FsCopy.Copy(old(fs), base, srcPath, dest)
    {
      FsRuns.CopySafe(fs, base, srcPath, dest);
      var src := Resolve(base, srcPath);
      if src.None? { return false; }
      var target := Target(base, dest, src.value);
      if target.None? || target.value.1 == [] { return false; }
      var (parent, leaf) := target.value;
      var there := FindChild(parent, leaf);
      if there.Some? { return false; }
      var inside := IsAncestorOrSelf(src.value, parent);
      assert Stores(vs, fs, src.value);
      if vs[src.value].kind == Dir && inside { return false; }
      FsRuns.TargetOk(fs, base, dest, src.value);
      CopyVnode(src.value, parent, leaf);
      ok := true;
    }

    method CopyVnode(src: Id, parent: Id, leaf: Str)
      requires Valid() && Rooted(fs) && src in vs && parent in vs && fs.nodes[parent].kind == Dir
      requires NameOk(leaf) && FsModel.FindChild(fs, parent, leaf).None?
      modifies this
      ensures Valid() && fs == CopyNode(old(fs), src, parent, leaf)
    {
      ghost var was := fs;
      ghost var t := TreeAt(fs, src);
      CopyTreeSafe(fs, t, leaf);
      var copy := CopyRecursive(src, leaf, t);
      FreshIsLinkable(was, parent, fs, copy);
      LinkChild(parent, copy);
    }
  }

  ghost function KidAt(fs: Fs, id: Id, i: nat): Option<Id>
    requires id in fs.nodes
  {
    if i < |fs.nodes[id].kids| then Some(fs.nodes[id].kids[i]) else None
  }

  /**
   * A copy in progress: `n` children done, with everything that is then known. Over a range of one value, so that all
   * of it is not unfolded at every use.
   */
  ghost predicate Going(was: Fs, start: Fs, fs: Fs, copy: Id, t: Tree, name: Str, n: nat) {
    forall k: nat | n <= k <= n :: Copied(was, fs, copy, t, name, k) && Reached(start, copy, t, k, fs)
  }

  lemma GoingIs(was: Fs, start: Fs, fs: Fs, copy: Id, t: Tree, name: Str, n: nat)
    requires Going(was, start, fs, copy, t, name, n)
    ensures Copied(was, fs, copy, t, name, n) && Reached(start, copy, t, n, fs)
  {
  }

  /** `fs` is the state after `n` children of `t` are copied, likewise. */
  ghost predicate Reached(start: Fs, copy: Id, t: Tree, n: nat, fs: Fs) {
    && n <= |t.kids| && copy in start.nodes && copy < start.next
    && forall k: nat | n <= k <= n :: CopyKids(start, copy, t, k) == fs
  }

  lemma ReachedNext(start: Fs, copy: Id, t: Tree, n: nat, fs: Fs, fs': Fs)
    requires Reached(start, copy, t, n, fs) && n < |t.kids| && copy in fs.nodes && copy < fs.next
    requires fs' == Link(CopyTree(fs, t.kids[n], t.kids[n].name).0, copy, fs.next)
    ensures Reached(start, copy, t, n + 1, fs')
  {
    assert CopyKids(start, copy, t, n) == fs;
  }

  lemma ReachedAll(fs: Fs, name: Str, t: Tree, fs': Fs)
    requires Reached(Alloc(fs, name, t.kind, t.data), fs.next, t, |t.kids|, fs')
    ensures fs' == CopyTree(fs, t, name).0
  {
    assert CopyKids(Alloc(fs, name, t.kind, t.data), fs.next, t, |t.kids|) == fs';
  }

  lemma {:induction false} NextSibling(vs: map<Id, Vnode>, first: Option<Id>, ids: seq<Id>, i: nat)
    requires Spells(vs, first, ids) && i < |ids|
    ensures ids[i] in vs && Spells(vs, vs[ids[i]].sibling, ids[i + 1..])
    decreases i
  {
    if i > 0 {
      NextSibling(vs, vs[ids[0]].sibling, ids[1..], i - 1);
      assert ids[1..][i - 1] == ids[i] && ids[1..][i..] == ids[i + 1..];
    }
  }

  lemma TargetIsMovable(fs: Fs, base: Id, dest: Str, src: Id)
    requires Rooted(fs) && base in fs.nodes && src in fs.nodes && src != fs.root && Utf8(dest)
    requires var target := Target(fs, base, dest, src);
             && target.Some? && target.value.1 != []
             && FindChild(fs, target.value.0, target.value.1) in {None, Some(src)}
             && HasLine(fs, target.value.0) && !(fs.nodes[src].kind == Dir && Under(fs, src, target.value.0))
    ensures var (parent, leaf) := Target(fs, base, dest, src).value; Movable(fs, src, parent, leaf)
  {
    var (parent, leaf) := Target(fs, base, dest, src).value;
    FsRuns.TargetOk(fs, base, dest, src);
    if fs.nodes[src].kind == File { FsRuns.NothingUnderFile(fs, src, parent); }
    LineageOfParent(fs, parent);
  }

  lemma StoredAfterFree(was: map<Id, Vnode>, vs: map<Id, Vnode>, fs: Fs, top: Id)
    requires Forest(fs) && was.Keys == fs.nodes.Keys && (forall id :: Stores(was, fs, id))
    requires vs == was - Subtree(fs, top) && Forest(FreeTree(fs, top))
    ensures vs.Keys == FreeTree(fs, top).nodes.Keys && forall id :: Stores(vs, FreeTree(fs, top), id)
  {
    var fs' := FreeTree(fs, top);
    forall id ensures Stores(vs, fs', id) {
      assert Stores(was, fs, id) && Sound(fs', id);
      if id in fs'.nodes { SpellsKept(was, vs, was[id].children, fs.nodes[id].kids); }
    }
  }

  ghost function LineOf(fs: Fs, id: Id): seq<Id>
    requires Forest(fs) && id in fs.nodes
  {
    assert Sound(fs, id);
    Lineage(fs, id)
  }

  /** Everything under `top` is stored as the tree says. */
  ghost predicate Intact(vs: map<Id, Vnode>, fs: Fs, top: Id)
    requires Forest(fs)
  {
    forall n | n in Subtree(fs, top) :: Stores(vs, fs, n)
  }

  lemma SubtreeHasTop(fs: Fs, top: Id)
    requires Forest(fs) && top in fs.nodes
    ensures top in Subtree(fs, top)
  {
    assert Sound(fs, top);
    assert Lineage(fs, top)[|Lineage(fs, top)| - 1] == top;
  }

  /** What freeing the first `n` children frees. */
  ghost function FreedKids(fs: Fs, kids: seq<Id>, n: nat): set<Id>
    requires Forest(fs) && n <= |kids|
  {
    if n == 0 then {} else FreedKids(fs, kids, n - 1) + Subtree(fs, kids[n - 1])
  }

  /** The subtrees of the first `n` of these are gone, and nothing else. */
  ghost predicate Freed(was: map<Id, Vnode>, vs: map<Id, Vnode>, fs: Fs, kids: seq<Id>, n: nat)
    requires Forest(fs) && n <= |kids|
  {
    forall k: nat | n <= k <= n :: vs == was - FreedKids(fs, kids, k)
  }

  lemma FreedNext(was: map<Id, Vnode>, before: map<Id, Vnode>, vs: map<Id, Vnode>, fs: Fs, kids: seq<Id>, n: nat)
    requires Forest(fs) && n < |kids| && Freed(was, before, fs, kids, n) && vs == before - Subtree(fs, kids[n])
    ensures Freed(was, vs, fs, kids, n + 1)
  {
    assert before == was - FreedKids(fs, kids, n);
    assert FreedKids(fs, kids, n + 1) == FreedKids(fs, kids, n) + Subtree(fs, kids[n]);
  }

  lemma {:induction false} FreedKidsAre(fs: Fs, kids: seq<Id>, n: nat, x: Id)
    requires Forest(fs) && n <= |kids|
    ensures x in FreedKids(fs, kids, n) <==> exists j | 0 <= j < n :: x in Subtree(fs, kids[j])
  {
    if n > 0 { FreedKidsAre(fs, kids, n - 1, x); }
  }

  /** Nothing is under two children of one node. */
  lemma SiblingsApart(fs: Fs, a: Id, b: Id, x: Id)
    requires Forest(fs) && a in fs.nodes && b in fs.nodes && fs.nodes[a].parent.Some?
             && fs.nodes[b].parent == fs.nodes[a].parent
    requires x in fs.nodes && HasLine(fs, x) && Under(fs, a, x) && Under(fs, b, x)
    ensures a == b
  {
    var line := Lineage(fs, x);
    var i, j := IndexIn(line, a), IndexIn(line, b);
    assert i > 0 ==> fs.nodes[line[i]].parent == Some(line[i - 1]);
    assert j > 0 ==> fs.nodes[line[j]].parent == Some(line[j - 1]);
    LineDistinct(fs, line, x, i - 1, j - 1);
  }

  /** Freeing earlier children leaves everything under a later one alone. */
  lemma KidUntouched(fs: Fs, node: Id, i: nat, x: Id)
    requires Forest(fs) && node in fs.nodes && i < |fs.nodes[node].kids| && x in Subtree(fs, fs.nodes[node].kids[i])
    ensures x in Subtree(fs, node) && x !in FreedKids(fs, fs.nodes[node].kids, i)
  {
    assert Sound(fs, x) && Sound(fs, node);
    KidsNoRepeat(fs, node);
    var kids := fs.nodes[node].kids;
    UnderKid(fs, node, kids[i], x);
    FreedKidsAre(fs, kids, i, x);
    forall j | 0 <= j < i ensures x !in Subtree(fs, kids[j]) {
      if x in Subtree(fs, kids[j]) { SiblingsApart(fs, kids[j], kids[i], x); }
    }
  }

  lemma KidStillThere(was: map<Id, Vnode>, vs: map<Id, Vnode>, fs: Fs, node: Id, i: nat)
    requires Forest(fs) && node in fs.nodes && Intact(was, fs, node) && i < |fs.nodes[node].kids|
    requires vs == was - FreedKids(fs, fs.nodes[node].kids, i)
    ensures forall x | x in Subtree(fs, fs.nodes[node].kids[i]) :: x in was && x in vs && vs[x] == was[x]
  {
    forall x | x in Subtree(fs, fs.nodes[node].kids[i]) ensures x in was && x in vs && vs[x] == was[x] {
      KidUntouched(fs, node, i, x);
      assert Stores(was, fs, x);
    }
  }

  lemma KidIntact(was: map<Id, Vnode>, vs: map<Id, Vnode>, fs: Fs, node: Id, i: nat)
    requires Forest(fs) && node in fs.nodes && Intact(was, fs, node) && i < |fs.nodes[node].kids|
    requires forall x | x in Subtree(fs, fs.nodes[node].kids[i]) :: x in was && x in vs && vs[x] == was[x]
    ensures Intact(vs, fs, fs.nodes[node].kids[i])
  {
    var kid := fs.nodes[node].kids[i];
    forall x | x in Subtree(fs, kid) ensures Stores(vs, fs, x) {
      KidUntouched(fs, node, i, x);
      assert Stores(was, fs, x) && Sound(fs, x);
      forall k | k in fs.nodes[x].kids ensures k in Subtree(fs, kid) { UnderParent(fs, kid, k); }
      SpellsKept(was, vs, was[x].children, fs.nodes[x].kids);
    }
  }

  /** How many nodes are not on the way to `id`. */
  ghost function Left(fs: Fs, id: Id): nat
    requires Forest(fs) && id in fs.nodes
  {
    |fs.nodes.Keys - set n | n in LineOf(fs, id)|
  }

  lemma ShorterBelow(fs: Fs, node: Id, kid: Id)
    requires Forest(fs) && node in fs.nodes && kid in fs.nodes && fs.nodes[kid].parent == Some(node)
    ensures Left(fs, kid) < Left(fs, node)
  {
    LineageOfParent(fs, kid);
    ChildIsNew(fs, kid);
    var below, above := LineOf(fs, kid), LineOf(fs, node);
    assert below == above + [kid];
    var left, more := fs.nodes.Keys - (set n | n in below), fs.nodes.Keys - (set n | n in above);
    assert kid in below && more == left + {kid};
  }

  lemma NextKid(was: map<Id, Vnode>, vs: map<Id, Vnode>, fs: Fs, node: Id, i: nat)
    requires Forest(fs) && node in fs.nodes && Intact(was, fs, node) && i < |fs.nodes[node].kids|
    requires Freed(was, vs, fs, fs.nodes[node].kids, i)
    ensures var kid := fs.nodes[node].kids[i];
            && kid in fs.nodes && kid in vs && kid in was && vs[kid].sibling == was[kid].sibling && Intact(vs, fs, kid)
            && Left(fs, kid) < Left(fs, node)
  {
    assert Sound(fs, node);
    var kid := fs.nodes[node].kids[i];
    assert vs == was - FreedKids(fs, fs.nodes[node].kids, i);
    KidStillThere(was, vs, fs, node, i);
    KidIntact(was, vs, fs, node, i);
    SubtreeHasTop(fs, kid);
    ShorterBelow(fs, node, kid);
  }

  lemma BelowSomeKid(fs: Fs, node: Id, x: Id) returns (j: nat)
    requires Forest(fs) && node in fs.nodes && x in Subtree(fs, node) && x != node
    ensures j < |fs.nodes[node].kids| && x in Subtree(fs, fs.nodes[node].kids[j])
  {
    assert Sound(fs, x);
    var line := Lineage(fs, x);
    var i := IndexIn(line, node);
    assert fs.nodes[line[i + 1]].parent == Some(line[i]);
    assert Sound(fs, line[i + 1]);
    j := IndexIn(fs.nodes[node].kids, line[i + 1]);
  }

  lemma SubtreeSplitAt(fs: Fs, node: Id, x: Id)
    requires Forest(fs) && node in fs.nodes
    ensures x in Subtree(fs, node) <==> x == node || x in FreedKids(fs, fs.nodes[node].kids, |fs.nodes[node].kids|)
  {
    assert Sound(fs, x) && Sound(fs, node);
    var kids := fs.nodes[node].kids;
    SubtreeHasTop(fs, node);
    FreedKidsAre(fs, kids, |kids|, x);
    if x in FreedKids(fs, kids, |kids|) {
      var j :| 0 <= j < |kids| && x in Subtree(fs, kids[j]);
      UnderKid(fs, node, kids[j], x);
    } else if x in Subtree(fs, node) && x != node {
      var j := BelowSomeKid(fs, node, x);
    }
  }

  /** A node's subtree is itself and its children's. */
  lemma SubtreeSplit(fs: Fs, node: Id)
    requires Forest(fs) && node in fs.nodes
    ensures Subtree(fs, node) == {node} + FreedKids(fs, fs.nodes[node].kids, |fs.nodes[node].kids|)
  {
    forall x
      ensures x in Subtree(fs, node) <==> x in {node} + FreedKids(fs, fs.nodes[node].kids, |fs.nodes[node].kids|)
    {
      SubtreeSplitAt(fs, node, x);
    }
  }

  function Backwards(names: seq<Str>): seq<Str> {
    seq(|names|, i requires 0 <= i < |names| => names[|names| - 1 - i])
  }

  lemma LineageFromRoot(fs: Fs, id: Id)
    requires Rooted(fs) && id in fs.nodes
    ensures HasLine(fs, id) && Lineage(fs, id)[0] == fs.root
  {
    assert Sound(fs, id);
  }

  /** The root is nowhere on a line but at its start. */
  lemma OnlyOnceOnLine(fs: Fs, line: seq<Id>, id: Id, k: nat)
    requires Line(fs, line, id) && k < |line| && line[0] == line[k]
    ensures k == 0
  {
    LineDistinct(fs, line, id, 0, k);
  }

  lemma {:induction false} JoinMore(names: seq<Str>, name: Str)
    ensures Join(names + [name]) == Join(names) + [SLASH] + name
  {
    if names == [] {
      assert [] + [name] == [name];
      assert [name][1..] == [];
    } else {
      assert (names + [name])[1..] == names[1..] + [name];
      JoinMore(names[1..], name);
    }
  }

  lemma JoinNext(names: seq<Str>, k: nat)
    requires k < |names|
    ensures Join(names[..k + 1]) == Join(names[..k]) + [SLASH] + names[k]
  {
    assert names[..k + 1] == names[..k] + [names[k]];
    JoinMore(names[..k], names[k]);
  }

  /** The pointers after an entry is unlinked. */
  ghost predicate Skipped(was: map<Id, Vnode>, vs: map<Id, Vnode>, kids: seq<Id>, parent: Id, child: Id, k: nat)
    requires k < |kids| && kids[k] == child && parent in was && child in was && parent != child
             && (k > 0 ==> kids[k - 1] in was)
  {
    var cut := was[child := was[child].(sibling := None, parent := None)];
    if k == 0 then vs == cut[parent := cut[parent].(children := was[child].sibling)]
    else vs == cut[kids[k - 1] := cut[kids[k - 1]].(sibling := was[child].sibling)]
  }

  lemma Unlinked(was: map<Id, Vnode>, fs: Fs, vs: map<Id, Vnode>, parent: Id, child: Id, k: nat)
    requires Forest(fs) && was.Keys == fs.nodes.Keys && (forall id :: Stores(was, fs, id))
    requires child in fs.nodes && parent in fs.nodes && parent != child && fs.nodes[child].parent == Some(parent)
    requires k < |fs.nodes[parent].kids| && fs.nodes[parent].kids[k] == child
    requires forall i | i in fs.nodes[parent].kids :: i in fs.nodes
    requires Skipped(was, vs, fs.nodes[parent].kids, parent, child, k)
    ensures forall id :: Stores(vs, Unlink(fs, parent, child), id)
  {
    var fs' := Unlink(fs, parent, child);
    var kids := fs.nodes[parent].kids;
    KidsNoRepeat(fs, parent);
    assert Sound(fs, parent);
    forall id ensures Stores(vs, fs', id) {
      assert Stores(was, fs, id) && Sound(fs, id);
      if id == parent {
        SpellsWithout(was, vs, was[parent].children, vs[parent].children, kids, k);
      } else if id in fs.nodes {
        forall n | n in fs.nodes[id].kids ensures n in vs && vs[n].sibling == was[n].sibling {
          assert fs.nodes[n].parent == Some(id);
        }
        SpellsKept(was, vs, was[id].children, fs.nodes[id].kids);
      }
    }
  }
}
