/** Paths: what path() prints is what resolve() finds, exactly when no name on the way is "." or "..". */
module FsPaths {
  import opened Wrappers
  import opened Names
  import opened FsModel
  import opened FsTree
  import opened FsOps

  predicate Special(name: Str) { name == DOT || name == DOTDOT }

  lemma ChildFound(fs: Fs, parent: Id, id: Id)
    requires Forest(fs) && id in fs.nodes && fs.nodes[id].parent == Some(parent)
    ensures parent in fs.nodes && fs.nodes[parent].kind == Dir && FindChild(fs, parent, fs.nodes[id].name) == Some(id)
  {
    assert Sound(fs, id);
    assert Sound(fs, parent);
    var kids := fs.nodes[parent].kids;
    var name := fs.nodes[id].name;
    var found := FindChild(fs, parent, name);
    var i := IndexIn(kids, id);
    if found.Some? {
      var j := IndexIn(kids, found.value);
      SameNameSameChild(fs, kids, i, j);
    }
  }

  lemma SameNameSameChild(fs: Fs, ids: seq<Id>, i: nat, j: nat)
    requires (forall k | k in ids :: k in fs.nodes) && NamesDiffer(fs, ids)
    requires i < |ids| && j < |ids| && fs.nodes[ids[i]].name == fs.nodes[ids[j]].name
    ensures i == j
  {
  }

  /** Following the names below line[k] leads to the end of the line. */
  lemma {:induction false} WalkDown(fs: Fs, line: seq<Id>, id: Id, k: nat)
    requires Forest(fs) && Line(fs, line, id) && k < |line|
    requires forall i | k < i < |line| :: !Special(fs.nodes[line[i]].name)
    ensures Walk(fs, line[k], NamesOf(fs, line[k + 1..])) == Some(id)
    decreases |line| - k
  {
    if k + 1 < |line| {
      var next := line[k + 1];
      assert fs.nodes[next].parent == Some(line[k]);
      assert Sound(fs, next);
      ChildFound(fs, line[k], next);
      WalkDown(fs, line, id, k + 1);
      var names := NamesOf(fs, line[k + 1..]);
      assert names[0] == fs.nodes[next].name && names[1..] == NamesOf(fs, line[k + 2..]);
    }
  }

  ghost function PlainCount(names: seq<Str>): nat {
    if names == [] then 0 else PlainCount(names[1..]) + if Special(names[0]) then 0 else 1
  }

  lemma {:induction false} PlainCountBound(names: seq<Str>)
    ensures PlainCount(names) <= |names|
    ensures (exists i | 0 <= i < |names| :: Special(names[i])) ==> PlainCount(names) < |names|
  {
    if names != [] {
      PlainCountBound(names[1..]);
      if exists i | 0 <= i < |names| :: Special(names[i]) {
        var i :| 0 <= i < |names| && Special(names[i]);
        if i > 0 { assert names[1..][i - 1] == names[i]; }
      }
    }
  }

  /** A component takes a walk at most one node further from the root, and "." and ".." none. */
  lemma StepDepth(fs: Fs, at: Id, name: Str)
    requires Forest(fs) && at in fs.nodes && StepTo(fs, at, name).Some?
    ensures HasLine(fs, at) && HasLine(fs, StepTo(fs, at, name).value)
    ensures |Lineage(fs, StepTo(fs, at, name).value)| <= |Lineage(fs, at)| + if Special(name) then 0 else 1
  {
    LineageOfParent(fs, at);
    LineageOfParent(fs, StepTo(fs, at, name).value);
  }

  lemma {:induction false} WalkDepth(fs: Fs, at: Id, names: seq<Str>)
    requires Forest(fs) && at in fs.nodes && Walk(fs, at, names).Some?
    requires forall n | n in names :: |n| < NAME_MAX
    ensures HasLine(fs, at) && HasLine(fs, Walk(fs, at, names).value)
    ensures |Lineage(fs, Walk(fs, at, names).value)| <= |Lineage(fs, at)| + PlainCount(names)
    decreases |names|
  {
    assert Sound(fs, at);
    if names != [] {
      assert names[0] in names;
      StepDepth(fs, at, names[0]);
      WalkDepth(fs, StepTo(fs, at, names[0]).value, names[1..]);
    }
  }

  lemma NamesOnLine(fs: Fs, id: Id)
    requires Rooted(fs) && id in fs.nodes
    ensures HasLine(fs, id) && Lineage(fs, id)[0] == fs.root
    ensures forall n | n in NamesOf(fs, Lineage(fs, id)[1..]) :: NameOk(n)
  {
    assert Sound(fs, id);
    var line := Lineage(fs, id);
    var below := line[1..];
    forall i | 0 <= i < |below| ensures NameOk(fs.nodes[below[i]].name) {
      assert fs.nodes[line[i + 1]].parent == Some(line[i]);
      assert Sound(fs, below[i]);
    }
  }

  /** A node's own path leads back to it if and only if no name on it is "." or "..". */
  lemma PathLeadsBackIff(fs: Fs, base: Id, id: Id)
    requires Rooted(fs) && base in fs.nodes && id in fs.nodes
    ensures HasLine(fs, id)
    ensures Resolve(fs, base, PathOf(fs, id)) == Some(id)
            <==> forall n | n in NamesOf(fs, Lineage(fs, id)[1..]) :: !Special(n)
  {
    NamesOnLine(fs, id);
    var line := Lineage(fs, id);
    var names := NamesOf(fs, line[1..]);
    if id == fs.root {
      LineageOfParent(fs, id);
      RootPath(fs, base);
    } else {
      LineageOfParent(fs, id);
      SplitJoin(names);
      WalkFrom(fs, base, names);
      if forall n | n in names :: !Special(n) {
        forall i | 0 < i < |line| ensures !Special(fs.nodes[line[i]].name) { assert names[i - 1] in names; }
        WalkDown(fs, line, id, 0);
      } else {
        PlainCountBound(names);
        if Walk(fs, fs.root, names).Some? {
          WalkDepth(fs, fs.root, names);
          LineageOfParent(fs, fs.root);
        }
      }
    }
  }

  lemma RootPath(fs: Fs, base: Id)
    requires Forest(fs) && base in fs.nodes
    ensures Resolve(fs, base, [SLASH]) == Some(fs.root)
  {
    assert Split([SLASH]) == [[], []] by { assert [SLASH][1..] == []; }
    var cs: seq<Str> := [[], []];
    assert Cut(cs[0]) == [] == Cut(cs[1..][0]);
    assert Walk(fs, fs.root, cs[1..][1..]) == Some(fs.root);
    assert Walk(fs, fs.root, cs[1..]) == Some(fs.root);
  }

  lemma WalkFrom(fs: Fs, base: Id, names: seq<Str>)
    requires Forest(fs) && base in fs.nodes && names != [] && forall n | n in names :: SLASH !in n
    ensures Resolve(fs, base, Join(names)) == Walk(fs, fs.root, names)
  {
    SplitJoin(names);
    var cs := [[]] + names;
    assert cs[1..] == names && Cut(cs[0]) == [];
  }
}
