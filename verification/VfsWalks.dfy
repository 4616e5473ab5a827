/** Walking: what "..", a longer path and a printed path lead to, by where nodes hang in the tree. */
module FsWalks {
  import opened Wrappers
  import opened Names
  import opened FsModel
  import opened FsTree
  import opened FsOps
  import opened FsPaths

  lemma {:induction false} WalkOn(fs: Fs, at: Id, a: seq<Str>, b: seq<Str>)
    requires Forest(fs) && at in fs.nodes
    ensures Walk(fs, at, a + b)
         == var m := Walk(fs, at, a); if m.None? then None else Walk(fs, m.value, b)
    decreases |a|
  {
    if a == [] {
      assert a + b == b;
    } else {
      assert (a + b)[0] == a[0] && (a + b)[1..] == a[1..] + b;
      var n := StepTo(fs, at, Cut(a[0]));
      if n.Some? { WalkOn(fs, n.value, a[1..], b); }
    }
  }

  lemma {:induction false} EmptiesDrop(fs: Fs, at: Id, q: Str)
    requires Forest(fs) && at in fs.nodes
    ensures Resolve(fs, at, TrimStart(q)) == Walk(fs, at, Split(q))
  {
    if q != [] && q[0] == SLASH {
      EmptiesDrop(fs, at, q[1..]);
      assert Split(q)[0] == [] && Split(q)[1..] == Split(q[1..]);
    }
  }

  /**
   * Following `p/q` is following `p`, then `q` from there without its leading slashes; after an empty `p`, from the
   * root.
   */
  lemma ResolveOn(fs: Fs, base: Id, p: Str, q: Str)
    requires Forest(fs) && base in fs.nodes
    ensures Resolve(fs, base, p + [SLASH] + q)
         == var m := if p == [] then Some(fs.root) else Resolve(fs, base, p);
            if m.None? then None else Resolve(fs, m.value, TrimStart(q))
  {
    var path := p + [SLASH] + q;
    var from := if path[0] == SLASH then fs.root else base;
    SplitAtSlash(p, q);
    WalkOn(fs, from, Split(p), Split(q));
    if p == [] {
      assert Split(p) == [[]] && Walk(fs, fs.root, [[]][1..]) == Some(fs.root);
      EmptiesDrop(fs, fs.root, q);
    } else {
      assert path[0] == p[0];
      var m := Resolve(fs, base, p);
      if m.Some? { EmptiesDrop(fs, m.value, q); }
    }
  }

  /** A single component, resolved. */
  lemma ResolveOne(fs: Fs, at: Id, name: Str)
    requires Forest(fs) && at in fs.nodes && SLASH !in name
    ensures Resolve(fs, at, name) == StepTo(fs, at, Cut(name))
  {
    SplitOne(name);
    var n := StepTo(fs, at, Cut(name));
    if n.Some? { assert Walk(fs, n.value, [name][1..]) == n; }
  }

  /**
   * "." is the node itself; ".." is the node whose lineage is one shorter, and the top of a tree where there is none.
   */
  lemma DotsLead(fs: Fs, n: Id)
    requires Forest(fs) && n in fs.nodes
    ensures Resolve(fs, n, DOT) == Some(n) && HasLine(fs, n)
    ensures Resolve(fs, n, DOTDOT).Some? && HasLine(fs, Resolve(fs, n, DOTDOT).value)
    ensures var line := Lineage(fs, n);
      Lineage(fs, Resolve(fs, n, DOTDOT).value) == if |line| == 1 then line else line[..|line| - 1]
  {
    ResolveOne(fs, n, DOT);
    ResolveOne(fs, n, DOTDOT);
    LineageOfParent(fs, n);
  }

  /** In one tree it is the root whose ".." is itself. */
  lemma OnlyRootIsItsOwnParent(fs: Fs, n: Id)
    requires Rooted(fs) && n in fs.nodes
    ensures Resolve(fs, n, DOTDOT) == Some(n) <==> n == fs.root
  {
    DotsLead(fs, n);
    LineageOfParent(fs, n);
    LineageOfParent(fs, fs.root);
  }

  /** A component that is a name, once cut to length. */
  predicate Ordinary(name: Str) { SLASH !in name && Cut(name) != [] && !Special(Cut(name)) }

  /** An ordinary name leads one node down, to the child of that name, if there is one. */
  lemma NameLeads(fs: Fs, at: Id, name: Str)
    requires Forest(fs) && at in fs.nodes && Ordinary(name)
    ensures var m := Resolve(fs, at, name);
      && (m.Some? ==> && HasLine(fs, m.value) && HasLine(fs, at) && Lineage(fs, m.value) == Lineage(fs, at) + [m.value]
                      && fs.nodes[m.value].name == Cut(name))
      && (m.None? ==> forall k | k in fs.nodes && fs.nodes[k].parent == Some(at) :: fs.nodes[k].name != Cut(name))
  {
    ResolveOne(fs, at, name);
    assert Sound(fs, at);
    var m := Resolve(fs, at, name);
    if m.Some? {
      LineageOfParent(fs, m.value);
    } else {
      forall k | k in fs.nodes && fs.nodes[k].parent == Some(at) ensures fs.nodes[k].name != Cut(name) {
        ChildFound(fs, at, k);
      }
    }
  }

  function Ups(n: nat): (r: seq<Str>)
    ensures |r| == n && forall s | s in r :: s == DOTDOT
  {
    seq(n, _ => DOTDOT)
  }

  /** Going down by ordinary names and up by as many ".." ends where it began. */
  lemma {:induction false} DownAndUp(fs: Fs, base: Id, names: seq<Str>)
    requires Forest(fs) && base in fs.nodes && forall n | n in names :: Ordinary(n)
    requires Walk(fs, base, names).Some?
    ensures Walk(fs, base, names + Ups(|names|)) == Some(base)
    decreases |names|
  {
    if names == [] {
      assert names + Ups(0) == [];
    } else {
      var k := |names| - 1;
      assert names == names[..k] + [names[k]] && names[k] in names;
      WalkOn(fs, base, names[..k], [names[k]]);
      DownAndUp(fs, base, names[..k]);
      var m := Walk(fs, base, names[..k]).value;
      StepAndBack(fs, m, names[k], Ups(k));
      assert names + Ups(k + 1) == names[..k] + ([names[k], DOTDOT] + Ups(k));
      WalkOn(fs, base, names[..k], [names[k], DOTDOT] + Ups(k));
      WalkOn(fs, base, names[..k], Ups(k));
    }
  }

  lemma StepAndBack(fs: Fs, at: Id, name: Str, rest: seq<Str>)
    requires Forest(fs) && at in fs.nodes && Ordinary(name) && Walk(fs, at, [name]).Some?
    ensures Walk(fs, at, [name, DOTDOT] + rest) == Walk(fs, at, rest)
  {
    var cs := [name, DOTDOT] + rest;
    assert cs[0] == name && cs[1..][0] == DOTDOT && cs[1..][1..] == rest;
    assert [name][0] == name && [name][1..] == [];
  }

  /** The components of a relative path. */
  predicate Components(names: seq<Str>) { names != [] && names[0] != [] && forall n | n in names :: SLASH !in n }

  lemma RelativeIs(fs: Fs, at: Id, names: seq<Str>)
    requires Forest(fs) && at in fs.nodes && Components(names)
    ensures Resolve(fs, at, Relative(names)) == Walk(fs, at, names)
    ensures Relative(names) != [] && TrimStart(Relative(names)) == Relative(names)
  {
    SplitRelative(names);
    NoLeadingSlash(names);
  }

  lemma PathThenPath(fs: Fs, base: Id, a: seq<Str>, b: seq<Str>)
    requires Forest(fs) && base in fs.nodes && Components(a) && Components(b) && Walk(fs, base, a).Some?
    ensures Resolve(fs, base, Relative(a)) == Walk(fs, base, a)
    ensures Resolve(fs, Walk(fs, base, a).value, Relative(b)) == Walk(fs, base, a + b)
    ensures Resolve(fs, base, Relative(a) + [SLASH] + Relative(b)) == Walk(fs, base, a + b)
  {
    RelativeIs(fs, base, a);
    RelativeIs(fs, Walk(fs, base, a).value, b);
    WalkOn(fs, base, a, b);
    ResolveOn(fs, base, Relative(a), Relative(b));
  }

  lemma OrdinaryComponents(names: seq<Str>)
    requires names != [] && forall n | n in names :: Ordinary(n)
    ensures Components(names) && Components(Ups(|names|))
  {
    assert names[0] in names;
  }

  /** The same of paths: from any base, `a/b/c` and then `../../..`. */
  lemma PathDownAndUp(fs: Fs, base: Id, names: seq<Str>)
    requires Forest(fs) && base in fs.nodes && names != [] && forall n | n in names :: Ordinary(n)
    requires Resolve(fs, base, Relative(names)).Some?
    ensures Resolve(fs, Resolve(fs, base, Relative(names)).value, Relative(Ups(|names|))) == Some(base)
    ensures Resolve(fs, base, Relative(names) + [SLASH] + Relative(Ups(|names|))) == Some(base)
  {
    OrdinaryComponents(names);
    RelativeIs(fs, base, names);
    PathThenPath(fs, base, names, Ups(|names|));
    DownAndUp(fs, base, names);
  }

  lemma NoLeadingSlash(names: seq<Str>)
    requires names != [] && SLASH !in names[0] && names[0] != []
    ensures Relative(names) != [] && Relative(names)[0] != SLASH && TrimStart(Relative(names)) == Relative(names)
  {
    assert Relative(names)[0] == names[0][0];
  }

  // A path and its leaf.

  lemma {:induction false} TrailingSlashes(fs: Fs, base: Id, path: Str)
    requires Forest(fs) && base in fs.nodes && TrimEnd(path) != []
    ensures Resolve(fs, base, TrimEnd(path)) == Resolve(fs, base, path)
  {
    if path[|path| - 1] == SLASH {
      var p := path[..|path| - 1];
      assert path == p + [SLASH] + [];
      TrailingSlashes(fs, base, p);
      ResolveOn(fs, base, p, []);
      var m := Resolve(fs, base, p);
      if m.Some? { ResolveOne(fs, m.value, []); }
    }
  }

  lemma LeafFrom(fs: Fs, base: Id, p: Str, i: nat)
    requires Forest(fs) && base in fs.nodes && i < |p| && p[i] == SLASH && SLASH !in p[i + 1..]
    ensures Resolve(fs, base, p)
         == var m := if i == 0 then Some(fs.root) else Resolve(fs, base, p[..i]);
            if m.None? then None else Resolve(fs, m.value, Cut(p[i + 1..]))
  {
    var leaf := p[i + 1..];
    assert p == p[..i] + [SLASH] + leaf;
    assert TrimStart(leaf) == leaf by { assert leaf != [] ==> leaf[0] in leaf; }
    ResolveOn(fs, base, p[..i], leaf);
    var m := if i == 0 then Some(fs.root) else Resolve(fs, base, p[..i]);
    if m.Some? { LeafIsCut(fs, m.value, leaf); }
  }

  lemma LeafIsCut(fs: Fs, at: Id, leaf: Str)
    requires Forest(fs) && at in fs.nodes && SLASH !in leaf
    ensures Resolve(fs, at, leaf) == Resolve(fs, at, Cut(leaf))
  {
    ResolveOne(fs, at, leaf);
    ResolveOne(fs, at, Cut(leaf));
  }

  /**
   * A path leads where its leaf leads from its parent; one without a parent leads nowhere, unless it is all slashes.
   */
  lemma LeafLeads(fs: Fs, base: Id, path: Str)
    requires Forest(fs) && base in fs.nodes
    ensures var pl := ParentAndLeaf(fs, base, path);
      if pl.Some? then Resolve(fs, base, path) == Resolve(fs, pl.value.0, pl.value.1)
      else Resolve(fs, base, path).None? || forall b | b in path :: b == SLASH
  {
    var p := TrimEnd(path);
    if p == [] {
      AllSlashes(path);
    } else {
      TrailingSlashes(fs, base, path);
      var slash := LastSlash(p);
      if slash.Some? { LeafFrom(fs, base, p, slash.value); } else { LeafIsCut(fs, base, p); }
    }
  }

  lemma {:induction false} AllSlashes(path: Str)
    requires TrimEnd(path) == []
    ensures forall b | b in path :: b == SLASH
  {
    if path != [] {
      AllSlashes(path[..|path| - 1]);
      assert path == path[..|path| - 1] + [path[|path| - 1]];
    }
  }

  function Slashes(k: nat): (s: Str)
    ensures |s| == k
  {
    seq(k, _ => SLASH)
  }

  lemma {:induction false} TrimsBack(p: Str, k: nat)
    requires p != [] && p[|p| - 1] != SLASH
    ensures TrimEnd(p + Slashes(k)) == p
  {
    var s := p + Slashes(k);
    if k == 0 {
      assert s == p;
    } else {
      TrimsBack(p, k - 1);
      assert s[..|s| - 1] == p + Slashes(k - 1);
    }
  }

  lemma {:induction false} LastSlashIs(p: Str, name: Str)
    requires SLASH !in name
    ensures LastSlash(p + [SLASH] + name) == Some(|p|)
  {
    var s := p + [SLASH] + name;
    if name != [] {
      LastSlashIs(p, name[..|name| - 1]);
      assert s[..|s| - 1] == p + [SLASH] + name[..|name| - 1];
    }
  }

  /** A path's last name is its leaf, whatever slashes follow, and what comes before it leads to the parent. */
  lemma LeafOf(fs: Fs, base: Id, p: Str, name: Str, k: nat)
    requires Forest(fs) && base in fs.nodes && name != [] && SLASH !in name
    ensures ParentAndLeaf(fs, base, name + Slashes(k)) == Some((base, Cut(name)))
    ensures ParentAndLeaf(fs, base, p + [SLASH] + name + Slashes(k))
         == var m := if p == [] then Some(fs.root) else Resolve(fs, base, p);
            if m.None? then None else Some((m.value, Cut(name)))
  {
    TrimsBack(name, k);
    var s := p + [SLASH] + name;
    TrimsBack(s, k);
    LastSlashIs(p, name);
    assert s[..|p|] == p && s[|p| + 1..] == name;
  }

  // Trees that grew.

  /** Every node of `fs` is in `fs'`, where and what it was. */
  ghost predicate Grown(fs: Fs, fs': Fs) {
    && Forest(fs) && Forest(fs') && fs'.root == fs.root
    && forall n | n in fs.nodes :: SamePlace(fs, fs', n)
  }

  ghost predicate SamePlace(fs: Fs, fs': Fs, n: Id)
    requires n in fs.nodes
  {
    && n in fs'.nodes && fs'.nodes[n].name == fs.nodes[n].name && fs'.nodes[n].kind == fs.nodes[n].kind
    && fs'.nodes[n].parent == fs.nodes[n].parent
  }

  lemma StepStays(fs: Fs, fs': Fs, at: Id, name: Str)
    requires Forest(fs) && Forest(fs') && at in fs.nodes && SamePlace(fs, fs', at)
    requires StepTo(fs, at, name).Some? && SamePlace(fs, fs', StepTo(fs, at, name).value)
    ensures StepTo(fs', at, name) == StepTo(fs, at, name)
  {
    assert Sound(fs, at);
    var n := StepTo(fs, at, name).value;
    if name != [] && !Special(name) { ChildFound(fs', at, n); }
  }

  lemma {:induction false} WalkStays(fs: Fs, fs': Fs, at: Id, cs: seq<Str>)
    requires Grown(fs, fs') && at in fs.nodes && Walk(fs, at, cs).Some?
    ensures at in fs'.nodes && Walk(fs', at, cs) == Walk(fs, at, cs)
    decreases |cs|
  {
    assert SamePlace(fs, fs', at);
    if cs != [] {
      var n := StepTo(fs, at, Cut(cs[0])).value;
      assert SamePlace(fs, fs', n);
      StepStays(fs, fs', at, Cut(cs[0]));
      WalkStays(fs, fs', n, cs[1..]);
    }
  }

  /** What led somewhere still leads there. */
  lemma ResolveStays(fs: Fs, fs': Fs, base: Id, path: Str)
    requires Grown(fs, fs') && base in fs.nodes && Resolve(fs, base, path).Some?
    ensures base in fs'.nodes && Resolve(fs', base, path) == Resolve(fs, base, path)
  {
    assert SamePlace(fs, fs', base);
    WalkStays(fs, fs', if path != [] && path[0] == SLASH then fs.root else base, Split(path));
  }

  lemma LeafStays(fs: Fs, fs': Fs, base: Id, path: Str)
    requires Grown(fs, fs') && base in fs.nodes && ParentAndLeaf(fs, base, path).Some?
    ensures base in fs'.nodes && ParentAndLeaf(fs', base, path) == ParentAndLeaf(fs, base, path)
  {
    assert SamePlace(fs, fs', base);
    var p := TrimEnd(path);
    var slash := LastSlash(p);
    if slash.Some? && slash.value > 0 { ResolveStays(fs, fs', base, p[..slash.value]); }
  }

  /** A new child under an ordinary name is found by any path to its parent and that name. */
  lemma NewLeafLeads(fs: Fs, fs': Fs, base: Id, path: Str, child: Id)
    requires Grown(fs, fs') && base in fs.nodes && ParentAndLeaf(fs, base, path).Some? && child in fs'.nodes
    requires var (d, leaf) := ParentAndLeaf(fs, base, path).value;
      fs'.nodes[child].parent == Some(d) && fs'.nodes[child].name == leaf != [] && !Special(leaf)
    ensures base in fs'.nodes && Resolve(fs', base, path) == Some(child)
  {
    var (d, leaf) := ParentAndLeaf(fs, base, path).value;
    LeafStays(fs, fs', base, path);
    LeafLeads(fs', base, path);
    ResolveOne(fs', d, leaf);
    ChildFound(fs', d, child);
  }
}
